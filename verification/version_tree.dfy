/** The version tree as the source runs it: one object whose layers are updated in place, each
    method against the forest function it computes. */
module VersionTrees {
  import opened Basics
  import opened Scalar
  import opened Bits
  import opened NodeIndices
  import opened ProveParams
  import opened VersionNode
  import opened Amt
  import opened Forest
  import F = Forest
  import opened ForestContent
  import opened ForestCommit

  /** Sorts the marks of a tree. */
  method SortMarks(marks: set<nat>) returns (r: seq<nat>)
    ensures r == Ascending(marks) && IsSorted(r) && forall i :: i in r <==> i in marks
  {
    var rest := marks;
    r := [];
    assert SortedSoFar(r, rest, marks);
    while rest != {}
      invariant SortedSoFar(r, rest, marks)
      decreases rest
    {
      LeastExists(rest);
      var m :| m in rest && forall i :: i in rest ==> m <= i;
      LeastFirst(r, rest, m, marks);
      r := r + [m];
      rest := rest - {m};
    }
    AscendingSorted(marks);
  }

  ghost predicate SortedSoFar(r: seq<nat>, rest: set<nat>, marks: set<nat>) {
    r + Ascending(rest) == Ascending(marks)
  }

  lemma LeastFirst(r: seq<nat>, rest: set<nat>, m: nat, marks: set<nat>)
    requires SortedSoFar(r, rest, marks) && m in rest && forall i :: i in rest ==> m <= i
    ensures SortedSoFar(r + [m], rest - {m}, marks)
  {
    assert m == Least(rest);
    assert r + [m] + Ascending(rest - {m}) == r + ([m] + Ascending(rest - {m}));
  }

  /** What the commit of one child leaves. */
  ghost function ChildCommitted(cfg: Config, p: Progress, name: Name, index: nat, epoch: nat): (r: Progress)
    requires ValidConfig(cfg) && Closed(cfg, p.forest) && name in p.forest.trees
    requires name + [index] in p.forest.trees && index < Pow2(cfg.pp.depths)
    ensures Closed(cfg, r.forest)
    ensures r.forest.layers == p.forest.layers && r.forest.trees.Keys == p.forest.trees.Keys
  {
    var (p1, dirty, commitment) := CommitTree(cfg, p, name + [index], epoch);
    if dirty then ChildPushed(cfg, p1, name, index, commitment, epoch) else p1
  }

  lemma ChildrenStep(cfg: Config, p: Progress, name: Name, indices: seq<nat>, k: nat, epoch: nat)
    requires ValidConfig(cfg) && Closed(cfg, p.forest) && name in p.forest.trees && k < |indices|
    requires ChildrenExist(cfg, p.forest, name, Elements(indices))
    ensures name + [indices[k]] in p.forest.trees && indices[k] < Pow2(cfg.pp.depths)
    ensures ChildrenExist(cfg, p.forest, name, Elements(indices[k..]))
    ensures ChildrenExist(cfg, p.forest, name, Elements(indices[k + 1..]))
    ensures CommitChildren(cfg, p, name, indices[k..], epoch)
         == CommitChildren(cfg, ChildCommitted(cfg, p, name, indices[k], epoch), name, indices[k + 1..], epoch)
  {
    assert indices[k] in Elements(indices);
    assert Elements(indices[k..]) <= Elements(indices) && Elements(indices[k + 1..]) <= Elements(indices);
    assert indices[k..][0] == indices[k] && indices[k..][1..] == indices[k + 1..];
  }

  class VersionTree {
    const cfg: Config
    var layers: nat
    var trees: map<Name, TreeInfo>

    ghost function Model(): Forest
      reads this
    {
      Forest(layers, trees)
    }

    constructor (cfg: Config)
      ensures this.cfg == cfg && Model() == NewForest(cfg)
    {
      this.cfg := cfg;
      layers := 1;
      trees := map[[] := TreeInfo(SetCommitment(NewTree(cfg.shard), 0), true, {})];
    }

    /** Creates the tree if needed and climbs to the first marked ancestor. */
    method GetTreeMut(name: Name)
      modifies this
      ensures Model() == Touch(cfg, old(Model()), name)
      ensures name in trees
    {
      ghost var target := Touch(cfg, Model(), name);
      if layers < |name| + 1 { layers := |name| + 1; }
      if name !in trees { trees := trees[name := NewInfo(cfg, name)]; }
      if !trees[name].marked {
        trees := trees[name := trees[name].(marked := true)];
        assert trees == old(trees)[name := InfoAt(cfg, old(Model()), name).(marked := true)];
        var level := |name|;
        var lastTree := name;
        var linked := false;
        while level > 0 && !linked
          invariant 0 <= level <= |name| && lastTree == name[..level] && lastTree in trees && name in trees
          invariant target == if linked then Model() else Climb(cfg, Model(), lastTree)
          decreases level, !linked
        {
          var ancestor, subIndex := name[..level - 1], name[level - 1];
          assert Parent(lastTree) == ancestor && Last(lastTree) == subIndex;
          var info := if ancestor in trees then trees[ancestor] else NewInfo(cfg, ancestor);
          trees := trees[lastTree := trees[lastTree].(tree := SetCommitment(trees[lastTree].tree, SubtreeRoot(info.tree, subIndex)))];
          trees := trees[ancestor := info.(marks := info.marks + {subIndex}, marked := true)];
          linked := info.marked;
          lastTree := ancestor;
          level := level - 1;
        }
      } else {
        assert trees == trees[name := trees[name].(marked := true)];
      }
    }

    /** Opens a slot at the first level with room; `None` stands for the panic. */
    method AllocateVacantSlot(key: Key) returns (r: Option<VerInfo>)
      requires ValidConfig(cfg) && Healthy(Model())
      modifies this
      ensures
        var spec := Allocate(cfg, old(Model()), key, 0);
        if spec.None? then r.None? else r == Some(spec.value.1) && Model() == spec.value.0
    {
      ghost var spec := Allocate(cfg, Model(), key, 0);
      var level := 0;
      while level < MAX_LEVEL
        invariant 0 <= level <= MAX_LEVEL && Healthy(Model())
        invariant Allocate(cfg, Model(), key, level) == spec
      {
        if !Fits(cfg.pp.depths, key, level) { return None; }
        var name, index := TreeAtLevel(cfg.pp.depths, key, level), IndexAtLevel(cfg.pp.depths, key, level);
        TouchHealthy(cfg, Model(), name);
        GetTreeMut(name);
        var tree := trees[name].tree;
        var node := DataAt(tree, index);
        if |node.keyVersions| < MAX_SLOTS {
          var slot := |node.keyVersions|;
          trees := trees[name := trees[name].(tree := OpenSlot(cfg, tree, index))];
          return Some(VerInfo(0, level, slot));
        }
        level := level + 1;
      }
      return None;
    }

    /** Raises a key's version, directly on the commitment or through the node's guard. */
    method IncKeyVer(key: Key, version: Option<VerInfo>) returns (r: Option<VerInfo>)
      requires ValidConfig(cfg) && Healthy(Model())
      modifies this
      ensures
        var spec := F.IncKeyVer(cfg, old(Model()), key, version);
        if spec.None? then r.None? else r == Some(spec.value.1) && Model() == spec.value.0
    {
      var info: VerInfo;
      match version {
        case None =>
          var slot := AllocateVacantSlot(key);
          if slot.None? { return None; }
          info := slot.value;
        case Some(known) => info := known;
      }
      r := RaiseKeyVer(key, info);
    }

    method RaiseKeyVer(key: Key, info: VerInfo) returns (r: Option<VerInfo>)
      requires ValidConfig(cfg) && Healthy(Model())
      modifies this
      ensures
        var spec := RaiseKey(cfg, old(Model()), key, info);
        if spec.None? then r.None? else r == Some(spec.value.1) && Model() == spec.value.0
    {
      if !Fits(cfg.pp.depths, key, info.level) { return None; }
      var name, index := TreeAtLevel(cfg.pp.depths, key, info.level), IndexAtLevel(cfg.pp.depths, key, info.level);
      TouchHealthy(cfg, Model(), name);
      GetTreeMut(name);
      var tree := RaiseIn(cfg, trees[name].tree, index, info.slot, InProofShard(cfg, key));
      if tree.None? { return None; }
      trees := trees[name := trees[name].(tree := tree.value)];
      if info.version >= MAX_VERSION_NUMBER { return None; }
      return Some(info.(version := info.version + 1));
    }

    /** Commits the marked children in order, then clears the marks; returns whether the tree
        changed, its commitment, and the updates with those of this subtree appended. */
    method CommitTree(name: Name, epoch: nat, startPos: nat, updates: seq<Leaf>, ghost before: seq<Leaf>)
      returns (updates': seq<Leaf>, dirty: bool, commitment: Point)
      requires ValidConfig(cfg) && Closed(cfg, Model()) && name in trees && |before| == startPos
      modifies this
      ensures
        var (p, d, c) := F.CommitTree(cfg, Progress(old(Model()), before + updates), name, epoch);
        Model() == p.forest && before + updates' == p.leaves && dirty == d && commitment == c
      decreases layers - |name|, 1
    {
      ghost var start := Progress(Model(), before + updates);
      assert ClosedAt(cfg, Model(), name);
      var indices := SortMarks(trees[name].marks);
      updates' := updates;
      ghost var layers0 := layers;
      var k := 0;
      while k < |indices|
        invariant 0 <= k <= |indices|
        invariant Closed(cfg, Model()) && layers == layers0 && trees.Keys == old(trees).Keys
        invariant ChildrenExist(cfg, Model(), name, Elements(indices))
        invariant ChildrenExist(cfg, Model(), name, Elements(indices[k..]))
        invariant CommitChildren(cfg, Progress(Model(), before + updates'), name, indices[k..], epoch)
               == CommitChildren(cfg, start, name, indices, epoch)
      {
        ChildrenStep(cfg, Progress(Model(), before + updates'), name, indices, k, epoch);
        updates' := CommitChild(name, indices[k], epoch, startPos, updates', before);
        k := k + 1;
      }
      assert indices[k..] == [];
      assert ClosedAt(cfg, Model(), name);
      var info := trees[name];
      dirty, commitment := info.tree.dirty, info.tree.commitment.value;
      trees := trees[name := TreeInfo(if name == [] then info.tree else info.tree.(dirty := false), false, {})];
    }

    /** Commits one child and, when it changed, writes it into its parent. */
    method CommitChild(name: Name, index: nat, epoch: nat, startPos: nat, updates: seq<Leaf>, ghost before: seq<Leaf>)
      returns (updates': seq<Leaf>)
      requires ValidConfig(cfg) && Closed(cfg, Model()) && name in trees && |before| == startPos
      requires name + [index] in trees && index < Pow2(cfg.pp.depths)
      modifies this
      ensures Progress(Model(), before + updates') == ChildCommitted(cfg, Progress(old(Model()), before + updates), name, index, epoch)
      decreases layers - |name|, 0
    {
      var child := name + [index];
      assert ClosedAt(cfg, Model(), child);
      var dirty, commitment;
      updates', dirty, commitment := CommitTree(child, epoch, startPos, updates, before);
      if dirty { updates' := PushChild(name, index, commitment, epoch, startPos, updates', before); }
    }

    /** Writes a changed child into its parent and appends its leaf. */
    method PushChild(name: Name, index: nat, commitment: Point, epoch: nat, startPos: nat, updates: seq<Leaf>, ghost before: seq<Leaf>)
      returns (updates': seq<Leaf>)
      requires ValidConfig(cfg) && Closed(cfg, Model()) && name in trees && |before| == startPos && index < Pow2(cfg.pp.depths)
      modifies this`trees
      ensures Progress(Model(), before + updates')
           == ChildPushed(cfg, Progress(old(Model()), before + updates), name, index, commitment, epoch)
    {
      assert ClosedAt(cfg, Model(), name);
      var tree := PushUp(cfg, trees[name].tree, index, commitment, EpochPosition(epoch, startPos + |updates|));
      trees := trees[name := trees[name].(tree := tree)];
      var leaf := TreeLeaf(name + [index], DataAt(tree, index).treeVersion, commitment);
      assert before + (updates + [leaf]) == (before + updates) + [leaf];
      updates' := updates + [leaf];
    }
  }

  /** Raises the version in a slot, directly on the commitment or through the node's guard. */
  method RaiseIn(cfg: Config, tree: Tree, index: nat, slot: nat, inShard: bool) returns (r: Option<Tree>)
    requires ValidConfig(cfg) && index < Pow2(cfg.pp.depths) && tree.commitment.Some? && WellFormedData(tree)
    ensures r == Raise(cfg, tree, index, slot, inShard)
  {
    if !inShard {
      var t := UpdateTree(cfg.pp, tree, index, SpanPow(slot + 1));
      return Some(t);
    }
    var kv := DataAt(tree, index).keyVersions;
    if slot >= |kv| { return None; }
    var t := WriteNode(cfg, tree, index, DataAt(tree, index).(keyVersions := kv[slot := kv[slot] + 1]));
    return Some(t);
  }

  /** A guarded write, with its byte packing and its loop over ancestors. */
  method WriteNode(cfg: Config, t: Tree, index: nat, node: Node) returns (t': Tree)
    requires Shaped(cfg.pp) && index < Pow2(cfg.pp.depths) && t.commitment.Some?
    requires WellFormedNode(node) && WellFormedNode(DataAt(t, index))
    ensures t' == WriteVersions(cfg.pp, t, index, node)
  {
    var oldFr := AsFrInt(DataAt(t, index));
    var newFr := AsFrInt(node);
    PackedBound(node);
    PackedBound(DataAt(t, index));
    t' := UpdateTree(cfg.pp, t.(data := t.data[index := node]), index, GuardDelta(oldFr, newFr));
  }
}
