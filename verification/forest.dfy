/** The forest of version trees: every key owns a slot in some tree, a tree hangs below a leaf
    of its parent, and a commit pushes the commitments of changed trees up to the root. */
module Forest {
  import opened Basics
  import opened Scalar
  import opened Bits
  import opened NodeIndices
  import opened ProveParams
  import opened VersionNode
  import opened Amt

  // ----- keys and names -----

  type Key = seq<Byte>
  type Name = seq<nat>

  const MAX_LEVEL: nat := 32

  /** The sixteen bytes from `start` on, padded with zeros. */
  function Window(key: Key, start: nat): (w: seq<Byte>)
    ensures |w| == 16
  {
    seq(16, i requires 0 <= i < 16 => if start + i < |key| then key[start + i] else 0)
  }

  /** The key is long enough for its digit at `level` to be sliced out. */
  predicate Fits(depths: nat, key: Key, level: nat) {
    (level * depths) / 8 <= |key|
  }

  predicate ValidDepths(depths: nat) {
    8 <= depths <= 128
  }

  /** The leading `depths` bits of sixteen bytes, or fewer when they start inside a byte. */
  function Digit(depths: nat, window: seq<Byte>, startBit: nat): (digit: nat)
    requires ValidDepths(depths) && |window| == 16 && startBit < 8
    ensures digit < Pow2(depths)
  {
    WindowBound(window);
    ShrBound(BeValue(window), 128, startBit + (128 - depths));
    Pow2Mono(depths - startBit, depths);
    Shr(BeValue(window), startBit + (128 - depths))
  }

  /** The digit of a key that selects the leaf at `level`. */
  function IndexAtLevel(depths: nat, key: Key, level: nat): (digit: nat)
    requires ValidDepths(depths)
    ensures digit < Pow2(depths)
  {
    var start := level * depths;
    var startByte, startBit := start / 8, start % 8;
    Digit(depths, Window(key, startByte), startBit)
  }

  lemma {:induction false} WindowBound(bytes: seq<Byte>)
    ensures BeValue(bytes) < Pow2(8 * |bytes|)
  {
    if bytes != [] {
      var n := 8 * (|bytes| - 1);
      WindowBound(bytes[..|bytes| - 1]);
      assert Pow2(n + 2) == 4 * Pow2(n);
      assert Pow2(n + 4) == 4 * Pow2(n + 2);
      assert Pow2(n + 6) == 4 * Pow2(n + 4);
      assert Pow2(n + 8) == 4 * Pow2(n + 6);
    }
  }

  lemma {:induction false} ShrBound(x: nat, n: nat, h: nat)
    requires x < Pow2(n) && h <= n
    ensures Shr(x, h) < Pow2(n - h)
  {
    if h > 0 { ShrBound(x / 2, n - 1, h - 1); }
  }

  /** The tree a key visits at `level` is named by the digits above. */
  function TreeAtLevel(depths: nat, key: Key, level: nat): (name: Name)
    requires ValidDepths(depths)
    ensures |name| == level
  {
    if level == 0 then [] else TreeAtLevel(depths, key, level - 1) + [IndexAtLevel(depths, key, level - 1)]
  }

  function Parent(name: Name): Name
    requires name != []
  {
    name[..|name| - 1]
  }

  function Last(name: Name): nat
    requires name != []
  {
    name[|name| - 1]
  }

  lemma ParentOfChild(name: Name, i: nat)
    ensures Parent(name + [i]) == name && Last(name + [i]) == i
  {
  }

  lemma ChildOfParent(name: Name)
    requires name != []
    ensures Parent(name) + [Last(name)] == name
  {
  }

  // ----- the forest -----

  datatype Config = Config(pp: AmtParams, shard: Option<NodeIndex>)

  ghost predicate ValidConfig(cfg: Config) {
    Shaped(cfg.pp) && ValidDepths(cfg.pp.depths)
  }

  datatype TreeInfo = TreeInfo(tree: Tree, marked: bool, marks: set<nat>)

  /** The layers of the source, as one map: a tree's layer is the length of its name. */
  datatype Forest = Forest(layers: nat, trees: map<Name, TreeInfo>)

  function ShardOf(cfg: Config, name: Name): Option<NodeIndex> {
    if cfg.shard.None? then None
    else if name == [] then cfg.shard
    else if NeedsMaintain(NodeIndex(cfg.pp.depths, name[0]), cfg.shard.value) then Some(ROOT)
    else None
  }

  function NewInfo(cfg: Config, name: Name): TreeInfo {
    TreeInfo(NewTree(ShardOf(cfg, name)), false, {})
  }

  function InfoAt(cfg: Config, f: Forest, name: Name): TreeInfo {
    if name in f.trees then f.trees[name] else NewInfo(cfg, name)
  }

  function NewForest(cfg: Config): Forest {
    Forest(1, map[[] := TreeInfo(SetCommitment(NewTree(cfg.shard), 0), true, {})])
  }

  /** Marks the ancestors of a tree that was just marked, up to one that was marked before, and
      gives each tree passed its commitment from its parent. */
  function Climb(cfg: Config, f: Forest, name: Name): Forest
    requires name in f.trees
    decreases |name|
  {
    if name == [] then f
    else
      var parent, index := Parent(name), Last(name);
      var info, up := f.trees[name], InfoAt(cfg, f, parent);
      var f' := f.(trees := f.trees[
        name := info.(tree := SetCommitment(info.tree, SubtreeRoot(up.tree, index)))][
        parent := up.(marks := up.marks + {index}, marked := true)]);
      if up.marked then f' else Climb(cfg, f', parent)
  }

  /** Mutable access to a tree: created if absent, and marked in its ancestors. */
  function Touch(cfg: Config, f: Forest, name: Name): Forest {
    var info := InfoAt(cfg, f, name);
    var f' := Forest(if f.layers < |name| + 1 then |name| + 1 else f.layers, f.trees[name := info.(marked := true)]);
    if info.marked then f' else Climb(cfg, f', name)
  }

  /** Structure between operations. */
  ghost predicate Structured(f: Forest) {
    && [] in f.trees
    && forall n {:trigger NodeStructured(f, n)} :: n in f.trees ==> NodeStructured(f, n)
  }

  ghost predicate NodeStructured(f: Forest, n: Name)
    requires n in f.trees
  {
    && |n| < f.layers
    && f.trees[n].tree.commitment.Some?
    && (n != [] && f.trees[n].tree.dirty ==> f.trees[n].marked)
    && (forall i :: i in f.trees[n].marks ==> n + [i] in f.trees)
    && (n != [] ==>
          && Parent(n) in f.trees
          && (f.trees[n].marked ==> f.trees[Parent(n)].marked && Last(n) in f.trees[Parent(n)].marks))
  }

  /** Structure with one tree whose own link to its parent is still to be made. */
  ghost predicate StructuredBut(f: Forest, name: Name) {
    && [] in f.trees
    && name in f.trees && f.trees[name].marked && |name| < f.layers
    && (name == [] ==> f.trees[name].tree.commitment.Some?)
    && (forall i :: i in f.trees[name].marks ==> name + [i] in f.trees)
    && forall n {:trigger NodeStructured(f, n)} :: n in f.trees && n != name ==> NodeStructured(f, n)
  }

  /** What access adds: no tree changes, and every new tree is fresh, below its parent's stored root. */
  ghost predicate Grown(cfg: Config, f: Forest, f': Forest, name: Name) {
    && f.layers <= f'.layers
    && (forall n :: n in f.trees ==> n in f'.trees && Same(f.trees[n].tree, f'.trees[n].tree))
    && (forall n :: n in f'.trees && n !in f.trees ==> n != [] && n <= name && FreshTree(cfg, f', n))
  }

  /** The same tree, but that a missing commitment may have been filled in. */
  ghost predicate Same(t: Tree, t': Tree) {
    t'.(commitment := t.commitment) == t && (t.commitment.Some? ==> t' == t)
  }

  ghost predicate FreshTree(cfg: Config, f: Forest, n: Name)
    requires n in f.trees && n != []
  {
    && Same(NewTree(ShardOf(cfg, n)), f.trees[n].tree)
    && Parent(n) in f.trees
    && f.trees[n].tree.commitment == Some(SubtreeRoot(f.trees[Parent(n)].tree, Last(n)))
  }

  /** What climbing from `name` leaves behind. */
  ghost predicate Climbed(cfg: Config, f: Forest, f': Forest, name: Name) {
    && Structured(f') && Grown(cfg, f, f', name) && f'.layers == f.layers
    && name in f.trees && name in f'.trees && f'.trees[name].marked
    && (name != [] && f.trees[name].tree.commitment.None? ==>
          Parent(name) in f'.trees
          && f'.trees[name].tree.commitment == Some(SubtreeRoot(f'.trees[Parent(name)].tree, Last(name))))
  }

  lemma {:induction false} ClimbKeeps(cfg: Config, f: Forest, name: Name)
    requires StructuredBut(f, name)
    ensures Climbed(cfg, f, Climb(cfg, f, name), name)
    decreases |name|
  {
    if name != [] {
      var parent, index := Parent(name), Last(name);
      var info, up := f.trees[name], InfoAt(cfg, f, parent);
      var f1 := f.(trees := f.trees[
        name := info.(tree := SetCommitment(info.tree, SubtreeRoot(up.tree, index)))][
        parent := up.(marks := up.marks + {index}, marked := true)]);
      ClimbStep(cfg, f, name, f1);
      if up.marked {
        ClimbEnds(cfg, f, name, f1);
      } else {
        ClimbKeeps(cfg, f1, parent);
        MarksStay(cfg, f1, parent, name);
        ClimbCompose(cfg, f, name, f1, Climb(cfg, f1, parent));
      }
    }
  }

  /** Climbing only ever sets marks. */
  lemma {:induction false} MarksStay(cfg: Config, f: Forest, name: Name, n: Name)
    requires name in f.trees && n in f.trees && f.trees[n].marked
    ensures n in Climb(cfg, f, name).trees && Climb(cfg, f, name).trees[n].marked
    decreases |name|
  {
    if name != [] {
      var parent, index := Parent(name), Last(name);
      var info, up := f.trees[name], InfoAt(cfg, f, parent);
      var f1 := f.(trees := f.trees[
        name := info.(tree := SetCommitment(info.tree, SubtreeRoot(up.tree, index)))][
        parent := up.(marks := up.marks + {index}, marked := true)]);
      if !up.marked { MarksStay(cfg, f1, parent, n); }
    }
  }

  ghost predicate Stepped(cfg: Config, f: Forest, name: Name, f1: Forest) {
    && name != [] && name in f.trees && f1.layers == f.layers
    && f1.trees.Keys == f.trees.Keys + {Parent(name)}
    && f1.trees[name].tree == SetCommitment(f.trees[name].tree, SubtreeRoot(InfoAt(cfg, f, Parent(name)).tree, Last(name)))
    && f1.trees[name].marks == f.trees[name].marks && f1.trees[name].marked == f.trees[name].marked
    && f1.trees[Parent(name)].tree == InfoAt(cfg, f, Parent(name)).tree
    && f1.trees[Parent(name)].marks == InfoAt(cfg, f, Parent(name)).marks + {Last(name)}
    && f1.trees[Parent(name)].marked
    && forall n :: n in f.trees && n != name && n != Parent(name) ==> f1.trees[n] == f.trees[n]
  }

  /** The trees that existed keep their content in a step. */
  lemma StepSame(cfg: Config, f: Forest, name: Name, f1: Forest, n: Name)
    requires Stepped(cfg, f, name, f1) && n in f.trees
    ensures n in f1.trees && Same(f.trees[n].tree, f1.trees[n].tree)
  {
  }

  lemma ClimbEnds(cfg: Config, f: Forest, name: Name, f1: Forest)
    requires Stepped(cfg, f, name, f1) && Structured(f1) && f.trees[name].marked && Parent(name) in f.trees
    ensures Climbed(cfg, f, f1, name)
  {
    forall n | n in f.trees ensures n in f1.trees && Same(f.trees[n].tree, f1.trees[n].tree) {
      StepSame(cfg, f, name, f1, n);
    }
  }

  lemma ClimbCompose(cfg: Config, f: Forest, name: Name, f1: Forest, f': Forest)
    requires Stepped(cfg, f, name, f1) && [] in f.trees
    requires Climbed(cfg, f1, f', Parent(name))
    requires f'.trees[name].marked
    ensures Climbed(cfg, f, f', name)
  {
    assert Grown(cfg, f, f', name) by { ClimbGrown(cfg, f, name, f1, f'); }
    assert Same(f1.trees[Parent(name)].tree, f'.trees[Parent(name)].tree);
    assert Same(f1.trees[name].tree, f'.trees[name].tree);
  }

  lemma ClimbGrown(cfg: Config, f: Forest, name: Name, f1: Forest, f': Forest)
    requires Stepped(cfg, f, name, f1) && [] in f.trees
    requires Climbed(cfg, f1, f', Parent(name))
    ensures Grown(cfg, f, f', name)
  {
    var parent := Parent(name);
    forall n | n in f.trees ensures n in f'.trees && Same(f.trees[n].tree, f'.trees[n].tree) {
      StepSame(cfg, f, name, f1, n);
      assert Same(f1.trees[n].tree, f'.trees[n].tree);
    }
    forall n | n in f'.trees && n !in f.trees ensures n != [] && n <= name && FreshTree(cfg, f', n) {
      if n in f1.trees {
        assert n == parent;
        assert Same(f1.trees[n].tree, f'.trees[n].tree);
        assert NodeStructured(f', n);
      }
    }
  }

  /** One step up: the child is linked, the parent is next. */
  lemma ClimbStep(cfg: Config, f: Forest, name: Name, f1: Forest)
    requires StructuredBut(f, name) && name != []
    requires Stepped(cfg, f, name, f1)
    ensures !InfoAt(cfg, f, Parent(name)).marked ==> StructuredBut(f1, Parent(name))
    ensures InfoAt(cfg, f, Parent(name)).marked ==> Structured(f1)
  {
    var parent, index := Parent(name), Last(name);
    var up := InfoAt(cfg, f, parent);
    ChildOfParent(name);
    forall n | n in f1.trees && n != parent ensures NodeStructured(f1, n) {
      if n != name { assert NodeStructured(f, n); }
    }
    if parent in f.trees {
      assert NodeStructured(f, parent);
    }
  }

  /** Access keeps the structure and marks the tree. */
  lemma TouchKeeps(cfg: Config, f: Forest, name: Name)
    requires Structured(f)
    ensures
      var f' := Touch(cfg, f, name);
      Structured(f') && Grown(cfg, f, f', name) && name in f'.trees && f'.trees[name].marked
  {
    var info := InfoAt(cfg, f, name);
    var f1 := Forest(if f.layers < |name| + 1 then |name| + 1 else f.layers, f.trees[name := info.(marked := true)]);
    forall n | n in f1.trees && n != name ensures NodeStructured(f1, n) {
      assert NodeStructured(f, n);
    }
    if name in f.trees { assert NodeStructured(f, name); }
    if info.marked {
      assert Grown(cfg, f, f1, name);
    } else {
      ClimbKeeps(cfg, f1, name);
      TouchCompose(cfg, f, name, f1, Climb(cfg, f1, name));
    }
  }

  lemma TouchCompose(cfg: Config, f: Forest, name: Name, f1: Forest, f': Forest)
    requires f.layers <= f1.layers && f1.trees == f.trees[name := InfoAt(cfg, f, name).(marked := true)]
    requires [] in f.trees && Climbed(cfg, f1, f', name)
    ensures Grown(cfg, f, f', name)
  {
    forall n | n in f.trees ensures n in f'.trees && Same(f.trees[n].tree, f'.trees[n].tree) {
      assert n in f1.trees && f1.trees[n].tree == f.trees[n].tree;
    }
    forall n | n in f'.trees && n !in f.trees ensures n != [] && n <= name && FreshTree(cfg, f', n) {
      if n in f1.trees {
        assert n == name;
        assert Same(f1.trees[n].tree, f'.trees[n].tree);
      }
    }
  }

  // ----- slots -----

  datatype VerInfo = VerInfo(version: nat, level: nat, slot: nat)

  function PutTree(f: Forest, name: Name, t: Tree): Forest
    requires name in f.trees
  {
    f.(trees := f.trees[name := f.trees[name].(tree := t)])
  }

  ghost predicate Healthy(f: Forest) {
    Structured(f) && forall n :: n in f.trees ==> WellFormedData(f.trees[n].tree)
  }

  lemma TouchHealthy(cfg: Config, f: Forest, name: Name)
    requires Healthy(f)
    ensures Healthy(Touch(cfg, f, name)) && name in Touch(cfg, f, name).trees
    ensures Touch(cfg, f, name).trees[name].tree.commitment.Some?
    ensures Touch(cfg, f, name).trees[name].marked
  {
    TouchKeeps(cfg, f, name);
    var f' := Touch(cfg, f, name);
    assert NodeStructured(f', name);
    forall n | n in f'.trees ensures WellFormedData(f'.trees[n].tree) {
      if n in f.trees { assert Same(f.trees[n].tree, f'.trees[n].tree); }
    }
  }

  /** Replacing the tree of a marked name keeps the forest healthy. */
  lemma PutHealthy(f: Forest, name: Name, t: Tree)
    requires Healthy(f) && name in f.trees && f.trees[name].marked && t.commitment.Some? && WellFormedData(t)
    ensures Healthy(PutTree(f, name, t))
  {
    var f' := PutTree(f, name, t);
    forall n | n in f'.trees ensures NodeStructured(f', n) { assert NodeStructured(f, n); }
  }

  /** The tree with one more slot, at version 0. */
  function OpenSlot(cfg: Config, tree: Tree, index: nat): (t: Tree)
    requires Shaped(cfg.pp) && index < Pow2(cfg.pp.depths) && tree.commitment.Some?
    requires WellFormedData(tree) && |DataAt(tree, index).keyVersions| < MAX_SLOTS
    ensures t.commitment.Some? && WellFormedData(t)
  {
    var node := DataAt(tree, index);
    WriteVersions(cfg.pp, tree, index, node.(keyVersions := node.keyVersions + [0]))
  }

  /** The first level at which the key's node has a vacant slot; `None` is the source's panic. */
  ghost function Allocate(cfg: Config, f: Forest, key: Key, level: nat): (r: Option<(Forest, VerInfo)>)
    requires ValidConfig(cfg) && Healthy(f)
    ensures r.Some? ==> Healthy(r.value.0)
    decreases MAX_LEVEL - level, |key|
  {
    if level >= MAX_LEVEL || !Fits(cfg.pp.depths, key, level) then None
    else
      var name, index := TreeAtLevel(cfg.pp.depths, key, level), IndexAtLevel(cfg.pp.depths, key, level);
      TouchHealthy(cfg, f, name);
      var f1 := Touch(cfg, f, name);
      var tree := f1.trees[name].tree;
      var node := DataAt(tree, index);
      if |node.keyVersions| < MAX_SLOTS then
        var t := OpenSlot(cfg, tree, index);
        PutHealthy(f1, name, t);
        Some((PutTree(f1, name, t), VerInfo(0, level, |node.keyVersions|)))
      else Allocate(cfg, f1, key, level + 1)
  }

  /** The allocation once the tree of a level was reached. */
  ghost function AllocateIn(cfg: Config, f: Forest, key: Key, level: nat): Option<(Forest, VerInfo)>
    requires ValidConfig(cfg) && Healthy(f) && Reached(cfg, f, key, level)
  {
    var name, index := TreeAtLevel(cfg.pp.depths, key, level), IndexAtLevel(cfg.pp.depths, key, level);
    var t := f.trees[name].tree;
    var kv := DataAt(t, index).keyVersions;
    if |kv| < MAX_SLOTS then Some((PutTree(f, name, OpenSlot(cfg, t, index)), VerInfo(0, level, |kv|)))
    else Allocate(cfg, f, key, level + 1)
  }

  ghost predicate Reached(cfg: Config, f: Forest, key: Key, level: nat)
    requires ValidConfig(cfg)
  {
    var name := TreeAtLevel(cfg.pp.depths, key, level);
    name in f.trees && f.trees[name].tree.commitment.Some?
  }

  /** One level of the search: the tree is reached, and has a vacant slot or passes the search on. */
  lemma AllocateStep(cfg: Config, f: Forest, key: Key, level: nat)
    requires ValidConfig(cfg) && Healthy(f) && level < MAX_LEVEL && Fits(cfg.pp.depths, key, level)
    ensures
      var f1 := Touch(cfg, f, TreeAtLevel(cfg.pp.depths, key, level));
      Healthy(f1) && Reached(cfg, f1, key, level) && Allocate(cfg, f, key, level) == AllocateIn(cfg, f1, key, level)
  {
    TouchHealthy(cfg, f, TreeAtLevel(cfg.pp.depths, key, level));
  }

  predicate InProofShard(cfg: Config, key: Key)
    requires ValidDepths(cfg.pp.depths)
  {
    cfg.shard.Some? && NeedsMaintain(NodeIndex(cfg.pp.depths, IndexAtLevel(cfg.pp.depths, key, 0)), cfg.shard.value)
  }

  /** The tree with the version in a slot raised by one; `None` if there is no such slot. */
  ghost function Raise(cfg: Config, tree: Tree, index: nat, slot: nat, inShard: bool): (r: Option<Tree>)
    requires ValidConfig(cfg) && index < Pow2(cfg.pp.depths) && tree.commitment.Some? && WellFormedData(tree)
    ensures r.Some? ==> r.value.commitment.Some? && WellFormedData(r.value)
  {
    var node := DataAt(tree, index);
    if !inShard then Some(Update(cfg.pp, tree, index, SpanPow(slot + 1)))
    else if slot >= |node.keyVersions| then None
    else
      var kv := node.keyVersions;
      Some(WriteVersions(cfg.pp, tree, index, node.(keyVersions := kv[slot := kv[slot] + 1])))
  }

  /** Raises the version in a slot the key already has. */
  ghost function RaiseKey(cfg: Config, f: Forest, key: Key, info: VerInfo): (r: Option<(Forest, VerInfo)>)
    requires ValidConfig(cfg) && Healthy(f)
    ensures r.Some? ==> Healthy(r.value.0)
  {
    if !Fits(cfg.pp.depths, key, info.level) then None
    else
      var name, index := TreeAtLevel(cfg.pp.depths, key, info.level), IndexAtLevel(cfg.pp.depths, key, info.level);
      TouchHealthy(cfg, f, name);
      var f1 := Touch(cfg, f, name);
      var t := Raise(cfg, f1.trees[name].tree, index, info.slot, InProofShard(cfg, key));
      if t.None? || info.version >= MAX_VERSION_NUMBER then None
      else
        PutHealthy(f1, name, t.value);
        Some((PutTree(f1, name, t.value), info.(version := info.version + 1)))
  }

  ghost function IncKeyVer(cfg: Config, f: Forest, key: Key, version: Option<VerInfo>): (r: Option<(Forest, VerInfo)>)
    requires ValidConfig(cfg) && Healthy(f)
    ensures r.Some? ==> Healthy(r.value.0)
  {
    var start := if version.None? then Allocate(cfg, f, key, 0) else Some((f, version.value));
    if start.None? then None else RaiseKey(cfg, start.value.0, key, start.value.1)
  }

  // ----- commit -----

  datatype Leaf =
    | KeyLeaf(key: Key, info: VerInfo, value: seq<Byte>)
    | TreeLeaf(name: Name, version: nat, commitment: Point)

  ghost predicate IsSorted(s: seq<nat>) {
    forall i, j :: 0 <= i < j < |s| ==> s[i] < s[j]
  }

  /** The elements in ascending order, each once. */
  ghost function Ascending(s: set<nat>): (r: seq<nat>)
    ensures forall i :: i in r <==> i in s
  {
    if s == {} then []
    else
      var m := Least(s);
      [m] + Ascending(s - {m})
  }

  ghost function Least(s: set<nat>): (m: nat)
    requires s != {}
    ensures m in s && forall i :: i in s ==> m <= i
  {
    LeastExists(s);
    var m :| m in s && forall i :: i in s ==> m <= i;
    m
  }

  lemma {:induction false} LeastExists(s: set<nat>)
    requires s != {}
    ensures exists m :: m in s && forall i :: i in s ==> m <= i
  {
    var x :| x in s;
    var rest := s - {x};
    if rest == {} {
      assert s == {x};
    } else {
      LeastExists(rest);
      var m :| m in rest && forall i :: i in rest ==> m <= i;
      var least := if m <= x then m else x;
      assert least in s && forall i :: i in s ==> least <= i by {
        forall i | i in s ensures least <= i { assert i == x || i in rest; }
      }
    }
  }

  /** What commit needs of the forest; weaker than the structure between operations. */
  ghost predicate Closed(cfg: Config, f: Forest) {
    forall n {:trigger ClosedAt(cfg, f, n)} :: n in f.trees ==> ClosedAt(cfg, f, n)
  }

  ghost predicate ClosedAt(cfg: Config, f: Forest, n: Name)
    requires n in f.trees
  {
    && |n| < f.layers
    && f.trees[n].tree.commitment.Some? && WellFormedData(f.trees[n].tree)
    && ChildrenExist(cfg, f, n, f.trees[n].marks)
  }

  ghost function Elements(s: seq<nat>): set<nat> {
    set i | i in s
  }

  ghost predicate ChildrenExist(cfg: Config, f: Forest, n: Name, indices: set<nat>) {
    forall i :: i in indices ==> n + [i] in f.trees && i < Pow2(cfg.pp.depths)
  }

  /** Replacing one tree and its marks by closed ones keeps the forest closed. */
  lemma PutClosed(cfg: Config, f: Forest, name: Name, info: TreeInfo)
    requires Closed(cfg, f) && name in f.trees
    requires info.tree.commitment.Some? && WellFormedData(info.tree) && info.marks <= f.trees[name].marks
    ensures Closed(cfg, f.(trees := f.trees[name := info]))
  {
    var f' := f.(trees := f.trees[name := info]);
    forall n | n in f'.trees ensures ClosedAt(cfg, f', n) { assert ClosedAt(cfg, f, n); }
  }

  datatype Progress = Progress(forest: Forest, leaves: seq<Leaf>)

  /** The parent's node after a changed child: new root, next version, position of the new leaf. */
  function PushUp(cfg: Config, tree: Tree, index: nat, commitment: Point, pos: EpochPosition): (t: Tree)
    requires Shaped(cfg.pp) && index < Pow2(cfg.pp.depths) && tree.commitment.Some?
    requires WellFormedNode(DataAt(tree, index))
    ensures t.commitment.Some? && t.data.Keys == tree.data.Keys + {index}
    ensures forall i :: i in t.data && i != index ==> t.data[i] == tree.data[i]
    ensures |t.data[index].keyVersions| == |DataAt(tree, index).keyVersions|
  {
    var node := DataAt(tree, index);
    WriteVersions(cfg.pp, tree.(subtreeRoots := tree.subtreeRoots[index := commitment]), index,
                  node.(treeVersion := node.treeVersion + 1, treePosition := pos))
  }

  ghost function CommitTree(cfg: Config, p: Progress, name: Name, epoch: nat): (r: (Progress, bool, Point))
    requires ValidConfig(cfg) && Closed(cfg, p.forest) && name in p.forest.trees
    ensures Closed(cfg, r.0.forest)
    ensures r.0.forest.layers == p.forest.layers && r.0.forest.trees.Keys == p.forest.trees.Keys
    decreases p.forest.layers - |name|, |p.forest.trees[name].marks| + 1
  {
    var marks := p.forest.trees[name].marks;
    AscendingLength(marks);
    assert ClosedAt(cfg, p.forest, name);
    var p1 := CommitChildren(cfg, p, name, Ascending(marks), epoch);
    var info := p1.forest.trees[name];
    var tree := if name == [] then info.tree else info.tree.(dirty := false);
    assert ClosedAt(cfg, p1.forest, name);
    PutClosed(cfg, p1.forest, name, TreeInfo(tree, false, {}));
    var f' := p1.forest.(trees := p1.forest.trees[name := TreeInfo(tree, false, {})]);
    (Progress(f', p1.leaves), info.tree.dirty, info.tree.commitment.value)
  }

  ghost function CommitChildren(cfg: Config, p: Progress, name: Name, indices: seq<nat>, epoch: nat): (r: Progress)
    requires ValidConfig(cfg) && Closed(cfg, p.forest) && name in p.forest.trees
    requires ChildrenExist(cfg, p.forest, name, Elements(indices))
    ensures Closed(cfg, r.forest)
    ensures r.forest.layers == p.forest.layers && r.forest.trees.Keys == p.forest.trees.Keys
    decreases p.forest.layers - |name|, |indices|
  {
    if indices == [] then p
    else
      var child := name + [indices[0]];
      assert indices[0] in Elements(indices);
      assert ClosedAt(cfg, p.forest, child);
      var (p1, dirty, commitment) := CommitTree(cfg, p, child, epoch);
      var p2 := if dirty then ChildPushed(cfg, p1, name, indices[0], commitment, epoch) else p1;
      assert ChildrenExist(cfg, p2.forest, name, Elements(indices[1..])) by {
        assert Elements(indices[1..]) <= Elements(indices);
      }
      CommitChildren(cfg, p2, name, indices[1..], epoch)
  }

  /** Writes a changed child into its parent and records its leaf. */
  ghost function ChildPushed(cfg: Config, p: Progress, name: Name, index: nat, commitment: Point, epoch: nat): (r: Progress)
    requires ValidConfig(cfg) && Closed(cfg, p.forest) && name in p.forest.trees && index < Pow2(cfg.pp.depths)
    ensures Closed(cfg, r.forest)
    ensures r.forest.layers == p.forest.layers && r.forest.trees.Keys == p.forest.trees.Keys
  {
    assert ClosedAt(cfg, p.forest, name);
    var t := PushUp(cfg, p.forest.trees[name].tree, index, commitment, EpochPosition(epoch, |p.leaves|));
    PutClosed(cfg, p.forest, name, p.forest.trees[name].(tree := t));
    Progress(PutTree(p.forest, name, t),
             p.leaves + [TreeLeaf(name + [index], DataAt(t, index).treeVersion, commitment)])
  }

  lemma {:induction false} AscendingSorted(s: set<nat>)
    ensures IsSorted(Ascending(s))
  {
    if s != {} {
      var m := Least(s);
      var rest := Ascending(s - {m});
      AscendingSorted(s - {m});
      forall i | 0 <= i < |rest| ensures m < rest[i] { assert rest[i] in rest; }
    }
  }

  lemma {:induction false} AscendingLength(s: set<nat>)
    ensures |Ascending(s)| == |s|
  {
    if s != {} { AscendingLength(s - {Least(s)}); }
  }
}
