/** What the forest holds, against the ledger of the leaves of all epochs: trees agree with
    their data, parents with their children, and recorded positions with the ledger. */
module ForestContent {
  import opened Basics
  import opened Scalar
  import opened Bits
  import opened NodeIndices
  import opened ProveParams
  import opened VersionNode
  import opened Amt
  import opened Forest

  /** The leaves of the epochs committed so far. */
  type Ledger = seq<seq<Leaf>>

  /** The leaf stands at the position, in a past epoch or in the current one's list. */
  ghost predicate Recorded(hist: Ledger, cur: seq<Leaf>, pos: EpochPosition, leaf: Leaf) {
    if pos.epoch < |hist| then pos.position < |hist[pos.epoch]| && hist[pos.epoch][pos.position] == leaf
    else pos.epoch == |hist| && pos.position < |cur| && cur[pos.position] == leaf
  }

  ghost function TreeVersion(f: Forest, n: Name, i: nat): nat
    requires n in f.trees
  {
    DataAt(f.trees[n].tree, i).treeVersion
  }

  /** The tree has reached its parent, or will at the next commit. */
  ghost predicate Live(f: Forest, n: Name)
    requires n in f.trees
  {
    n == [] || f.trees[n].tree.dirty || (Parent(n) in f.trees && TreeVersion(f, Parent(n), Last(n)) > 0)
  }

  /** The parent's entry for a tree: its commitment, and the ledger's leaf for its latest version. */
  ghost predicate Linked(f: Forest, hist: Ledger, cur: seq<Leaf>, n: Name)
    requires n in f.trees && n != [] && Parent(n) in f.trees && f.trees[n].tree.commitment.Some?
  {
    var up, comm := f.trees[Parent(n)].tree, f.trees[n].tree.commitment.value;
    var node := DataAt(up, Last(n));
    && SubtreeRoot(up, Last(n)) == comm
    && (node.treeVersion > 0 ==> Recorded(hist, cur, node.treePosition, TreeLeaf(n, node.treeVersion, comm)))
  }

  ghost predicate Vacant(t: Tree, i: nat) {
    DataAt(t, i).treeVersion == 0 && SubtreeRoot(t, i) == 0
  }

  ghost predicate NodeContent(cfg: Config, f: Forest, hist: Ledger, cur: seq<Leaf>, ex: Option<Name>, n: Name)
    requires n in f.trees && Shaped(cfg.pp)
  {
    var t := f.trees[n].tree;
    && t.commitment.Some? && Consistent(cfg.pp, t) && t.shard == Some(ROOT)
    && (forall i: nat :: n + [i] !in f.trees ==> Vacant(t, i))
    && (forall i: nat :: DataAt(t, i).treeVersion > 0 ==> ex == Some(n) || Live(f, n))
    && (n != [] ==> Parent(n) in f.trees && (!t.dirty && ex != Some(n) ==> Linked(f, hist, cur, n)))
  }

  /** The content of the forest; `ex` is a tree just flushed whose parent is not yet told. */
  ghost predicate Content(cfg: Config, f: Forest, hist: Ledger, cur: seq<Leaf>, ex: Option<Name>)
    requires Shaped(cfg.pp)
  {
    forall n {:trigger NodeContent(cfg, f, hist, cur, ex, n)} :: n in f.trees ==> NodeContent(cfg, f, hist, cur, ex, n)
  }

  ghost predicate RootShard(cfg: Config) {
    ValidConfig(cfg) && cfg.shard == Some(ROOT)
  }

  ghost predicate ValidName(cfg: Config, name: Name) {
    forall i :: 0 <= i < |name| ==> name[i] < Pow2(cfg.pp.depths)
  }

  // ----- access -----

  lemma FreshConsistent(cfg: Config, t: Tree)
    requires Shaped(cfg.pp) && t == SetCommitment(NewTree(Some(ROOT)), 0)
    ensures Consistent(cfg.pp, t)
  {
    var vals := Scalars(t, Pow2(cfg.pp.depths));
    assert PackVersions([]) == 0;
    assert ([0] + [])[1..] == [];
    forall i | 0 <= i < |vals| ensures vals[i] == 0 {
      assert DEFAULT_NODE.keyVersions == [];
      assert [DEFAULT_NODE.treeVersion] + DEFAULT_NODE.keyVersions == [0];
    }
    FreshRepresents(cfg.pp, Some(ROOT), vals);
  }

  lemma ShardOfRoot(cfg: Config, n: Name)
    requires RootShard(cfg) && ValidName(cfg, n)
    ensures ShardOf(cfg, n) == Some(ROOT)
  {
    if n != [] { RootShardMaintains(NodeIndex(cfg.pp.depths, n[0])); }
  }

  lemma NewForestContent(cfg: Config)
    requires RootShard(cfg)
    ensures Structured(NewForest(cfg)) && Healthy(NewForest(cfg)) && Content(cfg, NewForest(cfg), [], [], None)
  {
    var f := NewForest(cfg);
    FreshConsistent(cfg, f.trees[[]].tree);
    assert NodeStructured(f, []);
  }

  /** A tree that access created is empty and below a vacant entry. */
  lemma CreatedTree(cfg: Config, f: Forest, f': Forest, hist: Ledger, cur: seq<Leaf>, name: Name, n: Name)
    requires RootShard(cfg) && ValidName(cfg, name) && Content(cfg, f, hist, cur, None)
    requires Grown(cfg, f, f', name) && n in f'.trees && n !in f.trees
    requires forall m :: m in f.trees ==> f.trees[m].tree.commitment.Some?
    ensures n != [] && Parent(n) in f'.trees && Vacant(f'.trees[Parent(n)].tree, Last(n))
    ensures f'.trees[n].tree == SetCommitment(NewTree(Some(ROOT)), 0)
  {
    assert FreshTree(cfg, f', n);
    ShardOfRoot(cfg, n);
    var p := Parent(n);
    ChildOfParent(n);
    if p in f.trees {
      assert NodeContent(cfg, f, hist, cur, None, p);
      assert Same(f.trees[p].tree, f'.trees[p].tree);
    } else {
      assert FreshTree(cfg, f', p);
    }
  }

  lemma TouchContent(cfg: Config, f: Forest, hist: Ledger, cur: seq<Leaf>, name: Name)
    requires RootShard(cfg) && ValidName(cfg, name) && Structured(f) && Content(cfg, f, hist, cur, None)
    ensures Content(cfg, Touch(cfg, f, name), hist, cur, None)
  {
    var f' := Touch(cfg, f, name);
    TouchKeeps(cfg, f, name);
    forall n | n in f.trees ensures f.trees[n].tree.commitment.Some? { assert NodeStructured(f, n); }
    forall n | n in f'.trees ensures NodeContent(cfg, f', hist, cur, None, n) {
      if n in f.trees {
        TouchedOld(cfg, f, f', hist, cur, name, n);
      } else {
        CreatedTree(cfg, f, f', hist, cur, name, n);
        TouchedNew(cfg, f', hist, cur, n);
      }
    }
  }

  lemma TouchedNew(cfg: Config, f: Forest, hist: Ledger, cur: seq<Leaf>, n: Name)
    requires Shaped(cfg.pp) && n in f.trees && n != [] && Parent(n) in f.trees
    requires Vacant(f.trees[Parent(n)].tree, Last(n)) && f.trees[n].tree == SetCommitment(NewTree(Some(ROOT)), 0)
    ensures NodeContent(cfg, f, hist, cur, None, n)
  {
    FreshConsistent(cfg, f.trees[n].tree);
  }

  lemma TouchedOld(cfg: Config, f: Forest, f': Forest, hist: Ledger, cur: seq<Leaf>, name: Name, n: Name)
    requires Shaped(cfg.pp) && Grown(cfg, f, f', name) && n in f.trees && NodeContent(cfg, f, hist, cur, None, n)
    requires forall m :: m in f.trees ==> f.trees[m].tree.commitment.Some?
    ensures NodeContent(cfg, f', hist, cur, None, n)
  {
    assert f'.trees[n].tree == f.trees[n].tree by { assert Same(f.trees[n].tree, f'.trees[n].tree); }
    if n != [] {
      var p := Parent(n);
      assert f'.trees[p].tree == f.trees[p].tree by { assert Same(f.trees[p].tree, f'.trees[p].tree); }
    }
  }

  // ----- writes to one tree -----

  /** A change of one tree that commit can see: the entries for subtrees stay, and unless the tree
      is dirty its commitment stays. */
  ghost predicate Rewritten(cfg: Config, t: Tree, t': Tree)
    requires Shaped(cfg.pp)
  {
    && t'.commitment.Some? && Consistent(cfg.pp, t') && t'.shard == t.shard && t'.subtreeRoots == t.subtreeRoots
    && (forall i: nat :: DataAt(t', i).treeVersion == DataAt(t, i).treeVersion
                      && DataAt(t', i).treePosition == DataAt(t, i).treePosition)
    && (t.dirty ==> t'.dirty) && (!t'.dirty ==> t'.commitment == t.commitment)
  }

  lemma PutContent(cfg: Config, f: Forest, hist: Ledger, cur: seq<Leaf>, name: Name, t: Tree)
    requires Shaped(cfg.pp) && Content(cfg, f, hist, cur, None) && name in f.trees
    requires Rewritten(cfg, f.trees[name].tree, t)
    ensures Content(cfg, PutTree(f, name, t), hist, cur, None)
  {
    var f' := PutTree(f, name, t);
    forall n | n in f'.trees ensures NodeContent(cfg, f', hist, cur, None, n) {
      assert NodeContent(cfg, f, hist, cur, None, n);
      PutNode(cfg, f, hist, cur, name, t, n);
    }
  }

  lemma PutNode(cfg: Config, f: Forest, hist: Ledger, cur: seq<Leaf>, name: Name, t: Tree, n: Name)
    requires Shaped(cfg.pp) && name in f.trees && n in f.trees
    requires NodeContent(cfg, f, hist, cur, None, n) && Rewritten(cfg, f.trees[name].tree, t)
    ensures NodeContent(cfg, PutTree(f, name, t), hist, cur, None, n)
  {
    var f' := PutTree(f, name, t);
    assert Live(f, n) ==> Live(f', n);
  }

  /** Monotone change: slots and subtree versions never go back, and live trees stay live. */
  ghost predicate Evolves(f: Forest, f': Forest, ex: Option<Name>) {
    forall n {:trigger n in f'.trees} {:trigger TreeEvolves(f, f', ex, n)} ::
      n in f.trees ==> n in f'.trees && TreeEvolves(f, f', ex, n)
  }

  ghost predicate TreeEvolves(f: Forest, f': Forest, ex: Option<Name>, n: Name)
    requires n in f.trees && n in f'.trees
  {
    && (forall i: nat :: |DataAt(f'.trees[n].tree, i).keyVersions| >= |DataAt(f.trees[n].tree, i).keyVersions|)
    && (forall i: nat :: TreeVersion(f', n, i) >= TreeVersion(f, n, i))
    && (Live(f, n) ==> Live(f', n) || ex == Some(n))
  }

  lemma EvolvesTransitive(f: Forest, f1: Forest, f2: Forest)
    requires Evolves(f, f1, None) && Evolves(f1, f2, None)
    ensures Evolves(f, f2, None)
  {
    forall n | n in f.trees ensures n in f2.trees && TreeEvolves(f, f2, None, n) {
      assert TreeEvolves(f, f1, None, n) && TreeEvolves(f1, f2, None, n);
      forall i: nat
        ensures |DataAt(f2.trees[n].tree, i).keyVersions| >= |DataAt(f.trees[n].tree, i).keyVersions|
        ensures TreeVersion(f2, n, i) >= TreeVersion(f, n, i)
      {
        assert TreeVersion(f1, n, i) >= TreeVersion(f, n, i);
      }
    }
  }

  lemma TouchEvolves(cfg: Config, f: Forest, name: Name)
    requires Structured(f)
    ensures Evolves(f, Touch(cfg, f, name), None)
  {
    TouchKeeps(cfg, f, name);
    var f' := Touch(cfg, f, name);
    forall n | n in f.trees ensures n in f'.trees && TreeEvolves(f, f', None, n) {
      assert NodeStructured(f, n);
      assert Same(f.trees[n].tree, f'.trees[n].tree);
      if n != [] {
        assert NodeStructured(f, Parent(n));
        assert Same(f.trees[Parent(n)].tree, f'.trees[Parent(n)].tree);
      }
    }
  }

  lemma PutEvolves(f: Forest, name: Name, t: Tree)
    requires name in f.trees && (f.trees[name].tree.dirty ==> t.dirty)
    requires forall i: nat :: |DataAt(t, i).keyVersions| >= |DataAt(f.trees[name].tree, i).keyVersions|
    requires forall i: nat :: DataAt(t, i).treeVersion >= DataAt(f.trees[name].tree, i).treeVersion
    ensures Evolves(f, PutTree(f, name, t), None)
  {
  }

  // ----- slots -----

  lemma WriteKeepsEntries(cfg: Config, t: Tree, index: nat, node: Node)
    requires Shaped(cfg.pp) && Consistent(cfg.pp, t) && t.commitment.Some? && index < Pow2(cfg.pp.depths)
    requires WellFormedNode(node)
    requires node.treeVersion == DataAt(t, index).treeVersion && node.treePosition == DataAt(t, index).treePosition
    requires Counts(Versions(DataAt(t, index)), Versions(node))
    ensures Rewritten(cfg, t, WriteVersions(cfg.pp, t, index, node))
    ensures WriteVersions(cfg.pp, t, index, node).data == t.data[index := node]
  {
    WriteVersionsConsistent(cfg.pp, t, index, node);
  }

  /** Opening a slot leaves the tree's commitment and state alone. */
  lemma OpenSlotEffect(cfg: Config, t: Tree, index: nat)
    requires Shaped(cfg.pp) && Consistent(cfg.pp, t) && t.commitment.Some? && index < Pow2(cfg.pp.depths)
    requires |DataAt(t, index).keyVersions| < MAX_SLOTS
    ensures
      var t', kv := OpenSlot(cfg, t, index), DataAt(t, index).keyVersions;
      && Rewritten(cfg, t, t')
      && t'.data == t.data[index := DataAt(t, index).(keyVersions := kv + [0])]
      && t'.commitment == t.commitment && t'.dirty == t.dirty && t'.inner == t.inner
  {
    var node := DataAt(t, index);
    WriteKeepsEntries(cfg, t, index, node.(keyVersions := node.keyVersions + [0]));
    PackAppendZero([node.treeVersion] + node.keyVersions);
    assert [node.treeVersion] + (node.keyVersions + [0]) == [node.treeVersion] + node.keyVersions + [0];
  }

  /** Counting a version up changes the scalar, so the write marks the tree dirty. */
  lemma CountedWrite(pp: AmtParams, t: Tree, index: nat, node: Node, k: nat)
    requires Shaped(pp) && Consistent(pp, t) && t.commitment.Some? && index < Pow2(pp.depths) && WellFormedNode(node)
    requires
      var vs := Versions(DataAt(t, index));
      k < |vs| && Versions(node) == vs[k := vs[k] + 1]
    ensures WellFormedNode(DataAt(t, index)) && Consistent(pp, WriteVersions(pp, t, index, node))
    ensures WriteVersions(pp, t, index, node).dirty
  {
    var was := DataAt(t, index);
    PackedBound(node);
    PackedBound(was);
    RaiseBorrows(was, node, k);
    assert Packed(was) != Packed(node);
    assert Counts(Versions(was), Versions(node));
    WriteVersionsConsistent(pp, t, index, node);
  }

  function RaisedNode(a: Node, slot: nat): Node
    requires slot < |a.keyVersions|
  {
    a.(keyVersions := a.keyVersions[slot := a.keyVersions[slot] + 1])
  }

  lemma RaisedVersionsOf(a: Node, slot: nat)
    requires slot < |a.keyVersions|
    ensures Versions(RaisedNode(a, slot)) == Versions(a)[slot + 1 := Versions(a)[slot + 1] + 1]
  {
  }

  /** Raising a version in a proof shard: one slot moves by one, and the tree is dirty. */
  lemma RaiseEffect(cfg: Config, t: Tree, index: nat, slot: nat)
    requires ValidConfig(cfg) && Consistent(cfg.pp, t) && t.commitment.Some? && index < Pow2(cfg.pp.depths)
    requires slot < |DataAt(t, index).keyVersions|
    ensures
      var r := Raise(cfg, t, index, slot, true);
      && r.Some? && Rewritten(cfg, t, r.value) && r.value.dirty
      && r.value.data == t.data[index := RaisedNode(DataAt(t, index), slot)]
  {
    var node := DataAt(t, index);
    RaisedVersionsOf(node, slot);
    CountedWrite(cfg.pp, t, index, RaisedNode(node, slot), slot + 1);
    WriteKeepsEntries(cfg, t, index, RaisedNode(node, slot));
  }

  ghost function SlotCount(f: Forest, n: Name, i: nat): nat
    requires n in f.trees
  {
    |DataAt(f.trees[n].tree, i).keyVersions|
  }

  lemma TreeNameValid(cfg: Config, key: Key, level: nat)
    requires ValidConfig(cfg)
    ensures ValidName(cfg, TreeAtLevel(cfg.pp.depths, key, level))
  {
  }

  /** Access to a key's tree, as the first step of an operation. */
  lemma TouchStep(cfg: Config, f: Forest, hist: Ledger, cur: seq<Leaf>, key: Key, level: nat)
    requires RootShard(cfg) && Healthy(f) && Content(cfg, f, hist, cur, None)
    ensures
      var name := TreeAtLevel(cfg.pp.depths, key, level);
      var f1 := Touch(cfg, f, name);
      Healthy(f1) && Content(cfg, f1, hist, cur, None) && Evolves(f, f1, None) && WellTree(cfg, f1, key, level)
  {
    var name := TreeAtLevel(cfg.pp.depths, key, level);
    TreeNameValid(cfg, key, level);
    TouchHealthy(cfg, f, name);
    TouchContent(cfg, f, hist, cur, name);
    TouchEvolves(cfg, f, name);
    assert NodeContent(cfg, Touch(cfg, f, name), hist, cur, None, name);
  }

  lemma OpenSlotStep(cfg: Config, f: Forest, hist: Ledger, cur: seq<Leaf>, name: Name, index: nat)
    requires Shaped(cfg.pp) && Content(cfg, f, hist, cur, None) && name in f.trees && index < Pow2(cfg.pp.depths)
    requires f.trees[name].tree.commitment.Some? && Consistent(cfg.pp, f.trees[name].tree)
    requires SlotCount(f, name, index) < MAX_SLOTS
    ensures
      var f' := PutTree(f, name, OpenSlot(cfg, f.trees[name].tree, index));
      && Content(cfg, f', hist, cur, None) && Evolves(f, f', None)
      && SlotCount(f', name, index) == SlotCount(f, name, index) + 1
  {
    OpenSlotEffect(cfg, f.trees[name].tree, index);
    var t := OpenSlot(cfg, f.trees[name].tree, index);
    PutContent(cfg, f, hist, cur, name, t);
    PutEvolves(f, name, t);
  }

  lemma RaiseStep(cfg: Config, f: Forest, hist: Ledger, cur: seq<Leaf>, name: Name, index: nat, slot: nat)
    requires ValidConfig(cfg) && Content(cfg, f, hist, cur, None) && name in f.trees && index < Pow2(cfg.pp.depths)
    requires f.trees[name].tree.commitment.Some? && Consistent(cfg.pp, f.trees[name].tree)
    requires slot < SlotCount(f, name, index)
    ensures
      var r := Raise(cfg, f.trees[name].tree, index, slot, true);
      && r.Some? && Content(cfg, PutTree(f, name, r.value), hist, cur, None)
      && Evolves(f, PutTree(f, name, r.value), None) && r.value.dirty
  {
    RaiseEffect(cfg, f.trees[name].tree, index, slot);
    var t := Raise(cfg, f.trees[name].tree, index, slot, true).value;
    PutContent(cfg, f, hist, cur, name, t);
    PutEvolves(f, name, t);
  }

  /** What allocation promises: the content is kept, and the slot it returns is open. */
  ghost predicate Allocated(cfg: Config, f: Forest, hist: Ledger, cur: seq<Leaf>, key: Key, r: Option<(Forest, VerInfo)>)
    requires ValidConfig(cfg)
  {
    r.Some? ==>
      && Content(cfg, r.value.0, hist, cur, None) && Evolves(f, r.value.0, None)
      && AllocatedSlot(cfg, r.value.0, key, r.value.1)
  }

  /** The node of this level has a vacant slot. */
  lemma AllocatedHere(cfg: Config, f: Forest, hist: Ledger, cur: seq<Leaf>, key: Key, level: nat)
    requires ValidConfig(cfg) && Content(cfg, f, hist, cur, None) && WellTree(cfg, f, key, level)
    requires level < MAX_LEVEL && Fits(cfg.pp.depths, key, level)
    requires SlotCount(f, TreeAtLevel(cfg.pp.depths, key, level), IndexAtLevel(cfg.pp.depths, key, level)) < MAX_SLOTS
    ensures
      var name, index := TreeAtLevel(cfg.pp.depths, key, level), IndexAtLevel(cfg.pp.depths, key, level);
      var f' := PutTree(f, name, OpenSlot(cfg, f.trees[name].tree, index));
      Allocated(cfg, f, hist, cur, key, Some((f', VerInfo(0, level, SlotCount(f, name, index)))))
  {
    OpenSlotStep(cfg, f, hist, cur, TreeAtLevel(cfg.pp.depths, key, level), IndexAtLevel(cfg.pp.depths, key, level));
  }

  /** The tree of this level, as access leaves it. */
  ghost predicate WellTree(cfg: Config, f: Forest, key: Key, level: nat)
    requires ValidConfig(cfg)
  {
    Reached(cfg, f, key, level) && Consistent(cfg.pp, f.trees[TreeAtLevel(cfg.pp.depths, key, level)].tree)
  }

  lemma AllocatedSince(cfg: Config, f: Forest, f1: Forest, hist: Ledger, cur: seq<Leaf>, key: Key, r: Option<(Forest, VerInfo)>)
    requires ValidConfig(cfg) && Evolves(f, f1, None) && Allocated(cfg, f1, hist, cur, key, r)
    ensures Allocated(cfg, f, hist, cur, key, r)
  {
    if r.Some? { EvolvesTransitive(f, f1, r.value.0); }
  }

  /** Allocation once the tree of a level was reached, given what it does from the next level on. */
  lemma AllocatedIn(cfg: Config, f: Forest, hist: Ledger, cur: seq<Leaf>, key: Key, level: nat)
    requires ValidConfig(cfg) && Healthy(f) && Content(cfg, f, hist, cur, None) && WellTree(cfg, f, key, level)
    requires level < MAX_LEVEL && Fits(cfg.pp.depths, key, level)
    requires Allocated(cfg, f, hist, cur, key, Allocate(cfg, f, key, level + 1))
    ensures Allocated(cfg, f, hist, cur, key, AllocateIn(cfg, f, key, level))
  {
    var name, index := TreeAtLevel(cfg.pp.depths, key, level), IndexAtLevel(cfg.pp.depths, key, level);
    if SlotCount(f, name, index) < MAX_SLOTS { AllocatedHere(cfg, f, hist, cur, key, level); }
  }

  /** One level of the search, leaving the rest of it to the next level. */
  lemma AllocateOnward(cfg: Config, f: Forest, hist: Ledger, cur: seq<Leaf>, key: Key, level: nat) returns (f1: Forest)
    requires RootShard(cfg) && Healthy(f) && Content(cfg, f, hist, cur, None)
    requires level < MAX_LEVEL && Fits(cfg.pp.depths, key, level)
    ensures Healthy(f1) && Content(cfg, f1, hist, cur, None)
    ensures Allocated(cfg, f1, hist, cur, key, Allocate(cfg, f1, key, level + 1))
        ==> Allocated(cfg, f, hist, cur, key, Allocate(cfg, f, key, level))
  {
    TouchStep(cfg, f, hist, cur, key, level);
    f1 := Touch(cfg, f, TreeAtLevel(cfg.pp.depths, key, level));
    if Allocated(cfg, f1, hist, cur, key, Allocate(cfg, f1, key, level + 1)) {
      AllocateVia(cfg, f, f1, hist, cur, key, level);
    }
  }

  lemma AllocateVia(cfg: Config, f: Forest, f1: Forest, hist: Ledger, cur: seq<Leaf>, key: Key, level: nat)
    requires ValidConfig(cfg) && Healthy(f) && Healthy(f1) && Content(cfg, f1, hist, cur, None) && WellTree(cfg, f1, key, level)
    requires level < MAX_LEVEL && Fits(cfg.pp.depths, key, level) && f1 == Touch(cfg, f, TreeAtLevel(cfg.pp.depths, key, level))
    requires Evolves(f, f1, None) && Allocated(cfg, f1, hist, cur, key, Allocate(cfg, f1, key, level + 1))
    ensures Allocated(cfg, f, hist, cur, key, Allocate(cfg, f, key, level))
  {
    AllocateStep(cfg, f, key, level);
    AllocatedIn(cfg, f1, hist, cur, key, level);
    AllocatedSince(cfg, f, f1, hist, cur, key, AllocateIn(cfg, f1, key, level));
  }

  /** Allocation opens the slot it returns, at a node of the key's own path. */
  lemma {:induction false} AllocateContent(cfg: Config, f: Forest, hist: Ledger, cur: seq<Leaf>, key: Key, level: nat)
    requires RootShard(cfg) && Healthy(f) && Content(cfg, f, hist, cur, None)
    ensures Allocated(cfg, f, hist, cur, key, Allocate(cfg, f, key, level))
    decreases MAX_LEVEL - level
  {
    if level < MAX_LEVEL && Fits(cfg.pp.depths, key, level) {
      var f1 := AllocateOnward(cfg, f, hist, cur, key, level);
      AllocateContent(cfg, f1, hist, cur, key, level + 1);
    } else {
      AllocateEnds(cfg, f, key, level);
    }
  }

  lemma AllocateEnds(cfg: Config, f: Forest, key: Key, level: nat)
    requires ValidConfig(cfg) && Healthy(f) && (level >= MAX_LEVEL || !Fits(cfg.pp.depths, key, level))
    ensures Allocate(cfg, f, key, level) == None
  {
  }

  ghost predicate AllocatedSlot(cfg: Config, f: Forest, key: Key, info: VerInfo)
    requires ValidConfig(cfg)
  {
    && info.version == 0 && HasSlot(cfg, f, key, info)
  }

  /** The slot exists at the key's node of its level. */
  ghost predicate HasSlot(cfg: Config, f: Forest, key: Key, info: VerInfo)
    requires ValidConfig(cfg)
  {
    var name := TreeAtLevel(cfg.pp.depths, key, info.level);
    && info.level < MAX_LEVEL && Fits(cfg.pp.depths, key, info.level)
    && name in f.trees && info.slot < SlotCount(f, name, IndexAtLevel(cfg.pp.depths, key, info.level))
  }

  lemma HasSlotEvolves(cfg: Config, f: Forest, f': Forest, key: Key, info: VerInfo)
    requires ValidConfig(cfg) && HasSlot(cfg, f, key, info) && Evolves(f, f', None)
    ensures HasSlot(cfg, f', key, info)
  {
    var name := TreeAtLevel(cfg.pp.depths, key, info.level);
    assert TreeEvolves(f, f', None, name);
  }

  /** With the root shard every key is maintained for proofs. */
  lemma RootShardMaintainsKeys(cfg: Config, key: Key)
    requires RootShard(cfg)
    ensures InProofShard(cfg, key)
  {
    RootShardMaintains(NodeIndex(cfg.pp.depths, IndexAtLevel(cfg.pp.depths, key, 0)));
  }

  /** Incrementing a key's version: the key has its slot, in a tree that the next commit pushes up. */
  lemma IncKeyVerContent(
      cfg: Config, f: Forest, hist: Ledger, cur: seq<Leaf>, key: Key, version: Option<VerInfo>)
    requires RootShard(cfg) && Healthy(f) && Content(cfg, f, hist, cur, None)
    requires version.Some? ==> HasSlot(cfg, f, key, version.value)
    ensures
      var r := IncKeyVer(cfg, f, key, version);
      r.Some? ==>
        && Content(cfg, r.value.0, hist, cur, None) && Evolves(f, r.value.0, None)
        && HasSlot(cfg, r.value.0, key, r.value.1)
        && Live(r.value.0, TreeAtLevel(cfg.pp.depths, key, r.value.1.level))
  {
    if version.None? { AllocateContent(cfg, f, hist, cur, key, 0); }
    var start := if version.None? then Allocate(cfg, f, key, 0) else Some((f, version.value));
    if start.Some? {
      var (f1, info) := start.value;
      assert Evolves(f, f1, None);
      RaiseContent(cfg, f1, hist, cur, key, info);
      var r := RaiseKey(cfg, f1, key, info);
      if r.Some? { EvolvesTransitive(f, f1, r.value.0); }
    }
  }

  lemma RaiseContent(cfg: Config, f: Forest, hist: Ledger, cur: seq<Leaf>, key: Key, info: VerInfo)
    requires RootShard(cfg) && Healthy(f) && Content(cfg, f, hist, cur, None) && HasSlot(cfg, f, key, info)
    ensures
      var r := RaiseKey(cfg, f, key, info);
      r.Some? ==>
        && Content(cfg, r.value.0, hist, cur, None) && Evolves(f, r.value.0, None)
        && HasSlot(cfg, r.value.0, key, r.value.1)
        && Live(r.value.0, TreeAtLevel(cfg.pp.depths, key, r.value.1.level))
  {
    var name, index := TreeAtLevel(cfg.pp.depths, key, info.level), IndexAtLevel(cfg.pp.depths, key, info.level);
    TouchStep(cfg, f, hist, cur, key, info.level);
    var f1 := Touch(cfg, f, name);
    HasSlotEvolves(cfg, f, f1, key, info);
    RootShardMaintainsKeys(cfg, key);
    RaiseStep(cfg, f1, hist, cur, name, index, info.slot);
    var f' := PutTree(f1, name, Raise(cfg, f1.trees[name].tree, index, info.slot, true).value);
    EvolvesTransitive(f, f1, f');
    HasSlotEvolves(cfg, f1, f', key, info);
  }
}
