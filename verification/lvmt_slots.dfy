/** Who owns which slot, and how large versions can grow. */
module LvmtSlots {
  import opened Basics
  import opened Scalar
  import opened Bits
  import opened NodeIndices
  import opened ProveParams
  import opened VersionNode
  import opened Amt
  import opened Forest
  import opened ForestContent
  import opened ForestCommit
  import opened Lvmt
  import opened LvmtProof

  /** Where a key's version lives. */
  datatype Slot = Slot(name: Name, index: nat, slot: nat)

  ghost function SlotOf(cfg: Config, key: Key, info: VerInfo): (s: Slot)
    requires ValidConfig(cfg)
    ensures s.index < Pow2(cfg.pp.depths)
  {
    Slot(TreeAtLevel(cfg.pp.depths, key, info.level), IndexAtLevel(cfg.pp.depths, key, info.level), info.slot)
  }

  /** The key versions at a leaf; trees that do not exist have none. */
  ghost function KvAt(f: Forest, n: Name, i: nat): seq<nat> {
    if n in f.trees then DataAt(f.trees[n].tree, i).keyVersions else []
  }

  ghost function TvAt(f: Forest, n: Name, i: nat): nat {
    if n in f.trees then DataAt(f.trees[n].tree, i).treeVersion else 0
  }

  /** The forests agree on all versions. */
  ghost predicate SameVersions(f: Forest, f': Forest) {
    forall n: Name, i: nat :: KvAt(f', n, i) == KvAt(f, n, i) && TvAt(f', n, i) == TvAt(f, n, i)
  }

  /** The forests agree but for the key versions at one leaf. */
  ghost predicate OneLeaf(f: Forest, f': Forest, name: Name, index: nat, kv: seq<nat>) {
    && (forall n: Name, i: nat :: KvAt(f', n, i) == if n == name && i == index then kv else KvAt(f, n, i))
    && (forall n: Name, i: nat :: TvAt(f', n, i) == TvAt(f, n, i))
  }

  lemma TouchVersions(cfg: Config, f: Forest, name: Name)
    requires Structured(f)
    ensures SameVersions(f, Touch(cfg, f, name))
  {
    TouchKeeps(cfg, f, name);
    var f' := Touch(cfg, f, name);
    forall n: Name, i: nat ensures KvAt(f', n, i) == KvAt(f, n, i) && TvAt(f', n, i) == TvAt(f, n, i) {
      if n in f.trees {
        assert Same(f.trees[n].tree, f'.trees[n].tree);
      } else if n in f'.trees {
        assert FreshTree(cfg, f', n);
      }
    }
  }

  lemma PutLeaf(f: Forest, name: Name, t: Tree, index: nat, node: Node)
    requires name in f.trees && t.data == f.trees[name].tree.data[index := node]
    requires node.treeVersion == TvAt(f, name, index)
    ensures OneLeaf(f, PutTree(f, name, t), name, index, node.keyVersions)
  {
  }

  lemma OpenSlotVersions(cfg: Config, f: Forest, name: Name, index: nat)
    requires ValidConfig(cfg) && Healthy(f) && name in f.trees && index < Pow2(cfg.pp.depths)
    requires f.trees[name].tree.commitment.Some? && |KvAt(f, name, index)| < MAX_SLOTS
    ensures OneLeaf(f, PutTree(f, name, OpenSlot(cfg, f.trees[name].tree, index)), name, index, KvAt(f, name, index) + [0])
  {
    var tree := f.trees[name].tree;
    PutLeaf(f, name, OpenSlot(cfg, tree, index), index,
            DataAt(tree, index).(keyVersions := DataAt(tree, index).keyVersions + [0]));
  }

  lemma RaiseVersions(cfg: Config, f: Forest, name: Name, index: nat, slot: nat)
    requires ValidConfig(cfg) && Healthy(f) && name in f.trees && index < Pow2(cfg.pp.depths)
    requires f.trees[name].tree.commitment.Some? && slot < |KvAt(f, name, index)|
    ensures Raise(cfg, f.trees[name].tree, index, slot, true).Some?
    ensures
      var kv := KvAt(f, name, index);
      OneLeaf(f, PutTree(f, name, Raise(cfg, f.trees[name].tree, index, slot, true).value),
              name, index, kv[slot := kv[slot] + 1])
  {
    var tree := f.trees[name].tree;
    var kv := DataAt(tree, index).keyVersions;
    PutLeaf(f, name, Raise(cfg, tree, index, slot, true).value, index,
            DataAt(tree, index).(keyVersions := kv[slot := kv[slot] + 1]));
  }

  /** One slot at version 0 was appended to a node of the key's path, and that slot was returned. */
  ghost predicate OneSlotMore(cfg: Config, f: Forest, key: Key, r: Option<(Forest, VerInfo)>)
    requires ValidConfig(cfg)
  {
    r.Some? ==>
      var info := r.value.1;
      var name, index := TreeAtLevel(cfg.pp.depths, key, info.level), IndexAtLevel(cfg.pp.depths, key, info.level);
      && OneLeaf(f, r.value.0, name, index, KvAt(f, name, index) + [0])
      && info.slot == |KvAt(f, name, index)| < MAX_SLOTS && info.version == 0
      && info.level < MAX_LEVEL && Fits(cfg.pp.depths, key, info.level)
  }

  lemma SlotMoreSince(cfg: Config, f: Forest, f1: Forest, key: Key, r: Option<(Forest, VerInfo)>)
    requires ValidConfig(cfg) && SameVersions(f, f1) && OneSlotMore(cfg, f1, key, r)
    ensures OneSlotMore(cfg, f, key, r)
  {
    if r.Some? {
      var name, index := TreeAtLevel(cfg.pp.depths, key, r.value.1.level), IndexAtLevel(cfg.pp.depths, key, r.value.1.level);
      assert KvAt(f1, name, index) == KvAt(f, name, index);
      SameThenOne(f, f1, r.value.0, name, index, KvAt(f, name, index) + [0]);
    }
  }

  lemma SlotMoreIn(cfg: Config, f: Forest, key: Key, level: nat)
    requires ValidConfig(cfg) && Healthy(f) && Reached(cfg, f, key, level) && level < MAX_LEVEL && Fits(cfg.pp.depths, key, level)
    requires OneSlotMore(cfg, f, key, Allocate(cfg, f, key, level + 1))
    ensures OneSlotMore(cfg, f, key, AllocateIn(cfg, f, key, level))
  {
    var name, index := TreeAtLevel(cfg.pp.depths, key, level), IndexAtLevel(cfg.pp.depths, key, level);
    if |KvAt(f, name, index)| < MAX_SLOTS { OpenSlotVersions(cfg, f, name, index); }
  }

  lemma AllocateOn(cfg: Config, f: Forest, key: Key, level: nat) returns (f1: Forest)
    requires ValidConfig(cfg) && Healthy(f) && level < MAX_LEVEL && Fits(cfg.pp.depths, key, level)
    ensures Healthy(f1)
    ensures OneSlotMore(cfg, f1, key, Allocate(cfg, f1, key, level + 1)) ==> OneSlotMore(cfg, f, key, Allocate(cfg, f, key, level))
  {
    AllocateStep(cfg, f, key, level);
    f1 := Touch(cfg, f, TreeAtLevel(cfg.pp.depths, key, level));
    TouchVersions(cfg, f, TreeAtLevel(cfg.pp.depths, key, level));
    if OneSlotMore(cfg, f1, key, Allocate(cfg, f1, key, level + 1)) {
      SlotMoreIn(cfg, f1, key, level);
      SlotMoreSince(cfg, f, f1, key, AllocateIn(cfg, f1, key, level));
    }
  }

  /** Allocation appends one slot at version 0 to a node of the key's path, and that slot is returned. */
  lemma {:induction false} AllocateVersions(cfg: Config, f: Forest, key: Key, level: nat)
    requires ValidConfig(cfg) && Healthy(f)
    ensures OneSlotMore(cfg, f, key, Allocate(cfg, f, key, level))
    decreases MAX_LEVEL - level
  {
    if level < MAX_LEVEL && Fits(cfg.pp.depths, key, level) {
      var f1 := AllocateOn(cfg, f, key, level);
      AllocateVersions(cfg, f1, key, level + 1);
    } else {
      AllocateEnds(cfg, f, key, level);
    }
  }

  /** The key's node at a level has a vacant slot: fewer than five are taken. */
  ghost predicate Room(cfg: Config, f: Forest, key: Key, level: nat)
    requires ValidConfig(cfg)
  {
    && level < 32 && (level * cfg.pp.depths) / 8 <= |key|
    && |KvAt(f, TreeAtLevel(cfg.pp.depths, key, level), IndexAtLevel(cfg.pp.depths, key, level))| < 5
  }

  /** A level that a key is too short for has no room, and neither have those below. */
  lemma ShortStays(depths: nat, len: nat, level: nat, deeper: nat)
    requires level <= deeper && (level * depths) / 8 > len
    ensures (deeper * depths) / 8 > len
  {
    MulMono(level, deeper, depths);
  }

  /** The first level with room was taken, or there was none. */
  ghost predicate FirstFit(cfg: Config, f: Forest, key: Key, level: nat, r: Option<(Forest, VerInfo)>)
    requires ValidConfig(cfg)
  {
    if r.None? then forall l: nat :: level <= l ==> !Room(cfg, f, key, l)
    else
      var at := r.value.1.level;
      level <= at && Room(cfg, f, key, at) && forall l: nat :: level <= l < at ==> !Room(cfg, f, key, l)
  }

  /** Allocation takes the first level with room, and panics exactly if there is none. */
  lemma {:induction false} AllocateFirst(cfg: Config, f: Forest, key: Key, level: nat)
    requires ValidConfig(cfg) && Healthy(f)
    ensures FirstFit(cfg, f, key, level, Allocate(cfg, f, key, level))
    decreases MAX_LEVEL - level
  {
    if level < MAX_LEVEL && Fits(cfg.pp.depths, key, level) {
      var f1 := AllocateNext(cfg, f, key, level);
      AllocateFirst(cfg, f1, key, level + 1);
    } else {
      AllocateEnds(cfg, f, key, level);
      forall l: nat | level <= l ensures !Room(cfg, f, key, l) {
        if level < MAX_LEVEL { ShortStays(cfg.pp.depths, |key|, level, l); }
      }
    }
  }

  lemma AllocateNext(cfg: Config, f: Forest, key: Key, level: nat) returns (f1: Forest)
    requires ValidConfig(cfg) && Healthy(f) && level < MAX_LEVEL && Fits(cfg.pp.depths, key, level)
    ensures Healthy(f1)
    ensures FirstFit(cfg, f1, key, level + 1, Allocate(cfg, f1, key, level + 1)) ==> FirstFit(cfg, f, key, level, Allocate(cfg, f, key, level))
  {
    var name := TreeAtLevel(cfg.pp.depths, key, level);
    AllocateStep(cfg, f, key, level);
    TouchVersions(cfg, f, name);
    f1 := Touch(cfg, f, name);
    if FirstFit(cfg, f1, key, level + 1, Allocate(cfg, f1, key, level + 1)) { FitsHere(cfg, f, f1, key, level); }
  }

  lemma FitsHere(cfg: Config, f: Forest, f1: Forest, key: Key, level: nat)
    requires ValidConfig(cfg) && Healthy(f1) && SameVersions(f, f1) && level < MAX_LEVEL && Fits(cfg.pp.depths, key, level)
    requires Reached(cfg, f1, key, level) && FirstFit(cfg, f1, key, level + 1, Allocate(cfg, f1, key, level + 1))
    ensures FirstFit(cfg, f, key, level, AllocateIn(cfg, f1, key, level))
  {
    RoomSame(cfg, f, f1, key);
    assert Room(cfg, f1, key, level) <==> |KvAt(f1, TreeAtLevel(cfg.pp.depths, key, level), IndexAtLevel(cfg.pp.depths, key, level))| < 5;
  }

  lemma RoomSame(cfg: Config, f: Forest, f1: Forest, key: Key)
    requires ValidConfig(cfg) && SameVersions(f, f1)
    ensures forall l: nat :: Room(cfg, f1, key, l) <==> Room(cfg, f, key, l)
  {
    forall l: nat ensures Room(cfg, f1, key, l) <==> Room(cfg, f, key, l) {
      var name, index := TreeAtLevel(cfg.pp.depths, key, l), IndexAtLevel(cfg.pp.depths, key, l);
      assert KvAt(f1, name, index) == KvAt(f, name, index);
    }
  }

  /** Raising a key panics exactly when its level does not fit, its slot is missing from a tree that
      keeps data, or its version has reached 2^40 - 1. */
  lemma RaisePanics(cfg: Config, f: Forest, key: Key, info: VerInfo)
    requires ValidConfig(cfg) && Healthy(f)
    ensures RaiseKey(cfg, f, key, info).None? <==>
      || (info.level * cfg.pp.depths) / 8 > |key|
      || (InProofShard(cfg, key)
          && info.slot >= |KvAt(f, TreeAtLevel(cfg.pp.depths, key, info.level), IndexAtLevel(cfg.pp.depths, key, info.level))|)
      || info.version >= 0xff_ffff_ffff
  {
    var name := TreeAtLevel(cfg.pp.depths, key, info.level);
    TouchHealthy(cfg, f, name);
    TouchVersions(cfg, f, name);
    assert KvAt(Touch(cfg, f, name), name, IndexAtLevel(cfg.pp.depths, key, info.level))
        == KvAt(f, name, IndexAtLevel(cfg.pp.depths, key, info.level));
  }

  lemma SameThenOne(f: Forest, f1: Forest, f2: Forest, name: Name, index: nat, kv: seq<nat>)
    requires SameVersions(f, f1) && OneLeaf(f1, f2, name, index, kv)
    ensures OneLeaf(f, f2, name, index, kv)
  {
    forall n: Name, i: nat ensures KvAt(f1, n, i) == KvAt(f, n, i) && TvAt(f1, n, i) == TvAt(f, n, i) {
    }
  }

  /** One guarded write, after access to its tree, raises a slot. */
  ghost predicate RaisedTo(cfg: Config, f: Forest, f': Forest, s: Slot)
    requires ValidConfig(cfg) && s.index < Pow2(cfg.pp.depths)
  {
    var f1 := Touch(cfg, f, s.name);
    && Healthy(f1) && s.name in f1.trees && f1.trees[s.name].tree.commitment.Some?
    && var t := Raise(cfg, f1.trees[s.name].tree, s.index, s.slot, true);
    t.Some? && f' == PutTree(f1, s.name, t.value)
  }

  /** The forests agree but for one slot, which moved by one. */
  ghost predicate SlotRaised(f: Forest, f': Forest, s: Slot) {
    var kv := KvAt(f, s.name, s.index);
    s.slot < |kv| && OneLeaf(f, f', s.name, s.index, kv[s.slot := kv[s.slot] + 1])
  }

  lemma RaisedVersions(cfg: Config, f: Forest, f': Forest, s: Slot)
    requires ValidConfig(cfg) && Healthy(f) && s.index < Pow2(cfg.pp.depths) && s.slot < |KvAt(f, s.name, s.index)|
    requires RaisedTo(cfg, f, f', s)
    ensures SlotRaised(f, f', s)
  {
    TouchVersions(cfg, f, s.name);
    RaisedAfter(cfg, f, Touch(cfg, f, s.name), f', s);
  }

  lemma RaisedAfter(cfg: Config, f: Forest, f1: Forest, f': Forest, s: Slot)
    requires ValidConfig(cfg) && Healthy(f1) && SameVersions(f, f1) && s.index < Pow2(cfg.pp.depths)
    requires s.slot < |KvAt(f, s.name, s.index)| && s.name in f1.trees && f1.trees[s.name].tree.commitment.Some?
    requires
      var t := Raise(cfg, f1.trees[s.name].tree, s.index, s.slot, true);
      t.Some? && f' == PutTree(f1, s.name, t.value)
    ensures SlotRaised(f, f', s)
  {
    assert KvAt(f1, s.name, s.index) == KvAt(f, s.name, s.index);
    RaiseVersions(cfg, f1, s.name, s.index, s.slot);
    assert SlotRaised(f1, f', s);
    RaisedSince(f, f1, f', s);
  }

  lemma RaisedSince(f: Forest, f1: Forest, f': Forest, s: Slot)
    requires SameVersions(f, f1) && SlotRaised(f1, f', s)
    ensures SlotRaised(f, f', s)
  {
    var kv := KvAt(f, s.name, s.index);
    assert KvAt(f1, s.name, s.index) == kv;
    SameThenOne(f, f1, f', s.name, s.index, kv[s.slot := kv[s.slot] + 1]);
  }

  /** What one increment does to the versions: a new key's fresh slot starts at 1, an owned slot
      moves by 1. */
  ghost predicate SlotMoved(cfg: Config, f: Forest, f': Forest, key: Key, before: Option<VerInfo>, info: VerInfo)
    requires ValidConfig(cfg)
  {
    var s := SlotOf(cfg, key, info);
    var kv := KvAt(f, s.name, s.index);
    if before.None? then
      info.version == 1 && s.slot == |kv| < MAX_SLOTS && OneLeaf(f, f', s.name, s.index, kv + [1])
    else
      && info == before.value.(version := before.value.version + 1) && s.slot < |kv|
      && OneLeaf(f, f', s.name, s.index, kv[s.slot := kv[s.slot] + 1])
  }

  /** An owned slot moves by one. */
  lemma OwnedSlotMoves(cfg: Config, f: Forest, key: Key, before: VerInfo)
    requires RootShard(cfg) && Healthy(f) && HasSlot(cfg, f, key, before)
    ensures
      var r := RaiseKey(cfg, f, key, before);
      r.Some? ==> SlotMoved(cfg, f, r.value.0, key, Some(before), r.value.1)
  {
    if RaiseKey(cfg, f, key, before).Some? {
      var f' := RaiseKeyIs(cfg, f, key, before);
      OwnedRaise(cfg, f, f', key, before);
    }
  }

  lemma RaiseKeyIs(cfg: Config, f: Forest, key: Key, info: VerInfo) returns (f': Forest)
    requires RootShard(cfg) && Healthy(f) && RaiseKey(cfg, f, key, info).Some?
    ensures RaisedTo(cfg, f, f', SlotOf(cfg, key, info))
    ensures RaiseKey(cfg, f, key, info) == Some((f', info.(version := info.version + 1)))
  {
    TouchHealthy(cfg, f, TreeAtLevel(cfg.pp.depths, key, info.level));
    RootShardMaintainsKeys(cfg, key);
    f' := RaiseKey(cfg, f, key, info).value.0;
  }

  lemma OwnedRaise(cfg: Config, f: Forest, f': Forest, key: Key, info: VerInfo)
    requires ValidConfig(cfg) && Healthy(f) && HasSlot(cfg, f, key, info) && RaisedTo(cfg, f, f', SlotOf(cfg, key, info))
    ensures SlotMoved(cfg, f, f', key, Some(info), info.(version := info.version + 1))
  {
    RaisedVersions(cfg, f, f', SlotOf(cfg, key, info));
    MovedOnce(cfg, f, f', key, info);
  }

  lemma MovedOnce(cfg: Config, f: Forest, f': Forest, key: Key, before: VerInfo)
    requires ValidConfig(cfg) && SlotRaised(f, f', SlotOf(cfg, key, before))
    ensures SlotMoved(cfg, f, f', key, Some(before), before.(version := before.version + 1))
  {
    assert SlotOf(cfg, key, before.(version := before.version + 1)) == SlotOf(cfg, key, before);
  }

  /** A new key gets a fresh slot, at version 1. */
  lemma FreshSlotOpens(cfg: Config, f: Forest, key: Key)
    requires RootShard(cfg) && Healthy(f)
    ensures
      var r := IncKeyVer(cfg, f, key, None);
      r.Some? ==> SlotMoved(cfg, f, r.value.0, key, None, r.value.1)
  {
    AllocateVersions(cfg, f, key, 0);
    var start := Allocate(cfg, f, key, 0);
    IncAfterAllocate(cfg, f, key);
    if start.Some? {
      var (f1, info) := start.value;
      AllocatedHasSlot(cfg, f, f1, key, info);
      OwnedSlotMoves(cfg, f1, key, info);
      var r := RaiseKey(cfg, f1, key, info);
      if r.Some? { FreshMoved(cfg, f, f1, r.value.0, key, info, r.value.1); }
    }
  }

  lemma AllocatedHasSlot(cfg: Config, f: Forest, f1: Forest, key: Key, info: VerInfo)
    requires ValidConfig(cfg) && info.level < MAX_LEVEL && Fits(cfg.pp.depths, key, info.level)
    requires
      var s := SlotOf(cfg, key, info);
      OneLeaf(f, f1, s.name, s.index, KvAt(f, s.name, s.index) + [0]) && s.slot == |KvAt(f, s.name, s.index)|
    ensures HasSlot(cfg, f1, key, info)
  {
    var s := SlotOf(cfg, key, info);
    assert KvAt(f1, s.name, s.index) == KvAt(f, s.name, s.index) + [0];
  }

  lemma FreshMoved(cfg: Config, f: Forest, f1: Forest, f2: Forest, key: Key, info: VerInfo, info': VerInfo)
    requires ValidConfig(cfg) && info.version == 0 && SlotMoved(cfg, f1, f2, key, Some(info), info')
    requires
      var s := SlotOf(cfg, key, info);
      && OneLeaf(f, f1, s.name, s.index, KvAt(f, s.name, s.index) + [0])
      && s.slot == |KvAt(f, s.name, s.index)| < MAX_SLOTS
    ensures SlotMoved(cfg, f, f2, key, None, info')
  {
    var s := SlotOf(cfg, key, info);
    var kv := KvAt(f, s.name, s.index);
    assert KvAt(f1, s.name, s.index) == kv + [0];
    assert (kv + [0])[s.slot := 1] == kv + [1];
    TwoLeaves(f, f1, f2, s.name, s.index, kv + [0], kv + [1]);
  }

  /** A new key's increment is allocation followed by an owned increment. */
  lemma IncAfterAllocate(cfg: Config, f: Forest, key: Key)
    requires ValidConfig(cfg) && Healthy(f)
    ensures
      var start := Allocate(cfg, f, key, 0);
      IncKeyVer(cfg, f, key, None)
      == if start.None? then None else RaiseKey(cfg, start.value.0, key, start.value.1)
  {
  }

  lemma IncMoves(cfg: Config, f: Forest, key: Key, before: Option<VerInfo>)
    requires RootShard(cfg) && Healthy(f) && (before.Some? ==> HasSlot(cfg, f, key, before.value))
    ensures
      var r := IncKeyVer(cfg, f, key, before);
      r.Some? ==> SlotMoved(cfg, f, r.value.0, key, before, r.value.1)
  {
    if before.Some? {
      OwnedSlotMoves(cfg, f, key, before.value);
    } else {
      FreshSlotOpens(cfg, f, key);
    }
  }

  lemma TwoLeaves(f: Forest, f1: Forest, f2: Forest, name: Name, index: nat, kv1: seq<nat>, kv2: seq<nat>)
    requires OneLeaf(f, f1, name, index, kv1) && OneLeaf(f1, f2, name, index, kv2)
    ensures OneLeaf(f, f2, name, index, kv2)
  {
    forall n: Name, i: nat
      ensures n != name || i != index ==> KvAt(f1, n, i) == KvAt(f, n, i)
      ensures TvAt(f1, n, i) == TvAt(f, n, i)
    {
    }
  }

  // ----- commit -----

  /** Commit never touches key versions, and raises a subtree version only with a new leaf. */
  ghost predicate CommitVersions(p: Progress, p': Progress) {
    && (forall n: Name, i: nat :: KvAt(p'.forest, n, i) == KvAt(p.forest, n, i))
    && |p.leaves| <= |p'.leaves|
    && forall n: Name, i: nat :: TvAt(p'.forest, n, i) <= TvAt(p.forest, n, i) + |p'.leaves| - |p.leaves|
  }

  lemma CommitVersionsTransitive(p: Progress, p1: Progress, p2: Progress)
    requires CommitVersions(p, p1) && CommitVersions(p1, p2)
    ensures CommitVersions(p, p2)
  {
    forall n: Name, i: nat
      ensures KvAt(p2.forest, n, i) == KvAt(p.forest, n, i)
      ensures TvAt(p2.forest, n, i) <= TvAt(p.forest, n, i) + |p2.leaves| - |p.leaves|
    {
      assert KvAt(p1.forest, n, i) == KvAt(p.forest, n, i);
      assert TvAt(p1.forest, n, i) <= TvAt(p.forest, n, i) + |p1.leaves| - |p.leaves|;
    }
  }

  lemma {:induction false} CommitTreeVersions(cfg: Config, p: Progress, name: Name, epoch: nat)
    requires Ready(cfg, p, name)
    ensures CommitVersions(p, CommitTree(cfg, p, name, epoch).0)
    decreases p.forest.layers - |name|, |p.forest.trees[name].marks| + 1
  {
    var marks := p.forest.trees[name].marks;
    AscendingLength(marks);
    assert ClosedAt(cfg, p.forest, name);
    ChildrenVersions(cfg, p, name, Ascending(marks), epoch);
    var p1, p' := CommitChildren(cfg, p, name, Ascending(marks), epoch), CommitTree(cfg, p, name, epoch).0;
    FlushVersions(p1, p', name);
    CommitVersionsTransitive(p, p1, p');
  }

  /** Clearing a tree's marks and flag leaves its versions alone. */
  lemma FlushVersions(p: Progress, p': Progress, name: Name)
    requires name in p.forest.trees && name in p'.forest.trees && p'.leaves == p.leaves
    requires p'.forest.trees == p.forest.trees[name := p'.forest.trees[name]]
    requires p'.forest.trees[name].tree.data == p.forest.trees[name].tree.data
    ensures CommitVersions(p, p')
  {
  }

  lemma ChildPushedVersions(cfg: Config, p: Progress, name: Name, index: nat, commitment: Point, epoch: nat)
    requires Ready(cfg, p, name) && index < Pow2(cfg.pp.depths)
    ensures CommitVersions(p, ChildPushed(cfg, p, name, index, commitment, epoch))
  {
    assert ClosedAt(cfg, p.forest, name);
  }

  lemma {:induction false} ChildrenVersions(cfg: Config, p: Progress, name: Name, indices: seq<nat>, epoch: nat)
    requires ReadyFor(cfg, p, name, indices)
    ensures CommitVersions(p, CommitChildren(cfg, p, name, indices, epoch))
    decreases p.forest.layers - |name|, |indices|
  {
    if indices != [] {
      var child := name + [indices[0]];
      assert indices[0] in Elements(indices);
      assert ClosedAt(cfg, p.forest, child);
      CommitTreeVersions(cfg, p, child, epoch);
      var (p1, dirty, commitment) := CommitTree(cfg, p, child, epoch);
      var p2 := if dirty then ChildPushed(cfg, p1, name, indices[0], commitment, epoch) else p1;
      if dirty {
        ChildPushedVersions(cfg, p1, name, indices[0], commitment, epoch);
        CommitVersionsTransitive(p, p1, p2);
      }
      RestReady(cfg, p, p2, name, indices);
      ChildrenVersions(cfg, p2, name, indices[1..], epoch);
      CommitVersionsTransitive(p, p2, CommitChildren(cfg, p2, name, indices[1..], epoch));
    }
  }

  // ----- bounds -----

  /** No version exceeds the bound. */
  ghost predicate Below(f: Forest, bound: nat) {
    && (forall n: Name, i: nat, s: nat :: s < |KvAt(f, n, i)| ==> KvAt(f, n, i)[s] <= bound)
    && forall n: Name, i: nat :: TvAt(f, n, i) <= bound
  }

  ghost function TotalLeaves(hist: Ledger): nat {
    if hist == [] then 0 else TotalLeaves(hist[..|hist| - 1]) + |hist[|hist| - 1]|
  }

  lemma OneLeafBelow(f: Forest, f': Forest, name: Name, index: nat, kv: seq<nat>, bound: nat)
    requires Below(f, bound) && OneLeaf(f, f', name, index, kv)
    requires forall s :: 0 <= s < |kv| ==> kv[s] <= bound + 1
    ensures Below(f', bound + 1)
  {
    forall n: Name, i: nat, s: nat | s < |KvAt(f', n, i)| ensures KvAt(f', n, i)[s] <= bound + 1 {
      if n != name || i != index { assert KvAt(f', n, i) == KvAt(f, n, i); }
    }
  }

  lemma MovedBelow(cfg: Config, f: Forest, f': Forest, key: Key, before: Option<VerInfo>, info: VerInfo, bound: nat)
    requires ValidConfig(cfg) && SlotMoved(cfg, f, f', key, before, info) && Below(f, bound)
    ensures Below(f', bound + 1)
  {
    var s := SlotOf(cfg, key, info);
    var kv := KvAt(f, s.name, s.index);
    OneLeafBelow(f, f', s.name, s.index, if before.None? then kv + [1] else kv[s.slot := kv[s.slot] + 1], bound);
  }

  lemma WriteOneBelow(cfg: Config, keys: map<Key, Value>, hist: Ledger, b: Batch, w: Write, bound: nat)
    requires RootShard(cfg) && InBatch(cfg, keys, hist, b) && Below(b.forest, bound)
    ensures
      var r := WriteOne(cfg, keys, |hist|, b, w);
      r.Some? ==> Below(r.value.forest, bound + 1)
  {
    var version := StoredVersion(keys, w.key);
    if version.Some? { assert KeyRecorded(cfg, b.forest, hist, b.leaves, w.key, keys[w.key]); }
    IncMoves(cfg, b.forest, w.key, version);
    var r := IncKeyVer(cfg, b.forest, w.key, version);
    if r.Some? { MovedBelow(cfg, b.forest, r.value.0, w.key, version, r.value.1, bound); }
  }

  lemma {:induction false} WriteAllBelow(cfg: Config, keys: map<Key, Value>, hist: Ledger, b: Batch, ws: seq<Write>, base: nat)
    requires RootShard(cfg) && InBatch(cfg, keys, hist, b) && Below(b.forest, base + |b.leaves|)
    ensures
      var r := WriteAll(cfg, keys, |hist|, b, ws);
      r.Some? ==> Below(r.value.forest, base + |r.value.leaves|)
    decreases |ws|
  {
    if ws != [] {
      WriteOneBelow(cfg, keys, hist, b, ws[0], base + |b.leaves|);
      WriteOneKeeps(cfg, keys, hist, b, ws[0]);
      var b1 := WriteOne(cfg, keys, |hist|, b, ws[0]);
      if b1.Some? {
        WriteAllBelow(cfg, keys, hist, b1.value, ws[1..], base);
      }
    }
  }

  /** Every version is at most the number of leaves ever dumped. */
  lemma CommitBelow(cfg: Config, db: Db, ws: seq<Write>)
    requires RootShard(cfg) && Invariant(cfg, db) && Below(db.forest, TotalLeaves(db.history))
    ensures
      var r := CommitBatch(cfg, db, ws);
      r.Some? ==> Below(r.value.0.forest, TotalLeaves(r.value.0.history))
  {
    var hist, start, total := db.history, Batch(db.forest, map[], []), TotalLeaves(db.history);
    var b := WriteAll(cfg, db.keys, |hist|, start, ws);
    if b.Some? {
      WriteAllBelow(cfg, db.keys, hist, start, ws, total);
      WriteAllNames(cfg, db.keys, |hist|, start, ws);
      WriteAllKeeps(cfg, db.keys, hist, start, ws);
      var p := Progress(b.value.forest, b.value.leaves);
      HealthyCloses(cfg, p.forest);
      CommitTreeVersions(cfg, p, [], |hist|);
      var p' := CommitTree(cfg, p, [], |hist|).0;
      assert (hist + [p'.leaves])[..|hist|] == hist;
      assert TotalLeaves(hist + [p'.leaves]) == total + |p'.leaves|;
    }
  }

  lemma {:induction false} RunBelow(cfg: Config, batches: seq<seq<Write>>)
    requires RootShard(cfg)
    ensures Run(cfg, batches).Some? ==> Below(Run(cfg, batches).value.forest, TotalLeaves(Run(cfg, batches).value.history))
  {
    if batches != [] {
      RunBelow(cfg, batches[..|batches| - 1]);
      var before := Run(cfg, batches[..|batches| - 1]);
      if before.Some? { CommitBelow(cfg, before.value, batches[|batches| - 1]); }
    }
  }

  /** Completeness without a side condition on versions: while fewer than 2^40 leaves were ever
      dumped, the proof of every committed key is accepted. */
  lemma RunAccepted(cfg: Config, batches: seq<seq<Write>>, column: Column, roots: nat -> Hash, key: Key)
    requires RootShard(cfg) && Factors(cfg.pp)
    requires Run(cfg, batches).Some? && key in Run(cfg, batches).value.keys
    requires Dumped(Run(cfg, batches).value.history, column, roots)
    requires TotalLeaves(Run(cfg, batches).value.history) < VERSION_SPAN
    ensures Provable(cfg, Run(cfg, batches).value, key)
    ensures Accepts(cfg.pp, key, ProveKey(cfg, Run(cfg, batches).value, column, key), roots)
  {
    var db := Run(cfg, batches).value;
    RunComplete(cfg, batches, column, roots, key);
    RunBelow(cfg, batches);
    forall l: nat | l <= db.keys[key].version.level ensures AllFit(Versions(PathNode(cfg, db.forest, key, l))) {
      assert OnPath(cfg, db.forest, key, l);
      NodeBelow(cfg, db.forest, key, l, TotalLeaves(db.history));
    }
    assert PathFits(cfg, db, key);
  }

  lemma NodeBelow(cfg: Config, f: Forest, key: Key, l: nat, bound: nat)
    requires ValidConfig(cfg) && OnPath(cfg, f, key, l) && Below(f, bound) && bound < VERSION_SPAN
    ensures AllFit(Versions(PathNode(cfg, f, key, l)))
  {
    var name, index, node := TreeAtLevel(cfg.pp.depths, key, l), IndexAtLevel(cfg.pp.depths, key, l), PathNode(cfg, f, key, l);
    assert KvAt(f, name, index) == node.keyVersions && TvAt(f, name, index) == node.treeVersion;
    forall i | 0 <= i < |Versions(node)| ensures Versions(node)[i] < VERSION_SPAN {
      if i > 0 { assert KvAt(f, name, index)[i - 1] <= bound; }
    }
  }

  // ----- ownership -----

  /** Distinct keys own distinct slots. */
  ghost predicate Unshared(cfg: Config, keys: map<Key, Value>)
    requires ValidConfig(cfg)
  {
    forall a, b :: a in keys && b in keys && a != b ==> SlotOf(cfg, a, keys[a].version) != SlotOf(cfg, b, keys[b].version)
  }

  /** Every key's slot exists, is one of five, and holds the key's version. */
  ghost predicate Exact(cfg: Config, f: Forest, keys: map<Key, Value>)
    requires ValidConfig(cfg)
  {
    forall k {:trigger ExactAt(cfg, f, k, keys[k].version)} :: k in keys ==> ExactAt(cfg, f, k, keys[k].version)
  }

  ghost predicate ExactAt(cfg: Config, f: Forest, key: Key, info: VerInfo)
    requires ValidConfig(cfg)
  {
    var s := SlotOf(cfg, key, info);
    s.slot < |KvAt(f, s.name, s.index)| <= MAX_SLOTS && KvAt(f, s.name, s.index)[s.slot] == info.version
  }

  ghost predicate DistinctKeys(ws: seq<Write>) {
    forall i, j :: 0 <= i < j < |ws| ==> ws[i].key != ws[j].key
  }

  /** A change at one leaf leaves a key's slot exact, if the slot is elsewhere or keeps its value. */
  lemma ExactElsewhere(cfg: Config, f: Forest, f': Forest, name: Name, index: nat, kv: seq<nat>, key: Key, info: VerInfo)
    requires ValidConfig(cfg) && ExactAt(cfg, f, key, info) && OneLeaf(f, f', name, index, kv)
    requires
      var s, old_ := SlotOf(cfg, key, info), KvAt(f, name, index);
      s.name == name && s.index == index ==> s.slot < |kv| <= MAX_SLOTS && kv[s.slot] == old_[s.slot]
    ensures ExactAt(cfg, f', key, info)
  {
    var s := SlotOf(cfg, key, info);
    assert KvAt(f', s.name, s.index) == if s.name == name && s.index == index then kv else KvAt(f, s.name, s.index);
  }

  /** One write of a batch, for a key not yet written in it: ownership stays exact. */
  lemma WriteOneExact(cfg: Config, keys: map<Key, Value>, hist: Ledger, b: Batch, w: Write)
    requires RootShard(cfg) && Healthy(b.forest) && KeysRecorded(cfg, b.forest, hist, b.leaves, keys)
    requires w.key !in b.written
    requires Unshared(cfg, keys + b.written) && Exact(cfg, b.forest, keys + b.written)
    ensures
      var r := WriteOne(cfg, keys, |hist|, b, w);
      r.Some? ==> Unshared(cfg, keys + r.value.written) && Exact(cfg, r.value.forest, keys + r.value.written)
  {
    var version := StoredVersion(keys, w.key);
    if version.Some? { assert KeyRecorded(cfg, b.forest, hist, b.leaves, w.key, keys[w.key]); }
    IncMoves(cfg, b.forest, w.key, version);
    var r := IncKeyVer(cfg, b.forest, w.key, version);
    if r.Some? {
      var v := Value(w.value, r.value.1, EpochPosition(|hist|, |b.leaves|));
      UpdateMerged(keys, b.written, w.key, v);
      MovedExact(cfg, b.forest, r.value.0, keys + b.written, w.key, version, v);
    }
  }

  lemma UpdateMerged(keys: map<Key, Value>, written: map<Key, Value>, key: Key, v: Value)
    ensures keys + written[key := v] == (keys + written)[key := v]
  {
  }

  lemma MovedExact(cfg: Config, f: Forest, f': Forest, all: map<Key, Value>, key: Key, before: Option<VerInfo>, v: Value)
    requires ValidConfig(cfg) && SlotMoved(cfg, f, f', key, before, v.version)
    requires Unshared(cfg, all) && Exact(cfg, f, all)
    requires if before.None? then key !in all else key in all && before.value == all[key].version
    ensures Unshared(cfg, all[key := v]) && Exact(cfg, f', all[key := v])
  {
    var s := SlotOf(cfg, key, v.version);
    var kv := KvAt(f, s.name, s.index);
    if before.Some? { assert ExactAt(cfg, f, key, all[key].version); }
    OwnershipKept(cfg, f, f', all, key, v, if before.None? then kv + [1] else kv[s.slot := kv[s.slot] + 1]);
  }

  lemma OwnershipKept(cfg: Config, f: Forest, f': Forest, all: map<Key, Value>, key: Key, v: Value, kv: seq<nat>)
    requires ValidConfig(cfg) && Unshared(cfg, all) && Exact(cfg, f, all)
    requires
      var s := SlotOf(cfg, key, v.version);
      var before := KvAt(f, s.name, s.index);
      && OneLeaf(f, f', s.name, s.index, kv) && |before| <= |kv| <= MAX_SLOTS
      && s.slot < |kv| && kv[s.slot] == v.version.version
      && (forall i :: 0 <= i < |before| && i != s.slot ==> kv[i] == before[i])
      && (if key in all then SlotOf(cfg, key, all[key].version) == s else s.slot >= |before|)
    ensures Unshared(cfg, all[key := v]) && Exact(cfg, f', all[key := v])
  {
    var s, all' := SlotOf(cfg, key, v.version), all[key := v];
    forall k | k in all' ensures ExactAt(cfg, f', k, all'[k].version) {
      if k == key {
        assert KvAt(f', s.name, s.index) == kv;
      } else {
        assert ExactAt(cfg, f, k, all[k].version);
        ExactElsewhere(cfg, f, f', s.name, s.index, kv, k, all[k].version);
      }
    }
    forall a, b | a in all' && b in all' && a != b
      ensures SlotOf(cfg, a, all'[a].version) != SlotOf(cfg, b, all'[b].version)
    {
      if a != key { assert ExactAt(cfg, f, a, all[a].version); }
      if b != key { assert ExactAt(cfg, f, b, all[b].version); }
    }
  }

  lemma {:induction false} WriteAllExact(cfg: Config, keys: map<Key, Value>, hist: Ledger, b: Batch, ws: seq<Write>)
    requires RootShard(cfg) && InBatch(cfg, keys, hist, b)
    requires DistinctKeys(ws) && forall i :: 0 <= i < |ws| ==> ws[i].key !in b.written
    requires Unshared(cfg, keys + b.written) && Exact(cfg, b.forest, keys + b.written)
    ensures
      var r := WriteAll(cfg, keys, |hist|, b, ws);
      r.Some? ==> Unshared(cfg, keys + r.value.written) && Exact(cfg, r.value.forest, keys + r.value.written)
    decreases |ws|
  {
    if ws != [] {
      WriteOneExact(cfg, keys, hist, b, ws[0]);
      WriteOneKeeps(cfg, keys, hist, b, ws[0]);
      var b1 := WriteOne(cfg, keys, |hist|, b, ws[0]);
      if b1.Some? { WriteAllExact(cfg, keys, hist, b1.value, ws[1..]); }
    }
  }

  lemma CommitExact(cfg: Config, db: Db, ws: seq<Write>)
    requires RootShard(cfg) && Invariant(cfg, db) && DistinctKeys(ws)
    requires Unshared(cfg, db.keys) && Exact(cfg, db.forest, db.keys)
    ensures
      var r := CommitBatch(cfg, db, ws);
      r.Some? ==> Unshared(cfg, r.value.0.keys) && Exact(cfg, r.value.0.forest, r.value.0.keys)
  {
    var hist, start := db.history, Batch(db.forest, map[], []);
    assert db.keys + map[] == db.keys;
    var b := WriteAll(cfg, db.keys, |hist|, start, ws);
    if b.Some? {
      WriteAllExact(cfg, db.keys, hist, start, ws);
      WriteAllNames(cfg, db.keys, |hist|, start, ws);
      var p, all := Progress(b.value.forest, b.value.leaves), db.keys + b.value.written;
      HealthyCloses(cfg, p.forest);
      CommitTreeVersions(cfg, p, [], |hist|);
      var f' := CommitTree(cfg, p, [], |hist|).0.forest;
      forall k | k in all ensures ExactAt(cfg, f', k, all[k].version) {
        assert ExactAt(cfg, p.forest, k, all[k].version);
        var s := SlotOf(cfg, k, all[k].version);
        assert KvAt(f', s.name, s.index) == KvAt(p.forest, s.name, s.index);
      }
    }
  }

  /** Over any run whose batches have distinct keys: distinct keys never share a slot, every slot is
      one of five, and the stored version is the one packed in the key's node. */
  lemma {:induction false} RunExact(cfg: Config, batches: seq<seq<Write>>)
    requires RootShard(cfg) && forall i :: 0 <= i < |batches| ==> DistinctKeys(batches[i])
    ensures
      var r := Run(cfg, batches);
      r.Some? ==> Unshared(cfg, r.value.keys) && Exact(cfg, r.value.forest, r.value.keys)
  {
    if batches != [] {
      RunExact(cfg, batches[..|batches| - 1]);
      var before := Run(cfg, batches[..|batches| - 1]);
      if before.Some? { CommitExact(cfg, before.value, batches[|batches| - 1]); }
    }
  }
}
