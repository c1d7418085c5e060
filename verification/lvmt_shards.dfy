/** Roots do not depend on sharding: whatever part of the trees a node maintains for proofs, every
    commit returns the same commitment and the same leaves. */
module LvmtShards {
  import opened Basics
  import opened Scalar
  import opened Bits
  import opened NodeIndices
  import opened ProveParams
  import opened VersionNode
  import opened Amt
  import opened Forest
  import opened ForestContent
  import opened ForestCommit
  import opened Lvmt
  import opened LvmtDbs
  import opened LvmtSlots

  // ----- twins -----

  /** The same node, but that key versions may only be counted on one side. */
  ghost predicate NodeTwin(a: Node, b: Node, bound: nat) {
    && |a.keyVersions| == |b.keyVersions| && a.treeVersion == b.treeVersion && a.treePosition == b.treePosition
    && a.treeVersion <= bound
    && forall s :: 0 <= s < |a.keyVersions| ==> a.keyVersions[s] <= bound && b.keyVersions[s] <= bound
  }

  ghost predicate TreeTwin(t: Tree, u: Tree, bound: nat) {
    && t.commitment == u.commitment && t.dirty == u.dirty && t.subtreeRoots == u.subtreeRoots
    && forall i: nat :: NodeTwin(DataAt(t, i), DataAt(u, i), bound)
  }

  ghost predicate InfoTwin(a: TreeInfo, b: TreeInfo, bound: nat) {
    TreeTwin(a.tree, b.tree, bound) && a.marked == b.marked && a.marks == b.marks
  }

  /** The same forest in two shards. */
  ghost predicate Twin(f: Forest, g: Forest, bound: nat) {
    && f.layers == g.layers && f.trees.Keys == g.trees.Keys
    && forall n {:trigger TwinAt(f, g, bound, n)} :: n in f.trees ==> TwinAt(f, g, bound, n)
  }

  ghost predicate TwinAt(f: Forest, g: Forest, bound: nat, n: Name)
    requires n in f.trees && n in g.trees
  {
    InfoTwin(f.trees[n], g.trees[n], bound)
  }

  lemma TreeTwinWeaken(t: Tree, u: Tree, bound: nat, more: nat)
    requires TreeTwin(t, u, bound) && bound <= more
    ensures TreeTwin(t, u, more)
  {
    forall i: nat ensures NodeTwin(DataAt(t, i), DataAt(u, i), more) {
      assert NodeTwin(DataAt(t, i), DataAt(u, i), bound);
    }
  }

  lemma TwinWeaken(f: Forest, g: Forest, bound: nat, more: nat)
    requires Twin(f, g, bound) && bound <= more
    ensures Twin(f, g, more)
  {
    forall n | n in f.trees ensures TwinAt(f, g, more, n) {
      assert TwinAt(f, g, bound, n);
      TreeTwinWeaken(f.trees[n].tree, g.trees[n].tree, bound, more);
    }
  }

  ghost predicate SamePp(c: Config, d: Config) {
    c.pp == d.pp
  }

  // ----- access -----

  lemma InfoAtTwin(c: Config, d: Config, f: Forest, g: Forest, bound: nat, name: Name)
    requires Twin(f, g, bound)
    ensures InfoTwin(InfoAt(c, f, name), InfoAt(d, g, name), bound)
  {
    if name in f.trees { assert TwinAt(f, g, bound, name); }
    assert forall i: nat :: NodeTwin(DataAt(NewTree(ShardOf(c, name)), i), DataAt(NewTree(ShardOf(d, name)), i), bound);
  }

  lemma SetCommitmentTwin(t: Tree, u: Tree, bound: nat, p: Point)
    requires TreeTwin(t, u, bound)
    ensures TreeTwin(SetCommitment(t, p), SetCommitment(u, p), bound)
  {
    forall i: nat ensures NodeTwin(DataAt(SetCommitment(t, p), i), DataAt(SetCommitment(u, p), i), bound) {
      assert NodeTwin(DataAt(t, i), DataAt(u, i), bound);
    }
  }

  lemma PutTwin(f: Forest, g: Forest, bound: nat, name: Name, a: TreeInfo, b: TreeInfo)
    requires Twin(f, g, bound) && InfoTwin(a, b, bound)
    ensures Twin(f.(trees := f.trees[name := a]), g.(trees := g.trees[name := b]), bound)
  {
    var f', g' := f.(trees := f.trees[name := a]), g.(trees := g.trees[name := b]);
    forall n | n in f'.trees ensures TwinAt(f', g', bound, n) {
      if n != name { assert TwinAt(f, g, bound, n); }
    }
  }

  lemma {:induction false} ClimbTwin(c: Config, d: Config, f: Forest, g: Forest, bound: nat, name: Name)
    requires Twin(f, g, bound) && name in f.trees
    ensures Twin(Climb(c, f, name), Climb(d, g, name), bound)
    decreases |name|
  {
    if name != [] {
      var parent, index := Parent(name), Last(name);
      InfoAtTwin(c, d, f, g, bound, parent);
      var up, vp := InfoAt(c, f, parent), InfoAt(d, g, parent);
      var a, b := f.trees[name], g.trees[name];
      assert TwinAt(f, g, bound, name);
      var root := SubtreeRoot(up.tree, index);
      SetCommitmentTwin(a.tree, b.tree, bound, root);
      var a1, b1 := a.(tree := SetCommitment(a.tree, root)), b.(tree := SetCommitment(b.tree, root));
      PutTwin(f, g, bound, name, a1, b1);
      var f1, g1 := f.(trees := f.trees[name := a1]), g.(trees := g.trees[name := b1]);
      var a2, b2 := up.(marks := up.marks + {index}, marked := true), vp.(marks := vp.marks + {index}, marked := true);
      PutTwin(f1, g1, bound, parent, a2, b2);
      var f2, g2 := f1.(trees := f1.trees[parent := a2]), g1.(trees := g1.trees[parent := b2]);
      if !up.marked { ClimbTwin(c, d, f2, g2, bound, parent); }
    }
  }

  lemma TouchTwin(c: Config, d: Config, f: Forest, g: Forest, bound: nat, name: Name)
    requires Twin(f, g, bound)
    ensures Twin(Touch(c, f, name), Touch(d, g, name), bound)
  {
    InfoAtTwin(c, d, f, g, bound, name);
    var a, b := InfoAt(c, f, name), InfoAt(d, g, name);
    var layers := if f.layers < |name| + 1 then |name| + 1 else f.layers;
    var f0, g0 := f.(layers := layers), g.(layers := layers);
    forall n | n in f0.trees ensures TwinAt(f0, g0, bound, n) { assert TwinAt(f, g, bound, n); }
    PutTwin(f0, g0, bound, name, a.(marked := true), b.(marked := true));
    var f1, g1 := Forest(layers, f.trees[name := a.(marked := true)]), Forest(layers, g.trees[name := b.(marked := true)]);
    if !a.marked { ClimbTwin(c, d, f1, g1, bound, name); }
  }

  // ----- writes -----

  /** Raising a version below 2^40 by one moves the scalar by one unit of its place. */
  lemma RaiseDelta(a: Node, b: Node, k: nat)
    requires WellFormedNode(a) && WellFormedNode(b) && k <= |a.keyVersions|
    requires
      var va, vb := [a.treeVersion] + a.keyVersions, [b.treeVersion] + b.keyVersions;
      va[k] + 1 < VERSION_SPAN && vb == va[k := va[k] + 1]
    ensures Packed(a) < R && Packed(b) < R && GuardDelta(Packed(a), Packed(b)) == SpanPow(k)
  {
    PackedBound(a);
    PackedBound(b);
    RaisePacks([a.treeVersion] + a.keyVersions, k);
  }

  /** The same step of the commitment, whatever else the trees hold. */
  lemma UpdateTwin(pp: AmtParams, t: Tree, u: Tree, index: nat, delta: nat, bound: nat)
    requires Shaped(pp) && index < Pow2(pp.depths) && t.commitment.Some? && TreeTwin(t, u, bound)
    ensures TreeTwin(Update(pp, t, index, delta), Update(pp, u, index, delta), bound)
  {
    forall i: nat ensures NodeTwin(DataAt(Update(pp, t, index, delta), i), DataAt(Update(pp, u, index, delta), i), bound) {
      assert NodeTwin(DataAt(t, i), DataAt(u, i), bound);
    }
  }

  lemma DataTwin(t: Tree, u: Tree, bound: nat, index: nat, a: Node, b: Node)
    requires TreeTwin(t, u, bound) && NodeTwin(a, b, bound)
    ensures TreeTwin(t.(data := t.data[index := a]), u.(data := u.data[index := b]), bound)
  {
    var t', u' := t.(data := t.data[index := a]), u.(data := u.data[index := b]);
    forall i: nat ensures NodeTwin(DataAt(t', i), DataAt(u', i), bound) { assert NodeTwin(DataAt(t, i), DataAt(u, i), bound); }
  }

  lemma WriteTwin(pp: AmtParams, t: Tree, u: Tree, bound: nat, index: nat, a: Node, b: Node)
    requires Shaped(pp) && index < Pow2(pp.depths) && t.commitment.Some? && TreeTwin(t, u, bound) && NodeTwin(a, b, bound)
    requires WellFormedNode(a) && WellFormedNode(DataAt(t, index)) && WellFormedNode(b) && WellFormedNode(DataAt(u, index))
    requires Packed(DataAt(t, index)) < R && Packed(a) < R && Packed(DataAt(u, index)) < R && Packed(b) < R
    requires GuardDelta(Packed(DataAt(t, index)), Packed(a)) == GuardDelta(Packed(DataAt(u, index)), Packed(b))
    ensures TreeTwin(WriteVersions(pp, t, index, a), WriteVersions(pp, u, index, b), bound)
  {
    DataTwin(t, u, bound, index, a, b);
    UpdateTwin(pp, t.(data := t.data[index := a]), u.(data := u.data[index := b]), index,
               GuardDelta(Packed(DataAt(t, index)), Packed(a)), bound);
  }

  lemma OpenSlotTwin(c: Config, t: Tree, u: Tree, bound: nat, index: nat)
    requires Shaped(c.pp) && index < Pow2(c.pp.depths) && t.commitment.Some? && TreeTwin(t, u, bound)
    requires WellFormedData(t) && WellFormedData(u) && |DataAt(t, index).keyVersions| < MAX_SLOTS
    ensures |DataAt(u, index).keyVersions| < MAX_SLOTS
    ensures TreeTwin(OpenSlot(c, t, index), OpenSlot(c, u, index), bound)
  {
    var a, b := DataAt(t, index), DataAt(u, index);
    assert NodeTwin(a, b, bound);
    var a', b' := a.(keyVersions := a.keyVersions + [0]), b.(keyVersions := b.keyVersions + [0]);
    OpenDelta(a, a');
    OpenDelta(b, b');
    WriteTwin(c.pp, t, u, bound, index, a', b');
  }

  lemma OpenDelta(a: Node, b: Node)
    requires WellFormedNode(a) && |a.keyVersions| < MAX_SLOTS && b == a.(keyVersions := a.keyVersions + [0])
    ensures Packed(a) < R && Packed(b) < R && GuardDelta(Packed(a), Packed(b)) == 0
  {
    PackedBound(a);
    PackedBound(b);
    var va := [a.treeVersion] + a.keyVersions;
    PackAppendZero(va);
    assert va + [0] == [b.treeVersion] + b.keyVersions;
  }

  /** In a shard or not, raising a version is one and the same step of the commitment. */
  lemma RaiseIsUpdate(c: Config, t: Tree, index: nat, slot: nat, inShard: bool)
    requires ValidConfig(c) && index < Pow2(c.pp.depths) && t.commitment.Some? && WellFormedData(t)
    requires slot < |DataAt(t, index).keyVersions| && DataAt(t, index).keyVersions[slot] + 1 < VERSION_SPAN
    ensures
      var a := DataAt(t, index);
      var t1 := if inShard then t.(data := t.data[index := RaisedNode(a, slot)]) else t;
      Raise(c, t, index, slot, inShard) == Some(Update(c.pp, t1, index, SpanPow(slot + 1)))
  {
    if inShard {
      var a := DataAt(t, index);
      var va, vb := [a.treeVersion] + a.keyVersions, [a.treeVersion] + RaisedNode(a, slot).keyVersions;
      assert vb == va[slot + 1 := va[slot + 1] + 1];
      RaiseDelta(a, RaisedNode(a, slot), slot + 1);
    }
  }

  function WithRaised(t: Tree, index: nat, slot: nat, inShard: bool): Tree
    requires slot < |DataAt(t, index).keyVersions|
  {
    if inShard then t.(data := t.data[index := RaisedNode(DataAt(t, index), slot)]) else t
  }

  lemma RaisedTwin(t: Tree, u: Tree, bound: nat, index: nat, slot: nat, inC: bool, inD: bool)
    requires TreeTwin(t, u, bound) && slot < |DataAt(t, index).keyVersions|
    ensures slot < |DataAt(u, index).keyVersions|
    ensures TreeTwin(WithRaised(t, index, slot, inC), WithRaised(u, index, slot, inD), bound + 1)
  {
    assert NodeTwin(DataAt(t, index), DataAt(u, index), bound);
    var t1, u1 := WithRaised(t, index, slot, inC), WithRaised(u, index, slot, inD);
    forall i: nat ensures NodeTwin(DataAt(t1, i), DataAt(u1, i), bound + 1) {
      assert NodeTwin(DataAt(t, i), DataAt(u, i), bound);
    }
  }

  lemma RaiseTwin(c: Config, d: Config, t: Tree, u: Tree, bound: nat, index: nat, slot: nat, inC: bool, inD: bool)
    requires ValidConfig(c) && SamePp(c, d) && index < Pow2(c.pp.depths) && t.commitment.Some?
    requires TreeTwin(t, u, bound) && bound + 1 < VERSION_SPAN && WellFormedData(t) && WellFormedData(u)
    requires slot < |DataAt(t, index).keyVersions|
    ensures
      var r, q := Raise(c, t, index, slot, inC), Raise(d, u, index, slot, inD);
      r.Some? && q.Some? && TreeTwin(r.value, q.value, bound + 1)
  {
    assert NodeTwin(DataAt(t, index), DataAt(u, index), bound);
    RaiseIsUpdate(c, t, index, slot, inC);
    RaiseIsUpdate(d, u, index, slot, inD);
    RaisedTwin(t, u, bound, index, slot, inC, inD);
    UpdateTwin(c.pp, WithRaised(t, index, slot, inC), WithRaised(u, index, slot, inD), index, SpanPow(slot + 1), bound + 1);
  }

  // ----- keys -----

  lemma TouchedTwin(c: Config, d: Config, f: Forest, g: Forest, bound: nat, name: Name)
    requires Twin(f, g, bound) && Healthy(f) && Healthy(g)
    ensures
      var f1, g1 := Touch(c, f, name), Touch(d, g, name);
      && Twin(f1, g1, bound) && Healthy(f1) && Healthy(g1) && name in f1.trees && name in g1.trees
      && f1.trees[name].tree.commitment.Some? && InfoTwin(f1.trees[name], g1.trees[name], bound)
  {
    TouchTwin(c, d, f, g, bound, name);
    TouchHealthy(c, f, name);
    TouchHealthy(d, g, name);
    assert TwinAt(Touch(c, f, name), Touch(d, g, name), bound, name);
  }

  lemma PutTreeTwin(f: Forest, g: Forest, bound: nat, name: Name, t: Tree, u: Tree)
    requires Twin(f, g, bound) && name in f.trees && TreeTwin(t, u, bound)
    ensures Twin(PutTree(f, name, t), PutTree(g, name, u), bound)
  {
    assert TwinAt(f, g, bound, name);
    PutTwin(f, g, bound, name, f.trees[name].(tree := t), g.trees[name].(tree := u));
  }

  /** The slot exists at the key's node of its level. */
  ghost predicate SlotOpen(c: Config, f: Forest, key: Key, info: VerInfo)
    requires ValidConfig(c)
  {
    info.slot < |KvAt(f, TreeAtLevel(c.pp.depths, key, info.level), IndexAtLevel(c.pp.depths, key, info.level))|
  }

  /** Both sides fail, or both give twins and the same slot. */
  ghost predicate ResultTwin(r: Option<(Forest, VerInfo)>, q: Option<(Forest, VerInfo)>, bound: nat) {
    r.Some? == q.Some? && (r.Some? ==> Twin(r.value.0, q.value.0, bound) && r.value.1 == q.value.1)
  }

  lemma AllocateInTwin(c: Config, d: Config, f: Forest, g: Forest, bound: nat, key: Key, level: nat)
    requires ValidConfig(c) && ValidConfig(d) && SamePp(c, d) && Twin(f, g, bound) && Healthy(f) && Healthy(g)
    requires Reached(c, f, key, level) && Reached(d, g, key, level)
    requires ResultTwin(Allocate(c, f, key, level + 1), Allocate(d, g, key, level + 1), bound)
    ensures ResultTwin(AllocateIn(c, f, key, level), AllocateIn(d, g, key, level), bound)
  {
    var name, index := TreeAtLevel(c.pp.depths, key, level), IndexAtLevel(c.pp.depths, key, level);
    assert TwinAt(f, g, bound, name);
    assert NodeTwin(DataAt(f.trees[name].tree, index), DataAt(g.trees[name].tree, index), bound);
    if |DataAt(f.trees[name].tree, index).keyVersions| < MAX_SLOTS { OpenedTwin(c, d, f, g, bound, name, index); }
  }

  /** The same slot is opened, or none is left in either. */
  lemma {:induction false} AllocateTwin(c: Config, d: Config, f: Forest, g: Forest, bound: nat, key: Key, level: nat)
    requires ValidConfig(c) && ValidConfig(d) && SamePp(c, d) && Twin(f, g, bound) && Healthy(f) && Healthy(g)
    ensures ResultTwin(Allocate(c, f, key, level), Allocate(d, g, key, level), bound)
    decreases MAX_LEVEL - level
  {
    if level < MAX_LEVEL && Fits(c.pp.depths, key, level) {
      var name := TreeAtLevel(c.pp.depths, key, level);
      var f1, g1 := Touch(c, f, name), Touch(d, g, name);
      TouchedTwin(c, d, f, g, bound, name);
      AllocateTwin(c, d, f1, g1, bound, key, level + 1);
      AllocateTwinVia(c, d, f, g, bound, key, level);
    }
  }

  lemma AllocateTwinVia(c: Config, d: Config, f: Forest, g: Forest, bound: nat, key: Key, level: nat)
    requires ValidConfig(c) && ValidConfig(d) && SamePp(c, d) && Twin(f, g, bound) && Healthy(f) && Healthy(g)
    requires level < MAX_LEVEL && Fits(c.pp.depths, key, level)
    requires
      var f1, g1 := Touch(c, f, TreeAtLevel(c.pp.depths, key, level)), Touch(d, g, TreeAtLevel(c.pp.depths, key, level));
      && Healthy(f1) && Healthy(g1)
      && ResultTwin(Allocate(c, f1, key, level + 1), Allocate(d, g1, key, level + 1), bound)
    ensures ResultTwin(Allocate(c, f, key, level), Allocate(d, g, key, level), bound)
  {
    var name := TreeAtLevel(c.pp.depths, key, level);
    TouchedTwin(c, d, f, g, bound, name);
    AllocateStep(c, f, key, level);
    AllocateStep(d, g, key, level);
    AllocateInTwin(c, d, Touch(c, f, name), Touch(d, g, name), bound, key, level);
  }

  lemma OpenedTwin(c: Config, d: Config, f: Forest, g: Forest, bound: nat, name: Name, index: nat)
    requires ValidConfig(c) && ValidConfig(d) && SamePp(c, d) && Twin(f, g, bound) && Healthy(f) && Healthy(g)
    requires name in f.trees && f.trees[name].tree.commitment.Some? && index < Pow2(c.pp.depths)
    requires name in g.trees && g.trees[name].tree.commitment.Some?
    requires |DataAt(f.trees[name].tree, index).keyVersions| < MAX_SLOTS
    ensures |DataAt(g.trees[name].tree, index).keyVersions| < MAX_SLOTS
    ensures Twin(PutTree(f, name, OpenSlot(c, f.trees[name].tree, index)), PutTree(g, name, OpenSlot(d, g.trees[name].tree, index)), bound)
  {
    var t, u := f.trees[name].tree, g.trees[name].tree;
    assert TwinAt(f, g, bound, name);
    OpenSlotTwin(c, t, u, bound, index);
    PutTreeTwin(f, g, bound, name, OpenSlot(c, t, index), OpenSlot(d, u, index));
  }

  lemma RaiseKeyTwin(c: Config, d: Config, f: Forest, g: Forest, bound: nat, key: Key, info: VerInfo)
    requires ValidConfig(c) && ValidConfig(d) && SamePp(c, d) && Twin(f, g, bound) && Healthy(f) && Healthy(g)
    requires SlotOpen(c, f, key, info) && bound + 1 < VERSION_SPAN
    ensures ResultTwin(RaiseKey(c, f, key, info), RaiseKey(d, g, key, info), bound + 1)
  {
    var name, index := TreeAtLevel(c.pp.depths, key, info.level), IndexAtLevel(c.pp.depths, key, info.level);
    TouchedTwin(c, d, f, g, bound, name);
    TouchVersions(c, f, name);
    var f1, g1 := Touch(c, f, name), Touch(d, g, name);
    assert KvAt(f1, name, index) == KvAt(f, name, index);
    var t, u := f1.trees[name].tree, g1.trees[name].tree;
    RaiseTwin(c, d, t, u, bound, index, info.slot, InProofShard(c, key), InProofShard(d, key));
    TwinWeaken(f1, g1, bound, bound + 1);
    PutTreeTwin(f1, g1, bound + 1, name,
                Raise(c, t, index, info.slot, InProofShard(c, key)).value, Raise(d, u, index, info.slot, InProofShard(d, key)).value);
  }

  lemma AllocatedOpen(c: Config, f: Forest, key: Key)
    requires ValidConfig(c) && Healthy(f)
    ensures
      var r := Allocate(c, f, key, 0);
      r.Some? ==> SlotOpen(c, r.value.0, key, r.value.1) && SlotsGrow(f, r.value.0)
  {
    AllocateVersions(c, f, key, 0);
  }

  lemma IncKeyVerTwin(c: Config, d: Config, f: Forest, g: Forest, bound: nat, key: Key, version: Option<VerInfo>)
    requires ValidConfig(c) && ValidConfig(d) && SamePp(c, d) && Twin(f, g, bound) && Healthy(f) && Healthy(g)
    requires (version.Some? ==> SlotOpen(c, f, key, version.value)) && bound + 1 < VERSION_SPAN
    ensures ResultTwin(IncKeyVer(c, f, key, version), IncKeyVer(d, g, key, version), bound + 1)
  {
    if version.None? {
      AllocateTwin(c, d, f, g, bound, key, 0);
      AllocatedOpen(c, f, key);
    }
    var start := if version.None? then Allocate(c, f, key, 0) else Some((f, version.value));
    var other := if version.None? then Allocate(d, g, key, 0) else Some((g, version.value));
    if start.Some? { RaiseKeyTwin(c, d, start.value.0, other.value.0, bound, key, start.value.1); }
  }

  // ----- slots stay open -----

  ghost predicate SlotsGrow(f: Forest, g: Forest) {
    forall n: Name, i: nat :: |KvAt(g, n, i)| >= |KvAt(f, n, i)|
  }

  lemma RaiseGrows(c: Config, f: Forest, key: Key, info: VerInfo)
    requires ValidConfig(c) && Healthy(f)
    ensures
      var r := RaiseKey(c, f, key, info);
      r.Some? ==> SlotsGrow(f, r.value.0) && r.value.1 == info.(version := info.version + 1)
  {
    var r := RaiseKey(c, f, key, info);
    if r.Some? {
      var name, index := TreeAtLevel(c.pp.depths, key, info.level), IndexAtLevel(c.pp.depths, key, info.level);
      TouchVersions(c, f, name);
      TouchHealthy(c, f, name);
      var f1 := Touch(c, f, name);
      var t := Raise(c, f1.trees[name].tree, index, info.slot, InProofShard(c, key)).value;
      RaisedLength(c, f1.trees[name].tree, index, info.slot, InProofShard(c, key));
      assert r.value.0 == PutTree(f1, name, t);
      forall n: Name, i: nat ensures |KvAt(r.value.0, n, i)| >= |KvAt(f, n, i)| {
        assert KvAt(f1, n, i) == KvAt(f, n, i);
      }
    }
  }

  lemma RaisedLength(c: Config, t: Tree, index: nat, slot: nat, inShard: bool)
    requires ValidConfig(c) && index < Pow2(c.pp.depths) && t.commitment.Some? && WellFormedData(t)
    ensures
      var r := Raise(c, t, index, slot, inShard);
      r.Some? ==> forall i: nat :: |DataAt(r.value, i).keyVersions| == |DataAt(t, i).keyVersions|
  {
  }

  /** A raised key keeps its slot, and so do all others. */
  lemma IncKeyVerGrows(c: Config, f: Forest, key: Key, version: Option<VerInfo>)
    requires ValidConfig(c) && Healthy(f) && (version.Some? ==> SlotOpen(c, f, key, version.value))
    ensures
      var r := IncKeyVer(c, f, key, version);
      r.Some? ==> SlotsGrow(f, r.value.0) && SlotOpen(c, r.value.0, key, r.value.1)
  {
    if version.None? { AllocatedOpen(c, f, key); }
    var start := if version.None? then Allocate(c, f, key, 0) else Some((f, version.value));
    if start.Some? {
      var (f1, info) := start.value;
      RaiseGrows(c, f1, key, info);
      var r := RaiseKey(c, f1, key, info);
      if r.Some? {
        forall n: Name, i: nat ensures |KvAt(r.value.0, n, i)| >= |KvAt(f, n, i)| {
          assert |KvAt(r.value.0, n, i)| >= |KvAt(f1, n, i)| && |KvAt(f1, n, i)| >= |KvAt(f, n, i)|;
        }
      }
    }
  }

  ghost predicate KeysOpen(c: Config, f: Forest, keys: map<Key, Value>)
    requires ValidConfig(c)
  {
    forall key {:trigger SlotOpen(c, f, key, keys[key].version)} :: key in keys ==> SlotOpen(c, f, key, keys[key].version)
  }

  lemma KeysStayOpen(c: Config, f: Forest, g: Forest, keys: map<Key, Value>)
    requires ValidConfig(c) && KeysOpen(c, f, keys) && SlotsGrow(f, g)
    ensures KeysOpen(c, g, keys)
  {
    forall key | key in keys ensures SlotOpen(c, g, key, keys[key].version) {
      var name, index := TreeAtLevel(c.pp.depths, key, keys[key].version.level), IndexAtLevel(c.pp.depths, key, keys[key].version.level);
      assert SlotOpen(c, f, key, keys[key].version);
      assert |KvAt(g, name, index)| >= |KvAt(f, name, index)|;
    }
  }

  // ----- batches -----

  /** The same batch in progress. */
  ghost predicate BatchTwin(c: Config, keys: map<Key, Value>, base: nat, b: Batch, e: Batch)
    requires ValidConfig(c)
  {
    && Twin(b.forest, e.forest, base + |b.leaves|) && Healthy(b.forest) && Healthy(e.forest)
    && b.written == e.written && b.leaves == e.leaves
    && KeysOpen(c, b.forest, keys) && KeysOpen(c, b.forest, b.written)
  }

  lemma WriteOneTwin(c: Config, d: Config, keys: map<Key, Value>, epoch: nat, base: nat, b: Batch, e: Batch, w: Write)
    requires ValidConfig(c) && ValidConfig(d) && SamePp(c, d) && BatchTwin(c, keys, base, b, e)
    requires base + |b.leaves| + 1 < VERSION_SPAN
    ensures BatchResultTwin(c, keys, base, WriteOne(c, keys, epoch, b, w), WriteOne(d, keys, epoch, e, w))
  {
    WriteOneIs(c, keys, epoch, b, w);
    WriteOneIs(d, keys, epoch, e, w);
    PackagedBoth(c, d, keys, epoch, base, b, e, w);
  }

  lemma PackagedBoth(c: Config, d: Config, keys: map<Key, Value>, epoch: nat, base: nat, b: Batch, e: Batch, w: Write)
    requires ValidConfig(c) && ValidConfig(d) && SamePp(c, d) && BatchTwin(c, keys, base, b, e)
    requires base + |b.leaves| + 1 < VERSION_SPAN
    ensures
      var version := StoredVersion(keys, w.key);
      BatchResultTwin(c, keys, base, Packaged(IncKeyVer(c, b.forest, w.key, version), b, epoch, w),
                      Packaged(IncKeyVer(d, e.forest, w.key, version), e, epoch, w))
  {
    var version := StoredVersion(keys, w.key);
    IncAll(c, d, keys, base, b.forest, e.forest, b.written, b.leaves, w.key);
    PackagedTwin(c, keys, base, IncKeyVer(c, b.forest, w.key, version), IncKeyVer(d, e.forest, w.key, version), b, e, epoch, w);
  }

  /** Both sides raised the key, or neither did. */
  ghost predicate Incremented(c: Config, keys: map<Key, Value>, base: nat, written: map<Key, Value>,
      leaves: seq<Leaf>, key: Key, r: Option<(Forest, VerInfo)>, q: Option<(Forest, VerInfo)>)
    requires ValidConfig(c)
  {
    && ResultTwin(r, q, base + |leaves| + 1)
    && (r.Some? ==> RaisedOk(c, keys, written, key, r.value.0, q.value.0, r.value.1))
  }

  ghost predicate RaisedOk(c: Config, keys: map<Key, Value>, written: map<Key, Value>, key: Key, f: Forest, g: Forest, info: VerInfo)
    requires ValidConfig(c)
  {
    Healthy(f) && Healthy(g) && KeysOpen(c, f, keys) && KeysOpen(c, f, written) && SlotOpen(c, f, key, info)
  }

  /** A raised key joins the batch. */
  function Packaged(r: Option<(Forest, VerInfo)>, b: Batch, epoch: nat, w: Write): Option<Batch> {
    if r.None? then None
    else
      var (f, info) := r.value;
      Some(Batch(f, b.written[w.key := Value(w.value, info, EpochPosition(epoch, |b.leaves|))],
                 b.leaves + [KeyLeaf(w.key, info, w.value)]))
  }

  lemma PackagedTwin(c: Config, keys: map<Key, Value>, base: nat, r: Option<(Forest, VerInfo)>,
      q: Option<(Forest, VerInfo)>, b: Batch, e: Batch, epoch: nat, w: Write)
    requires ValidConfig(c) && Incremented(c, keys, base, b.written, b.leaves, w.key, r, q)
    requires b.written == e.written && b.leaves == e.leaves
    ensures BatchResultTwin(c, keys, base, Packaged(r, b, epoch, w), Packaged(q, e, epoch, w))
  {
    if r.Some? {
      var (f, info) := r.value;
      var v, leaf := Value(w.value, info, EpochPosition(epoch, |b.leaves|)), KeyLeaf(w.key, info, w.value);
      KeysOpenAdd(c, f, b.written, w.key, v);
      NewBatchTwin(c, keys, base, f, q.value.0, b.written[w.key := v], b.leaves, leaf);
    }
  }

  ghost predicate BatchResultTwin(c: Config, keys: map<Key, Value>, base: nat, r: Option<Batch>, q: Option<Batch>)
    requires ValidConfig(c)
  {
    r.Some? == q.Some? && (r.Some? ==> BatchTwin(c, keys, base, r.value, q.value))
  }

  lemma StoredOpen(c: Config, f: Forest, keys: map<Key, Value>, key: Key)
    requires ValidConfig(c) && KeysOpen(c, f, keys)
    ensures StoredVersion(keys, key).Some? ==> SlotOpen(c, f, key, StoredVersion(keys, key).value)
  {
    if key in keys { assert SlotOpen(c, f, key, keys[key].version); }
  }

  /** After a key was raised all slots are open. */
  lemma IncOpen(c: Config, keys: map<Key, Value>, f: Forest, written: map<Key, Value>, key: Key)
    requires ValidConfig(c) && Healthy(f) && KeysOpen(c, f, keys) && KeysOpen(c, f, written)
    ensures
      var r := IncKeyVer(c, f, key, StoredVersion(keys, key));
      r.Some? ==> Healthy(r.value.0) && KeysOpen(c, r.value.0, keys) && KeysOpen(c, r.value.0, written) && SlotOpen(c, r.value.0, key, r.value.1)
  {
    var version := StoredVersion(keys, key);
    StoredOpen(c, f, keys, key);
    IncKeyVerGrows(c, f, key, version);
    var r := IncKeyVer(c, f, key, version);
    if r.Some? {
      KeysStayOpen(c, f, r.value.0, keys);
      KeysStayOpen(c, f, r.value.0, written);
    }
  }

  lemma IncTwin(c: Config, d: Config, keys: map<Key, Value>, bound: nat, f: Forest, g: Forest, key: Key)
    requires ValidConfig(c) && ValidConfig(d) && SamePp(c, d) && Twin(f, g, bound) && Healthy(f) && Healthy(g)
    requires bound + 1 < VERSION_SPAN && KeysOpen(c, f, keys)
    ensures ResultTwin(IncKeyVer(c, f, key, StoredVersion(keys, key)), IncKeyVer(d, g, key, StoredVersion(keys, key)), bound + 1)
  {
    StoredOpen(c, f, keys, key);
    IncKeyVerTwin(c, d, f, g, bound, key, StoredVersion(keys, key));
  }

  lemma IncAll(c: Config, d: Config, keys: map<Key, Value>, base: nat, f: Forest, g: Forest,
      written: map<Key, Value>, leaves: seq<Leaf>, key: Key)
    requires ValidConfig(c) && ValidConfig(d) && SamePp(c, d) && Twin(f, g, base + |leaves|) && Healthy(f) && Healthy(g)
    requires base + |leaves| + 1 < VERSION_SPAN && KeysOpen(c, f, keys) && KeysOpen(c, f, written)
    ensures
      var version := StoredVersion(keys, key);
      Incremented(c, keys, base, written, leaves, key, IncKeyVer(c, f, key, version), IncKeyVer(d, g, key, version))
  {
    IncTwin(c, d, keys, base + |leaves|, f, g, key);
    IncRaised(c, d, keys, f, g, written, key);
  }

  lemma IncRaised(c: Config, d: Config, keys: map<Key, Value>, f: Forest, g: Forest, written: map<Key, Value>, key: Key)
    requires ValidConfig(c) && ValidConfig(d) && Healthy(f) && Healthy(g) && KeysOpen(c, f, keys) && KeysOpen(c, f, written)
    ensures
      var r, q := IncKeyVer(c, f, key, StoredVersion(keys, key)), IncKeyVer(d, g, key, StoredVersion(keys, key));
      r.Some? && q.Some? ==> RaisedOk(c, keys, written, key, r.value.0, q.value.0, r.value.1)
  {
    IncOpen(c, keys, f, written, key);
    IncHealthy(d, g, key, StoredVersion(keys, key));
  }

  lemma IncHealthy(c: Config, f: Forest, key: Key, version: Option<VerInfo>)
    requires ValidConfig(c) && Healthy(f)
    ensures IncKeyVer(c, f, key, version).Some? ==> Healthy(IncKeyVer(c, f, key, version).value.0)
  {
  }

  lemma WriteOneIs(c: Config, keys: map<Key, Value>, epoch: nat, b: Batch, w: Write)
    requires ValidConfig(c) && Healthy(b.forest)
    ensures WriteOne(c, keys, epoch, b, w) == Packaged(IncKeyVer(c, b.forest, w.key, StoredVersion(keys, w.key)), b, epoch, w)
  {
  }

  lemma NewBatchTwin(c: Config, keys: map<Key, Value>, base: nat, f: Forest, g: Forest, written: map<Key, Value>, leaves: seq<Leaf>, leaf: Leaf)
    requires ValidConfig(c) && Twin(f, g, base + |leaves| + 1) && Healthy(f) && Healthy(g)
    requires KeysOpen(c, f, keys) && KeysOpen(c, f, written)
    ensures BatchTwin(c, keys, base, Batch(f, written, leaves + [leaf]), Batch(g, written, leaves + [leaf]))
  {
    assert |leaves + [leaf]| == |leaves| + 1;
  }

  lemma KeysOpenAdd(c: Config, f: Forest, keys: map<Key, Value>, key: Key, v: Value)
    requires ValidConfig(c) && KeysOpen(c, f, keys) && SlotOpen(c, f, key, v.version)
    ensures KeysOpen(c, f, keys[key := v])
  {
    var keys' := keys[key := v];
    forall k | k in keys' ensures SlotOpen(c, f, k, keys'[k].version) {
      if k != key { assert SlotOpen(c, f, k, keys[k].version); }
    }
  }

  lemma {:induction false} LeavesGrow(c: Config, keys: map<Key, Value>, epoch: nat, b: Batch, ws: seq<Write>)
    requires ValidConfig(c) && Healthy(b.forest)
    ensures WriteAll(c, keys, epoch, b, ws).Some? ==> |WriteAll(c, keys, epoch, b, ws).value.leaves| == |b.leaves| + |ws|
    decreases |ws|
  {
    if ws != [] {
      var b1 := WriteOne(c, keys, epoch, b, ws[0]);
      if b1.Some? { LeavesGrow(c, keys, epoch, b1.value, ws[1..]); }
    }
  }

  lemma {:induction false} WriteAllTwin(c: Config, d: Config, keys: map<Key, Value>, epoch: nat, base: nat, b: Batch, e: Batch, ws: seq<Write>)
    requires ValidConfig(c) && ValidConfig(d) && SamePp(c, d) && BatchTwin(c, keys, base, b, e)
    requires base + |b.leaves| + |ws| < VERSION_SPAN
    ensures BatchResultTwin(c, keys, base, WriteAll(c, keys, epoch, b, ws), WriteAll(d, keys, epoch, e, ws))
    decreases |ws|
  {
    if ws != [] {
      WriteOneTwin(c, d, keys, epoch, base, b, e, ws[0]);
      var b1, e1 := WriteOne(c, keys, epoch, b, ws[0]), WriteOne(d, keys, epoch, e, ws[0]);
      if b1.Some? { WriteAllTwin(c, d, keys, epoch, base, b1.value, e1.value, ws[1..]); }
    }
  }

  // ----- commit -----

  ghost predicate ProgressTwin(p: Progress, q: Progress, base: nat) {
    p.leaves == q.leaves && Twin(p.forest, q.forest, base + |p.leaves|)
  }

  /** The parent's node after a push. */
  function PushedNode(a: Node, pos: EpochPosition): Node {
    a.(treeVersion := a.treeVersion + 1, treePosition := pos)
  }

  function WithPushed(t: Tree, index: nat, commitment: Point, pos: EpochPosition): Tree {
    t.(subtreeRoots := t.subtreeRoots[index := commitment], data := t.data[index := PushedNode(DataAt(t, index), pos)])
  }

  lemma PushUpIsUpdate(c: Config, t: Tree, index: nat, commitment: Point, pos: EpochPosition)
    requires Shaped(c.pp) && index < Pow2(c.pp.depths) && t.commitment.Some?
    requires WellFormedNode(DataAt(t, index)) && DataAt(t, index).treeVersion + 1 < VERSION_SPAN
    ensures PushUp(c, t, index, commitment, pos) == Update(c.pp, WithPushed(t, index, commitment, pos), index, 1)
  {
    TreeVersionDelta(DataAt(t, index), PushedNode(DataAt(t, index), pos));
  }

  lemma WithPushedTwin(t: Tree, u: Tree, bound: nat, index: nat, commitment: Point, pos: EpochPosition)
    requires TreeTwin(t, u, bound)
    ensures TreeTwin(WithPushed(t, index, commitment, pos), WithPushed(u, index, commitment, pos), bound + 1)
  {
    var t1, u1 := WithPushed(t, index, commitment, pos), WithPushed(u, index, commitment, pos);
    forall i: nat ensures NodeTwin(DataAt(t1, i), DataAt(u1, i), bound + 1) { assert NodeTwin(DataAt(t, i), DataAt(u, i), bound); }
  }

  lemma PushUpTwin(c: Config, t: Tree, u: Tree, bound: nat, index: nat, commitment: Point, pos: EpochPosition)
    requires Shaped(c.pp) && index < Pow2(c.pp.depths) && t.commitment.Some? && TreeTwin(t, u, bound) && bound + 1 < VERSION_SPAN
    requires WellFormedNode(DataAt(t, index)) && WellFormedNode(DataAt(u, index))
    ensures TreeTwin(PushUp(c, t, index, commitment, pos), PushUp(c, u, index, commitment, pos), bound + 1)
  {
    assert NodeTwin(DataAt(t, index), DataAt(u, index), bound);
    PushUpIsUpdate(c, t, index, commitment, pos);
    PushUpIsUpdate(c, u, index, commitment, pos);
    WithPushedTwin(t, u, bound, index, commitment, pos);
    UpdateTwin(c.pp, WithPushed(t, index, commitment, pos), WithPushed(u, index, commitment, pos), index, 1, bound + 1);
  }

  lemma SameDataTwin(t: Tree, u: Tree, bound: nat, t1: Tree, u1: Tree)
    requires TreeTwin(t, u, bound) && t1.data == t.data && u1.data == u.data
    requires t1.commitment == u1.commitment && t1.dirty == u1.dirty && t1.subtreeRoots == u1.subtreeRoots
    ensures TreeTwin(t1, u1, bound)
  {
    forall i: nat ensures NodeTwin(DataAt(t1, i), DataAt(u1, i), bound) { assert NodeTwin(DataAt(t, i), DataAt(u, i), bound); }
  }

  lemma TreeVersionDelta(a: Node, b: Node)
    requires WellFormedNode(a) && a.treeVersion + 1 < VERSION_SPAN
    requires b.keyVersions == a.keyVersions && b.treeVersion == a.treeVersion + 1
    ensures Packed(a) < R && Packed(b) < R && GuardDelta(Packed(a), Packed(b)) == 1
  {
    var va, vb := [a.treeVersion] + a.keyVersions, [b.treeVersion] + b.keyVersions;
    assert vb == va[0 := va[0] + 1];
    RaiseDelta(a, b, 0);
  }

  lemma ChildPushedTwin(c: Config, d: Config, p: Progress, q: Progress, base: nat, name: Name, index: nat, commitment: Point, epoch: nat)
    requires ValidConfig(c) && ValidConfig(d) && SamePp(c, d) && ProgressTwin(p, q, base) && base + |p.leaves| + 1 < VERSION_SPAN
    requires Closed(c, p.forest) && Closed(d, q.forest) && name in p.forest.trees && index < Pow2(c.pp.depths)
    ensures ProgressTwin(ChildPushed(c, p, name, index, commitment, epoch), ChildPushed(d, q, name, index, commitment, epoch), base)
  {
    assert ClosedAt(c, p.forest, name) && ClosedAt(d, q.forest, name);
    var t, u, pos := p.forest.trees[name].tree, q.forest.trees[name].tree, EpochPosition(epoch, |p.leaves|);
    assert TwinAt(p.forest, q.forest, base + |p.leaves|, name);
    PushUpTwin(c, t, u, base + |p.leaves|, index, commitment, pos);
    ChildPushedIs(c, p, name, index, commitment, epoch);
    ChildPushedIs(d, q, name, index, commitment, epoch);
    PushedTwin(p, q, base, name, index, PushUp(c, t, index, commitment, pos), PushUp(d, u, index, commitment, pos), commitment);
  }

  ghost function Pushing(p: Progress, name: Name, index: nat, t: Tree, commitment: Point): Progress
    requires name in p.forest.trees
  {
    Progress(PutTree(p.forest, name, t), p.leaves + [TreeLeaf(name + [index], DataAt(t, index).treeVersion, commitment)])
  }

  lemma ChildPushedIs(c: Config, p: Progress, name: Name, index: nat, commitment: Point, epoch: nat)
    requires ValidConfig(c) && Closed(c, p.forest) && name in p.forest.trees && index < Pow2(c.pp.depths)
    ensures p.forest.trees[name].tree.commitment.Some? && WellFormedData(p.forest.trees[name].tree)
    ensures ChildPushed(c, p, name, index, commitment, epoch)
         == Pushing(p, name, index, PushUp(c, p.forest.trees[name].tree, index, commitment, EpochPosition(epoch, |p.leaves|)), commitment)
  {
    assert ClosedAt(c, p.forest, name);
  }

  lemma PushedTwin(p: Progress, q: Progress, base: nat, name: Name, index: nat, t: Tree, u: Tree, commitment: Point)
    requires ProgressTwin(p, q, base) && name in p.forest.trees && TreeTwin(t, u, base + |p.leaves| + 1)
    ensures name in q.forest.trees
    ensures ProgressTwin(Pushing(p, name, index, t, commitment), Pushing(q, name, index, u, commitment), base)
  {
    var bound := base + |p.leaves|;
    assert TwinAt(p.forest, q.forest, bound, name);
    TwinWeaken(p.forest, q.forest, bound, bound + 1);
    PutTreeTwin(p.forest, q.forest, bound + 1, name, t, u);
    assert NodeTwin(DataAt(t, index), DataAt(u, index), bound + 1);
  }

  /** A commit in two shards visits the same trees and appends the same leaves. */
  lemma {:induction false} CommitTreeTwin(c: Config, d: Config, p: Progress, q: Progress, base: nat, name: Name, epoch: nat)
    requires Ready(c, p, name) && Ready(d, q, name) && SamePp(c, d) && ProgressTwin(p, q, base)
    requires base + |CommitTree(c, p, name, epoch).0.leaves| < VERSION_SPAN
    ensures CommitsTwin(CommitTree(c, p, name, epoch), CommitTree(d, q, name, epoch), base)
    decreases p.forest.layers - |name|, |p.forest.trees[name].marks| + 1
  {
    var indices := Ascending(p.forest.trees[name].marks);
    AscendingLength(p.forest.trees[name].marks);
    assert TwinAt(p.forest, q.forest, base + |p.leaves|, name);
    CommitTreeIs(c, p, name, indices, epoch);
    CommitTreeIs(d, q, name, indices, epoch);
    ChildrenTwin(c, d, p, q, base, name, indices, epoch);
    FlushedTwin(CommitChildren(c, p, name, indices, epoch), CommitChildren(d, q, name, indices, epoch), base, name,
                CommitTree(c, p, name, epoch), CommitTree(d, q, name, epoch));
  }

  /** What a commit returns once the children are done. */
  ghost predicate Flushed(p: Progress, name: Name, r: (Progress, bool, Point)) {
    && name in p.forest.trees && p.forest.trees[name].tree.commitment.Some?
    && r == (Progress(Flush(p.forest, name), p.leaves), p.forest.trees[name].tree.dirty, p.forest.trees[name].tree.commitment.value)
  }

  ghost predicate CommitsTwin(r: (Progress, bool, Point), r': (Progress, bool, Point), base: nat) {
    ProgressTwin(r.0, r'.0, base) && r.1 == r'.1 && r.2 == r'.2
  }

  lemma FlushedTwin(p: Progress, q: Progress, base: nat, name: Name, r: (Progress, bool, Point), r': (Progress, bool, Point))
    requires ProgressTwin(p, q, base) && Flushed(p, name, r) && Flushed(q, name, r')
    ensures CommitsTwin(r, r', base)
  {
    var bound := base + |p.leaves|;
    assert TwinAt(p.forest, q.forest, bound, name);
    FlushTwin(p.forest, q.forest, bound, name);
  }

  lemma CommitTreeIs(c: Config, p: Progress, name: Name, indices: seq<nat>, epoch: nat)
    requires Ready(c, p, name) && indices == Ascending(p.forest.trees[name].marks)
    ensures ReadyFor(c, p, name, indices) && Flushed(CommitChildren(c, p, name, indices, epoch), name, CommitTree(c, p, name, epoch))
  {
    assert ClosedAt(c, p.forest, name);
    assert Elements(indices) == p.forest.trees[name].marks;
    assert ClosedAt(c, CommitChildren(c, p, name, indices, epoch).forest, name);
  }

  function Flush(f: Forest, name: Name): Forest
    requires name in f.trees
  {
    var info := f.trees[name];
    f.(trees := f.trees[name := TreeInfo(if name == [] then info.tree else info.tree.(dirty := false), false, {})])
  }

  lemma FlushTwin(f: Forest, g: Forest, bound: nat, name: Name)
    requires Twin(f, g, bound) && name in f.trees
    ensures Twin(Flush(f, name), Flush(g, name), bound)
  {
    var a, b := f.trees[name], g.trees[name];
    assert TwinAt(f, g, bound, name);
    var t := if name == [] then a.tree else a.tree.(dirty := false);
    var u := if name == [] then b.tree else b.tree.(dirty := false);
    SameDataTwin(a.tree, b.tree, bound, t, u);
    PutTwin(f, g, bound, name, TreeInfo(t, false, {}), TreeInfo(u, false, {}));
  }

  lemma {:induction false} ChildrenTwin(c: Config, d: Config, p: Progress, q: Progress, base: nat, name: Name, indices: seq<nat>, epoch: nat)
    requires ReadyFor(c, p, name, indices) && ReadyFor(d, q, name, indices) && SamePp(c, d) && ProgressTwin(p, q, base)
    requires base + |CommitChildren(c, p, name, indices, epoch).leaves| < VERSION_SPAN
    ensures ProgressTwin(CommitChildren(c, p, name, indices, epoch), CommitChildren(d, q, name, indices, epoch), base)
    decreases p.forest.layers - |name|, |indices|
  {
    if indices != [] {
      var child := name + [indices[0]];
      assert indices[0] in Elements(indices);
      assert ClosedAt(c, p.forest, child) && ClosedAt(d, q.forest, child);
      var (p1, dirty, commitment) := CommitTree(c, p, child, epoch);
      var (q1, dirty', commitment') := CommitTree(d, q, child, epoch);
      var p2 := if dirty then ChildPushed(c, p1, name, indices[0], commitment, epoch) else p1;
      var q2 := if dirty' then ChildPushed(d, q1, name, indices[0], commitment', epoch) else q1;
      RestReady(c, p, p2, name, indices);
      RestReady(d, q, q2, name, indices);
      ChildrenFrame(c, p2, name, indices[1..], epoch);
      assert |p2.leaves| <= |CommitChildren(c, p, name, indices, epoch).leaves|;
      CommitTreeTwin(c, d, p, q, base, child, epoch);
      if dirty { ChildPushedTwin(c, d, p1, q1, base, name, indices[0], commitment, epoch); }
      ChildrenTwin(c, d, p2, q2, base, name, indices[1..], epoch);
    }
  }

  // ----- runs -----

  /** The same database in two shards. */
  ghost predicate DbTwin(c: Config, d: Config, x: Db, y: Db)
    requires ValidConfig(c)
  {
    && Twin(x.forest, y.forest, TotalLeaves(x.history)) && x.keys == y.keys && x.history == y.history
    && Healthy(x.forest) && Healthy(y.forest) && NamesValid(c, x.forest) && NamesValid(d, y.forest)
    && KeysOpen(c, x.forest, x.keys)
  }

  lemma NewDbTwin(c: Config, d: Config)
    requires ValidConfig(c) && ValidConfig(d) && SamePp(c, d)
    ensures DbTwin(c, d, NewDb(c), NewDb(d))
  {
    NewForestHealthy(c);
    NewForestHealthy(d);
    var f, g := NewForest(c), NewForest(d);
    forall n | n in f.trees ensures TwinAt(f, g, 0, n) {
      assert forall i: nat :: NodeTwin(DataAt(f.trees[n].tree, i), DataAt(g.trees[n].tree, i), 0);
    }
  }

  lemma TotalAppend(hist: Ledger, leaves: seq<Leaf>)
    ensures TotalLeaves(hist + [leaves]) == TotalLeaves(hist) + |leaves|
  {
    assert (hist + [leaves])[..|hist|] == hist;
  }

  /** What a commit makes of a written batch. */
  lemma CommitBatchIs(c: Config, db: Db, ws: seq<Write>, b: Batch)
    requires ValidConfig(c) && Healthy(db.forest) && NamesValid(c, db.forest)
    requires WriteAll(c, db.keys, |db.history|, Batch(db.forest, map[], []), ws) == Some(b)
    ensures Healthy(b.forest) && NamesValid(c, b.forest) && Ready(c, Progress(b.forest, b.leaves), [])
    ensures
      var (p, _, commitment) := CommitTree(c, Progress(b.forest, b.leaves), [], |db.history|);
      CommitBatch(c, db, ws) == Some((Db(p.forest, db.keys + b.written, db.history + [p.leaves]), commitment))
  {
    WriteAllNames(c, db.keys, |db.history|, Batch(db.forest, map[], []), ws);
    HealthyCloses(c, b.forest);
  }

  lemma KeysJoin(c: Config, f: Forest, keys: map<Key, Value>, written: map<Key, Value>)
    requires ValidConfig(c) && KeysOpen(c, f, keys) && KeysOpen(c, f, written)
    ensures KeysOpen(c, f, keys + written)
  {
    var all := keys + written;
    forall key | key in all ensures SlotOpen(c, f, key, all[key].version) {
      if key in written { assert SlotOpen(c, f, key, written[key].version); } else { assert SlotOpen(c, f, key, keys[key].version); }
    }
  }

  /** A successful commit wrote a batch, and the leaves of the batch are among those dumped. */
  lemma CommitWrote(c: Config, x: Db, ws: seq<Write>) returns (b: Batch)
    requires ValidConfig(c) && Healthy(x.forest) && NamesValid(c, x.forest) && CommitBatch(c, x, ws).Some?
    ensures WriteAll(c, x.keys, |x.history|, Batch(x.forest, map[], []), ws) == Some(b) && |b.leaves| == |ws|
    ensures Ready(c, Progress(b.forest, b.leaves), [])
    ensures
      var leaves := CommitTree(c, Progress(b.forest, b.leaves), [], |x.history|).0.leaves;
      |ws| <= |leaves| && TotalLeaves(CommitBatch(c, x, ws).value.0.history) == TotalLeaves(x.history) + |leaves|
  {
    var start := Batch(x.forest, map[], []);
    b := WriteAll(c, x.keys, |x.history|, start, ws).value;
    CommitBatchIs(c, x, ws, b);
    LeavesGrow(c, x.keys, |x.history|, start, ws);
    CommitFrame(c, Progress(b.forest, b.leaves), [], |x.history|);
    TotalAppend(x.history, CommitTree(c, Progress(b.forest, b.leaves), [], |x.history|).0.leaves);
  }

  lemma StartTwin(c: Config, d: Config, x: Db, y: Db)
    requires ValidConfig(c) && DbTwin(c, d, x, y)
    ensures BatchTwin(c, x.keys, TotalLeaves(x.history), Batch(x.forest, map[], []), Batch(y.forest, map[], []))
  {
  }

  /** The batch written in the other shard. */
  lemma WrittenTwin(c: Config, d: Config, x: Db, y: Db, ws: seq<Write>, b: Batch) returns (e: Batch)
    requires ValidConfig(c) && ValidConfig(d) && SamePp(c, d) && DbTwin(c, d, x, y)
    requires WriteAll(c, x.keys, |x.history|, Batch(x.forest, map[], []), ws) == Some(b)
    requires TotalLeaves(x.history) + |ws| < VERSION_SPAN
    ensures WriteAll(d, y.keys, |y.history|, Batch(y.forest, map[], []), ws) == Some(e)
    ensures BatchTwin(c, x.keys, TotalLeaves(x.history), b, e)
  {
    var start, other := Batch(x.forest, map[], []), Batch(y.forest, map[], []);
    StartTwin(c, d, x, y);
    WriteAllTwin(c, d, x.keys, |x.history|, TotalLeaves(x.history), start, other, ws);
    e := WriteAll(d, y.keys, |y.history|, other, ws).value;
  }

  lemma SettledTwin(c: Config, d: Config, keys: map<Key, Value>, base: nat, b: Batch, e: Batch, epoch: nat)
    requires SamePp(c, d) && Ready(c, Progress(b.forest, b.leaves), []) && Ready(d, Progress(e.forest, e.leaves), [])
    requires BatchTwin(c, keys, base, b, e)
    requires base + |CommitTree(c, Progress(b.forest, b.leaves), [], epoch).0.leaves| < VERSION_SPAN
    ensures
      var (p, _, commitment) := CommitTree(c, Progress(b.forest, b.leaves), [], epoch);
      var (q, _, commitment') := CommitTree(d, Progress(e.forest, e.leaves), [], epoch);
      ProgressTwin(p, q, base) && commitment == commitment' && KeysOpen(c, p.forest, keys + b.written)
  {
    var p := Progress(b.forest, b.leaves);
    var p' := CommitTree(c, p, [], epoch).0;
    CommitTreeTwin(c, d, p, Progress(e.forest, e.leaves), base, [], epoch);
    CommitTreeVersions(c, p, [], epoch);
    KeysStayOpen(c, p.forest, p'.forest, keys);
    KeysStayOpen(c, p.forest, p'.forest, b.written);
    KeysJoin(c, p'.forest, keys, b.written);
  }

  /** While fewer than 2^40 leaves were dumped, a commit that succeeds in one shard succeeds in the
      other, with the same commitment and the same leaves. */
  lemma CommitTwin(c: Config, d: Config, x: Db, y: Db, ws: seq<Write>)
    requires ValidConfig(c) && ValidConfig(d) && SamePp(c, d) && DbTwin(c, d, x, y)
    requires CommitBatch(c, x, ws).Some? && TotalLeaves(CommitBatch(c, x, ws).value.0.history) < VERSION_SPAN
    ensures CommitBatch(d, y, ws).Some? && DbTwin(c, d, CommitBatch(c, x, ws).value.0, CommitBatch(d, y, ws).value.0)
    ensures CommitBatch(c, x, ws).value.1 == CommitBatch(d, y, ws).value.1
  {
    var b := CommitWrote(c, x, ws);
    var e := WrittenTwin(c, d, x, y, ws, b);
    SealedTwin(c, d, x, y, ws, b, e);
  }

  lemma SealedTwin(c: Config, d: Config, x: Db, y: Db, ws: seq<Write>, b: Batch, e: Batch)
    requires ValidConfig(c) && ValidConfig(d) && SamePp(c, d) && DbTwin(c, d, x, y)
    requires WriteAll(c, x.keys, |x.history|, Batch(x.forest, map[], []), ws) == Some(b)
    requires WriteAll(d, y.keys, |y.history|, Batch(y.forest, map[], []), ws) == Some(e)
    requires BatchTwin(c, x.keys, TotalLeaves(x.history), b, e) && Ready(c, Progress(b.forest, b.leaves), [])
    requires TotalLeaves(x.history) + |CommitTree(c, Progress(b.forest, b.leaves), [], |x.history|).0.leaves| < VERSION_SPAN
    ensures CommitBatch(c, x, ws).Some? && CommitBatch(d, y, ws).Some?
    ensures DbTwin(c, d, CommitBatch(c, x, ws).value.0, CommitBatch(d, y, ws).value.0)
    ensures CommitBatch(c, x, ws).value.1 == CommitBatch(d, y, ws).value.1
  {
    CommitBatchIs(c, x, ws, b);
    CommitBatchIs(d, y, ws, e);
    SettledTwin(c, d, x.keys, TotalLeaves(x.history), b, e, |x.history|);
    var p, q := CommitTree(c, Progress(b.forest, b.leaves), [], |x.history|).0, CommitTree(d, Progress(e.forest, e.leaves), [], |y.history|).0;
    CommitReady(c, x, ws);
    CommitReady(d, y, ws);
    AssembledTwin(c, d, x, y, b.written, p, q);
  }

  lemma AssembledTwin(c: Config, d: Config, x: Db, y: Db, written: map<Key, Value>, p: Progress, q: Progress)
    requires ValidConfig(c) && x.keys == y.keys && x.history == y.history && ProgressTwin(p, q, TotalLeaves(x.history))
    requires Healthy(p.forest) && Healthy(q.forest) && NamesValid(c, p.forest) && NamesValid(d, q.forest)
    requires KeysOpen(c, p.forest, x.keys + written)
    ensures DbTwin(c, d, Db(p.forest, x.keys + written, x.history + [p.leaves]), Db(q.forest, y.keys + written, y.history + [q.leaves]))
  {
    TotalAppend(x.history, p.leaves);
  }

  /** One more commit of a run. */
  ghost function Extended(c: Config, db: Db, commitments: seq<Point>, ws: seq<Write>): (r: Option<(Db, seq<Point>)>)
    requires ValidConfig(c) && Healthy(db.forest) && NamesValid(c, db.forest)
    ensures r.Some? ==> Healthy(r.value.0.forest) && NamesValid(c, r.value.0.forest)
  {
    CommitReady(c, db, ws);
    var r := CommitBatch(c, db, ws);
    if r.None? then None else Some((r.value.0, commitments + [r.value.1]))
  }

  /** A run in any shard: the state, and what each commit returned. */
  ghost function RunIn(c: Config, batches: seq<seq<Write>>): (r: Option<(Db, seq<Point>)>)
    requires ValidConfig(c)
    ensures r.Some? ==> Healthy(r.value.0.forest) && NamesValid(c, r.value.0.forest)
  {
    if batches == [] then
      NewForestHealthy(c);
      Some((NewDb(c), []))
    else
      var before := RunIn(c, batches[..|batches| - 1]);
      if before.None? then None else Extended(c, before.value.0, before.value.1, batches[|batches| - 1])
  }

  /** Both runs succeeded, with twin states and the same commitments. */
  ghost predicate RunsTwin(c: Config, d: Config, r: Option<(Db, seq<Point>)>, q: Option<(Db, seq<Point>)>)
    requires ValidConfig(c)
  {
    r.Some? && q.Some? && DbTwin(c, d, r.value.0, q.value.0) && r.value.1 == q.value.1
  }

  lemma ExtendedTwin(c: Config, d: Config, x: Db, y: Db, commitments: seq<Point>, ws: seq<Write>)
    requires ValidConfig(c) && ValidConfig(d) && SamePp(c, d) && DbTwin(c, d, x, y)
    requires Extended(c, x, commitments, ws).Some? && TotalLeaves(Extended(c, x, commitments, ws).value.0.history) < VERSION_SPAN
    ensures RunsTwin(c, d, Extended(c, x, commitments, ws), Extended(d, y, commitments, ws))
  {
    CommitTwin(c, d, x, y, ws);
  }

  /** Roots do not depend on sharding: whatever the shards, runs over the same batches return the same
      commitments and dump the same leaves, hence the same Merkle roots, epoch by epoch. */
  lemma {:induction false} RootsAgree(c: Config, d: Config, batches: seq<seq<Write>>)
    requires ValidConfig(c) && ValidConfig(d) && SamePp(c, d)
    requires RunIn(c, batches).Some? && TotalLeaves(RunIn(c, batches).value.0.history) < VERSION_SPAN
    ensures RunsTwin(c, d, RunIn(c, batches), RunIn(d, batches))
    ensures RunIn(c, batches).value.0.history == RunIn(d, batches).value.0.history
  {
    if batches == [] {
      NewDbTwin(c, d);
    } else {
      var front, last := batches[..|batches| - 1], batches[|batches| - 1];
      var (x, commitments) := RunIn(c, front).value;
      CommitTotal(c, x, last);
      RootsAgree(c, d, front);
      ExtendedTwin(c, d, x, RunIn(d, front).value.0, commitments, last);
    }
  }

  lemma CommitTotal(c: Config, db: Db, ws: seq<Write>)
    requires ValidConfig(c) && Healthy(db.forest) && NamesValid(c, db.forest) && CommitBatch(c, db, ws).Some?
    ensures TotalLeaves(db.history) <= TotalLeaves(CommitBatch(c, db, ws).value.0.history)
  {
    var b := WriteAll(c, db.keys, |db.history|, Batch(db.forest, map[], []), ws).value;
    CommitBatchIs(c, db, ws, b);
    TotalAppend(db.history, CommitTree(c, Progress(b.forest, b.leaves), [], |db.history|).0.leaves);
  }

  // ----- which keys a shard serves -----

  /** The two tests of a shard look at opposite ends of the root index: data is kept where the high
      bits of the index name the shard (for a single leaf, where its sibling does), the siblings of
      an opening where the reversed low bits do. */
  lemma ShardTests(cfg: Config, key: Key)
    requires ValidConfig(cfg) && cfg.shard.Some? && InTree(cfg.shard.value, cfg.pp.depths)
    ensures
      var shard, depths, index := cfg.shard.value, cfg.pp.depths, IndexAtLevel(cfg.pp.depths, key, 0);
      && (InProofShard(cfg, key) <==>
            if shard.depth < depths then Shr(index, depths - shard.depth) == shard.index else FlipLow(index) == shard.index)
      && (PathMaintained(LeafOf(index, depths), shard) <==> BitReverse(index, shard.depth) == shard.index)
  {
    PathTest(cfg.shard.value, cfg.pp.depths, IndexAtLevel(cfg.pp.depths, key, 0));
  }

  lemma PathTest(shard: NodeIndex, depths: nat, index: nat)
    requires InTree(shard, depths)
    ensures PathMaintained(LeafOf(index, depths), shard) <==> BitReverse(index, shard.depth) == shard.index
  {
    PathExact(LeafOf(index, depths), shard, depths);
    AncestorIsShorterReversal(index, depths, depths - shard.depth);
  }

  /** The trees below a root leaf are kept whole, with all their openings, exactly where the shard keeps
      the data of the keys there. */
  lemma SubtreeShard(cfg: Config, key: Key, level: nat)
    requires ValidConfig(cfg) && level > 0
    ensures ShardOf(cfg, TreeAtLevel(cfg.pp.depths, key, level)) == if InProofShard(cfg, key) then Some(ROOT) else None
    ensures ShardOf(cfg, []) == cfg.shard
  {
    FirstDigit(cfg.pp.depths, key, level);
  }

  lemma {:induction false} FirstDigit(depths: nat, key: Key, level: nat)
    requires ValidDepths(depths) && level > 0
    ensures TreeAtLevel(depths, key, level)[0] == IndexAtLevel(depths, key, 0)
  {
    if level > 1 { FirstDigit(depths, key, level - 1); }
  }

  /** Whatever shard below the root, some index passes the first test and fails the second. */
  lemma ShardMisses(depths: nat, shard: NodeIndex) returns (index: nat)
    requires InTree(shard, depths) && 0 < shard.depth < depths
    ensures index < Pow2(depths) && NeedsMaintain(NodeIndex(depths, index), shard)
    ensures !PathMaintained(LeafOf(index, depths), shard)
  {
    var d, h := shard.depth, depths - shard.depth;
    var even := Shl(shard.index, h);
    index := if shard.index < Pow2(d - 1) then even + 1 else even;
    ShlBound(shard.index, d, h);
    ShrShl(shard.index, h);
    ShlEven(shard.index, h);
    OddAlike(even, h);
    assert Pow2(depths) == 2 * Pow2(depths - 1);
    PathTest(shard, depths, index);
    assert BitReverse(index, d) == (if index % 2 == 1 then Pow2(d - 1) else 0) + BitReverse(index / 2, d - 1);
  }

  lemma {:induction false} ShlEven(x: nat, h: nat)
    requires h > 0
    ensures Shl(x, h) % 2 == 0
    decreases h
  {
    if h > 1 { ShlEven(2 * x, h - 1); }
  }

  lemma OddAlike(even: nat, h: nat)
    requires even % 2 == 0 && h > 0
    ensures Shr(even + 1, h) == Shr(even, h)
  {
    assert (even + 1) / 2 == even / 2;
  }
}
