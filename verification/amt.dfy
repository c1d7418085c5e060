/** The authenticated multipoint tree: a vector commitment to 2^depths scalars, with the
    sibling commitments and quotients of every opening maintained under point updates. */
module Amt {
  import opened Basics
  import opened Scalar
  import opened Bits
  import opened NodeIndices
  import opened ProveParams
  import opened VersionNode

  datatype AmtNode = AmtNode(commitment: Point, proof: Point)

  const EMPTY_NODE := AmtNode(0, 0)

  datatype Tree = Tree(
    data: map<nat, Node>,
    subtreeRoots: map<nat, Point>,
    inner: map<NodeIndex, AmtNode>,
    commitment: Option<Point>,
    dirty: bool,
    shard: Option<NodeIndex>)

  function NewTree(shard: Option<NodeIndex>): Tree {
    Tree(map[], map[], map[], None, false, shard)
  }

  // Entries that were never written read as the default value.

  function DataAt(t: Tree, i: nat): Node {
    if i in t.data then t.data[i] else DEFAULT_NODE
  }

  function SubtreeRoot(t: Tree, i: nat): Point {
    if i in t.subtreeRoots then t.subtreeRoots[i] else 0
  }

  function InnerAt(inner: map<NodeIndex, AmtNode>, n: NodeIndex): AmtNode {
    if n in inner then inner[n] else EMPTY_NODE
  }

  function SetCommitment(t: Tree, c: Point): Tree {
    if t.commitment.None? then t.(commitment := Some(c)) else t
  }

  // ----- update -----

  function Bump(n: AmtNode, incComm: Point, incProof: Point): AmtNode {
    AmtNode(Add(n.commitment, incComm), Add(n.proof, incProof))
  }

  function LeafOf(index: nat, depths: nat): NodeIndex {
    NodeIndex(depths, BitReverse(index, depths))
  }

  /** The maintained nodes above a leaf, from `height` upward. */
  function UpdateInner(
      pp: AmtParams, inner: map<NodeIndex, AmtNode>, shard: NodeIndex, index: nat, delta: nat, height: nat)
    : map<NodeIndex, AmtNode>
    requires Shaped(pp) && index < Pow2(pp.depths) && height <= pp.depths
    decreases pp.depths - height
  {
    if height == pp.depths then inner
    else
      var d := pp.depths - height;
      var n := ToAncestor(LeafOf(index, pp.depths), height);
      var inner' :=
        if NeedsMaintain(n, shard) then
          inner[n := Bump(InnerAt(inner, n), Scale(delta, pp.commitments[index]),
                          Scale(delta, pp.quotients[d - 1][index]))]
        else inner;
      UpdateInner(pp, inner', shard, index, delta, height + 1)
  }

  /** Adds `delta` to the scalar at `index`. */
  function Update(pp: AmtParams, t: Tree, index: nat, delta: nat): Tree
    requires Shaped(pp) && index < Pow2(pp.depths) && t.commitment.Some?
  {
    if delta == 0 then t
    else
      t.(dirty := true,
         commitment := Some(Add(t.commitment.value, Scale(delta, pp.commitments[index]))),
         inner := if t.shard.None? then t.inner
                  else UpdateInner(pp, t.inner, t.shard.value, index, delta, 0))
  }

  /** The loop over the ancestors of a leaf. */
  method UpdateTree(pp: AmtParams, t: Tree, index: nat, delta: nat) returns (t': Tree)
    requires Shaped(pp) && index < Pow2(pp.depths) && t.commitment.Some?
    ensures t' == Update(pp, t, index, delta)
  {
    t' := t;
    if delta == 0 { return; }
    t' := t'.(dirty := true);
    var incComm := Scale(delta, pp.commitments[index]);
    t' := t'.(commitment := Some(Add(t'.commitment.value, incComm)));
    if t'.shard.None? { return; }
    var leafIndex := ReverseBits(index, pp.depths);
    var nodeIndex := NodeIndex(pp.depths, leafIndex);
    var inner := t'.inner;
    for height := 0 to pp.depths
      invariant UpdateInner(pp, inner, t.shard.value, index, delta, height)
             == UpdateInner(pp, t.inner, t.shard.value, index, delta, 0)
    {
      var depth := pp.depths - height;
      var visit := ToAncestor(nodeIndex, height);
      if NeedsMaintain(visit, t'.shard.value) {
        var proof := Scale(delta, pp.quotients[depth - 1][index]);
        inner := inner[visit := Bump(InnerAt(inner, visit), incComm, proof)];
      }
    }
    t' := t'.(inner := inner);
  }

  /** What the loop does to one node. */
  lemma {:induction false} UpdateInnerAt(
      pp: AmtParams, inner: map<NodeIndex, AmtNode>, shard: NodeIndex, index: nat, delta: nat, height: nat, n: NodeIndex)
    requires Shaped(pp) && index < Pow2(pp.depths) && height <= pp.depths
    ensures
      InnerAt(UpdateInner(pp, inner, shard, index, delta, height), n)
      == if 1 <= n.depth <= pp.depths - height && n.index == BitReverse(index, n.depth) && NeedsMaintain(n, shard) then
           Bump(InnerAt(inner, n), Scale(delta, pp.commitments[index]), Scale(delta, pp.quotients[n.depth - 1][index]))
         else InnerAt(inner, n)
    decreases pp.depths - height
  {
    if height < pp.depths {
      var d := pp.depths - height;
      AncestorIsShorterReversal(index, pp.depths, height);
      var m := ToAncestor(LeafOf(index, pp.depths), height);
      var inner' :=
        if NeedsMaintain(m, shard) then
          inner[m := Bump(InnerAt(inner, m), Scale(delta, pp.commitments[index]),
                          Scale(delta, pp.quotients[d - 1][index]))]
        else inner;
      UpdateInnerAt(pp, inner', shard, index, delta, height + 1, n);
    }
  }

  // ----- what the tree commits to -----

  ghost function Terms(c: seq<Point>, vals: seq<int>): (terms: seq<int>)
    requires |vals| == |c|
    ensures |terms| == |c|
  {
    seq(|c|, i requires 0 <= i < |c| => vals[i] * c[i])
  }

  /** The sum of the terms below `n` at indices whose low `d` bits are `k`. */
  ghost function ClassSum(terms: seq<int>, d: nat, k: nat, n: nat): int
    requires n <= |terms|
  {
    if n == 0 then 0
    else ClassSum(terms, d, k, n - 1) + if Low(n - 1, d) == k then terms[n - 1] else 0
  }

  /** The residue of a class sum over all leaves. */
  ghost function ClassPoint(c: seq<Point>, vals: seq<int>, d: nat, k: nat): Point
    requires |vals| == |c|
  {
    Norm(ClassSum(Terms(c, vals), d, k, |c|))
  }

  ghost predicate CommitsTo(pp: AmtParams, t: Tree, vals: seq<int>)
    requires Shaped(pp)
  {
    && |vals| == Pow2(pp.depths)
    && t.commitment == Some(ClassPoint(pp.commitments, vals, 0, 0))
  }

  ghost predicate NodeHolds(pp: AmtParams, t: Tree, vals: seq<int>, d: nat, k: nat)
    requires Shaped(pp) && |vals| == Pow2(pp.depths) && 1 <= d <= pp.depths
  {
    InnerAt(t.inner, NodeIndex(d, BitReverse(k, d)))
    == AmtNode(ClassPoint(pp.commitments, vals, d, k), ClassPoint(pp.quotients[d - 1], vals, d, k))
  }

  /** The commitment covers all leaves, and each maintained node exactly the leaves below it:
      those whose reversed index starts with the node's. */
  ghost predicate Represents(pp: AmtParams, t: Tree, vals: seq<int>)
    requires Shaped(pp)
  {
    && CommitsTo(pp, t, vals)
    && (t.shard.Some? ==>
          forall d: nat, k: nat ::
            (1 <= d <= pp.depths && k < Pow2(d) && NeedsMaintain(NodeIndex(d, BitReverse(k, d)), t.shard.value))
            ==> NodeHolds(pp, t, vals, d, k))
  }

  lemma {:induction false} ZeroSum(terms: seq<int>, d: nat, k: nat, n: nat)
    requires n <= |terms| && forall i :: 0 <= i < n ==> terms[i] == 0
    ensures ClassSum(terms, d, k, n) == 0
  {
    if n > 0 { ZeroSum(terms, d, k, n - 1); }
  }

  lemma ZeroPoint(c: seq<Point>, vals: seq<int>, d: nat, k: nat)
    requires |vals| == |c| && forall i :: 0 <= i < |vals| ==> vals[i] == 0
    ensures ClassPoint(c, vals, d, k) == 0
  {
    ZeroSum(Terms(c, vals), d, k, |c|);
  }

  /** A fresh tree with a zero commitment holds zeros everywhere. */
  lemma FreshRepresents(pp: AmtParams, shard: Option<NodeIndex>, vals: seq<int>)
    requires Shaped(pp) && |vals| == Pow2(pp.depths) && forall i :: 0 <= i < |vals| ==> vals[i] == 0
    ensures Represents(pp, SetCommitment(NewTree(shard), 0), vals)
  {
    ZeroPoint(pp.commitments, vals, 0, 0);
    forall d: nat, k: nat | 1 <= d <= pp.depths
      ensures NodeHolds(pp, SetCommitment(NewTree(shard), 0), vals, d, k)
    {
      ZeroPoint(pp.commitments, vals, d, k);
      ZeroPoint(pp.quotients[d - 1], vals, d, k);
    }
  }

  lemma {:induction false} ClassSumUpdate(terms: seq<int>, d: nat, k: nat, n: nat, index: nat, x: int)
    requires n <= |terms| && index < |terms|
    ensures ClassSum(terms[index := terms[index] + x], d, k, n)
         == ClassSum(terms, d, k, n) + if index < n && Low(index, d) == k then x else 0
  {
    if n > 0 { ClassSumUpdate(terms, d, k, n - 1, index, x); }
  }

  lemma PointUpdate(c: seq<Point>, vals: seq<int>, d: nat, k: nat, index: nat, delta: int)
    requires |vals| == |c| && index < |vals|
    ensures
      var before := ClassPoint(c, vals, d, k);
      ClassPoint(c, vals[index := vals[index] + delta], d, k)
      == if Low(index, d) == k then Add(before, Scale(delta, c[index])) else before
  {
    var terms, x := Terms(c, vals), delta * c[index];
    AddTimes(vals[index], delta, c[index]);
    assert Terms(c, vals[index := vals[index] + delta]) == terms[index := terms[index] + x];
    ClassSumUpdate(terms, d, k, |c|, index, x);
    NormAdd(ClassSum(terms, d, k, |c|), x);
  }

  lemma AddTimes(a: int, b: int, c: int)
    ensures (a + b) * c == a * c + b * c
  {
  }

  /** An update of one index moves the value at that index and nothing else. */
  lemma UpdateRepresents(pp: AmtParams, t: Tree, vals: seq<int>, index: nat, delta: nat)
    requires Shaped(pp) && Represents(pp, t, vals) && index < Pow2(pp.depths)
    ensures Represents(pp, Update(pp, t, index, delta), vals[index := vals[index] + delta])
  {
    var t', vals' := Update(pp, t, index, delta), vals[index := vals[index] + delta];
    if delta == 0 {
      assert vals' == vals;
    } else {
      PointUpdate(pp.commitments, vals, 0, 0, index, delta);
      if t.shard.Some? {
        forall d: nat, k: nat | 1 <= d <= pp.depths && k < Pow2(d)
          && NeedsMaintain(NodeIndex(d, BitReverse(k, d)), t.shard.value)
          ensures NodeHolds(pp, t', vals', d, k)
        {
          UpdateHolds(pp, t, vals, index, delta, d, k);
        }
      }
    }
  }

  lemma UpdateHolds(pp: AmtParams, t: Tree, vals: seq<int>, index: nat, delta: nat, d: nat, k: nat)
    requires Shaped(pp) && |vals| == Pow2(pp.depths) && index < Pow2(pp.depths) && delta != 0
    requires t.commitment.Some? && t.shard.Some?
    requires 1 <= d <= pp.depths && k < Pow2(d) && NeedsMaintain(NodeIndex(d, BitReverse(k, d)), t.shard.value)
    requires NodeHolds(pp, t, vals, d, k)
    ensures NodeHolds(pp, Update(pp, t, index, delta), vals[index := vals[index] + delta], d, k)
  {
    var c, q := pp.commitments, pp.quotients[d - 1];
    UpdateInnerAt(pp, t.inner, t.shard.value, index, delta, 0, NodeIndex(d, BitReverse(k, d)));
    ReverseOfLow(index, d);
    if Low(index, d) != k && BitReverse(index, d) == BitReverse(k, d) {
      ReverseInjective(Low(index, d), k, d);
    }
    PointUpdate(c, vals, d, k, index, delta);
    PointUpdate(q, vals, d, k, index, delta);
  }

  // ----- guarded writes -----

  const TWO_256: nat := 0x1_0000_0000_0000_0000_0000_0000_0000_0000_0000_0000_0000_0000_0000_0000_0000_0000

  /** The residue of 2^256 modulo the order: what the field's parameters call `R`. The order itself
      is their `MODULUS`. */
  const MONTGOMERY: nat := 0x0e0a_77c1_9a07_df2f_666e_a36f_7879_462e_36fc_7695_9f60_cd29_ac96_341c_4fff_fffb

  const MONTGOMERY_INVERSE: nat := 9915499612839321149637521777990102151350674507940716049588462388200839649614

  lemma MontgomeryResidue()
    ensures MONTGOMERY == TWO_256 % R && Norm(MONTGOMERY_INVERSE * MONTGOMERY) == 1
  {
  }

  /** The change of a node's scalar, as the write guard computes it on 256-bit integers:
      subtract with wrap-around, and on a borrow add the residue of 2^256. */
  function GuardDelta(old_: nat, new_: nat): (delta: nat)
    requires old_ < R && new_ < R
    ensures old_ < PACKED_SPAN ==> delta == new_ - old_ + if new_ < old_ then MONTGOMERY else 0
  {
    if new_ < old_ then (new_ - old_ + TWO_256 + MONTGOMERY) % TWO_256 else new_ - old_
  }

  /** The guard's change is the difference modulo the order exactly when nothing is borrowed. */
  lemma GuardDeltaExact(old_: nat, new_: nat)
    requires old_ < R && new_ < R
    ensures Norm(old_ + GuardDelta(old_, new_)) == Norm(new_) <==> new_ >= old_
  {
    if new_ < old_ {
      var diff := new_ - old_ + MONTGOMERY;
      MontgomeryResidue();
      assert GuardDelta(old_, new_) == if diff >= 0 then diff else diff + TWO_256;
      if Norm(old_ + GuardDelta(old_, new_)) == Norm(new_) {
        var k := NormQuotient(old_ + GuardDelta(old_, new_), new_);
        assert false;
      }
    }
  }

  ghost predicate WellFormedNode(node: Node) {
    |node.keyVersions| <= MAX_SLOTS
  }

  /** Replaces the node at `index` through a write guard. */
  function WriteVersions(pp: AmtParams, t: Tree, index: nat, node: Node): Tree
    requires Shaped(pp) && index < Pow2(pp.depths) && t.commitment.Some?
    requires WellFormedNode(node) && WellFormedNode(DataAt(t, index))
  {
    PackedBound(node); PackedBound(DataAt(t, index));
    var delta := GuardDelta(Packed(DataAt(t, index)), Packed(node));
    Update(pp, t.(data := t.data[index := node]), index, delta)
  }

  ghost predicate WellFormedData(t: Tree) {
    forall i :: i in t.data ==> WellFormedNode(t.data[i])
  }

  /** What the guarded writes have added up to at a node: its scalar, and one residue of 2^256
      for each time a group wrapped. */
  function Carried(node: Node): nat {
    Packed(node) + MONTGOMERY * Wraps(Versions(node))
  }

  /** The values the commitment of a tree holds. */
  ghost function Scalars(t: Tree, n: nat): (vals: seq<int>)
    ensures |vals| == n && forall i :: 0 <= i < n ==> vals[i] == Carried(DataAt(t, i))
  {
    seq(n, i requires 0 <= i < n => Carried(DataAt(t, i)))
  }

  /** The tree is consistent: its commitment and maintained nodes are those of its own data. */
  ghost predicate Consistent(pp: AmtParams, t: Tree)
    requires Shaped(pp)
  {
    WellFormedData(t) && Represents(pp, t, Scalars(t, Pow2(pp.depths)))
  }

  /** A step of the versions that the store makes: one counted up, or a slot opened at zero. */
  ghost predicate Counts(vs: seq<nat>, vs': seq<nat>) {
    vs' == vs + [0] || exists k :: 0 <= k < |vs| && vs' == vs[k := vs[k] + 1]
  }

  /** Counting a version up by one borrows exactly when its low 40 bits are all ones. */
  lemma RaiseBorrows(a: Node, b: Node, k: nat)
    requires k <= |a.keyVersions| && Versions(b) == Versions(a)[k := Versions(a)[k] + 1]
    ensures Packed(b) < Packed(a) <==> Versions(a)[k] % VERSION_SPAN == MAX_VERSION_NUMBER
    ensures
      if Versions(a)[k] % VERSION_SPAN == MAX_VERSION_NUMBER then Wraps(Versions(b)) == Wraps(Versions(a)) + 1
      else Packed(b) > Packed(a) && Wraps(Versions(b)) == Wraps(Versions(a))
  {
    RaisePacks(Versions(a), k);
    RaiseWraps(Versions(a), k);
  }

  lemma RaisePacks(vs: seq<nat>, k: nat)
    requires k < |vs|
    ensures
      var before, after := PackVersions(vs), PackVersions(vs[k := vs[k] + 1]);
      if vs[k] % VERSION_SPAN == MAX_VERSION_NUMBER then before == after + SpanPow(k) * MAX_VERSION_NUMBER && after < before
      else after == before + SpanPow(k)
  {
    var v := vs[k];
    PackUpdate(vs, k, v + 1);
    CountStep(v);
    PlaceStep(SpanPow(k), v % VERSION_SPAN, (v + 1) % VERSION_SPAN);
  }

  lemma RaiseWraps(vs: seq<nat>, k: nat)
    requires k < |vs|
    ensures Wraps(vs[k := vs[k] + 1]) == Wraps(vs) + if vs[k] % VERSION_SPAN == MAX_VERSION_NUMBER then 1 else 0
  {
    WrapsUpdate(vs, k, vs[k] + 1);
    CountStep(vs[k]);
  }

  lemma PlaceStep(unit: nat, low: nat, next: nat)
    requires unit >= 1 && (next == low + 1 || (next == 0 && low == MAX_VERSION_NUMBER))
    ensures unit * (next - low) == if next == 0 then -(unit * MAX_VERSION_NUMBER) else unit
    ensures unit * MAX_VERSION_NUMBER >= 1
  {
  }

  /** At the wrap the guard's change is not the difference: the smallest write that shows it. */
  lemma WrapMisses()
    ensures
      var a := DEFAULT_NODE.(treeVersion := MAX_VERSION_NUMBER);
      var b := DEFAULT_NODE.(treeVersion := MAX_VERSION_NUMBER + 1);
      && Packed(a) == MAX_VERSION_NUMBER && Packed(b) == 0
      && Norm(Packed(a) + GuardDelta(Packed(a), Packed(b))) != Norm(Packed(b))
  {
    var a := DEFAULT_NODE.(treeVersion := MAX_VERSION_NUMBER);
    var b := DEFAULT_NODE.(treeVersion := MAX_VERSION_NUMBER + 1);
    assert Versions(a) == [MAX_VERSION_NUMBER] && Versions(b) == [VERSION_SPAN];
    assert PackVersions([]) == 0 && [VERSION_SPAN][1..] == [] && [MAX_VERSION_NUMBER][1..] == [];
    assert PackVersions([VERSION_SPAN]) == 0 && PackVersions([MAX_VERSION_NUMBER]) == MAX_VERSION_NUMBER;
    GuardDeltaExact(Packed(a), Packed(b));
  }

  /** Every counting step moves the committed value along with the data, wrapped or not. */
  lemma GuardCarries(a: Node, b: Node)
    requires WellFormedNode(a) && WellFormedNode(b) && Counts(Versions(a), Versions(b))
    ensures Packed(a) < R && Packed(b) < R && Carried(b) == Carried(a) + GuardDelta(Packed(a), Packed(b))
  {
    PackedBound(a);
    PackedBound(b);
    CountsCarry(Versions(a), Versions(b));
    CarryStep(Packed(a), Packed(b), Wraps(Versions(a)), Wraps(Versions(b)));
  }

  /** A group wraps in a counting step exactly when the scalar falls. */
  lemma CountsCarry(vs: seq<nat>, vs': seq<nat>)
    requires Counts(vs, vs')
    ensures Wraps(vs') == Wraps(vs) + if PackVersions(vs') < PackVersions(vs) then 1 else 0
  {
    if vs' == vs + [0] {
      PackAppendZero(vs);
      WrapsAppendZero(vs);
    } else {
      var k :| 0 <= k < |vs| && vs' == vs[k := vs[k] + 1];
      RaiseCarries(vs, k);
    }
  }

  lemma RaiseCarries(vs: seq<nat>, k: nat)
    requires k < |vs|
    ensures
      var vs' := vs[k := vs[k] + 1];
      Wraps(vs') == Wraps(vs) + if PackVersions(vs') < PackVersions(vs) then 1 else 0
  {
    RaisePacks(vs, k);
    RaiseWraps(vs, k);
  }

  lemma CarryStep(packed: nat, packed': nat, wraps: nat, wraps': nat)
    requires packed < PACKED_SPAN && packed' < R && wraps' == wraps + if packed' < packed then 1 else 0
    ensures packed' + MONTGOMERY * wraps' == packed + MONTGOMERY * wraps + GuardDelta(packed, packed')
  {
  }

  /** A guarded write of any node moves the committed value by the guard's change. */
  lemma WriteRepresents(pp: AmtParams, t: Tree, vals: seq<int>, index: nat, node: Node)
    requires Shaped(pp) && Represents(pp, t, vals) && index < Pow2(pp.depths)
    requires WellFormedNode(node) && WellFormedNode(DataAt(t, index))
    requires Packed(DataAt(t, index)) < R && Packed(node) < R
    ensures
      var delta := GuardDelta(Packed(DataAt(t, index)), Packed(node));
      Represents(pp, WriteVersions(pp, t, index, node), vals[index := vals[index] + delta])
  {
    var t1 := t.(data := t.data[index := node]);
    assert Represents(pp, t1, vals) by { SameInnerRepresents(pp, t, t1, vals); }
    UpdateRepresents(pp, t1, vals, index, GuardDelta(Packed(DataAt(t, index)), Packed(node)));
  }

  lemma WriteFrames(pp: AmtParams, t: Tree, index: nat, node: Node)
    requires Shaped(pp) && index < Pow2(pp.depths) && t.commitment.Some?
    requires WellFormedNode(node) && WellFormedNode(DataAt(t, index))
    ensures
      var t' := WriteVersions(pp, t, index, node);
      && t'.data == t.data[index := node] && t'.subtreeRoots == t.subtreeRoots && t'.shard == t.shard
      && t'.commitment.Some? && (t.dirty ==> t'.dirty) && (!t'.dirty ==> t'.commitment == t.commitment)
  {
  }

  /** Consistency depends on the data and the commitments alone. */
  lemma SameDataConsistent(pp: AmtParams, t: Tree, t': Tree)
    requires Shaped(pp) && Consistent(pp, t) && t'.data == t.data
    requires t'.inner == t.inner && t'.commitment == t.commitment && t'.shard == t.shard
    ensures Consistent(pp, t')
  {
    var n := Pow2(pp.depths);
    assert Scalars(t', n) == Scalars(t, n);
    SameInnerRepresents(pp, t, t', Scalars(t, n));
  }

  /** The guarded writes of the store keep a tree consistent. */
  lemma WriteVersionsConsistent(pp: AmtParams, t: Tree, index: nat, node: Node)
    requires Shaped(pp) && Consistent(pp, t) && index < Pow2(pp.depths) && WellFormedNode(node)
    requires Counts(Versions(DataAt(t, index)), Versions(node))
    ensures Consistent(pp, WriteVersions(pp, t, index, node))
  {
    var n := Pow2(pp.depths);
    var vals, t' := Scalars(t, n), WriteVersions(pp, t, index, node);
    GuardCarries(DataAt(t, index), node);
    WriteRepresents(pp, t, vals, index, node);
    WrittenScalars(t, t', n, index, node);
  }

  lemma WrittenScalars(t: Tree, t': Tree, n: nat, index: nat, node: Node)
    requires index < n && t'.data == t.data[index := node]
    ensures Scalars(t', n) == Scalars(t, n)[index := Carried(node)]
  {
  }

  lemma SameInnerRepresents(pp: AmtParams, t: Tree, t': Tree, vals: seq<int>)
    requires Shaped(pp) && Represents(pp, t, vals)
    requires t'.inner == t.inner && t'.commitment == t.commitment && t'.shard == t.shard
    ensures Represents(pp, t', vals)
  {
    if t.shard.Some? {
      forall d: nat, k: nat | 1 <= d <= pp.depths && k < Pow2(d)
        && NeedsMaintain(NodeIndex(d, BitReverse(k, d)), t.shard.value)
        ensures NodeHolds(pp, t', vals, d, k)
      {
        assert NodeHolds(pp, t, vals, d, k);
      }
    }
  }

  // ----- openings -----

  function Prove(depths: nat, t: Tree, index: nat): (proof: seq<AmtNode>)
    ensures |proof| == depths
  {
    seq(depths, i requires 0 <= i < depths => InnerAt(t.inner, Opened(depths, index, i + 1)))
  }

  /** The node a proof of `index` opens at depth `d`. */
  function Opened(depths: nat, index: nat, d: nat): NodeIndex
    requires d <= depths
  {
    OpenedAt(LeafOf(index, depths), d)
  }

  predicate CanProve(t: Tree) {
    t.shard == Some(ROOT)
  }

  method ProveIndex(pp: AmtParams, t: Tree, index: nat) returns (r: Option<seq<AmtNode>>)
    ensures r == if CanProve(t) then Some(Prove(pp.depths, t, index)) else None
  {
    if !CanProve(t) { return None; }
    var leafIndex := ReverseBits(index, pp.depths);
    var nodeIndex := NodeIndex(pp.depths, leafIndex);
    var answers := new AmtNode[pp.depths](_ => EMPTY_NODE);
    var visitDepth := pp.depths;
    while visitDepth >= 1
      invariant 0 <= visitDepth <= pp.depths
      invariant forall i :: visitDepth <= i < pp.depths ==> answers[i] == InnerAt(t.inner, Opened(pp.depths, index, i + 1))
    {
      var visitHeight := pp.depths - visitDepth;
      var sibling := ToSibling(ToAncestor(nodeIndex, visitHeight));
      answers[visitDepth - 1] := InnerAt(t.inner, sibling);
      visitDepth := visitDepth - 1;
    }
    assert answers[..] == Prove(pp.depths, t, index);
    r := Some(answers[..]);
  }

  /** The commitments of the first `n` opened nodes, added up. */
  function OpenedTotal(proof: seq<AmtNode>, n: nat): Point
    requires n <= |proof|
  {
    if n == 0 then 0 else Add(OpenedTotal(proof, n - 1), proof[n - 1].commitment)
  }

  function SiblingVerification(pp: AmtParams, d: nat, index: nat): Point
    requires Shaped(pp) && 1 <= d <= pp.depths
  {
    pp.verification[d - 1][FlipTop(Low(index, d), d)]
  }

  ghost predicate PairingHolds(pp: AmtParams, index: nat, proof: seq<AmtNode>, i: nat)
    requires Shaped(pp) && i < |proof| && i < pp.depths
  {
    Pairing(proof[i].commitment, pp.g2) == Pairing(proof[i].proof, SiblingVerification(pp, i + 1, index))
  }

  ghost predicate CommitmentMatches(pp: AmtParams, index: nat, value: int, commitment: Point, proof: seq<AmtNode>)
    requires Shaped(pp) && index < Pow2(pp.depths)
  {
    commitment == Add(Scale(value, pp.commitments[index]), OpenedTotal(proof, |proof|))
  }

  ghost predicate Verifies(pp: AmtParams, index: nat, value: int, commitment: Point, proof: seq<AmtNode>)
    requires Shaped(pp) && index < Pow2(pp.depths) && |proof| <= pp.depths
  {
    && CommitmentMatches(pp, index, value, commitment, proof)
    && forall i :: 0 <= i < |proof| ==> PairingHolds(pp, index, proof, i)
  }

  /** The opening is longer than the tree is deep, and nothing before its first surplus node fails. */
  ghost predicate Overruns(pp: AmtParams, index: nat, value: int, commitment: Point, proof: seq<AmtNode>)
    requires Shaped(pp) && index < Pow2(pp.depths)
  {
    && |proof| > pp.depths && CommitmentMatches(pp, index, value, commitment, proof)
    && forall i :: 0 <= i < pp.depths ==> PairingHolds(pp, index, proof, i)
  }

  /** The commitment is compared first, then the pairings in turn; `None` is the panic on a node
      below the leaves. */
  method Verify(pp: AmtParams, index: nat, value: int, commitment: Point, proof: seq<AmtNode>) returns (r: Option<bool>)
    requires Shaped(pp) && index < Pow2(pp.depths)
    ensures r.None? <==> Overruns(pp, index, value, commitment, proof)
    ensures r.Some? ==> (r.value <==> |proof| <= pp.depths && Verifies(pp, index, value, commitment, proof))
  {
    var selfIndent := Scale(value, pp.commitments[index]);
    var others := 0;
    for i := 0 to |proof|
      invariant others == OpenedTotal(proof, i)
    {
      others := Add(others, proof[i].commitment);
    }
    if commitment != Add(selfIndent, others) { return Some(false); }
    for idx := 0 to |proof|
      invariant idx <= pp.depths && forall i :: 0 <= i < idx ==> PairingHolds(pp, index, proof, i)
    {
      if idx == pp.depths { return None; }
      var node, depth := proof[idx], idx + 1;
      if Pairing(node.commitment, pp.g2) != Pairing(node.proof, SiblingVerification(pp, depth, index)) {
        assert !PairingHolds(pp, index, proof, idx);
        return Some(false);
      }
    }
    return Some(true);
  }

  /** The leaves agreeing with `index` on `d` bits are those agreeing on one more bit and
      those below the sibling. */
  lemma {:induction false} ClassSplit(terms: seq<int>, d: nat, index: nat, n: nat)
    requires n <= |terms|
    ensures
      ClassSum(terms, d, Low(index, d), n)
      == ClassSum(terms, d + 1, Low(index, d + 1), n)
         + ClassSum(terms, d + 1, FlipTop(Low(index, d + 1), d + 1), n)
  {
    if n > 0 {
      ClassSplit(terms, d, index, n - 1);
      LowStep(index, d);
      LowStep(n - 1, d);
    }
  }

  lemma {:induction false} SingletonSum(terms: seq<int>, d: nat, index: nat, n: nat)
    requires n <= |terms| && n <= Pow2(d) && index < Pow2(d)
    ensures ClassSum(terms, d, index, n) == if index < n then terms[index] else 0
  {
    if n > 0 {
      SingletonSum(terms, d, index, n - 1);
      LowAll(n - 1, d);
    }
  }

  lemma OpenedIndex(depths: nat, index: nat, d: nat)
    requires 1 <= d <= depths
    ensures Opened(depths, index, d) == NodeIndex(d, BitReverse(FlipTop(Low(index, d), d), d))
  {
    AncestorIsShorterReversal(index, depths, depths - d);
    ReverseOfLow(index, d);
    SiblingReversal(Low(index, d), d);
  }

  /** The node opened at depth `d` covers the leaves below the sibling. */
  lemma OpenedNode(pp: AmtParams, t: Tree, vals: seq<int>, index: nat, d: nat)
    requires Shaped(pp) && Represents(pp, t, vals) && CanProve(t) && 1 <= d <= pp.depths
    ensures
      var k := FlipTop(Low(index, d), d);
      Prove(pp.depths, t, index)[d - 1]
      == AmtNode(ClassPoint(pp.commitments, vals, d, k), ClassPoint(pp.quotients[d - 1], vals, d, k))
  {
    var k := FlipTop(Low(index, d), d);
    OpenedIndex(pp.depths, index, d);
    RootShardMaintains(NodeIndex(d, BitReverse(k, d)));
    assert NodeHolds(pp, t, vals, d, k);
  }

  lemma RootShardMaintains(n: NodeIndex)
    requires n.index < Pow2(n.depth)
    ensures NeedsMaintain(n, ROOT)
  {
    if n.depth > 0 { ShiftsOut(n.index, n.depth); }
  }

  ghost predicate Splits(a: seq<int>, b: seq<int>, i: nat)
    requires i < |b| && |a| == |b| + 1
  {
    a[i] == a[i + 1] + b[i]
  }

  /** Telescoping: `a[i]` splits into `a[i + 1]` and `b[i]`, and the proof holds the residues of `b`. */
  lemma {:induction false} Telescope(a: seq<int>, b: seq<int>, proof: seq<AmtNode>, n: nat)
    requires |a| == |b| + 1 && |b| == |proof| && n <= |proof|
    requires forall i :: 0 <= i < |b| ==> Splits(a, b, i)
    requires forall i :: 0 <= i < |b| ==> proof[i].commitment == Norm(b[i])
    ensures Norm(a[0]) == Norm(a[n] + OpenedTotal(proof, n))
  {
    if n > 0 {
      Telescope(a, b, proof, n - 1);
      assert Splits(a, b, n - 1);
      MoveTerm(a[n], b[n - 1], OpenedTotal(proof, n - 1));
    }
  }

  ghost function PathSums(terms: seq<int>, index: nat, depths: nat): seq<int> {
    seq(depths + 1, d requires 0 <= d <= depths => ClassSum(terms, d, Low(index, d), |terms|))
  }

  ghost function SiblingSums(terms: seq<int>, index: nat, depths: nat): seq<int> {
    seq(depths, i requires 0 <= i < depths => ClassSum(terms, i + 1, FlipTop(Low(index, i + 1), i + 1), |terms|))
  }

  ghost predicate OpensSibling(terms: seq<int>, index: nat, proof: seq<AmtNode>, i: nat)
    requires i < |proof|
  {
    proof[i].commitment == Norm(ClassSum(terms, i + 1, FlipTop(Low(index, i + 1), i + 1), |terms|))
  }

  lemma SumsSplitAt(terms: seq<int>, index: nat, depths: nat, i: nat)
    requires i < depths
    ensures Splits(PathSums(terms, index, depths), SiblingSums(terms, index, depths), i)
  {
    ClassSplit(terms, i, index, |terms|);
  }

  lemma SumsSplit(terms: seq<int>, index: nat, depths: nat)
    ensures forall i :: 0 <= i < depths ==>
      Splits(PathSums(terms, index, depths), SiblingSums(terms, index, depths), i)
  {
    forall i | 0 <= i < depths
      ensures Splits(PathSums(terms, index, depths), SiblingSums(terms, index, depths), i)
    {
      SumsSplitAt(terms, index, depths, i);
    }
  }

  lemma SumsOpened(terms: seq<int>, index: nat, proof: seq<AmtNode>)
    requires forall i :: 0 <= i < |proof| ==> OpensSibling(terms, index, proof, i)
    ensures forall i :: 0 <= i < |proof| ==>
      proof[i].commitment == Norm(SiblingSums(terms, index, |proof|)[i])
  {
    forall i | 0 <= i < |proof|
      ensures proof[i].commitment == Norm(SiblingSums(terms, index, |proof|)[i])
    {
      assert OpensSibling(terms, index, proof, i);
    }
  }

  /** The sums of the opened nodes and the class of the index make up the whole. */
  lemma OpenedSum(terms: seq<int>, index: nat, proof: seq<AmtNode>)
    requires forall i :: 0 <= i < |proof| ==> OpensSibling(terms, index, proof, i)
    ensures Norm(ClassSum(terms, 0, 0, |terms|))
         == Norm(ClassSum(terms, |proof|, Low(index, |proof|), |terms|) + OpenedTotal(proof, |proof|))
  {
    var a, b := PathSums(terms, index, |proof|), SiblingSums(terms, index, |proof|);
    SumsSplit(terms, index, |proof|);
    SumsOpened(terms, index, proof);
    Telescope(a, b, proof, |proof|);
  }

  lemma MoveTerm(a: int, b: int, s: Point)
    ensures Norm((a + b) + s) == Norm(a + Add(s, Norm(b)))
  {
    NormIdem(b);
    NormIdem(s + Norm(b));
    CongAdd(s, s, Norm(b), b);
    CongAdd(a, a, Add(s, Norm(b)), s + b);
  }

  /** Bilinearity: a class whose members share the residue `k` factors through the key of `k`. */
  lemma {:induction false} ClassFactors(pp: AmtParams, vals: seq<int>, d: nat, k: nat, n: nat)
    requires Shaped(pp) && Factors(pp) && 1 <= d <= pp.depths && k < Pow2(d)
    requires n <= |vals| == Pow2(pp.depths)
    ensures Norm(ClassSum(Terms(pp.commitments, vals), d, k, n) * pp.g2)
         == Norm(ClassSum(Terms(pp.quotients[d - 1], vals), d, k, n) * pp.verification[d - 1][k])
  {
    if n > 0 {
      var i, q := n - 1, pp.quotients[d - 1];
      ClassFactors(pp, vals, d, k, i);
      if Low(i, d) == k {
        FactorsAt(pp, d, i, k);
        BilinearStep(ClassSum(Terms(pp.commitments, vals), d, k, i), ClassSum(Terms(q, vals), d, k, i),
                     vals[i], pp.commitments[i], q[i], pp.g2, pp.verification[d - 1][k]);
      }
    }
  }

  lemma FactorsAt(pp: AmtParams, d: nat, i: nat, k: nat)
    requires Shaped(pp) && Factors(pp) && 1 <= d <= pp.depths && i < Pow2(pp.depths) && Low(i, d) == k < Pow2(d)
    ensures Pairing(pp.commitments[i], pp.g2) == Pairing(pp.quotients[d - 1][i], pp.verification[d - 1][k])
  {
    assert Pairing(pp.commitments[i], pp.g2) == Pairing(pp.quotients[d - 1][i], pp.verification[d - 1][Low(i, d)]);
  }

  lemma BilinearStep(a: int, b: int, v: int, c: int, q: int, g: int, h: int)
    requires Norm(a * g) == Norm(b * h) && Norm(c * g) == Norm(q * h)
    ensures Norm((a + v * c) * g) == Norm((b + v * q) * h)
  {
    CongMul(v, v, c * g, q * h);
    CongAdd(a * g, b * h, v * (c * g), v * (q * h));
    Spread(a, v, c, g);
    Spread(b, v, q, h);
  }

  lemma Spread(a: int, v: int, c: int, g: int)
    ensures (a + v * c) * g == a * g + v * (c * g)
  {
  }

  lemma TermsCheck(terms: seq<int>, index: nat, proof: seq<AmtNode>)
    requires index < |terms| == Pow2(|proof|)
    requires forall i :: 0 <= i < |proof| ==> OpensSibling(terms, index, proof, i)
    ensures Norm(ClassSum(terms, 0, 0, |terms|)) == Add(Norm(terms[index]), OpenedTotal(proof, |proof|))
  {
    OpenedSum(terms, index, proof);
    LowAll(index, |proof|);
    SingletonSum(terms, |proof|, index, |terms|);
    NormPlus(terms[index], OpenedTotal(proof, |proof|));
  }

  lemma CommitmentChecks(pp: AmtParams, t: Tree, vals: seq<int>, index: nat)
    requires Shaped(pp) && Represents(pp, t, vals) && CanProve(t) && index < Pow2(pp.depths)
    ensures t.commitment.value
         == Add(Scale(vals[index], pp.commitments[index]), OpenedTotal(Prove(pp.depths, t, index), pp.depths))
  {
    var proof, terms := Prove(pp.depths, t, index), Terms(pp.commitments, vals);
    forall i | 0 <= i < |proof|
      ensures OpensSibling(terms, index, proof, i)
    {
      OpenedNode(pp, t, vals, index, i + 1);
    }
    TermsCheck(terms, index, proof);
  }

  lemma NormPlus(x: int, p: Point)
    ensures Norm(x + p) == Add(Norm(x), p)
  {
    NormIdem(x);
    CongAdd(Norm(x), x, p, p);
  }

  lemma PairingChecks(pp: AmtParams, t: Tree, vals: seq<int>, index: nat, i: nat)
    requires Shaped(pp) && Factors(pp) && Represents(pp, t, vals) && CanProve(t) && i < pp.depths
    ensures PairingHolds(pp, index, Prove(pp.depths, t, index), i)
  {
    var d := i + 1;
    var k := FlipTop(Low(index, d), d);
    OpenedNode(pp, t, vals, index, d);
    ClassFactors(pp, vals, d, k, |vals|);
    NormTimes(ClassSum(Terms(pp.commitments, vals), d, k, |vals|), pp.g2);
    NormTimes(ClassSum(Terms(pp.quotients[d - 1], vals), d, k, |vals|), pp.verification[d - 1][k]);
  }

  /** Completeness: whatever values a tree represents, the opening of every index verifies. */
  lemma OpeningVerifies(pp: AmtParams, t: Tree, vals: seq<int>, index: nat)
    requires Shaped(pp) && Factors(pp) && Represents(pp, t, vals) && CanProve(t) && index < Pow2(pp.depths)
    ensures Verifies(pp, index, vals[index], t.commitment.value, Prove(pp.depths, t, index))
  {
    var proof := Prove(pp.depths, t, index);
    CommitmentChecks(pp, t, vals, index);
    forall i | 0 <= i < |proof| ensures PairingHolds(pp, index, proof, i) {
      PairingChecks(pp, t, vals, index, i);
    }
  }

  /** The opening of an index verifies for exactly the claims that agree with the value committed
      at that index; what stands at other indices does not matter. */
  lemma OpeningExact(pp: AmtParams, t: Tree, vals: seq<int>, index: nat, value: int)
    requires Shaped(pp) && Factors(pp) && Represents(pp, t, vals) && CanProve(t) && index < Pow2(pp.depths)
    ensures Verifies(pp, index, value, t.commitment.value, Prove(pp.depths, t, index))
       <==> Scale(value - vals[index], pp.commitments[index]) == 0
  {
    var base, proof := pp.commitments[index], Prove(pp.depths, t, index);
    OpeningVerifies(pp, t, vals, index);
    AddCancels(Scale(value, base), Scale(vals[index], base), OpenedTotal(proof, |proof|));
    AddTimes(value, -vals[index], base);
    DifferenceVanishes(value * base, vals[index] * base);
  }

  // ----- what the pairings pin down -----

  /** Every verification key is a unit, since the commitment bases are. */
  lemma KeyUnit(pp: AmtParams, d: nat, k: nat)
    requires Shaped(pp) && Factors(pp) && Regular(pp) && Unit(pp.g2) && 1 <= d <= pp.depths && k < Pow2(d)
    ensures Unit(pp.verification[d - 1][k])
  {
    LowAll(k, d);
    Pow2Mono(d, pp.depths);
    FactorsAt(pp, d, k, k);
    OtherUnit(pp.commitments[k], pp.g2, pp.quotients[d - 1][k], pp.verification[d - 1][k]);
  }

  /** In two accepted openings of an index, whatever they claim and against whatever commitments, the
      two points of a node determine each other. */
  lemma OpeningRigid(
      pp: AmtParams, index: nat, value: int, c: Point, proof: seq<AmtNode>, value': int, c': Point, proof': seq<AmtNode>, i: nat)
    requires Shaped(pp) && Factors(pp) && Regular(pp) && Unit(pp.g2) && index < Pow2(pp.depths)
    requires i < |proof| <= pp.depths && i < |proof'| <= pp.depths
    requires Verifies(pp, index, value, c, proof) && Verifies(pp, index, value', c', proof')
    ensures proof[i].commitment == proof'[i].commitment <==> proof[i].proof == proof'[i].proof
  {
    var d := i + 1;
    KeyUnit(pp, d, FlipTop(Low(index, d), d));
    assert PairingHolds(pp, index, proof, i) && PairingHolds(pp, index, proof', i);
    UnitInjective(proof[i].commitment, proof'[i].commitment, pp.g2);
    UnitInjective(proof[i].proof, proof'[i].proof, SiblingVerification(pp, d, index));
  }

  /** An accepted opening with another proof point in one node is rejected. */
  lemma ProofPointExact(pp: AmtParams, index: nat, value: int, c: Point, proof: seq<AmtNode>, i: nat, x: Point)
    requires Shaped(pp) && Factors(pp) && Regular(pp) && Unit(pp.g2) && index < Pow2(pp.depths)
    requires i < |proof| <= pp.depths && Verifies(pp, index, value, c, proof)
    ensures Verifies(pp, index, value, c, proof[i := proof[i].(proof := x)]) <==> x == proof[i].proof
  {
    var other := proof[i := proof[i].(proof := x)];
    if Verifies(pp, index, value, c, other) { OpeningRigid(pp, index, value, c, proof, value, c, other, i); }
    if x == proof[i].proof { assert other == proof; }
  }

  lemma AddCancels(a: Point, b: Point, c: Point)
    ensures Add(a, c) == Add(b, c) <==> a == b
  {
  }

  /** The scalar of the data is accepted at an index of a consistent tree exactly when the wraps of
      that node vanish in the group. */
  lemma DataOpens(pp: AmtParams, t: Tree, index: nat)
    requires Shaped(pp) && Factors(pp) && Consistent(pp, t) && CanProve(t) && index < Pow2(pp.depths)
    ensures t.commitment.Some?
    ensures Verifies(pp, index, Packed(DataAt(t, index)), t.commitment.value, Prove(pp.depths, t, index))
       <==> Scale(Wraps(Versions(DataAt(t, index))), pp.commitments[index]) == 0
  {
    var node, base := DataAt(t, index), pp.commitments[index];
    OpeningExact(pp, t, Scalars(t, Pow2(pp.depths)), index, Packed(node));
    CarriedVanishes(node, base);
  }

  lemma CarriedVanishes(node: Node, base: Point)
    ensures Scale(Packed(node) - Carried(node), base) == 0 <==> Scale(Wraps(Versions(node)), base) == 0
  {
    MontgomeryUnit();
    MultipleVanishes(MONTGOMERY, Wraps(Versions(node)), base, Packed(node));
  }

  lemma MultipleVanishes(m: Point, wraps: nat, base: Point, packed: nat)
    requires Unit(m)
    ensures Scale(packed - (packed + m * wraps), base) == 0 <==> Scale(wraps, base) == 0
  {
    UnitCancels(m, wraps * base);
    assert (packed - (packed + m * wraps)) * base == -(wraps * base * m) by {
      assert packed - (packed + m * wraps) == -(m * wraps);
      assert -(m * wraps) * base == -((m * wraps) * base);
      assert (m * wraps) * base == wraps * base * m;
    }
    NegatedVanishes(wraps * base * m);
  }

  lemma MontgomeryUnit()
    ensures MONTGOMERY < R && Unit(MONTGOMERY)
  {
    MontgomeryResidue();
    assert Scale(MONTGOMERY_INVERSE, MONTGOMERY) == 1;
  }

  lemma NegatedVanishes(x: int)
    ensures Norm(-x) == 0 <==> Norm(x) == 0
  {
    DifferenceVanishes(0, x);
  }

  /** With counters of 64 bits and regular parameters, the wraps vanish only if there are none. */
  lemma WrapsVanish(pp: AmtParams, index: nat, node: Node)
    requires Shaped(pp) && Regular(pp) && index < Pow2(pp.depths) && WellFormedNode(node) && Counters64(node)
    ensures Scale(Wraps(Versions(node)), pp.commitments[index]) == 0 <==> AllFit(Versions(node))
  {
    var vs := Versions(node);
    assert Unit(pp.commitments[index]);
    UnitCancels(pp.commitments[index], Wraps(vs));
    FewWraps(vs);
    WrapsNone(vs);
  }

  lemma FewWraps(vs: seq<nat>)
    requires |vs| <= 6 && forall i :: 0 <= i < |vs| ==> vs[i] < TWO_64
    ensures Wraps(vs) < R
  {
    WrapsBound(vs, TWO_64);
    MonoTimes(|vs|, 6, TWO_64);
  }

  lemma MonoTimes(a: nat, b: nat, c: nat)
    requires a <= b
    ensures a * c <= b * c
  {
  }

  const TWO_64: nat := 0x1_0000_0000_0000_0000

  /** The versions are unsigned 64-bit integers. */
  ghost predicate Counters64(node: Node) {
    forall i :: 0 <= i < |Versions(node)| ==> Versions(node)[i] < TWO_64
  }

  lemma NormTimes(a: int, b: int)
    ensures Norm(Norm(a) * b) == Norm(a * b)
  {
    NormIdem(a);
    CongMul(Norm(a), a, b, b);
  }
}
