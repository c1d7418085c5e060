/** A leaf of a version tree and its packing into one scalar: six 40-bit versions, the
    subtree's version lowest, then up to five key versions. */
module VersionNode {
  import opened Basics
  import opened Scalar

  const VERSION_SPAN: nat := 0x100_0000_0000
  const MAX_VERSION_NUMBER: nat := VERSION_SPAN - 1
  const MAX_SLOTS: nat := 5

  datatype EpochPosition = EpochPosition(epoch: nat, position: nat)

  datatype Node = Node(keyVersions: seq<nat>, treeVersion: nat, treePosition: EpochPosition)

  const DEFAULT_NODE := Node([], 0, EpochPosition(0, 0))

  function PackVersions(vs: seq<nat>): nat {
    if vs == [] then 0 else vs[0] % VERSION_SPAN + VERSION_SPAN * PackVersions(vs[1..])
  }

  /** The versions of a node in the order of their groups. */
  function Versions(node: Node): (vs: seq<nat>)
    ensures |vs| == 1 + |node.keyVersions|
  {
    [node.treeVersion] + node.keyVersions
  }

  /** The scalar of a node; each version contributes its low 40 bits. */
  function Packed(node: Node): nat {
    PackVersions([node.treeVersion] + node.keyVersions)
  }

  /** The 40-bit group number `index` of a scalar. */
  function FrVersion(fr: nat, index: nat): nat {
    if index == 0 then fr % VERSION_SPAN else FrVersion(fr / VERSION_SPAN, index - 1)
  }

  lemma {:induction false} UnpackVersions(vs: seq<nat>, k: nat)
    requires k < |vs|
    ensures FrVersion(PackVersions(vs), k) == vs[k] % VERSION_SPAN
  {
    if k > 0 { UnpackVersions(vs[1..], k - 1); }
  }

  /** Reading a packed version gives it back exactly when it fits in 40 bits. */
  lemma UnpackNode(node: Node, k: nat)
    requires k <= |node.keyVersions|
    ensures
      var v := if k == 0 then node.treeVersion else node.keyVersions[k - 1];
      FrVersion(Packed(node), k) == v <==> v < VERSION_SPAN
  {
    UnpackVersions([node.treeVersion] + node.keyVersions, k);
  }

  function SpanPow(k: nat): (p: nat)
    ensures p >= 1
  {
    if k == 0 then 1 else VERSION_SPAN * SpanPow(k - 1)
  }

  lemma {:induction false} PackBound(vs: seq<nat>)
    ensures PackVersions(vs) < SpanPow(|vs|)
  {
    if vs != [] { PackBound(vs[1..]); }
  }

  lemma {:induction false} SpanPowMono(a: nat, b: nat)
    requires a <= b
    ensures SpanPow(a) <= SpanPow(b)
  {
    if a < b { SpanPowMono(a, b - 1); }
  }

  /** The span of six groups, 2^240. */
  const PACKED_SPAN: nat := 0x1_0000000000_0000000000_0000000000_0000000000_0000000000_0000000000

  /** A node's scalar has 240 bits, and is below the field order. */
  lemma PackedBound(node: Node)
    requires |node.keyVersions| <= MAX_SLOTS
    ensures Packed(node) < PACKED_SPAN < R
  {
    PackBound([node.treeVersion] + node.keyVersions);
    SpanPowMono(1 + |node.keyVersions|, 6);
    assert SpanPow(6) == VERSION_SPAN * (VERSION_SPAN * (VERSION_SPAN * (VERSION_SPAN * (VERSION_SPAN * VERSION_SPAN)))) by {
      assert SpanPow(1) == VERSION_SPAN;
      assert SpanPow(2) == VERSION_SPAN * SpanPow(1);
      assert SpanPow(3) == VERSION_SPAN * SpanPow(2);
      assert SpanPow(4) == VERSION_SPAN * SpanPow(3);
      assert SpanPow(5) == VERSION_SPAN * SpanPow(4);
    }
  }

  /** Writing slot `k` moves the scalar by the change of that version, shifted to its place. */
  lemma {:induction false} PackUpdate(vs: seq<nat>, k: nat, v: nat)
    requires k < |vs|
    ensures PackVersions(vs[k := v]) - PackVersions(vs)
         == SpanPow(k) * (v % VERSION_SPAN - vs[k] % VERSION_SPAN)
  {
    if k == 0 {
      assert vs[0 := v][1..] == vs[1..];
    } else {
      PackUpdate(vs[1..], k - 1, v);
      assert vs[k := v][1..] == vs[1..][k - 1 := v];
    }
  }

  /** Opening a slot with version 0 leaves the scalar alone. */
  lemma {:induction false} PackAppendZero(vs: seq<nat>)
    ensures PackVersions(vs + [0]) == PackVersions(vs)
  {
    if vs != [] {
      PackAppendZero(vs[1..]);
      assert (vs + [0])[1..] == vs[1..] + [0];
    }
  }

  // ----- wraps -----

  /** How often counting up to these versions, one by one, left a group at all ones. */
  function Wraps(vs: seq<nat>): nat {
    if vs == [] then 0 else vs[0] / VERSION_SPAN + Wraps(vs[1..])
  }

  predicate AllFit(vs: seq<nat>) {
    forall i :: 0 <= i < |vs| ==> vs[i] < VERSION_SPAN
  }

  /** No group has wrapped exactly when every version fits. */
  lemma {:induction false} WrapsNone(vs: seq<nat>)
    ensures Wraps(vs) == 0 <==> AllFit(vs)
  {
    if vs != [] {
      WrapsNone(vs[1..]);
      assert vs[0] / VERSION_SPAN == 0 <==> vs[0] < VERSION_SPAN;
      assert AllFit(vs) <==> vs[0] < VERSION_SPAN && AllFit(vs[1..]) by {
        assert forall i :: 1 <= i < |vs| ==> vs[i] == vs[1..][i - 1];
      }
    }
  }

  lemma {:induction false} WrapsUpdate(vs: seq<nat>, k: nat, v: nat)
    requires k < |vs|
    ensures Wraps(vs[k := v]) - Wraps(vs) == v / VERSION_SPAN - vs[k] / VERSION_SPAN
  {
    if k == 0 {
      assert vs[0 := v][1..] == vs[1..];
    } else {
      WrapsUpdate(vs[1..], k - 1, v);
      assert vs[k := v][1..] == vs[1..][k - 1 := v];
    }
  }

  lemma {:induction false} WrapsAppendZero(vs: seq<nat>)
    ensures Wraps(vs + [0]) == Wraps(vs)
  {
    if vs != [] {
      WrapsAppendZero(vs[1..]);
      assert (vs + [0])[1..] == vs[1..] + [0];
    }
  }

  lemma {:induction false} WrapsBound(vs: seq<nat>, bound: nat)
    requires forall i :: 0 <= i < |vs| ==> vs[i] <= bound
    ensures Wraps(vs) <= |vs| * bound
  {
    if vs != [] { WrapsBound(vs[1..], bound); }
  }

  /** A step by one of a counter leaves its low bits at zero exactly when they were all ones. */
  lemma CountStep(v: nat)
    ensures
      if v % VERSION_SPAN == MAX_VERSION_NUMBER then
        (v + 1) % VERSION_SPAN == 0 && (v + 1) / VERSION_SPAN == v / VERSION_SPAN + 1
      else
        (v + 1) % VERSION_SPAN == v % VERSION_SPAN + 1 && (v + 1) / VERSION_SPAN == v / VERSION_SPAN
  {
  }

  // ----- the byte buffer -----

  function LeValue(bytes: seq<Byte>): nat {
    if bytes == [] then 0 else bytes[0] + 256 * LeValue(bytes[1..])
  }

  /** The `n` low bytes, as `to_le_bytes` lays them out. */
  function LeBytes(v: nat, n: nat): (s: seq<Byte>)
    ensures |s| == n
  {
    if n == 0 then [] else [v % 256] + LeBytes(v / 256, n - 1)
  }

  function Groups(vs: seq<nat>): (s: seq<Byte>)
    ensures |s| == 5 * |vs|
  {
    if vs == [] then [] else LeBytes(vs[0], 5) + Groups(vs[1..])
  }

  lemma {:induction false} GroupsAppend(vs: seq<nat>, v: nat)
    ensures Groups(vs + [v]) == Groups(vs) + LeBytes(v, 5)
  {
    var w := vs + [v];
    assert w[0] == if vs == [] then v else vs[0];
    assert w[1..] == if vs == [] then [] else vs[1..] + [v];
    if vs != [] { GroupsAppend(vs[1..], v); }
  }

  lemma FirstByte(v: nat, n: nat, rest: seq<Byte>)
    requires n > 0
    ensures LeValue(LeBytes(v, n) + rest) == v % 256 + 256 * LeValue(LeBytes(v / 256, n - 1) + rest)
  {
    assert (LeBytes(v, n) + rest)[1..] == LeBytes(v / 256, n - 1) + rest;
  }

  lemma FiveDigits(v: nat)
    ensures
      var v1 := v / 256;
      var v2 := v1 / 256;
      var v3 := v2 / 256;
      var v4 := v3 / 256;
      v % VERSION_SPAN == v % 256 + 256 * (v1 % 256 + 256 * (v2 % 256 + 256 * (v3 % 256 + 256 * (v4 % 256))))
  {
  }

  lemma FiveBytes(v: nat, rest: seq<Byte>)
    ensures LeValue(LeBytes(v, 5) + rest) == v % VERSION_SPAN + VERSION_SPAN * LeValue(rest)
  {
    var v1 := v / 256;
    var v2 := v1 / 256;
    var v3 := v2 / 256;
    var v4 := v3 / 256;
    FirstByte(v, 5, rest);
    FirstByte(v1, 4, rest);
    FirstByte(v2, 3, rest);
    FirstByte(v3, 2, rest);
    FirstByte(v4, 1, rest);
    assert LeBytes(v4 / 256, 0) + rest == rest;
    FiveDigits(v);
  }

  lemma {:induction false} GroupsValue(vs: seq<nat>, zeros: seq<Byte>)
    requires forall i :: 0 <= i < |zeros| ==> zeros[i] == 0
    ensures LeValue(Groups(vs) + zeros) == PackVersions(vs)
  {
    if vs == [] {
      assert Groups(vs) + zeros == zeros;
      ZeroValue(zeros);
    } else {
      GroupsValue(vs[1..], zeros);
      assert Groups(vs) + zeros == LeBytes(vs[0], 5) + (Groups(vs[1..]) + zeros);
      FiveBytes(vs[0], Groups(vs[1..]) + zeros);
    }
  }

  lemma {:induction false} ZeroValue(zeros: seq<Byte>)
    requires forall i :: 0 <= i < |zeros| ==> zeros[i] == 0
    ensures LeValue(zeros) == 0
  {
    if zeros != [] { ZeroValue(zeros[1..]); }
  }

  /** Copies five bytes of a version into the buffer. */
  method CopyGroup(result: array<Byte>, start: nat, v: nat)
    requires start + 5 <= result.Length
    modifies result
    ensures result[..] == old(result[..start]) + LeBytes(v, 5) + old(result[start + 5..])
  {
    var bytes := LeBytes(v, 5);
    var i := 0;
    while i < 5
      invariant 0 <= i <= 5
      invariant forall j :: 0 <= j < result.Length ==>
        result[j] == if start <= j < start + i then bytes[j - start] else old(result[j])
    {
      result[start + i] := bytes[i];
      i := i + 1;
    }
  }

  /** The buffer the source fills group by group reads as the packed scalar. */
  method AsFrInt(node: Node) returns (fr: nat)
    requires |node.keyVersions| <= MAX_SLOTS
    ensures fr == Packed(node)
  {
    var result := new Byte[32](_ => 0);
    var start := 5;
    var kv := node.keyVersions;
    for i := 0 to |kv|
      invariant start == 5 + 5 * i
      invariant result[5..start] == Groups(kv[..i])
      invariant forall j :: 0 <= j < 5 || start <= j < 32 ==> result[j] == 0
    {
      GroupsAppend(kv[..i], kv[i]);
      assert kv[..i + 1] == kv[..i] + [kv[i]];
      ghost var before := result[..];
      CopyGroup(result, start, kv[i]);
      assert result[5..start + 5] == before[5..start] + LeBytes(kv[i], 5);
      start := start + 5;
    }
    assert kv[..|kv|] == kv;
    ghost var zeros, groups := result[start..], result[5..start];
    assert result[5..] == groups + zeros;
    CopyGroup(result, 0, node.treeVersion);
    assert result[..] == LeBytes(node.treeVersion, 5) + (groups + zeros);
    assert ([node.treeVersion] + kv)[1..] == kv;
    assert result[..] == Groups([node.treeVersion] + kv) + zeros;
    GroupsValue([node.treeVersion] + kv, zeros);
    fr := LeValue(result[..]);
  }

  lemma {:induction false} DropGroup(fr: nat, n: nat, index: nat)
    requires 5 * (index + 1) <= n
    ensures LeValue(LeBytes(fr, n)[5 * index..5 * (index + 1)]) == FrVersion(fr, index)
  {
    if index == 0 {
      assert LeBytes(fr, n)[0..5] == LeBytes(fr, 5) by { PrefixBytes(fr, n, 5); }
      assert LeBytes(fr, 5) == LeBytes(fr, 5) + [];
      FiveBytes(fr, []);
    } else {
      DropGroup(fr / VERSION_SPAN, n - 5, index - 1);
      assert LeBytes(fr, n)[5..] == LeBytes(fr / VERSION_SPAN, n - 5) by {
        SuffixBytes(fr, n, 5);
        ShiftFive(fr);
      }
      assert LeBytes(fr, n)[5 * index..5 * (index + 1)] == LeBytes(fr, n)[5..][5 * (index - 1)..5 * index];
    }
  }

  lemma {:induction false} PrefixBytes(fr: nat, n: nat, k: nat)
    requires k <= n
    ensures LeBytes(fr, n)[..k] == LeBytes(fr, k)
  {
    if k > 0 { PrefixBytes(fr / 256, n - 1, k - 1); }
  }

  function Shifted(fr: nat, k: nat): nat {
    if k == 0 then fr else Shifted(fr / 256, k - 1)
  }

  lemma {:induction false} SuffixBytes(fr: nat, n: nat, k: nat)
    requires k <= n
    ensures LeBytes(fr, n)[k..] == LeBytes(Shifted(fr, k), n - k)
  {
    if k > 0 {
      SuffixBytes(fr / 256, n - 1, k - 1);
      assert LeBytes(fr, n)[k..] == LeBytes(fr / 256, n - 1)[k - 1..];
    }
  }

  lemma ShiftFive(fr: nat)
    ensures Shifted(fr, 5) == fr / VERSION_SPAN
  {
    var f1 := fr / 256;
    var f2 := f1 / 256;
    var f3 := f2 / 256;
    var f4 := f3 / 256;
    assert Shifted(f4 / 256, 0) == f4 / 256;
    assert Shifted(f4, 1) == f4 / 256;
    assert Shifted(f3, 2) == f4 / 256;
    assert Shifted(f2, 3) == f4 / 256;
  }

  /** Slicing five bytes out of the scalar reads one 40-bit group. */
  method VersionsFromFrInt(fr: nat, index: nat) returns (v: nat)
    requires index < 6
    ensures v == FrVersion(fr, index)
  {
    var bytes := LeBytes(fr, 32);
    v := LeValue(bytes[index * 5..(index + 1) * 5]);
    DropGroup(fr, 32, index);
  }
}
