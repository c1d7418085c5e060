/** Nibble paths and their hex-prefix encoding (Appendix C of the Ethereum Yellow Paper). */
module Nibbles {
  import opened Basics

  type Nibble = n: nat | n < 16

  type Path = seq<Nibble>

  function Hi(b: Byte): Nibble { b / 16 }

  function Lo(b: Byte): Nibble { b % 16 }

  function Pair(hi: Nibble, lo: Nibble): Byte { 16 * hi + lo }

  /** Two nibbles a byte, high first. */
  function FromBytes(bytes: seq<Byte>): (path: Path)
    ensures |path| == 2 * |bytes|
  {
    if bytes == [] then [] else [Hi(bytes[0]), Lo(bytes[0])] + FromBytes(bytes[1..])
  }

  /** Where the halves of a byte go. */
  lemma {:induction false} NibbleAt(bytes: seq<Byte>, i: nat)
    requires i < |bytes|
    ensures FromBytes(bytes)[2 * i] == bytes[i] / 16 && FromBytes(bytes)[2 * i + 1] == bytes[i] % 16
  {
    if i > 0 {
      NibbleAt(bytes[1..], i - 1);
      assert FromBytes(bytes)[2..] == FromBytes(bytes[1..]);
    }
  }

  /** Distinct keys have distinct paths. */
  lemma {:induction false} FromBytesInjective(a: seq<Byte>, b: seq<Byte>)
    requires FromBytes(a) == FromBytes(b)
    ensures a == b
  {
    assert |a| == |b|;
    if a != [] {
      var x, y := FromBytes(a), FromBytes(b);
      assert x[0] == Hi(a[0]) && x[1] == Lo(a[0]) && y[0] == Hi(b[0]) && y[1] == Lo(b[0]);
      assert a[0] == b[0];
      assert x[2..] == FromBytes(a[1..]) && y[2..] == FromBytes(b[1..]);
      FromBytesInjective(a[1..], b[1..]);
    }
  }

  /** The nibbles that open an encoding: the node kind, the parity, and padding to whole bytes. */
  function Prefix(odd: bool, leaf: bool): Path {
    if odd then [if leaf then 3 else 1] else [if leaf then 2 else 0, 0]
  }

  /** Bytes of two nibbles each, high first. */
  function Pairs(nibbles: Path): (bytes: seq<Byte>)
    ensures |bytes| == |nibbles| / 2
  {
    if |nibbles| < 2 then [] else [Pair(nibbles[0], nibbles[1])] + Pairs(nibbles[2..])
  }

  function MptKey(key: Path, leaf: bool): seq<Byte> {
    Pairs(Prefix(|key| % 2 == 1, leaf) + key)
  }

  lemma {:induction false} PairsInvert(nibbles: Path)
    requires |nibbles| % 2 == 0
    ensures FromBytes(Pairs(nibbles)) == nibbles
  {
    if nibbles != [] {
      PairsInvert(nibbles[2..]);
      PairSplits(nibbles[0], nibbles[1]);
      assert Pairs(nibbles)[1..] == Pairs(nibbles[2..]);
      assert nibbles == [nibbles[0], nibbles[1]] + nibbles[2..];
    }
  }

  lemma MptKeyEncodes(key: Path, leaf: bool)
    ensures Encodes(MptKey(key, leaf), key, leaf) && |MptKey(key, leaf)| == |key| / 2 + 1
  {
    PairsInvert(Prefix(|key| % 2 == 1, leaf) + key);
  }

  /** The flags of Appendix C: 32 for a leaf, 16 and the first nibble for an odd path; the other
      nibbles follow in pairs. */
  lemma MptKeyFlags(key: Path, leaf: bool, i: nat)
    requires i <= |key| / 2
    ensures
      var odd := |key| % 2;
      MptKey(key, leaf)[i] ==
        if i == 0 then (if leaf then 32 as int else 0) + (if odd == 1 then 16 + key[0] as int else 0)
        else 16 * (key[2 * i - 2 + odd] as int) + key[2 * i - 1 + odd]
  {
    var nibbles := Prefix(|key| % 2 == 1, leaf) + key;
    PairsAt(nibbles, i);
  }

  lemma {:induction false} PairsAt(nibbles: Path, i: nat)
    requires i < |nibbles| / 2
    ensures Pairs(nibbles)[i] == 16 * (nibbles[2 * i] as int) + nibbles[2 * i + 1]
  {
    if i > 0 { PairsAt(nibbles[2..], i - 1); }
  }

  lemma PairSplits(hi: Nibble, lo: Nibble)
    ensures Hi(Pair(hi, lo)) == hi && Lo(Pair(hi, lo)) == lo
  {
  }

  ghost predicate Encodes(encoded: seq<Byte>, key: Path, leaf: bool) {
    FromBytes(encoded) == Prefix(|key| % 2 == 1, leaf) + key
  }

  method ToMptKey(key: Path, leaf: bool) returns (answer: seq<Byte>)
    ensures answer == MptKey(key, leaf) && Encodes(answer, key, leaf)
    ensures |answer| == |key| / 2 + 1
  {
    var nibbles := Prefix(|key| % 2 == 1, leaf) + key;
    answer := [];
    var i := 0;
    while i < |nibbles|
      invariant 0 <= i <= |nibbles| && i == 2 * |answer| && |nibbles| % 2 == 0
      invariant FromBytes(answer) == nibbles[..i]
    {
      var hi, lo := nibbles[i], nibbles[i + 1];
      FromBytesAppend(answer, Pair(hi, lo));
      PairSplits(hi, lo);
      assert nibbles[..i + 2] == nibbles[..i] + [hi, lo];
      answer := answer + [Pair(hi, lo)];
      i := i + 2;
    }
    assert nibbles[..i] == nibbles;
    MptKeyEncodes(key, leaf);
    FromBytesInjective(answer, MptKey(key, leaf));
  }

  lemma {:induction false} FromBytesAppend(bytes: seq<Byte>, b: Byte)
    ensures FromBytes(bytes + [b]) == FromBytes(bytes) + [Hi(b), Lo(b)]
  {
    if bytes != [] {
      FromBytesAppend(bytes[1..], b);
      assert (bytes + [b])[1..] == bytes[1..] + [b];
    } else {
      assert [b][1..] == [];
    }
  }

  /** The path and the node kind of an encoding; the source panics on an empty one. */
  function FromMptKey(encoded: seq<Byte>): (r: (Path, bool))
    requires encoded != []
  {
    var nibbles := FromBytes(encoded);
    var ty := nibbles[0];
    (if ty % 2 == 0 then nibbles[2..] else nibbles[1..], ty / 2 % 2 == 1)
  }

  /** Decoding inverts encoding, and the well-formed strings are exactly the encodings. */
  lemma DecodeInverts(encoded: seq<Byte>, key: Path, leaf: bool)
    requires encoded != []
    ensures Encodes(encoded, key, leaf) ==> FromMptKey(encoded) == (key, leaf)
    ensures
      var nibbles := FromBytes(encoded);
      Encodes(encoded, FromMptKey(encoded).0, FromMptKey(encoded).1)
      <==> nibbles[0] < 4 && (nibbles[0] % 2 == 0 ==> nibbles[1] == 0)
  {
    var nibbles := FromBytes(encoded);
    if Encodes(encoded, key, leaf) {
      var p := Prefix(|key| % 2 == 1, leaf);
      assert nibbles[0] == p[0] && nibbles[|p|..] == key;
    }
    var (k, l) := FromMptKey(encoded);
    var q := Prefix(|k| % 2 == 1, l);
    if Encodes(encoded, k, l) {
      assert nibbles[0] == q[0] && (|q| == 2 ==> nibbles[1] == q[1]);
    }
    if nibbles[0] < 4 && (nibbles[0] % 2 == 0 ==> nibbles[1] == 0) {
      assert nibbles[..|q|] == q;
      assert nibbles == nibbles[..|q|] + nibbles[|q|..];
    }
  }
}
