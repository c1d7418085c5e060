/** Which bits of a key a level reads. */
module KeyDigits {
  import opened Basics
  import opened Bits
  import opened Forest

  /** Bit `i` of a key, the first one highest in the first byte; past the end there are zeros. */
  function KeyBit(key: Key, i: nat): (b: nat)
    ensures b < 2
  {
    if i / 8 < |key| then Shr(key[i / 8], 7 - i % 8) % 2 else 0
  }

  /** The `n` bits from `from` on, as a number with the first bit highest. */
  function BitsNumber(key: Key, from: nat, n: nat): nat {
    if n == 0 then 0 else 2 * BitsNumber(key, from, n - 1) + KeyBit(key, from + n - 1)
  }

  ghost predicate AgreeAt(a: Key, from: nat, b: Key, from': nat, i: nat) {
    KeyBit(a, from + i) == KeyBit(b, from' + i)
  }

  ghost predicate Agree(a: Key, from: nat, b: Key, from': nat, n: nat) {
    forall i: nat :: i < n ==> AgreeAt(a, from, b, from', i)
  }

  /** Numbers are equal exactly when their bits are. */
  lemma {:induction false} BitsAgree(a: Key, b: Key, from: nat, from': nat, n: nat)
    ensures BitsNumber(a, from, n) == BitsNumber(b, from', n) <==> Agree(a, from, b, from', n)
  {
    if n > 0 {
      BitsAgree(a, b, from, from', n - 1);
      LastBits(a, b, from, from', n);
    }
  }

  lemma LastBits(a: Key, b: Key, from: nat, from': nat, n: nat)
    requires n > 0
    ensures BitsNumber(a, from, n) == BitsNumber(b, from', n)
       <==> BitsNumber(a, from, n - 1) == BitsNumber(b, from', n - 1) && AgreeAt(a, from, b, from', n - 1)
  {
    LastBit(BitsNumber(a, from, n - 1), BitsNumber(b, from', n - 1), KeyBit(a, from + n - 1), KeyBit(b, from' + n - 1));
  }

  lemma LastBit(x: nat, y: nat, b: nat, c: nat)
    requires b < 2 && c < 2
    ensures 2 * x + b == 2 * y + c <==> x == y && b == c
  {
  }

  /** A byte is its eight bits. */
  lemma ByteBits(b: Byte)
    ensures b == 128 * (Shr(b, 7) % 2) + 64 * (Shr(b, 6) % 2) + 32 * (Shr(b, 5) % 2) + 16 * (Shr(b, 4) % 2)
               + 8 * (Shr(b, 3) % 2) + 4 * (Shr(b, 2) % 2) + 2 * (Shr(b, 1) % 2) + Shr(b, 0) % 2
  {
    ShrHalf(b, 0);
    ShrHalf(b, 1);
    ShrHalf(b, 2);
    ShrHalf(b, 3);
    ShrHalf(b, 4);
    ShrHalf(b, 5);
    ShrHalf(b, 6);
    assert Shr(b, 0) == b;
  }

  lemma {:induction false} ShrHalf(x: nat, h: nat)
    ensures Shr(x, h) == 2 * Shr(x, h + 1) + Shr(x, h) % 2
  {
    if h > 0 { ShrHalf(x / 2, h - 1); }
  }

  lemma EightMore(key: Key, from: nat, n: nat, k0: nat, k1: nat, k2: nat, k3: nat, k4: nat, k5: nat, k6: nat, k7: nat)
    requires k0 == KeyBit(key, from + n) && k1 == KeyBit(key, from + n + 1) && k2 == KeyBit(key, from + n + 2)
    requires k3 == KeyBit(key, from + n + 3) && k4 == KeyBit(key, from + n + 4) && k5 == KeyBit(key, from + n + 5)
    requires k6 == KeyBit(key, from + n + 6) && k7 == KeyBit(key, from + n + 7)
    ensures BitsNumber(key, from, n + 8)
         == 256 * BitsNumber(key, from, n) + 128 * k0 + 64 * k1 + 32 * k2 + 16 * k3 + 8 * k4 + 4 * k5 + 2 * k6 + k7
  {
    assert BitsNumber(key, from, n + 1) == 2 * BitsNumber(key, from, n) + k0;
    assert BitsNumber(key, from, n + 2) == 2 * BitsNumber(key, from, n + 1) + k1;
    assert BitsNumber(key, from, n + 3) == 2 * BitsNumber(key, from, n + 2) + k2;
    assert BitsNumber(key, from, n + 4) == 2 * BitsNumber(key, from, n + 3) + k3;
    assert BitsNumber(key, from, n + 5) == 2 * BitsNumber(key, from, n + 4) + k4;
    assert BitsNumber(key, from, n + 6) == 2 * BitsNumber(key, from, n + 5) + k5;
    assert BitsNumber(key, from, n + 7) == 2 * BitsNumber(key, from, n + 6) + k6;
  }

  lemma BitAt(key: Key, m: nat, j: nat)
    requires m < |key| && j < 8
    ensures KeyBit(key, 8 * m + j) == Shr(key[m], 7 - j) % 2
  {
    assert (8 * m + j) / 8 == m && (8 * m + j) % 8 == j;
  }

  /** Eight bits that fill a byte append it. */
  lemma AppendByte(key: Key, m: nat, n: nat)
    requires m < |key|
    ensures 8 * m >= n ==> BitsNumber(key, 8 * m - n, n + 8) == 256 * BitsNumber(key, 8 * m - n, n) + key[m]
  {
    if 8 * m >= n {
      BitAt(key, m, 0);
      BitAt(key, m, 1);
      BitAt(key, m, 2);
      BitAt(key, m, 3);
      BitAt(key, m, 4);
      BitAt(key, m, 5);
      BitAt(key, m, 6);
      BitAt(key, m, 7);
      var b := key[m];
      EightMore(key, 8 * m - n, n, Shr(b, 7) % 2, Shr(b, 6) % 2, Shr(b, 5) % 2, Shr(b, 4) % 2,
               Shr(b, 3) % 2, Shr(b, 2) % 2, Shr(b, 1) % 2, Shr(b, 0) % 2);
      ByteBits(b);
    }
  }

  /** A string of bytes read as a number is its bits read as a number. */
  lemma {:induction false} ValueBits(bytes: seq<Byte>)
    ensures BeValue(bytes) == BitsNumber(bytes, 0, 8 * |bytes|)
  {
    if bytes != [] {
      var n := |bytes| - 1;
      ValueBits(bytes[..n]);
      PrefixBits(bytes, n);
      AppendByte(bytes, n, 8 * n);
    }
  }

  lemma PrefixBits(bytes: seq<Byte>, n: nat)
    requires n <= |bytes|
    ensures BitsNumber(bytes[..n], 0, 8 * n) == BitsNumber(bytes, 0, 8 * n)
  {
    forall i: nat | i < 8 * n ensures AgreeAt(bytes[..n], 0, bytes, 0, i) { assert i / 8 < n; }
    BitsAgree(bytes[..n], bytes, 0, 0, 8 * n);
  }

  lemma {:induction false} ShrBits(key: Key, from: nat, n: nat, h: nat)
    requires h <= n
    ensures Shr(BitsNumber(key, from, n), h) == BitsNumber(key, from, n - h)
  {
    if h > 0 { ShrBits(key, from, n - 1, h - 1); }
  }

  lemma WindowBits(key: Key, start: nat, n: nat)
    requires n <= 128
    ensures BitsNumber(Window(key, start), 0, n) == BitsNumber(key, 8 * start, n)
  {
    var w := Window(key, start);
    forall i: nat | i < n ensures AgreeAt(w, 0, key, 8 * start, i) {
      assert (8 * start + i) / 8 == start + i / 8 && (8 * start + i) % 8 == i % 8;
      if start + i / 8 >= |key| { ShrZero(7 - i % 8); }
    }
    BitsAgree(w, key, 0, 8 * start, n);
  }

  lemma {:induction false} ShrZero(h: nat)
    ensures Shr(0, h) == 0
  {
    if h > 0 { ShrZero(h - 1); }
  }

  /** The digit of a level, for every depth: the bits from the byte on in which the level starts, to
      the end of the level. */
  lemma DigitBits(depths: nat, key: Key, level: nat)
    requires ValidDepths(depths)
    ensures
      var start := level * depths;
      IndexAtLevel(depths, key, level) == BitsNumber(key, 8 * (start / 8), depths - start % 8)
  {
    var start := level * depths;
    var w := Window(key, start / 8);
    ValueBits(w);
    ShrBits(w, 0, 128, start % 8 + (128 - depths));
    WindowBits(key, start / 8, depths - start % 8);
  }

  /** With a depth of one byte a level reads one byte. */
  lemma DigitIsByte(key: Key, level: nat)
    ensures IndexAtLevel(8, key, level) == if level < |key| then key[level] else 0
  {
    DigitBits(8, key, level);
    assert level * 8 / 8 == level && level * 8 % 8 == 0;
    if level < |key| {
      AppendByte(key, level, 0);
    } else {
      ZeroBits(key, 8 * level, 8);
    }
  }

  lemma {:induction false} ZeroBits(key: Key, from: nat, n: nat)
    requires from >= 8 * |key|
    ensures BitsNumber(key, from, n) == 0
  {
    if n > 0 { ZeroBits(key, from, n - 1); }
  }

  /** With a depth of whole bytes a level reads its own bits, all of them and in order. */
  lemma DigitIsOwnBits(depths: nat, key: Key, level: nat)
    requires ValidDepths(depths) && depths % 8 == 0
    ensures IndexAtLevel(depths, key, level) == BitsNumber(key, level * depths, depths)
  {
    DigitBits(depths, key, level);
    WholeBytes(depths, level);
  }

  lemma WholeBytes(depths: nat, level: nat)
    requires depths % 8 == 0
    ensures (level * depths) % 8 == 0 && 8 * (level * depths / 8) == level * depths
  {
    var d := depths / 8;
    assert level * depths == 8 * (level * d) by { assert depths == 8 * d; }
  }

  /** Keys visit the same trees down to a level exactly when they agree on the bits above it. */
  lemma {:induction false} SameTree(depths: nat, a: Key, b: Key, level: nat)
    requires ValidDepths(depths) && depths % 8 == 0
    ensures level * depths >= 0
    ensures TreeAtLevel(depths, a, level) == TreeAtLevel(depths, b, level) <==> Agree(a, 0, b, 0, level * depths)
  {
    if level > 0 {
      SameTree(depths, a, b, level - 1);
      SameDigit(depths, a, b, level - 1);
      assert level * depths == (level - 1) * depths + depths;
      AgreeSplit(a, b, (level - 1) * depths, depths);
      LastDigit(depths, a, level);
      LastDigit(depths, b, level);
    } else {
      assert level * depths == 0;
    }
  }

  lemma AgreeSplit(a: Key, b: Key, m: nat, n: nat)
    ensures Agree(a, 0, b, 0, m + n) <==> Agree(a, 0, b, 0, m) && Agree(a, m, b, m, n)
  {
    forall i: nat | i < n ensures AgreeAt(a, m, b, m, i) <==> AgreeAt(a, 0, b, 0, m + i) { }
    if Agree(a, 0, b, 0, m) && Agree(a, m, b, m, n) {
      forall i: nat | i < m + n ensures AgreeAt(a, 0, b, 0, i) {
        if i >= m { assert AgreeAt(a, m, b, m, i - m); }
      }
    }
  }

  lemma LastDigit(depths: nat, key: Key, level: nat)
    requires ValidDepths(depths) && level > 0
    ensures
      var name := TreeAtLevel(depths, key, level);
      name != [] && Parent(name) == TreeAtLevel(depths, key, level - 1) && Last(name) == IndexAtLevel(depths, key, level - 1)
      && name == TreeAtLevel(depths, key, level - 1) + [IndexAtLevel(depths, key, level - 1)]
  {
  }

  lemma SameDigit(depths: nat, a: Key, b: Key, level: nat)
    requires ValidDepths(depths) && depths % 8 == 0
    ensures level * depths >= 0
    ensures IndexAtLevel(depths, a, level) == IndexAtLevel(depths, b, level) <==> Agree(a, level * depths, b, level * depths, depths)
  {
    var from := level * depths;
    DigitIsOwnBits(depths, a, level);
    DigitIsOwnBits(depths, b, level);
    BitsAgree(a, b, from, from, depths);
  }
}
