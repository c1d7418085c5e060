/** Powers of two and the bit reversal that orders the leaves of an AMT. */
module Bits {

  function Pow2(n: nat): (p: nat)
    ensures p >= 1
  {
    if n == 0 then 1 else 2 * Pow2(n - 1)
  }

  lemma {:induction false} Pow2Add(a: nat, b: nat)
    ensures Pow2(a + b) == Pow2(a) * Pow2(b)
  {
    if a == 0 {
    } else {
      Pow2Add(a - 1, b);
      assert Pow2(a + b) == 2 * (Pow2(a - 1) * Pow2(b)) == (2 * Pow2(a - 1)) * Pow2(b);
    }
  }

  lemma {:induction false} Pow2Mono(a: nat, b: nat)
    requires a <= b
    ensures Pow2(a) <= Pow2(b)
  {
    if a < b { Pow2Mono(a, b - 1); }
  }

  /** The low `l` bits of `n`, most significant first. */
  function BitReverse(n: nat, l: nat): (r: nat)
    ensures r < Pow2(l)
  {
    if l == 0 then 0 else (if n % 2 == 1 then Pow2(l - 1) else 0) + BitReverse(n / 2, l - 1)
  }

  /** The shift loop of the source computes the reversal. */
  method ReverseBits(n: nat, l: nat) returns (r: nat)
    ensures r == BitReverse(n, l)
  {
    r := 0;
    var m := n;
    for i := 0 to l
      invariant r * Pow2(l - i) + BitReverse(m, l - i) == BitReverse(n, l)
    {
      ShiftIn(r, m % 2, Pow2(l - i - 1));
      r := 2 * r + m % 2;
      m := m / 2;
    }
  }

  lemma ShiftIn(r: nat, b: nat, p: nat)
    requires b < 2
    ensures r * (2 * p) + (if b == 1 then p else 0) == (2 * r + b) * p
  {
  }

  lemma DivUnique(n: nat, b: nat, q: nat, r: nat)
    requires b > 0 && r < b && n == q * b + r
    ensures n / b == q && n % b == r
  {
    var q', r' := n / b, n % b;
    assert n == q' * b + r';
    if q > q' {
      MulMono(q' + 1, q, b);
    } else if q < q' {
      MulMono(q + 1, q', b);
    }
  }

  lemma MulMono(a: int, b: int, c: nat)
    requires a <= b
    ensures a * c <= b * c
  {
    assert (b - a) * c >= 0;
  }

  /** `x >> h` */
  function Shr(x: nat, h: nat): nat {
    if h == 0 then x else Shr(x / 2, h - 1)
  }

  /** `x << h` */
  function Shl(x: nat, h: nat): nat
    decreases h
  {
    if h == 0 then x else Shl(2 * x, h - 1)
  }

  lemma {:induction false} ShrAdd(x: nat, a: nat, b: nat)
    ensures Shr(Shr(x, a), b) == Shr(x, a + b)
  {
    if a > 0 { ShrAdd(x / 2, a - 1, b); }
  }

  lemma {:induction false} ShrShl(x: nat, h: nat)
    ensures Shr(Shl(x, h), h) == x
    decreases h
  {
    if h > 0 {
      ShrShl(2 * x, h - 1);
      ShrAdd(Shl(2 * x, h - 1), h - 1, 1);
      assert Shr(2 * x, 1) == Shr(x, 0);
    }
  }

  lemma {:induction false} ShlBound(x: nat, d: nat, h: nat)
    requires x < Pow2(d)
    ensures Shl(x, h) < Pow2(d + h)
    decreases h
  {
    if h > 0 { ShlBound(2 * x, d + 1, h - 1); }
  }

  /** The low `d` bits, `n & ((1 << d) - 1)`. */
  function Low(n: nat, d: nat): (r: nat)
    ensures r < Pow2(d)
  {
    if d == 0 then 0 else n % 2 + 2 * Low(n / 2, d - 1)
  }

  lemma {:induction false} LowIsResidue(n: nat, d: nat)
    ensures Low(n, d) == n % Pow2(d)
  {
    if d > 0 {
      LowIsResidue(n / 2, d - 1);
      HalfResidue(n, Pow2(d - 1));
    }
  }

  lemma {:induction false} LowAll(n: nat, d: nat)
    requires n < Pow2(d)
    ensures Low(n, d) == n
  {
    if d > 0 { LowAll(n / 2, d - 1); }
  }

  /** One more bit: either it is clear, or it is set. */
  lemma {:induction false} LowStep(n: nat, d: nat)
    ensures Low(n, d + 1) == Low(n, d) || Low(n, d + 1) == Low(n, d) + Pow2(d)
  {
    if d > 0 { LowStep(n / 2, d - 1); }
  }

  lemma {:induction false} ReverseHalf(n: nat, l: nat)
    requires l >= 1
    ensures BitReverse(n, l) / 2 == BitReverse(n, l - 1)
  {
    if l >= 2 { ReverseHalf(n / 2, l - 1); }
  }

  /** Climbing from a leaf keeps the leading bits: the ancestor at depth `l - h` is the
      reversal of the low `l - h` bits. */
  lemma {:induction false} AncestorIsShorterReversal(n: nat, l: nat, h: nat)
    requires h <= l
    ensures Shr(BitReverse(n, l), h) == BitReverse(n, l - h)
  {
    if h > 0 {
      ReverseHalf(n, l);
      AncestorIsShorterReversal(n, l - 1, h - 1);
    }
  }

  /** Only the low bits matter. */
  lemma {:induction false} ReverseOfLow(n: nat, l: nat)
    ensures BitReverse(Low(n, l), l) == BitReverse(n, l)
  {
    if l > 0 { ReverseOfLow(n / 2, l - 1); }
  }

  lemma HalfResidue(n: nat, b: nat)
    requires b > 0
    ensures n % (2 * b) == n % 2 + 2 * ((n / 2) % b)
  {
    var q, r := (n / 2) / b, (n / 2) % b;
    assert n / 2 == q * b + r;
    DivUnique(n, 2 * b, q, n % 2 + 2 * r);
  }

  lemma {:induction false} ReverseInjective(a: nat, b: nat, l: nat)
    requires a < Pow2(l) && b < Pow2(l)
    requires BitReverse(a, l) == BitReverse(b, l)
    ensures a == b
  {
    if l > 0 {
      ReverseInjective(a / 2, b / 2, l - 1);
    }
  }

  /** `x ^ 1`. */
  function FlipLow(x: nat): nat {
    if x % 2 == 0 then x + 1 else x - 1
  }

  /** `k ^ (1 << (d - 1))` for a `d`-bit number. */
  function FlipTop(k: nat, d: nat): (s: nat)
    requires d >= 1 && k < Pow2(d)
    ensures s < Pow2(d) && s != k
  {
    if k < Pow2(d - 1) then k + Pow2(d - 1) else k - Pow2(d - 1)
  }

  lemma FlipTopHalf(k: nat, d: nat)
    requires d >= 2 && k < Pow2(d)
    ensures FlipTop(k, d) / 2 == FlipTop(k / 2, d - 1) && FlipTop(k, d) % 2 == k % 2
  {
    var p := Pow2(d - 2);
    assert Pow2(d - 1) == 2 * p && Pow2(d) == 4 * p;
  }

  lemma FlipEven(h: nat, x: nat)
    ensures FlipLow(2 * h + x) == 2 * h + FlipLow(x)
  {
  }

  /** The sibling of a node flips the highest bit of the class of leaves below it. */
  lemma {:induction false} SiblingReversal(k: nat, d: nat)
    requires d >= 1 && k < Pow2(d)
    ensures FlipLow(BitReverse(k, d)) == BitReverse(FlipTop(k, d), d)
  {
    if d == 1 {
      assert Pow2(1) == 2;
      assert BitReverse(0, 1) == 0 && BitReverse(1, 1) == 1;
    } else {
      SiblingReversal(k / 2, d - 1);
      FlipTopHalf(k, d);
      FlipEven(if k % 2 == 1 then Pow2(d - 2) else 0, BitReverse(k / 2, d - 1));
    }
  }
}
