/** Scalars and group elements of the pairing engine, in the discrete-logarithm model:
    a point of G1 or G2 is the exponent of the generator, a residue modulo the group order,
    and the pairing multiplies exponents. */
module Scalar {

  /** The order of the BN254 scalar field. */
  const R: int := 21888242871839275222246405745257275088548364400416034343698204186575808495617

  type Point = x: int | 0 <= x < R witness 0

  function Norm(x: int): Point { x % R }

  function Add(a: Point, b: Point): Point { Norm(a + b) }

  function Scale(k: int, a: Point): Point { Norm(k * a) }

  /** The bilinear pairing, as the exponent of the target group's generator. */
  function Pairing(a: Point, b: Point): Point { Norm(a * b) }

  lemma NormShift(x: int, k: int)
    ensures Norm(x + R * k) == Norm(x)
  {
  }

  /** Equal residues differ by a multiple of the order. */
  lemma NormQuotient(a: int, b: int) returns (k: int)
    requires Norm(a) == Norm(b)
    ensures a == b + R * k
  {
    k := a / R - b / R;
  }

  lemma NormIdem(a: int)
    ensures Norm(Norm(a)) == Norm(a)
  {
  }

  lemma CongAdd(a: int, b: int, c: int, d: int)
    requires Norm(a) == Norm(b) && Norm(c) == Norm(d)
    ensures Norm(a + c) == Norm(b + d)
  {
    var k := NormQuotient(a, b);
    var l := NormQuotient(c, d);
    assert a + c == b + d + R * (k + l);
    NormShift(b + d, k + l);
  }

  lemma CongMul(a: int, b: int, c: int, d: int)
    requires Norm(a) == Norm(b) && Norm(c) == Norm(d)
    ensures Norm(a * c) == Norm(b * d)
  {
    var k := NormQuotient(a, b);
    var l := NormQuotient(c, d);
    var m := b * l + k * d + R * (k * l);
    assert a * c == b * d + R * m by {
      assert a * c == (b + R * k) * (d + R * l);
      assert (b + R * k) * (d + R * l) == b * d + b * (R * l) + (R * k) * d + (R * k) * (R * l);
      assert b * (R * l) == R * (b * l);
      assert (R * k) * d == R * (k * d);
      assert (R * k) * (R * l) == R * (R * (k * l));
      assert R * m == R * (b * l) + R * (k * d) + R * (R * (k * l));
    }
    NormShift(b * d, m);
  }

  lemma NormAdd(a: int, b: int)
    ensures Norm(Norm(a) + Norm(b)) == Norm(a + b)
  {
    NormIdem(a); NormIdem(b);
    CongAdd(Norm(a), a, Norm(b), b);
  }

  lemma NormMul(a: int, b: int)
    ensures Norm(Norm(a) * Norm(b)) == Norm(a * b)
    ensures Norm(a * Norm(b)) == Norm(a * b)
  {
    NormIdem(a); NormIdem(b);
    CongMul(Norm(a), a, Norm(b), b);
    CongMul(a, a, Norm(b), b);
  }

  /** The point has an inverse exponent; in a group of prime order every point but zero has. */
  ghost predicate Unit(a: Point) {
    exists b: int :: Scale(b, a) == 1
  }

  lemma UnitCancels(a: Point, x: int)
    requires Unit(a)
    ensures Scale(x, a) == 0 <==> Norm(x) == 0
  {
    var b: int :| Scale(b, a) == 1;
    if Norm(x) == 0 { CongMul(x, 0, a, a); }
    if Scale(x, a) == 0 {
      CongMul(b, b, x * a, 0);
      CongMul(b * a, 1, x, x);
      assert b * (x * a) == (b * a) * x;
    }
  }

  /** A factor of a unit is a unit. */
  lemma UnitFactor(a: int, b: int)
    requires Unit(Norm(a * b))
    ensures Unit(Norm(b))
  {
    var c: int :| Scale(c, Norm(a * b)) == 1;
    NormMul(c, a * b);
    NormMul(c * a, b);
    assert c * (a * b) == (c * a) * b;
    assert Scale(c * a, Norm(b)) == 1;
  }

  /** Multiplying by a unit loses nothing. */
  lemma UnitInjective(x: Point, y: Point, a: Point)
    requires Unit(a)
    ensures Pairing(x, a) == Pairing(y, a) <==> x == y
  {
    UnitCancels(a, x - y);
    DifferenceVanishes(x * a, y * a);
    DifferenceVanishes(x, y);
    DifferenceTimes(x, y, a);
  }

  lemma DifferenceTimes(x: int, y: int, a: int)
    ensures (x - y) * a == x * a - y * a
  {
  }

  lemma UnitProduct(a: Point, b: Point)
    requires Unit(a) && Unit(b)
    ensures Unit(Pairing(a, b))
  {
    var c: int :| Scale(c, a) == 1;
    var d: int :| Scale(d, b) == 1;
    CongMul(c * a, 1, d * b, 1);
    NormMul(c * d, a * b);
    assert (c * a) * (d * b) == (c * d) * (a * b);
    assert Scale(c * d, Pairing(a, b)) == 1;
  }

  /** What pairs to the same as two units is a unit. */
  lemma OtherUnit(a: Point, b: Point, c: Point, d: Point)
    requires Unit(a) && Unit(b) && Pairing(a, b) == Pairing(c, d)
    ensures Unit(d)
  {
    UnitProduct(a, b);
    PairedUnit(c, d);
  }

  lemma PairedUnit(a: Point, b: Point)
    requires Unit(Pairing(a, b))
    ensures Unit(b)
  {
    UnitFactor(a, b);
    NormUnit(b);
  }

  lemma NormUnit(a: Point)
    requires Unit(Norm(a))
    ensures Unit(a)
  {
    assert Norm(a) == a;
  }

  lemma DifferenceVanishes(a: int, b: int)
    ensures Norm(a - b) == 0 <==> Norm(a) == Norm(b)
  {
    if Norm(a) == Norm(b) { CongAdd(a, b, -b, -b); }
    if Norm(a - b) == 0 { CongAdd(a - b, 0, b, b); }
  }
}
