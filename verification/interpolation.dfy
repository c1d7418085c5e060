/** What the commitments interpolate: the inverse transform is the inverse of the transform, so that
    the bases of the commitments are the Lagrange basis of the domain at tau. */
module Interpolation {
  import opened Scalar
  import opened Bits
  import opened ProveParams

  // ----- sums over the domain -----

  /** The points that a coefficient meets: `gi^i z` is one exactly where the two cancel. */
  function Meet(gi: int, i: nat, z: int): int {
    Pow(gi, i) * z
  }

  /** One row of the double sum. */
  function Row(c: seq<int>, gi: int, z: int, t: nat, k: nat): int
    requires k <= |c|
  {
    if k == 0 then 0 else Row(c, gi, z, t, k - 1) + c[k - 1] * Pow(Meet(gi, k - 1, z), t)
  }

  /** The first `m` rows, column by column. */
  function Columns(c: seq<int>, gi: int, z: int, m: nat, k: nat): int
    requires k <= |c|
  {
    if k == 0 then 0 else Columns(c, gi, z, m, k - 1) + c[k - 1] * Geo(Meet(gi, k - 1, z), m)
  }

  lemma {:induction false} ColumnsStep(c: seq<int>, gi: int, z: int, m: nat, k: nat)
    requires k <= |c|
    ensures Columns(c, gi, z, m + 1, k) == Columns(c, gi, z, m, k) + Row(c, gi, z, m, k)
  {
    if k > 0 {
      ColumnsStep(c, gi, z, m, k - 1);
      Distribute(c[k - 1], Geo(Meet(gi, k - 1, z), m), Pow(Meet(gi, k - 1, z), m));
    }
  }

  lemma {:induction false} ColumnsNone(c: seq<int>, gi: int, z: int, k: nat)
    requires k <= |c|
    ensures Columns(c, gi, z, 0, k) == 0
  {
    if k > 0 { ColumnsNone(c, gi, z, k - 1); }
  }

  /** A row is an evaluation of the coefficients. */
  lemma {:induction false} RowIs(c: seq<int>, gi: int, z: int, t: nat, k: nat)
    requires k <= |c|
    ensures Row(c, gi, z, t, k) == Eval(c, Pow(gi, t), k) * Pow(z, t)
  {
    if k > 0 {
      RowIs(c, gi, z, t, k - 1);
      MeetPower(gi, k - 1, z, t);
      RowTerm(Eval(c, Pow(gi, t), k - 1), c[k - 1], Pow(Pow(gi, t), k - 1), Pow(z, t));
    }
  }

  lemma MeetPower(gi: int, i: nat, z: int, t: nat)
    ensures Pow(Meet(gi, i, z), t) == Pow(Pow(gi, t), i) * Pow(z, t)
  {
    PowProduct(Pow(gi, i), z, t);
    PowMul(gi, i, t);
    PowMul(gi, t, i);
    assert i * t == t * i;
  }

  lemma RowTerm(e: int, c: int, p: int, q: int)
    ensures e * q + c * (p * q) == (e + c * p) * q
  {
  }

  /** Transforming an inverse transform is the double sum. */
  lemma {:induction false} TransformSum(dom: Domain, c: seq<int>, z: int, m: nat)
    requires |c| == dom.size && m <= dom.size
    ensures Norm(Eval(Ifft(dom, c), z, m)) == Norm(dom.sizeInv * Columns(c, dom.genInv, z, m, |c|))
  {
    var l := Ifft(dom, c);
    if m == 0 {
      ColumnsNone(c, dom.genInv, z, |c|);
    } else {
      var t := m - 1;
      TransformSum(dom, c, z, t);
      ColumnsStep(c, dom.genInv, z, t, |c|);
      RowIs(c, dom.genInv, z, t, |c|);
      TransformTerm(Eval(l, z, t), dom.sizeInv, Columns(c, dom.genInv, z, t, |c|), l[t],
                    Eval(c, Pow(dom.genInv, t), |c|), Pow(z, t));
    }
  }

  lemma TransformTerm(sum: int, ninv: int, columns: int, l: int, e: int, p: int)
    requires Norm(sum) == Norm(ninv * columns) && l == Norm(ninv * e)
    ensures Norm(sum + l * p) == Norm(ninv * (columns + e * p))
  {
    NormIdem(ninv * e);
    CongMul(l, ninv * e, p, p);
    CongAdd(sum, ninv * columns, l * p, (ninv * e) * p);
    Distribute(ninv, columns, e * p);
    assert (ninv * e) * p == ninv * (e * p);
  }

  // ----- orthogonality -----

  lemma {:induction false} GeoOfOne(x: int, n: nat)
    requires Norm(x) == Norm(1)
    ensures Norm(Geo(x, n)) == Norm(n)
  {
    if n > 0 {
      GeoOfOne(x, n - 1);
      CongPow(x, 1, n - 1);
      PowOne(n - 1);
      CongAdd(Geo(x, n - 1), n - 1, Pow(x, n - 1), 1);
    }
  }

  lemma {:induction false} MinusOnePower(d: nat)
    requires d % 2 == 1
    ensures Pow(-1, d) == -1
  {
    if d > 1 {
      MinusOnePower(d - 2);
      assert Pow(-1, d) == -1 * (-1 * Pow(-1, d - 2));
    }
  }

  /** Doubling the number of terms. */
  lemma GeoDouble(x: int, m: nat)
    ensures Geo(x, m + m) == Geo(x, m) * (1 + Pow(x, m))
  {
    GeoConcat(x, m, m);
    TakeOut(Geo(x, m), Pow(x, m));
  }

  lemma TakeOut(g: int, p: int)
    ensures g + p * g == g * (1 + p)
  {
  }

  /** The sum of the powers of a root of unity other than one is zero. */
  lemma {:induction false} GeoVanishes(y: int, s: nat, x: int, d: nat)
    requires s >= 1 && Norm(Pow(y, Pow2(s - 1))) == Norm(-1)
    requires 0 < d < Pow2(s) && Norm(x) == Norm(Pow(y, d))
    ensures Norm(Geo(x, Pow2(s))) == 0
    decreases s
  {
    var m := Pow2(s - 1);
    GeoDouble(x, m);
    assert Pow2(s) == m + m;
    if d % 2 == 1 {
      OddVanishes(y, x, d, m);
      CongMul(Geo(x, m), Geo(x, m), 1 + Pow(x, m), 0);
    } else {
      var e := d / 2;
      SquarePower(y, e);
      assert m >= 2 && Pow2(s - 1) == 2 * Pow2(s - 2);
      SquarePower(y, Pow2(s - 2));
      GeoVanishes(y * y, s - 1, x, e);
      CongMul(Geo(x, m), 0, 1 + Pow(x, m), 1 + Pow(x, m));
    }
  }

  lemma SquarePower(y: int, e: nat)
    ensures Pow(y * y, e) == Pow(y, 2 * e)
  {
    PowMul(y, 2, e);
    assert Pow(y, 2) == y * Pow(y, 1) == y * (y * Pow(y, 0));
  }

  lemma OddVanishes(y: int, x: int, d: nat, m: nat)
    requires d % 2 == 1 && Norm(Pow(y, m)) == Norm(-1) && Norm(x) == Norm(Pow(y, d))
    ensures Norm(1 + Pow(x, m)) == Norm(0)
  {
    CongPow(x, Pow(y, d), m);
    PowMul(y, d, m);
    PowMul(y, m, d);
    assert d * m == m * d;
    CongPow(Pow(y, m), -1, d);
    MinusOnePower(d);
    CongAdd(1, 1, Pow(x, m), -1);
  }

  /** The generator is primitive: its half power is -1. */
  ghost predicate Primitive(dom: Domain, s: nat) {
    && dom.size == Pow2(s) && Norm(dom.gen * dom.genInv) == Norm(1) && Norm(dom.size * dom.sizeInv) == Norm(1)
    && (s > 0 ==> Norm(Pow(dom.gen, Pow2(s - 1))) == Norm(-1))
  }

  lemma InversePrimitive(g: int, gi: int, m: nat)
    requires Norm(g * gi) == Norm(1) && Norm(Pow(g, m)) == Norm(-1)
    ensures Norm(Pow(gi, m)) == Norm(-1)
  {
    InversePowers(g, gi, m);
    CongMul(Pow(g, m), -1, Pow(gi, m), Pow(gi, m));
    CongMul(-1, -1, -1 * Pow(gi, m), 1);
  }

  /** Powers of inverses cancel down to the longer one. */
  lemma Cancelled(a: int, b: int, i: nat, j: nat)
    requires Norm(a * b) == Norm(1) && i <= j
    ensures Norm(Pow(a, i) * Pow(b, j)) == Norm(Pow(b, j - i))
  {
    InversePowers(a, b, i);
    PowAdd(b, i, j - i);
    CongMul(Pow(a, i) * Pow(b, i), 1, Pow(b, j - i), Pow(b, j - i));
    assert Pow(a, i) * Pow(b, j) == (Pow(a, i) * Pow(b, i)) * Pow(b, j - i);
  }

  /** Orthogonality: the column of index `i` counts at the point of index `j` only if they are equal. */
  lemma Orthogonal(dom: Domain, s: nat, i: nat, j: nat)
    requires Primitive(dom, s) && i < dom.size && j < dom.size
    ensures Norm(Geo(Meet(dom.genInv, i, Pow(dom.gen, j)), dom.size)) == if i == j then Norm(dom.size) else 0
  {
    var g, gi := dom.gen, dom.genInv;
    var x := Meet(gi, i, Pow(g, j));
    assert gi * g == g * gi;
    if i == j {
      Cancelled(gi, g, i, j);
      assert Pow(g, 0) == 1;
      GeoOfOne(x, dom.size);
    } else if i < j {
      Cancelled(gi, g, i, j);
      GeoVanishes(g, s, x, j - i);
    } else {
      Cancelled(g, gi, j, i);
      assert x == Pow(g, j) * Pow(gi, i);
      InversePrimitive(g, gi, Pow2(s - 1));
      GeoVanishes(gi, s, x, i - j);
    }
  }

  lemma {:induction false} ColumnsPick(dom: Domain, s: nat, c: seq<int>, j: nat, k: nat)
    requires Primitive(dom, s) && k <= |c| == dom.size && j < dom.size
    ensures Norm(Columns(c, dom.genInv, Pow(dom.gen, j), dom.size, k)) == Norm(if j < k then c[j] * dom.size else 0)
  {
    if k > 0 {
      var i, z := k - 1, Pow(dom.gen, j);
      ColumnsPick(dom, s, c, j, i);
      Orthogonal(dom, s, i, j);
      PickStep(Columns(c, dom.genInv, z, dom.size, i), c[i], c[j], Geo(Meet(dom.genInv, i, z), dom.size), dom.size, i, j);
    }
  }

  lemma PickStep(sum: int, ci: int, cj: int, geo: int, n: nat, i: nat, j: nat)
    requires Norm(sum) == Norm(if j < i then cj * n else 0) && Norm(geo) == (if i == j then Norm(n) else 0) && (i == j ==> ci == cj)
    ensures Norm(sum + ci * geo) == Norm(if j < i + 1 then cj * n else 0)
  {
    var target := if i == j then n else 0;
    CongMul(ci, ci, geo, target);
    CongAdd(sum, if j < i then cj * n else 0, ci * geo, ci * target);
  }

  /** The transform undoes the inverse transform. */
  lemma FftInverts(dom: Domain, s: nat, c: seq<int>, j: nat)
    requires Primitive(dom, s) && |c| == dom.size && j < dom.size
    ensures Fft(dom, Ifft(dom, c))[j] == Norm(c[j])
  {
    var z, n := Pow(dom.gen, j), dom.size;
    TransformSum(dom, c, z, n);
    ColumnsPick(dom, s, c, j, n);
    SizeCancels(dom.sizeInv, Columns(c, dom.genInv, z, n, n), c[j], n);
  }

  lemma SizeCancels(ninv: int, sum: int, c: int, n: nat)
    requires Norm(sum) == Norm(c * n) && Norm(n * ninv) == Norm(1)
    ensures Norm(ninv * sum) == Norm(c)
  {
    CongMul(ninv, ninv, sum, c * n);
    CongMul(c, c, n * ninv, 1);
    assert ninv * (c * n) == c * (n * ninv);
  }

  lemma DomainPrimitive(f: Field, s: nat)
    requires ValidField(f) && s <= ADICITY && Norm(Pow(f.omega, Pow2(ADICITY - 1))) == Norm(-1)
    ensures Primitive(f.domains[s], s)
  {
    var dom, x := f.domains[s], Pow(f.omega, Pow2(ADICITY - s));
    assert Radix2(dom, f.omega, s);
    if s > 0 {
      NormIdem(x);
      CongPow(dom.gen, x, Pow2(s - 1));
      SubgroupGenerator(f.omega, ADICITY - s, s - 1);
    }
  }

  /** The commitment bases are the Lagrange basis at tau: weighted by the j-th powers of the domain's
      points they add up to the j-th power of tau. */
  lemma BasesInterpolate(f: Field, tau: int, depth: nat, bases: seq<Point>, j: nat)
    requires ValidField(f) && depth <= ADICITY && Norm(Pow(f.omega, Pow2(ADICITY - 1))) == Norm(-1)
    requires f.domains[depth].size == Pow2(depth) && j < Pow2(depth)
    requires bases == Ifft(f.domains[depth], PowerTau(tau, Pow2(depth)))
    ensures Norm(Eval(bases, Pow(f.domains[depth].gen, j), Pow2(depth))) == Norm(Pow(tau, j))
  {
    DomainPrimitive(f, depth);
    FftInverts(f.domains[depth], depth, PowerTau(tau, Pow2(depth)), j);
    NormIdem(Pow(tau, j));
  }
}
