/** Public parameters of the authenticated multipoint trees, generated from powers of tau.
    Fourier transforms are taken as the sums they are defined by. */
module ProveParams {
  import opened Scalar
  import opened Bits

  // ----- powers -----

  function Pow(b: int, e: nat): int {
    if e == 0 then 1 else b * Pow(b, e - 1)
  }

  lemma {:induction false} PowAdd(b: int, x: nat, y: nat)
    ensures Pow(b, x + y) == Pow(b, x) * Pow(b, y)
  {
    if x > 0 {
      PowAdd(b, x - 1, y);
      assert b * (Pow(b, x - 1) * Pow(b, y)) == (b * Pow(b, x - 1)) * Pow(b, y);
    }
  }

  lemma {:induction false} PowMul(b: int, x: nat, y: nat)
    ensures x * y >= 0 && Pow(b, x * y) == Pow(Pow(b, x), y)
  {
    if y > 0 {
      PowMul(b, x, y - 1);
      assert x * y == x + x * (y - 1);
      PowAdd(b, x, x * (y - 1));
    }
  }

  lemma Regroup(a: int, b: int, c: int, d: int)
    ensures (a * b) * (c * d) == (a * c) * (b * d)
  {
  }

  lemma {:induction false} PowProduct(a: int, b: int, e: nat)
    ensures Pow(a * b, e) == Pow(a, e) * Pow(b, e)
  {
    if e > 0 {
      PowProduct(a, b, e - 1);
      Regroup(a, b, Pow(a, e - 1), Pow(b, e - 1));
    }
  }

  lemma {:induction false} CongPow(a: int, b: int, e: nat)
    requires Norm(a) == Norm(b)
    ensures Norm(Pow(a, e)) == Norm(Pow(b, e))
  {
    if e > 0 {
      CongPow(a, b, e - 1);
      CongMul(a, b, Pow(a, e - 1), Pow(b, e - 1));
    }
  }

  lemma {:induction false} PowOne(e: nat)
    ensures Pow(1, e) == 1
  {
    if e > 0 { PowOne(e - 1); }
  }

  /** Powers of a root of unity. */
  lemma PowOfUnity(a: int, x: nat, e: nat)
    requires Norm(Pow(a, x)) == Norm(1)
    ensures x * e >= 0 && Norm(Pow(a, x * e)) == Norm(1)
  {
    PowMul(a, x, e);
    CongPow(Pow(a, x), 1, e);
    PowOne(e);
  }

  /** Inverse elements have inverse powers. */
  lemma InversePowers(a: int, b: int, e: nat)
    requires Norm(a * b) == Norm(1)
    ensures Norm(Pow(a, e) * Pow(b, e)) == Norm(1)
  {
    PowProduct(a, b, e);
    CongPow(a * b, 1, e);
    PowOne(e);
  }

  lemma InverseUnique(a: int, b: int, c: int)
    requires Norm(a * b) == Norm(1) && Norm(a * c) == Norm(1)
    ensures Norm(b) == Norm(c)
  {
    CongMul(a * b, 1, c, c);
    CongMul(a * c, 1, b, b);
    assert (a * b) * c == (a * c) * b;
  }

  // ----- evaluation domains -----

  const ADICITY: nat := 28

  datatype Domain = Domain(size: nat, gen: int, genInv: int, sizeInv: int)

  /** The radix-2 domain with 2^s points below the 2^ADICITY-th root of unity `omega`. */
  ghost predicate Radix2(dom: Domain, omega: int, s: nat) {
    && s <= ADICITY
    && dom.size == Pow2(s)
    && dom.gen == Norm(Pow(omega, Pow2(ADICITY - s)))
    && Norm(dom.gen * dom.genInv) == Norm(1)
    && Norm(dom.size * dom.sizeInv) == Norm(1)
  }

  datatype Field = Field(omega: int, domains: seq<Domain>)

  ghost predicate ValidField(f: Field) {
    && Norm(Pow(f.omega, Pow2(ADICITY))) == Norm(1)
    && |f.domains| == ADICITY + 1
    && forall s :: 0 <= s <= ADICITY ==> Radix2(f.domains[s], f.omega, s)
  }

  /** The first `n` terms of the polynomial with coefficients `c` at `z`. */
  function Eval(c: seq<int>, z: int, n: nat): int
    requires n <= |c|
  {
    if n == 0 then 0 else Eval(c, z, n - 1) + c[n - 1] * Pow(z, n - 1)
  }

  /** The transform evaluates at the powers of the generator. */
  function Fft(dom: Domain, c: seq<int>): seq<Point>
    requires |c| == dom.size
  {
    seq(dom.size, t requires 0 <= t < dom.size => Norm(Eval(c, Pow(dom.gen, t), |c|)))
  }

  function Ifft(dom: Domain, c: seq<int>): seq<Point>
    requires |c| == dom.size
  {
    seq(dom.size, t requires 0 <= t < dom.size => Norm(dom.sizeInv * Eval(c, Pow(dom.genInv, t), |c|)))
  }

  function PowerTau(tau: int, n: nat): seq<Point> {
    seq(n, i requires 0 <= i < n => Norm(Pow(tau, i)))
  }

  // ----- the parameters -----

  datatype AmtParams = AmtParams(
    depths: nat,
    commitments: seq<Point>,
    quotients: seq<seq<Point>>,
    verification: seq<seq<Point>>,
    g2: Point)

  ghost predicate Shaped(pp: AmtParams) {
    && |pp.commitments| == Pow2(pp.depths)
    && |pp.quotients| == pp.depths
    && |pp.verification| == pp.depths
    && (forall d :: 0 <= d < pp.depths ==> |pp.quotients[d]| == Pow2(pp.depths))
    && (forall d :: 0 <= d < pp.depths ==> |pp.verification[d]| == Pow2(d + 1))
  }

  /** The identity every opening rests on: the commitment to index `t` factors, under the
      pairing, into the quotient at any depth and the verification key of the residue of `t`. */
  ghost predicate Factors(pp: AmtParams)
    requires Shaped(pp)
  {
    forall d: nat, t: nat :: 1 <= d <= pp.depths && t < Pow2(pp.depths) ==>
      Pairing(pp.commitments[t], pp.g2)
      == Pairing(pp.quotients[d - 1][t], pp.verification[d - 1][Low(t, d)])
  }

  /** No commitment base of the parameters is degenerate. */
  ghost predicate Regular(pp: AmtParams)
    requires Shaped(pp)
  {
    forall i :: 0 <= i < Pow2(pp.depths) ==> Unit(pp.commitments[i])
  }

  function QuotientCoeff(g1: seq<Point>, m: nat): seq<int>
    requires m < |g1|
  {
    seq(|g1|, i requires 0 <= i < |g1| => if 1 <= i <= m then g1[m - i] else 0)
  }

  function VerifyCoeff(g2: seq<Point>, step: nat, count: nat): (c: seq<int>)
    requires step >= 1 && count >= 1 && step * count == |g2|
    ensures |c| == count
  {
    seq(count, i requires 0 <= i < count => VerifyCoeffAt(g2, step, count, i))
  }

  function VerifyCoeffAt(g2: seq<Point>, step: nat, count: nat, i: nat): int
    requires step >= 1 && i < count && step * count == |g2|
  {
    if i == 0 then
      MulMono(1, count, step); g2[|g2| - step]
    else
      BlockStart(i - 1, step, count); g2[(i - 1) * step]
  }

  lemma BlockStart(i: nat, step: nat, count: nat)
    requires i < count && step >= 1
    ensures 0 <= i * step <= step * count - step
  {
    MulMono(i, count - 1, step);
    assert (count - 1) * step == step * count - step;
  }

  function Quotients(dom: Domain, g1: seq<Point>, m: nat): seq<Point>
    requires m < |g1| == dom.size
  {
    seq(dom.size, t requires 0 <= t < dom.size => QuotientAt(dom, g1, m, t))
  }

  function QuotientAt(dom: Domain, g1: seq<Point>, m: nat, t: nat): Point
    requires m < |g1|
  {
    Norm(Norm(Eval(QuotientCoeff(g1, m), Pow(dom.gen, t), |g1|)) * dom.sizeInv)
  }

  function Verification(dom: Domain, g2: seq<Point>, step: nat): seq<Point>
    requires step >= 1 && dom.size >= 1 && step * dom.size == |g2|
  {
    Fft(dom.(gen := dom.genInv, genInv := dom.gen), VerifyCoeff(g2, step, dom.size))
  }

  // ----- proof of the identity: all three sums are geometric -----

  /** 1 + x + ... + x^(n-1) */
  function Geo(x: int, n: nat): int {
    if n == 0 then 0 else Geo(x, n - 1) + Pow(x, n - 1)
  }

  lemma {:induction false} GeoConcat(x: int, a: nat, b: nat)
    ensures Geo(x, a + b) == Geo(x, a) + Pow(x, a) * Geo(x, b)
  {
    if b > 0 {
      GeoConcat(x, a, b - 1);
      PowAdd(x, a, b - 1);
      Distribute(Pow(x, a), Geo(x, b - 1), Pow(x, b - 1));
    }
  }

  /** Blocks of `m` terms: the double sum of the identity. */
  lemma {:induction false} GeoBlocks(x: int, m: nat, count: nat)
    ensures m * count >= 0 && Geo(x, m) * Geo(Pow(x, m), count) == Geo(x, m * count)
  {
    if count == 0 {
      assert m * count == 0;
    } else {
      GeoBlocks(x, m, count - 1);
      Distribute(m, count - 1, 1);
      GeoConcat(x, m * (count - 1), m);
      PowMul(x, m, count - 1);
      Distribute(Geo(x, m), Geo(Pow(x, m), count - 1), Pow(Pow(x, m), count - 1));
    }
  }

  lemma Distribute(a: int, b: int, c: int)
    ensures a * (b + c) == a * b + a * c
  {
  }

  /** The commitment to an index is the geometric sum at `u tau`. */
  lemma {:induction false} CommitmentSum(g1: seq<Point>, u: int, tau: int, n: nat)
    requires n <= |g1| && g1 == PowerTau(tau, |g1|)
    ensures Norm(Eval(g1, u, n)) == Norm(Geo(u * tau, n))
  {
    if n > 0 {
      CommitmentSum(g1, u, tau, n - 1);
      NormIdem(Pow(tau, n - 1));
      PowProduct(u, tau, n - 1);
      CommitmentStep(Eval(g1, u, n - 1), Geo(u * tau, n - 1), g1[n - 1], Pow(tau, n - 1), Pow(u, n - 1));
    }
  }

  lemma CommitmentStep(rest: int, geo: int, c: int, tp: int, up: int)
    requires Norm(rest) == Norm(geo) && Norm(c) == Norm(tp)
    ensures Norm(rest + c * up) == Norm(geo + up * tp)
  {
    CongMul(c, tp, up, up);
    CongAdd(rest, geo, c * up, up * tp);
  }

  /** One quotient coefficient, scaled: `u^m w^i tau^(m-i) = (u tau)^(m-i)`. */
  lemma QuotientTerm(w: int, u: int, tau: int, m: nat, i: nat)
    requires i <= m && Norm(w * u) == Norm(1)
    ensures Norm(Pow(u, m) * (Pow(tau, m - i) * Pow(w, i))) == Norm(Pow(u * tau, m - i))
  {
    PowAdd(u, m - i, i);
    PowProduct(u, tau, m - i);
    InversePowers(w, u, i);
    CancelInverse(Pow(u, m - i), Pow(u, i), Pow(tau, m - i), Pow(w, i));
  }

  lemma CancelInverse(a: int, b: int, p: int, c: int)
    requires Norm(c * b) == Norm(1)
    ensures Norm((a * b) * (p * c)) == Norm(a * p)
  {
    var z := a * p;
    Regroup(a, b, p, c);
    CongMul(z, z, c * b, 1);
  }

  /** The quotient sum is the geometric sum of one block, read backwards. */
  lemma {:induction false} QuotientSum(g1: seq<Point>, w: int, u: int, tau: int, m: nat, p: nat)
    requires p <= m < |g1| && g1 == PowerTau(tau, |g1|) && Norm(w * u) == Norm(1)
    ensures Norm(Pow(u, m) * Eval(QuotientCoeff(g1, m), w, p + 1)) == Norm(Geo(u * tau, m) - Geo(u * tau, m - p))
  {
    var c := QuotientCoeff(g1, m);
    if p == 0 {
      assert Eval(c, w, 1) == Eval(c, w, 0) + c[0] * Pow(w, 0) == 0;
    } else {
      QuotientSum(g1, w, u, tau, m, p - 1);
      QuotientTerm(w, u, tau, m, p);
      NormIdem(Pow(tau, m - p));
      QuotientStep(Pow(u, m), Eval(c, w, p), c[p], Pow(tau, m - p), Pow(w, p),
                   Geo(u * tau, m) - Geo(u * tau, m - p + 1), Pow(u * tau, m - p));
    }
  }

  lemma QuotientStep(um: int, rest: int, c: int, c': int, wp: int, sum: int, term: int)
    requires Norm(um * rest) == Norm(sum) && Norm(c) == Norm(c')
    requires Norm(um * (c' * wp)) == Norm(term)
    ensures Norm(um * (rest + c * wp)) == Norm(sum + term)
  {
    CongMul(c, c', wp, wp);
    CongMul(um, um, c * wp, c' * wp);
    Distribute(um, rest, c * wp);
    CongAdd(um * rest, sum, um * (c * wp), term);
  }

  /** The coefficients beyond the block length are zero. */
  lemma {:induction false} QuotientTail(g1: seq<Point>, w: int, m: nat, n: nat)
    requires m < n <= |g1|
    ensures Eval(QuotientCoeff(g1, m), w, n) == Eval(QuotientCoeff(g1, m), w, m + 1)
  {
    if n > m + 1 { QuotientTail(g1, w, m, n - 1); }
  }

  /** The verification coefficients are powers of `tau^step`, the last one moved to the front. */
  lemma VerifyCoeffPower(g2: seq<Point>, tau: int, step: nat, count: nat, i: nat)
    requires g2 == PowerTau(tau, |g2|) && step >= 1 && i < count && step * count == |g2|
    ensures VerifyCoeffAt(g2, step, count, i)
         == Norm(Pow(Pow(tau, step), if i == 0 then count - 1 else i - 1))
  {
    var e := if i == 0 then count - 1 else i - 1;
    BlockStart(e, step, count);
    PowMul(tau, step, e);
    Distribute(step, count - 1, 1);
  }

  /** A verification key but for its front coefficient is `y` times a geometric sum at `y tau^step`. */
  lemma {:induction false} VerificationSum(c: seq<int>, z: int, y: int, tm: int, k: nat)
    requires k < |c| && Norm(z) == Norm(y)
    requires forall i :: 1 <= i < |c| ==> c[i] == Norm(Pow(tm, i - 1))
    ensures Norm(Eval(c, z, k + 1)) == Norm(c[0] + y * Geo(y * tm, k))
  {
    if k == 0 {
      assert Eval(c, z, 1) == Eval(c, z, 0) + c[0] * Pow(z, 0);
    } else {
      VerificationSum(c, z, y, tm, k - 1);
      CongPow(z, y, k);
      NormIdem(Pow(tm, k - 1));
      PowProduct(y, tm, k - 1);
      CongMul(c[k], Pow(tm, k - 1), Pow(z, k), Pow(y, k));
      VerificationStep(y, Pow(y, k - 1), Pow(tm, k - 1), Geo(y * tm, k - 1));
      CongAdd(Eval(c, z, k), c[0] + y * Geo(y * tm, k - 1), c[k] * Pow(z, k), Pow(tm, k - 1) * Pow(y, k));
    }
  }

  lemma VerificationStep(y: int, yk: int, t: int, g: int)
    ensures y * g + t * (y * yk) == y * (g + yk * t)
  {
  }

  /** A whole verification key, using that `y` is a root of unity of the smaller domain. */
  lemma VerificationKey(c: seq<int>, z: int, y: int, tm: int)
    requires |c| >= 1 && Norm(z) == Norm(y) && Norm(Pow(y, |c|)) == Norm(1)
    requires forall i :: 1 <= i < |c| ==> c[i] == Norm(Pow(tm, i - 1))
    requires c[0] == Norm(Pow(tm, |c| - 1))
    ensures Norm(Eval(c, z, |c|)) == Norm(y * Geo(y * tm, |c|))
  {
    var k := |c| - 1;
    VerificationSum(c, z, y, tm, k);
    var tk := Pow(tm, k);
    NormIdem(tk);
    CongMul(tk, tk, Pow(y, k + 1), 1);
    PowProduct(y, tm, k);
    VerificationStep(y, Pow(y, k), tk, Geo(y * tm, k));
    CongAdd(c[0], tk * Pow(y, k + 1), y * Geo(y * tm, k), y * Geo(y * tm, k));
  }

  /** How the generators of the two domains relate. */
  ghost predicate Related(w: int, u: int, ud: int, m: nat, count: nat) {
    && m >= 1 && count >= 1
    && Norm(w * u) == Norm(1)
    && Norm(Pow(ud, count)) == Norm(1)
    && Norm(ud) == Norm(Pow(u, m))
  }

  /** `ud^t = (u^t)^m`, itself a root of unity of the smaller domain. */
  lemma SmallRoot(u: int, ud: int, m: nat, count: nat, t: nat)
    requires Norm(Pow(ud, count)) == Norm(1) && Norm(ud) == Norm(Pow(u, m))
    ensures Norm(Pow(ud, t)) == Norm(Pow(Pow(u, t), m))
    ensures Norm(Pow(Pow(Pow(u, t), m), count)) == Norm(1)
  {
    CongPow(ud, Pow(u, m), t);
    PowMul(u, m, t);
    PowMul(u, t, m);
    var y := Pow(Pow(u, t), m);
    CongPow(y, Pow(ud, t), count);
    PowMul(ud, t, count);
    PowOfUnity(ud, count, t);
  }

  /** Exponents of a root of unity count modulo its order. */
  lemma ResidueExponent(ud: int, count: nat, t: nat)
    requires count >= 1 && Norm(Pow(ud, count)) == Norm(1)
    ensures Norm(Pow(ud, t % count)) == Norm(Pow(ud, t))
  {
    var q, s := t / count, t % count;
    assert t == s + count * q;
    UnityFactor(ud, count, s, q);
  }

  lemma UnityFactor(u: int, n: nat, x: nat, y: nat)
    requires Norm(Pow(u, n)) == Norm(1)
    ensures n * y >= 0 && Norm(Pow(u, x + n * y)) == Norm(Pow(u, x))
  {
    PowOfUnity(u, n, y);
    PowAdd(u, x, n * y);
    CongMul(Pow(u, x), Pow(u, x), Pow(u, n * y), 1);
  }

  /** The identity for one index at one depth. */
  lemma IndexFactors(g1: seq<Point>, w: int, u: int, ud: int, tau: int, t: nat, m: nat, count: nat, ninv: int)
    requires m < |g1| == m * count && g1 == PowerTau(tau, |g1|)
    requires Related(w, u, ud, m, count)
    ensures
      var quot := Eval(QuotientCoeff(g1, m), Pow(w, t), |g1|);
      var key := Eval(VerifyCoeff(g1, m, count), Pow(ud, t % count), count);
      Pairing(Norm(ninv * Eval(g1, Pow(u, t), |g1|)), Norm(1)) == Pairing(Norm(Norm(quot) * ninv), Norm(key))
  {
    var wt, ut := Pow(w, t), Pow(u, t);
    var quot := Eval(QuotientCoeff(g1, m), wt, |g1|);
    var c := VerifyCoeff(g1, m, count);
    var key := Eval(c, Pow(ud, t % count), count);
    InversePowers(w, u, t);
    QuotientTail(g1, wt, m, |g1|);
    QuotientSum(g1, wt, ut, tau, m, m);
    forall i | 0 <= i < count
      ensures c[i] == Norm(Pow(Pow(tau, m), if i == 0 then count - 1 else i - 1))
    {
      VerifyCoeffPower(g1, tau, m, count, i);
    }
    SmallRoot(u, ud, m, count, t);
    ResidueExponent(ud, count, t);
    VerificationKey(c, Pow(ud, t % count), Pow(ut, m), Pow(tau, m));
    PowProduct(ut, tau, m);
    GeoBlocks(ut * tau, m, count);
    CommitmentSum(g1, ut, tau, |g1|);
    CombineSums(Pow(ut, m), quot, key, Geo(ut * tau, m), Geo(Pow(ut * tau, m), count));
    ScaledFactors(ninv, Eval(g1, ut, |g1|), quot, key);
  }

  lemma CombineSums(y: int, quot: int, key: int, a: int, b: int)
    requires Norm(y * quot) == Norm(a) && Norm(key) == Norm(y * b)
    ensures Norm(key * quot) == Norm(a * b)
  {
    CongMul(key, y * b, quot, quot);
    CongMul(y * quot, a, b, b);
    assert (y * b) * quot == (y * quot) * b;
  }

  lemma ScaledFactors(ninv: int, comm: int, quot: int, key: int)
    requires Norm(key * quot) == Norm(comm)
    ensures Pairing(Norm(ninv * comm), Norm(1)) == Pairing(Norm(Norm(quot) * ninv), Norm(key))
  {
    CongMul(ninv, ninv, key * quot, comm);
    NormMul(ninv * comm, 1);
    NormMul(ninv, quot);
    RightFactor(ninv, quot, key);
  }

  lemma RightFactor(ninv: int, quot: int, key: int)
    ensures Norm(Norm(ninv * quot) * Norm(key)) == Norm(ninv * (key * quot))
  {
    var x := ninv * quot;
    NormMul(x, key);
    assert x * key == ninv * (key * quot);
  }

  /** The inverse generator of the smaller domain is the matching power of the larger one's. */
  lemma DomainsRelated(f: Field, depth: nat, d: nat)
    requires ValidField(f) && 1 <= d <= depth <= ADICITY
    ensures Related(f.domains[depth].gen, f.domains[depth].genInv, f.domains[d].genInv,
                    Pow2(depth - d), Pow2(d))
  {
    var big, small := f.domains[depth], f.domains[d];
    assert Radix2(big, f.omega, depth) && Radix2(small, f.omega, d);
    var x, y := Pow(f.omega, Pow2(ADICITY - depth)), Pow(f.omega, Pow2(ADICITY - d));
    NormIdem(x);
    NormIdem(y);
    assert Norm(small.genInv) == Norm(Pow(big.genInv, Pow2(depth - d))) by {
      SubgroupGenerator(f.omega, ADICITY - depth, depth - d);
      InverseOfPower(big.gen, big.genInv, small.gen, small.genInv, x, Pow2(depth - d));
    }
    assert Norm(Pow(small.genInv, Pow2(d))) == Norm(1) by {
      SubgroupGenerator(f.omega, ADICITY - d, d);
      UnityOfInverse(small.gen, small.genInv, y, Pow2(d));
    }
  }

  lemma InverseOfPower(g: int, gi: int, h: int, hi: int, base: int, m: nat)
    requires Norm(g) == Norm(base) && Norm(h) == Norm(Pow(base, m))
    requires Norm(g * gi) == Norm(1) && Norm(h * hi) == Norm(1)
    ensures Norm(hi) == Norm(Pow(gi, m))
  {
    CongPow(g, base, m);
    InversePowers(g, gi, m);
    var gim := Pow(gi, m);
    CongMul(h, Pow(g, m), gim, gim);
    InverseUnique(h, hi, gim);
  }

  lemma UnityOfInverse(h: int, hi: int, base: int, count: nat)
    requires Norm(h) == Norm(base) && Norm(Pow(base, count)) == Norm(1) && Norm(h * hi) == Norm(1)
    ensures Norm(Pow(hi, count)) == Norm(1)
  {
    CongPow(h, base, count);
    InversePowers(h, hi, count);
    var x := Pow(hi, count);
    CongMul(Pow(h, count), 1, x, x);
  }

  lemma SubgroupGenerator(omega: int, a: nat, b: nat)
    ensures Pow(Pow(omega, Pow2(a)), Pow2(b)) == Pow(omega, Pow2(a + b))
  {
    PowMul(omega, Pow2(a), Pow2(b));
    Pow2Add(a, b);
  }

  // ----- generation, as the source runs it -----

  method GenQuotients(g1: seq<Point>, dom: Domain, maxDepth: nat, d: nat) returns (answer: seq<Point>)
    requires |g1| == dom.size == Pow2(maxDepth) && 1 <= d <= maxDepth
    ensures Pow2(maxDepth - d) < |g1|
    ensures answer == Quotients(dom, g1, Pow2(maxDepth - d))
  {
    var length := |g1|;
    var m := Pow2(maxDepth - d);
    Pow2Add(maxDepth - d, d);
    MulMono(2, Pow2(d), m);
    assert m < length;
    var coeff := FillQuotientCoeff(g1, m);
    answer := Fft(dom, coeff[..]);
    var j := 0;
    while j < |answer|
      invariant 0 <= j <= |answer| == length
      invariant forall t :: 0 <= t < length ==>
        answer[t] == if t < j then QuotientAt(dom, g1, m, t)
                     else Norm(Eval(QuotientCoeff(g1, m), Pow(dom.gen, t), length))
    {
      answer := answer[j := Norm(answer[j] * dom.sizeInv)];
      j := j + 1;
    }
  }

  method FillQuotientCoeff(g1: seq<Point>, m: nat) returns (coeff: array<int>)
    requires m < |g1|
    ensures fresh(coeff) && coeff[..] == QuotientCoeff(g1, m)
  {
    var length := |g1|;
    coeff := new int[length](_ => 0);
    var i := 1;
    while i <= m
      invariant 1 <= i <= m + 1
      invariant forall j :: 0 <= j < length ==> coeff[j] == if 1 <= j < i then g1[m - j] else 0
    {
      coeff[i] := g1[m - i];
      i := i + 1;
    }
  }

  method FillVerifyCoeff(g2: seq<Point>, step: nat, count: nat) returns (coeff: array<int>)
    requires step >= 1 && count >= 1 && step * count == |g2|
    ensures fresh(coeff) && coeff[..] == VerifyCoeff(g2, step, count)
  {
    ghost var spec := VerifyCoeff(g2, step, count);
    coeff := new int[count](_ => 0);
    BlockStart(0, step, count);
    coeff[0] := g2[|g2| - step];
    assert coeff[0] == spec[0];
    var i := 1;
    while i < count
      invariant 1 <= i <= count
      invariant forall j :: 0 <= j < i ==> coeff[j] == spec[j]
    {
      BlockStart(i - 1, step, count);
      coeff[i] := g2[(i - 1) * step];
      assert coeff[i] == VerifyCoeffAt(g2, step, count, i);
      i := i + 1;
    }
  }

  lemma BlockCount(maxDepth: nat, d: nat)
    requires d <= maxDepth
    ensures Pow2(maxDepth) / Pow2(maxDepth - d) == Pow2(d)
    ensures Pow2(maxDepth - d) * Pow2(d) == Pow2(maxDepth)
  {
    Pow2Add(maxDepth - d, d);
    DivUnique(Pow2(maxDepth), Pow2(maxDepth - d), Pow2(d), 0);
  }

  method GenVerify(g2: seq<Point>, f: Field, maxDepth: nat, d: nat) returns (answer: seq<Point>)
    requires ValidField(f) && |g2| == Pow2(maxDepth) && 1 <= d <= maxDepth <= ADICITY
    ensures f.domains[d].size >= 1 && Pow2(maxDepth - d) * f.domains[d].size == |g2|
    ensures answer == Verification(f.domains[d], g2, Pow2(maxDepth - d))
  {
    var length := |g2|;
    var step := Pow2(maxDepth - d);
    var count := length / step;
    var dom := f.domains[d];
    assert count == dom.size && step * count == length by {
      assert Radix2(dom, f.omega, d);
      BlockCount(maxDepth, d);
    }
    var w, wInv := dom.gen, dom.genInv;
    dom := dom.(gen := wInv, genInv := w);
    var coeff := FillVerifyCoeff(g2, step, count);
    answer := Fft(dom, coeff[..]);
  }

  ghost predicate Generated(f: Field, g: seq<Point>, depth: nat, d: nat, q: seq<Point>, v: seq<Point>)
    requires ValidField(f) && |g| == Pow2(depth) && 1 <= d <= depth <= ADICITY
  {
    var dom, small, m := f.domains[depth], f.domains[d], Pow2(depth - d);
    && dom.size == |g| && m < |g| && q == Quotients(dom, g, m)
    && small.size == Pow2(d) && m * small.size == |g| && v == Verification(small, g, m)
  }

  lemma GeneratedFactors(dom: Domain, small: Domain, tau: int, t: nat, m: nat, count: nat)
    requires 1 <= m < dom.size == m * count && small.size == count >= 1 && t < dom.size
    requires Related(dom.gen, dom.genInv, small.genInv, m, count)
    ensures
      var g := PowerTau(tau, dom.size);
      Pairing(Ifft(dom, g)[t], g[0])
      == Pairing(Quotients(dom, g, m)[t], Verification(small, g, m)[t % count])
  {
    var g := PowerTau(tau, dom.size);
    assert g[0] == Norm(1);
    IndexFactors(g, dom.gen, dom.genInv, small.genInv, tau, t, m, count, dom.sizeInv);
  }

  /** The generated vectors together make parameters that factor at every depth and index. */
  lemma ParamsFactor(f: Field, tau: int, depth: nat, pp: AmtParams)
    requires ValidField(f) && depth <= ADICITY && pp.depths == depth
    requires f.domains[depth].size == Pow2(depth)
    requires
      var g := PowerTau(tau, Pow2(depth));
      && pp.commitments == Ifft(f.domains[depth], g) && pp.g2 == g[0]
      && |pp.quotients| == |pp.verification| == depth
      && forall e :: 0 <= e < depth ==> Generated(f, g, depth, e + 1, pp.quotients[e], pp.verification[e])
    ensures Shaped(pp) && Factors(pp)
  {
    var g := PowerTau(tau, Pow2(depth));
    forall e | 0 <= e < depth
      ensures |pp.quotients[e]| == Pow2(depth) && |pp.verification[e]| == Pow2(e + 1)
    {
      assert Generated(f, g, depth, e + 1, pp.quotients[e], pp.verification[e]);
    }
    forall d: nat, t: nat | 1 <= d <= depth && t < Pow2(depth)
      ensures Pairing(pp.commitments[t], pp.g2)
           == Pairing(pp.quotients[d - 1][t], pp.verification[d - 1][Low(t, d)])
    {
      assert Generated(f, g, depth, d - 1 + 1, pp.quotients[d - 1], pp.verification[d - 1]);
      DepthFactors(f, tau, depth, d, t, pp.quotients[d - 1], pp.verification[d - 1]);
    }
  }

  lemma DepthFactors(f: Field, tau: int, depth: nat, d: nat, t: nat, quotients: seq<Point>, verification: seq<Point>)
    requires ValidField(f) && 1 <= d <= depth <= ADICITY && t < Pow2(depth) == f.domains[depth].size
    requires Generated(f, PowerTau(tau, Pow2(depth)), depth, d, quotients, verification)
    ensures
      var g := PowerTau(tau, Pow2(depth));
      && |quotients| == Pow2(depth) && |verification| == Pow2(d) && Low(t, d) < Pow2(d)
      && Pairing(Ifft(f.domains[depth], g)[t], g[0]) == Pairing(quotients[t], verification[Low(t, d)])
  {
    DomainsRelated(f, depth, d);
    LowIsResidue(t, d);
    GeneratedFactors(f.domains[depth], f.domains[d], tau, t, Pow2(depth - d), Pow2(d));
  }

  lemma {:induction false} GeoClosed(x: int, n: nat)
    ensures (x - 1) * Geo(x, n) == Pow(x, n) - 1
  {
    if n > 0 {
      GeoClosed(x, n - 1);
      Distribute(x - 1, Geo(x, n - 1), Pow(x, n - 1));
      Distribute(Pow(x, n - 1), x, -1);
    }
  }

  /** The inverse generator is a root of unity of the domain's size. */
  lemma GeneratorUnity(f: Field, depth: nat)
    requires ValidField(f) && depth <= ADICITY
    ensures Norm(Pow(f.domains[depth].genInv, Pow2(depth))) == Norm(1)
  {
    var dom, y := f.domains[depth], Pow(f.omega, Pow2(ADICITY - depth));
    assert Radix2(dom, f.omega, depth);
    NormIdem(y);
    SubgroupGenerator(f.omega, ADICITY - depth, depth);
    UnityOfInverse(dom.gen, dom.genInv, y, Pow2(depth));
  }

  lemma PowerUnity(u: int, n: nat, t: nat)
    requires Norm(Pow(u, n)) == Norm(1)
    ensures Norm(Pow(Pow(u, t), n)) == Norm(1)
  {
    PowOfUnity(u, n, t);
    PowMul(u, t, n);
    assert t * n == n * t;
  }

  /** At a root of unity `u`, the geometric sum times `u tau - 1` is `tau^n - 1`. */
  lemma GeoAtUnity(u: int, tau: int, n: nat)
    requires Norm(Pow(u, n)) == Norm(1)
    ensures Norm((u * tau - 1) * Geo(u * tau, n)) == Norm(Pow(tau, n) - 1)
  {
    GeoClosed(u * tau, n);
    PowProduct(u, tau, n);
    CongMul(Pow(u, n), 1, Pow(tau, n), Pow(tau, n));
    CongAdd(Pow(u, n) * Pow(tau, n), Pow(tau, n), -1, -1);
  }

  /** A commitment base is a unit when tau^n - 1 is. */
  lemma BaseUnit(size: int, sizeInv: int, x: int, geo: int, eval: int, target: int)
    requires Norm(size * sizeInv) == Norm(1) && Norm(eval) == Norm(geo) && Norm(x * geo) == Norm(target)
    requires Unit(Norm(target))
    ensures Unit(Norm(sizeInv * eval))
  {
    CongMul(x, x, eval, geo);
    CongMul(size * sizeInv, 1, x * eval, x * eval);
    assert (size * sizeInv) * (x * eval) == (size * x) * (sizeInv * eval) by { Regroup(size, sizeInv, x, eval); }
    assert Norm((size * x) * (sizeInv * eval)) == Norm(target);
    UnitFactor(size * x, sizeInv * eval);
  }

  /** Parameters are regular unless tau is, in effect, a point of the domain. */
  lemma ParamsRegular(f: Field, tau: int, depth: nat, pp: AmtParams)
    requires ValidField(f) && depth <= ADICITY && pp.depths == depth && Shaped(pp)
    requires f.domains[depth].size == Pow2(depth) && pp.commitments == Ifft(f.domains[depth], PowerTau(tau, Pow2(depth)))
    requires Unit(Norm(Pow(tau, Pow2(depth)) - 1))
    ensures Regular(pp)
  {
    forall t | 0 <= t < Pow2(depth) ensures Unit(pp.commitments[t]) { IndexRegular(f, tau, depth, t); }
  }

  lemma IndexRegular(f: Field, tau: int, depth: nat, t: nat)
    requires ValidField(f) && depth <= ADICITY && t < Pow2(depth) == f.domains[depth].size
    requires Unit(Norm(Pow(tau, Pow2(depth)) - 1))
    ensures Unit(Ifft(f.domains[depth], PowerTau(tau, Pow2(depth)))[t])
  {
    assert Radix2(f.domains[depth], f.omega, depth);
    GeneratorUnity(f, depth);
    PowerUnity(f.domains[depth].genInv, Pow2(depth), t);
    DomainRegular(f.domains[depth], tau, t);
  }

  lemma DomainRegular(dom: Domain, tau: int, t: nat)
    requires t < dom.size && Norm(dom.size * dom.sizeInv) == Norm(1) && Norm(Pow(Pow(dom.genInv, t), dom.size)) == Norm(1)
    requires Unit(Norm(Pow(tau, dom.size) - 1))
    ensures Unit(Ifft(dom, PowerTau(tau, dom.size))[t])
  {
    var n, u := dom.size, Pow(dom.genInv, t);
    var g := PowerTau(tau, n);
    GeoAtUnity(u, tau, n);
    CommitmentSum(g, u, tau, n);
    BaseUnit(n, dom.sizeInv, u * tau - 1, Geo(u * tau, n), Eval(g, u, n), Pow(tau, n) - 1);
  }

  method GenDepths(f: Field, g1: seq<Point>, g2: seq<Point>, depth: nat)
    returns (quotients: seq<seq<Point>>, verification: seq<seq<Point>>)
    requires ValidField(f) && depth <= ADICITY && g1 == g2 && |g1| == f.domains[depth].size == Pow2(depth)
    ensures |quotients| == |verification| == depth
    ensures forall e :: 0 <= e < depth ==> Generated(f, g1, depth, e + 1, quotients[e], verification[e])
  {
    quotients, verification := [], [];
    for d := 1 to depth + 1
      invariant |quotients| == |verification| == d - 1
      invariant forall e :: 0 <= e < d - 1 ==> Generated(f, g1, depth, e + 1, quotients[e], verification[e])
    {
      var q := GenQuotients(g1, f.domains[depth], depth, d);
      var v := GenVerify(g2, f, depth, d);
      assert Radix2(f.domains[d], f.omega, d);
      assert Generated(f, g1, depth, d, q, v);
      quotients, verification := quotients + [q], verification + [v];
    }
  }

  /** Parameters generated from any powers of tau are well shaped and factor at every depth, and
      are regular unless tau is a root of unity of the domain's size. */
  method FromPp(f: Field, tau: int, depth: nat) returns (pp: AmtParams)
    requires ValidField(f) && depth <= ADICITY
    ensures pp.depths == depth && Shaped(pp) && Factors(pp)
    ensures pp.g2 == 1 && Unit(pp.g2)
    ensures Unit(Norm(Pow(tau, Pow2(depth)) - 1)) ==> Regular(pp)
  {
    var g1, g2 := PowerTau(tau, Pow2(depth)), PowerTau(tau, Pow2(depth));
    var dom := f.domains[depth];
    assert Radix2(dom, f.omega, depth);
    var commitments := Ifft(dom, g1);
    var quotients, verification := GenDepths(f, g1, g2, depth);
    pp := AmtParams(depth, commitments, quotients, verification, g2[0]);
    ParamsFactor(f, tau, depth, pp);
    assert Pow(tau, 0) == 1 && Scale(1, pp.g2) == 1;
    if Unit(Norm(Pow(tau, Pow2(depth)) - 1)) { ParamsRegular(f, tau, depth, pp); }
  }
}
