/** What the in-place NTT computes, and the routines built on it: evaluation at the roots of unity,
    interpolation from them, and multiplication. */
module NttPoly {
  import opened ModArith
  import opened Poly
  import opened PolyOps
  import opened Results
  import opened Dft
  import opened Engine
  import opened NttInplace

  // ---- the transform and its inverse ----

  lemma DomainInvertible(c: Config, e: nat)
    requires FieldOk(c) && c.ntt && e <= c.maxLog && RootChecks(c, e)
    ensures Pow2(e) % c.q != 0
  {
    if e == 0 {
      ModSmall(1, c.q);
    } else {
      TableIsRoots(c, e);
      ChecksDown(c, 1, e);
      var r := RootAt(c, 1);
      assert RootTable(c, e)[1] == r;
      assert Pow2(0) == 1 && Pow(r, 1) == r * Pow(r, 0);
      ModSmall(1, c.q);
      LengthInvertible(e, c.q);
    }
  }

  /** From the values of x at the powers of the root, the inverse transform recovers x. */
  lemma InverseOfValues(c: Config, y: seq<int>, x: seq<int>)
    requires FieldOk(c) && Supported(c, |y|) && RootChecks(c, Log2(|y|)) && |x| == |y|
    requires forall k :: 0 <= k < |y| ==> Cong(y[k], Eval(x, Pow(RootAt(c, Log2(|y|)), k)), c.q)
    ensures NttResult(c, y, true) == Red(x, c.q)
  {
    var e, q := Log2(|y|), c.q;
    var rt, ir := RootTable(c, e), InverseTable(c, e);
    var z := Transform(x, rt[e], q);
    TablesInverse(c, e);
    DomainInvertible(c, e);
    InvCorrect(|y|, q);
    forall k | 0 <= k < |y| ensures NttResult(c, y, true)[k] == Red(x, q)[k] {
      InverseEntry(y, x, z, rt, ir, e, k, q);
    }
  }

  lemma SameTransform(y: seq<int>, z: seq<int>, w: int, q: int)
    requires q > 0 && |y| == |z| && forall k :: 0 <= k < |y| ==> Cong(y[k], z[k], q)
    ensures Cong(Eval(y, w), Eval(z, w), q)
  {
    forall i ensures Cong(Coef(y, i), Coef(z, i), q) {
      assert 0 <= i < |y| ==> Cong(y[i], z[i], q);
    }
    PCongEval(y, z, w, q);
  }

  lemma InverseEntry(y: seq<int>, x: seq<int>, z: seq<int>, rt: seq<int>, ir: seq<int>, e: nat, k: nat, q: int)
    requires q > 1 && InverseRoots(rt, ir, q) && e < |rt| && |x| == |y| == Pow2(e) && k < |y|
    requires z == Transform(x, rt[e], q) && (|y| * Inv(|y|, q)) % q == 1
    requires forall k :: 0 <= k < |y| ==> Cong(y[k], Eval(x, Pow(rt[e], k)), q)
    ensures ((Eval(y, Pow(ir[e], k)) % q) * Inv(|y|, q)) % q == x[k] % q
  {
    forall k | 0 <= k < |y| ensures Cong(y[k], z[k], q) { CongMod(Eval(x, Pow(rt[e], k)), q); }
    SameTransform(y, z, Pow(ir[e], k), q);
    TransformTwice(x, rt, ir, e, k, q);
    hide Eval, Pow, Inv, InverseRoots;
    Unscale(Eval(y, Pow(ir[e], k)), |y|, Inv(|y|, q), x[k], q);
  }

  lemma Unscale(v: int, n: int, m: int, x: int, q: int)
    requires q > 1 && Cong(v, n * x, q) && (n * m) % q == 1
    ensures ((v % q) * m) % q == x % q
  {
    CongMod(v, q);
    CongScale(v % q, n * x, m, q);
    ModSmall(1, q);
    CongScale(n * m, 1, x, q);
    assert n * x * m == n * m * x;
  }

  /** Transforming an inverse transform gives back the residues. */
  lemma ForwardOfInverse(c: Config, y: seq<int>, k: nat)
    requires FieldOk(c) && Supported(c, |y|) && RootChecks(c, Log2(|y|)) && k < |y|
    ensures Cong(Eval(NttResult(c, y, true), Pow(RootAt(c, Log2(|y|)), k)), y[k], c.q)
  {
    var e, q := Log2(|y|), c.q;
    var rt, ir := RootTable(c, e), InverseTable(c, e);
    var z, m := Transform(y, ir[e], q), Inv(|y|, q);
    var x := Pow(rt[e], k);
    TablesInverse(c, e);
    DomainInvertible(c, e);
    InvCorrect(|y|, q);
    TransformTwice(y, ir, rt, e, k, q);
    hide Inv, Pow;
    ScaleShape(m, z);
    forall i | 0 <= i < |y| ensures Cong(NttResult(c, y, true)[i], Scale(m, z)[i], q) {
      CongMod(z[i] * m, q);
      assert Coef(Scale(m, z), i) == m * Coef(z, i);
    }
    SameTransform(NttResult(c, y, true), Scale(m, z), x, q);
    EvalScale(m, z, x);
    Unscale2(Eval(z, x), |y|, m, y[k], q);
  }

  lemma Unscale2(v: int, n: int, m: int, x: int, q: int)
    requires q > 1 && Cong(v, n * x, q) && (n * m) % q == 1
    ensures Cong(m * v, x, q)
  {
    CongScale(v, n * x, m, q);
    ModSmall(1, q);
    CongScale(n * m, 1, x, q);
    assert m * (n * x) == n * m * x;
  }

  /** The inverse NTT undoes the NTT and the NTT undoes the inverse, on every vector up to residues. */
  lemma RoundTrips(c: Config, x: seq<int>)
    requires FieldOk(c) && Supported(c, |x|) && RootChecks(c, Log2(|x|))
    ensures NttResult(c, NttResult(c, x, false), true) == Red(x, c.q)
    ensures Red(NttResult(c, NttResult(c, x, true), false), c.q) == Red(x, c.q)
  {
    var y, z := NttResult(c, x, false), NttResult(c, x, true);
    hide Eval, Pow, NttResult, Supported, RootChecks, RootAt, FieldOk;
    forall k | 0 <= k < |x| ensures Cong(y[k], Eval(x, Pow(RootAt(c, Log2(|x|)), k)), c.q) {
      ForwardEntry(c, x, k);
    }
    InverseOfValues(c, y, x);
    forall k | 0 <= k < |x| ensures Red(NttResult(c, z, false), c.q)[k] == Red(x, c.q)[k] {
      ForwardOfInverse(c, x, k);
      ForwardEntry(c, z, k);
    }
  }

  // ---- evaluation and interpolation at the domain points ----

  /** 1, root, root^2, ... reduced. */
  function DomainPoints(c: Config, n: nat): (xs: seq<int>)
    requires c.q > 1 && IsPow2(n)
    ensures |xs| == n && forall i :: 0 <= i < n ==> xs[i] == Pow(RootAt(c, Log2(n)), i) % c.q
  {
    seq(n, i requires 0 <= i < n => Pow(RootAt(c, Log2(n)), i) % c.q)
  }

  lemma PointIsPower(c: Config, n: nat, k: nat)
    requires c.q > 1 && Supported(c, n) && k < n
    ensures DomainPoints(c, n)[k] == Pow(Pow(c.g, Exponent(c.q, n)), k) % c.q
  {
    RootIsPower(c, n, k);
  }

  method NttDomainPoints(c: Config, n: nat) returns (res: Result<seq<int>>)
    requires c.q > 1
    ensures n == 0 ==> res == Ok([])
    ensures n > 0 ==> (res.Ok? <==> Supported(c, n) && RootChecks(c, Log2(n)))
    ensures n > 0 && res.Ok? ==> res.value == DomainPoints(c, n)
    ensures n > 0 && res.Ok? ==> forall k :: 0 <= k < n ==> res.value[k] == Pow(Pow(c.g, Exponent(c.q, n)), k) % c.q
  {
    if n == 0 { return Ok([]); }
    var root := PrimitiveRoot(c, n);
    if Supported(c, n) { PrimitiveRootMeaning(c, n); }
    if root.Err? { return Err(root.message); }
    var points := Powers(root.value, n, c.q);
    forall k | 0 <= k < n ensures points[k] == Pow(Pow(c.g, Exponent(c.q, n)), k) % c.q { PointIsPower(c, n, k); }
    res := Ok(points);
  }

  /** The loop of successive multiplications by the root. */
  method Powers(omega: int, n: nat, q: int) returns (points: seq<int>)
    requires q > 1 && n > 0
    ensures |points| == n && forall k :: 0 <= k < n ==> points[k] == Pow(omega, k) % q
  {
    points := seq(n, _ => 1);
    ModSmall(1, q);
    assert Pow(omega, 0) == 1;
    hide Pow;
    for i := 1 to n
      invariant |points| == n
      invariant forall k :: 0 <= k < i ==> points[k] == Pow(omega, k) % q
    {
      PointStep(omega, i - 1, points[i - 1], q);
      points := points[i := (points[i - 1] * omega) % q];
    }
  }

  lemma PointStep(w: int, i: nat, p: int, q: int)
    requires q > 0 && p == Pow(w, i) % q
    ensures (p * w) % q == Pow(w, i + 1) % q
  {
    CongMod(Pow(w, i), q);
    CongScale(p, Pow(w, i), w, q);
  }

  lemma EvalAtPoint(c: Config, p: seq<int>, n: nat, k: nat)
    requires c.q > 1 && IsPow2(n) && k < n
    ensures Cong(Eval(p, DomainPoints(c, n)[k]), Eval(p, Pow(RootAt(c, Log2(n)), k)), c.q)
  {
    CongMod(Pow(RootAt(c, Log2(n)), k), c.q);
    EvalCongArg(p, DomainPoints(c, n)[k], Pow(RootAt(c, Log2(n)), k), c.q);
  }

  /** Coefficients reduced and zero-padded to the domain size: `fa`, `fb` and `values` in the program. */
  method Padded(coeffs: seq<int>, n: nat, q: int) returns (a: array<int>)
    requires q > 0 && |coeffs| <= n
    ensures fresh(a) && a.Length == n && a[..] == Red(coeffs, q) + Zeros(n - |coeffs|)
  {
    a := new int[n](_ => 0);
    for i := 0 to |coeffs|
      invariant forall k :: 0 <= k < i ==> a[k] == coeffs[k] % q
      invariant forall k :: i <= k < n ==> a[k] == 0
    {
      a[i] := coeffs[i];
      a[i] := a[i] % q;
    }
  }

  lemma EvalPadded(p: seq<int>, n: nat, x: int, q: int)
    requires q > 0
    ensures Cong(Eval(Red(p, q) + Zeros(n), x), Eval(p, x), q)
  {
    EvalPad(Red(p, q), n, x);
    RedCong(p, q);
    PCongEval(Red(p, q), p, x, q);
  }

  lemma PaddedReduced(p: seq<int>, n: nat, q: int)
    requires q > 0
    ensures Reduced(Red(p, q) + Zeros(n), q)
  {
    RedCong(p, q);
  }

  lemma ForwardReduced(c: Config, x: seq<int>)
    requires c.q > 1 && Supported(c, |x|) && Reduced(x, c.q)
    ensures Reduced(NttResult(c, x, false), c.q)
  {
  }

  /** Evaluation at every domain point by one forward NTT agrees with Horner's rule point by point. */
  method PolyEvalBatchNtt(c: Config, coeffs: seq<int>, n: nat) returns (res: Result<seq<int>>)
    requires FieldOk(c)
    ensures res.Ok? <==> Supported(c, n) && |coeffs| <= n && RootChecks(c, Log2(n))
    ensures res.Ok? ==> |res.value| == n
    ensures res.Ok? ==> forall k :: 0 <= k < n ==> res.value[k] == Eval(coeffs, DomainPoints(c, n)[k]) % c.q
    ensures res.Ok? ==> forall k :: 0 <= k < n ==>
      res.value[k] == Eval(coeffs, Pow(Pow(c.g, Exponent(c.q, n)), k)) % c.q
  {
    if !Supported(c, n) { return Err("poly_eval_batch_ntt: unsupported NTT domain"); }
    if |coeffs| > n { return Err("poly_eval_batch_ntt: polynomial degree exceeds NTT domain"); }
    var values := Padded(coeffs, n, c.q);
    ghost var x := values[..];
    var ok := Ntt(c, values, false);
    if ok.Err? { return Err(ok.message); }
    PaddedReduced(coeffs, n - |coeffs|, c.q);
    ForwardReduced(c, x);
    forall k | 0 <= k < n
      ensures values[k] == Eval(coeffs, DomainPoints(c, n)[k]) % c.q
      ensures values[k] == Eval(coeffs, Pow(Pow(c.g, Exponent(c.q, n)), k)) % c.q
    {
      EvalAtPower(c, coeffs, n, k);
      ForwardEntry(c, x, k);
      EvalPadded(coeffs, n - |coeffs|, Pow(RootAt(c, Log2(n)), k), c.q);
      EvalAtPoint(c, coeffs, n, k);
      ModSmall(values[k], c.q);
    }
    res := Ok(values[..]);
  }

  /** One inverse NTT interpolates: the canonical polynomial through y at the domain points. */
  method LagrangeInterpolateNtt(c: Config, y: seq<int>) returns (res: Result<seq<int>>)
    requires FieldOk(c)
    ensures res.Ok? <==> Supported(c, |y|) && RootChecks(c, Log2(|y|))
    ensures res.Ok? ==> Canon(res.value, c.q) && |res.value| <= |y|
    ensures res.Ok? ==> forall k :: 0 <= k < |y| ==> Cong(Eval(res.value, DomainPoints(c, |y|)[k]), y[k], c.q)
    ensures res.Ok? ==> forall k :: 0 <= k < |y| ==>
      Cong(Eval(res.value, Pow(Pow(c.g, Exponent(c.q, |y|)), k)), y[k], c.q)
  {
    if !Supported(c, |y|) { return Err("lagrange_interpolate_ntt: unsupported NTT domain"); }
    var coeffs := Padded(y, |y|, c.q);
    ghost var x := coeffs[..];
    var ok := Ntt(c, coeffs, true);
    if ok.Err? { return Err(ok.message); }
    ghost var z := coeffs[..];
    var r := PolyTrim(coeffs[..]);
    TrimShape(z);
    assert Reduced(z, c.q);
    forall k | 0 <= k < |y|
      ensures Cong(Eval(r, DomainPoints(c, |y|)[k]), y[k], c.q)
      ensures Cong(Eval(r, Pow(Pow(c.g, Exponent(c.q, |y|)), k)), y[k], c.q)
    {
      EvalAtPower(c, r, |y|, k);
      var w := Pow(RootAt(c, Log2(|y|)), k);
      ForwardOfInverse(c, x, k);
      CoefsSameEval(r, z, w, c.q);
      EvalAtPoint(c, r, |y|, k);
      CongMod(y[k], c.q);
      assert x[k] == y[k] % c.q;
    }
    res := Ok(r);
  }

  lemma CoefsSameEval(p: seq<int>, r: seq<int>, x: int, q: int)
    requires q > 0 && forall i :: Coef(p, i) == Coef(r, i)
    ensures Cong(Eval(p, x), Eval(r, x), q)
  {
    PCongEval(p, r, x, q);
  }

  // ---- multiplication ----

  /** The least power of two from p on that reaches n. */
  function NextPow2From(p: nat, n: nat): nat
    requires p > 0
    decreases n - p
  {
    if p >= n then p else NextPow2From(2 * p, n)
  }

  function NextPow2(n: nat): nat {
    NextPow2From(1, n)
  }

  method NextPowerOfTwo(n: nat) returns (p: nat)
    ensures p == NextPow2(n)
  {
    if n <= 1 { return 1; }
    p := 1;
    while p < n
      invariant p > 0 && NextPow2From(p, n) == NextPow2(n)
      decreases n - p
    {
      p := 2 * p;
    }
  }

  /** It is the only power of two in [n, 2n). */
  lemma NextPow2Correct(n: nat)
    requires n >= 1
    ensures IsPow2(NextPow2(n)) && n <= NextPow2(n) < 2 * n
  {
    NextPow2FromCorrect(1, n);
  }

  lemma {:induction false} NextPow2FromCorrect(p: nat, n: nat)
    requires IsPow2(p) && p < 2 * n
    ensures IsPow2(NextPow2From(p, n)) && n <= NextPow2From(p, n) < 2 * n
    decreases n - p
  {
    if p < n {
      assert (2 * p) / 2 == p && (2 * p) % 2 == 0;
      NextPow2FromCorrect(2 * p, n);
    }
  }

  /** The transform of a, reduced and zero-padded to n entries. */
  ghost function PaddedTransform(c: Config, a: seq<int>, n: nat): (x: seq<int>)
    requires c.q > 1 && Supported(c, n) && |a| <= n
    ensures |x| == n
  {
    NttResult(c, Red(a, c.q) + Zeros(n - |a|), false)
  }

  lemma PaddedEntry(c: Config, a: seq<int>, n: nat, k: nat)
    requires c.q > 1 && Supported(c, n) && k < n && |a| <= n
    ensures Cong(PaddedTransform(c, a, n)[k], Eval(a, Pow(RootAt(c, Log2(n)), k)), c.q)
  {
    hide Eval, Pow, NttResult, RootAt;
    ForwardEntry(c, Red(a, c.q) + Zeros(n - |a|), k);
    EvalPadded(a, n - |a|, Pow(RootAt(c, Log2(n)), k), c.q);
  }

  ghost predicate Pointwise(v: seq<int>, x: seq<int>, y: seq<int>, q: int)
    requires q > 0 && |v| == |x| == |y|
  {
    forall k :: 0 <= k < |v| ==> v[k] == (x[k] * y[k]) % q
  }

  /** Pointwise products of two transforms are the values of the product polynomial. */
  lemma ProductValues(c: Config, a: seq<int>, b: seq<int>, v: seq<int>, n: nat, k: nat)
    requires c.q > 1 && Supported(c, n) && k < n && |a| <= n && |b| <= n && |v| == n
    requires Pointwise(v, PaddedTransform(c, a, n), PaddedTransform(c, b, n), c.q)
    ensures Cong(v[k], Eval(Mul(a, b), Pow(RootAt(c, Log2(n)), k)), c.q)
  {
    var w := Pow(RootAt(c, Log2(n)), k);
    var x, y := PaddedTransform(c, a, n), PaddedTransform(c, b, n);
    hide *;
    PaddedEntry(c, a, n, k);
    PaddedEntry(c, b, n, k);
    EvalMul(a, b, w);
    PointwiseAt(v, x, y, k, c.q);
    ProductOfValues(x[k], y[k], Eval(a, w), Eval(b, w), Eval(Mul(a, b), w), c.q);
  }

  lemma PointwiseAt(v: seq<int>, x: seq<int>, y: seq<int>, k: nat, q: int)
    requires q > 0 && |v| == |x| == |y| && k < |v| && Pointwise(v, x, y, q)
    ensures v[k] == (x[k] * y[k]) % q
  {
  }

  lemma ProductOfValues(x: int, y: int, a: int, b: int, m: int, q: int)
    requires q > 0 && Cong(x, a, q) && Cong(y, b, q) && m == a * b
    ensures Cong((x * y) % q, m, q)
  {
    CongMul(x, a, y, b, q);
    CongMod(x * y, q);
  }

  lemma TrimmedPrefix(p: seq<int>, n: nat, q: int, z: seq<int>)
    requires q > 0 && |p| <= n && z == Red(p + Zeros(n - |p|), q)
    ensures z[..|p|] == Red(p, q)
  {
  }

  lemma FieldAndDomain(c: Config, n: nat)
    requires FieldOk(c) && Supported(c, n)
    ensures c.q > 1 && IsPow2(n) && c.ntt
  {
  }

  /** The inverse transform of the pointwise products is the padded product polynomial. */
  lemma InverseOfProducts(c: Config, a: seq<int>, b: seq<int>, v: seq<int>, n: nat)
    requires FieldOk(c) && Supported(c, n) && RootChecks(c, Log2(n))
    requires |a| > 0 && |b| > 0 && |a| + |b| - 1 <= n && |v| == n
    requires Pointwise(v, PaddedTransform(c, a, n), PaddedTransform(c, b, n), c.q)
    ensures NttResult(c, v, true)[..|a| + |b| - 1] == Red(Mul(a, b), c.q)
  {
    hide *;
    FieldAndDomain(c, n);
    var need := |a| + |b| - 1;
    var p := Mul(a, b) + Zeros(n - need);
    MulLength(a, b);
    forall k | 0 <= k < n ensures Cong(v[k], Eval(p, Pow(RootAt(c, Log2(n)), k)), c.q) {
      ProductValues(c, a, b, v, n, k);
      EvalPad(Mul(a, b), n - need, Pow(RootAt(c, Log2(n)), k));
    }
    InverseOfValues(c, v, p);
    TrimmedPrefix(Mul(a, b), n, c.q, NttResult(c, v, true));
  }

  /** Pads and transforms one operand. */
  method ForwardPadded(c: Config, a: seq<int>, n: nat) returns (fa: array<int>)
    requires FieldOk(c) && Supported(c, n) && RootChecks(c, Log2(n)) && |a| <= n
    ensures fresh(fa) && fa[..] == PaddedTransform(c, a, n)
  {
    fa := Padded(a, n, c.q);
    var _ := Ntt(c, fa, false);
  }

  /** The loop multiplying two transforms entry by entry. */
  method PointwiseProduct(fa: array<int>, fb: array<int>, ghost x: seq<int>, ghost y: seq<int>, q: int)
    requires q > 0 && fa != fb && fa[..] == x && fb[..] == y && |x| == |y|
    modifies fa
    ensures Pointwise(fa[..], x, y, q)
  {
    for i := 0 to fa.Length
      invariant forall k :: 0 <= k < i ==> fa[k] == (x[k] * y[k]) % q
      invariant forall k :: i <= k < fa.Length ==> fa[k] == x[k]
      invariant fb[..] == y
    {
      assert fb[i] == y[i];
      fa[i] := (fa[i] * fb[i]) % q;
    }
  }

  /** Multiplication through three transforms of the next power of two. */
  method PolyMulNttMod(c: Config, a: seq<int>, b: seq<int>) returns (res: Result<seq<int>>)
    requires EngineOk(c)
    ensures res.Ok? <==> |a| == 0 || |b| == 0 || Supported(c, NextPow2(|a| + |b| - 1))
    ensures res.Ok? ==> res.value == Product(a, b, c.q)
  {
    if |a| == 0 || |b| == 0 { return Ok([0]); }
    var need := |a| + |b| - 1;
    var n := NextPowerOfTwo(need);
    NextPow2Correct(need);
    if !Supported(c, n) { return Err("poly_mul_ntt_mod: unsupported NTT domain"); }
    ChecksDown(c, Log2(n), c.maxLog);
    hide NttResult, Supported, RootChecks, PaddedTransform, Pointwise, Red, Trim, Mul;
    var fa := ForwardPadded(c, a, n);
    var fb := ForwardPadded(c, b, n);
    PointwiseProduct(fa, fb, PaddedTransform(c, a, n), PaddedTransform(c, b, n), c.q);
    InverseOfProducts(c, a, b, fa[..], n);
    var _ := Ntt(c, fa, true);
    assert fa[..need] == fa[..][..need];
    var r := PolyTrim(fa[..need]);
    res := Ok(r);
  }
}
