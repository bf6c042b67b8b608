/** Direct evaluation of the interpolating polynomial at the points 1, 2, ..., N: factorial denominators,
    prefix and suffix products, and the dispatcher that chooses between it and coefficient interpolation. */
module Barycentric {
  import opened ModArith
  import opened Poly
  import opened PolyOps
  import opened Results
  import opened Engine
  import opened NttPoly
  import opened PolyMul
  import opened Vanishing
  import opened Lagrange
  import opened ProductTree
  import opened Interp

  /** The points 1, ..., n. */
  function Counting(n: nat): (xs: seq<int>)
    ensures |xs| == n && forall i :: 0 <= i < n ==> xs[i] == i + 1
  {
    seq(n, i => i + 1)
  }

  function Factorial(n: nat): nat {
    if n == 0 then 1 else Factorial(n - 1) * n
  }

  // ---- denominators ----

  /** prod_{j < n} (x - (s + j)) for consecutive points. */
  lemma {:induction false} RisingBelow(xs: seq<int>, s: int, x: int)
    requires forall j :: 0 <= j < |xs| ==> xs[j] == s + j
    requires x == s + |xs|
    ensures Eval(Vanish(xs), x) == Factorial(|xs|)
    decreases |xs|
  {
    hide Vanish, Eval;
    if |xs| == 0 {
      assert xs == [];
      VanishEmpty(x);
    } else {
      RisingBelow(xs[1..], s + 1, x);
      VanishStep(xs, x);
      RisingStep(x - xs[0], Eval(Vanish(xs[1..]), x), Factorial(|xs| - 1), |xs|);
    }
  }

  lemma RisingStep(d: int, v: int, f: int, n: int)
    requires d == n && v == f
    ensures d * v == f * n
  {
  }

  lemma {:induction false} FallingAbove(xs: seq<int>, x: int)
    requires forall j :: 0 <= j < |xs| ==> xs[j] == x + 1 + j
    ensures Eval(Vanish(xs), x) == (if |xs| % 2 == 0 then 1 else -1) * Factorial(|xs|)
    decreases |xs|
  {
    hide Vanish, Eval;
    if |xs| == 0 {
      assert xs == [];
      VanishEmpty(x);
    } else {
      var n := |xs| - 1;
      FallingAbove(xs[..n], x);
      assert xs == xs[..n] + [xs[n]];
      VanishConcat(xs[..n], [xs[n]], x);
      VanishStep([xs[n]], x);
      VanishEmpty(x);
      assert [xs[n]][1..] == [];
      SignStep(n, Factorial(n), Eval(Vanish(xs[..n]), x), x - xs[n]);
    }
  }

  lemma SignStep(n: nat, f: int, v: int, d: int)
    requires v == (if n % 2 == 0 then 1 else -1) * f && d == -(n + 1)
    ensures v * d == (if (n + 1) % 2 == 0 then 1 else -1) * (f * (n + 1))
  {
    if n % 2 == 0 {
      assert v * d == -(f * (n + 1));
    } else {
      assert v * d == f * (n + 1);
    }
  }

  /** D_i = i! * (-1)^(N-1-i) * (N-1-i)!. */
  lemma DenominatorFormula(n: nat, i: nat)
    requires i < n
    ensures Eval(Vanish(Without(Counting(n), i)), i + 1)
         == (if (n - 1 - i) % 2 == 0 then 1 else -1) * (Factorial(i) * Factorial(n - 1 - i))
  {
    hide Vanish, Eval, Factorial;
    var xs := Counting(n);
    RisingBelow(xs[..i], 1, i + 1);
    FallingAbove(xs[i + 1..], i + 1);
    VanishConcat(xs[..i], xs[i + 1..], i + 1);
    SignedProduct(Factorial(i), Factorial(n - 1 - i), Eval(Vanish(xs[..i]), i + 1), Eval(Vanish(xs[i + 1..]), i + 1),
                  if (n - 1 - i) % 2 == 0 then 1 else -1);
  }

  lemma SignedProduct(a: int, b: int, u: int, v: int, sign: int)
    requires u == a && v == sign * b
    ensures u * v == sign * (a * b)
  {
    assert a * (sign * b) == sign * (a * b);
  }

  /** `fact` modulo q. */
  method Factorials(n: nat, q: int) returns (fact: seq<int>)
    requires q > 1
    ensures |fact| == n && forall i :: 0 <= i < n ==> fact[i] == Factorial(i) % q
  {
    fact := seq(n, _ => 1);
    ModSmall(1, q);
    var i := 1;
    while i < n
      invariant 1 <= i && |fact| == n && (n > 0 ==> fact[0] == 1)
      invariant forall k :: 0 <= k < i && k < n ==> fact[k] == Factorial(k) % q
    {
      FactorialStep(fact[i - 1], i, q);
      fact := fact[i := fact[i - 1] * i];
      fact := fact[i := fact[i] % q];
      i := i + 1;
    }
  }

  lemma FactorialStep(f: int, i: nat, q: int)
    requires q > 0 && i > 0 && f == Factorial(i - 1) % q
    ensures (f * i) % q == Factorial(i) % q
  {
    CongMod(Factorial(i - 1), q);
    CongScale(f, Factorial(i - 1), i, q);
  }

  /** The denominator the loop computes: the sign becomes a subtraction from q. */
  lemma DenominatorSigned(n: nat, i: nat, fi: int, fj: int, q: int)
    requires q > 1 && i < n && fi == Factorial(i) % q && fj == Factorial(n - 1 - i) % q
    ensures var d := (fi * fj) % q;
      Cong(if (n - 1 - i) % 2 != 0 then q - d else d, Eval(Vanish(Without(Counting(n), i)), i + 1), q)
  {
    var a, b := Factorial(i), Factorial(n - 1 - i);
    DenominatorFormula(n, i);
    hide *;
    CongMod(a, q);
    CongMod(b, q);
    CongMul(fi, a, fj, b, q);
    CongMod(fi * fj, q);
    var d := (fi * fj) % q;
    NegateSmall(d, a * b, q);
  }

  lemma NegateSmall(d: int, m: int, q: int)
    requires q > 0 && Cong(d, m, q)
    ensures Cong(q - d, -1 * m, q) && Cong(d, 1 * m, q)
  {
    CongSub(0, 0, d, m, q);
    CongMultiple(-d, 1, q);
  }

  /** Inverses of the denominators of the points 1, ..., N. */
  method LagrangeDenominatorInverses(c: Config, n: nat) returns (res: Result<seq<int>>)
    requires EngineOk(c)
    ensures res.Ok? <==> n <= c.q
    ensures res.Ok? ==> |res.value| == n
    ensures res.Ok? ==> forall i :: 0 <= i < n ==>
      res.value[i] == Inv(Eval(Vanish(Without(Counting(n), i)), i + 1), c.q)
  {
    var q := c.q;
    QIsPrime(c);
    var ok := RequirePublicEvalPointsDistinct(c, n);
    PublicPointsDistinct(c, n);
    if ok.Err? { return Err(ok.message); }
    CountingDistinct(n, q);
    DenominatorsNonzero(Counting(n), q);
    var fact := Factorials(n, q);
    hide EngineOk, Prime, Inv, Eval, Vanish, Without, Factorial;
    var inv := Zeros(n);
    for i := 0 to n
      invariant |inv| == n
      invariant forall k :: 0 <= k < i ==> inv[k] == Inv(Eval(Vanish(Without(Counting(n), k)), k + 1), q)
    {
      var d := fact[i] * fact[n - 1 - i];
      d := d % q;
      DenominatorSigned(n, i, fact[i], fact[n - 1 - i], q);
      if (n - 1 - i) % 2 != 0 { d := q - d; }
      InvSame(d, Eval(Vanish(Without(Counting(n), i)), i + 1), q);
      assert Counting(n)[i] == i + 1;
      if d % q == 0 { return Err("mod_inverse: not invertible"); }
      inv := inv[i := Inv(d, q)];
    }
    res := Ok(inv);
  }

  lemma CountingDistinct(n: nat, q: int)
    requires q > 0 && n <= q
    ensures Distinct(Counting(n), q)
  {
    forall i, j | 0 <= i < j < n ensures !Cong(Counting(n)[i], Counting(n)[j], q) {
      CongDiff(j + 1, i + 1, q);
      ModSmall(j - i, q);
    }
  }

  // ---- one target ----

  lemma TermStep(cur: int, x: int, p: int, v: int, v': int, q: int)
    requires q > 0 && Cong(cur, v, q) && v' == v * (x - p)
    ensures Cong((cur * ((x - p) % q)) % q, v', q)
  {
    CongMod(x - p, q);
    CongMul(cur, v, (x - p) % q, x - p, q);
    CongMod(cur * ((x - p) % q), q);
  }

  lemma PrefixStep(xs: seq<int>, i: nat, x: int)
    requires i < |xs|
    ensures Eval(Vanish(xs[..i + 1]), x) == Eval(Vanish(xs[..i]), x) * (x - xs[i])
  {
    hide Vanish, Eval;
    assert xs[..i + 1] == xs[..i] + [xs[i]] && [xs[i]][1..] == [];
    VanishConcat(xs[..i], [xs[i]], x);
    VanishStep([xs[i]], x);
    VanishEmpty(x);
  }

  lemma SuffixStep(xs: seq<int>, i: nat, x: int)
    requires i < |xs|
    ensures Eval(Vanish(xs[i..]), x) == Eval(Vanish(xs[i + 1..]), x) * (x - xs[i])
  {
    hide Vanish, Eval;
    VanishStep(xs[i..], x);
    assert xs[i..][1..] == xs[i + 1..];
  }

  /** L[i] = prod_{j < i} (x - (j+1)). */
  method Prefixes(n: nat, x: int, q: int) returns (l: seq<int>)
    requires q > 1 && n > 0
    ensures |l| == n && forall i :: 0 <= i < n ==> Cong(l[i], Eval(Vanish(Counting(n)[..i]), x), q)
  {
    hide Vanish, Eval, Cong;
    ghost var xs := Counting(n);
    l := seq(n, _ => 1);
    var cur := 1;
    VanishEmpty(x);
    assert xs[..0] == [];
    CongRefl(1, q);
    for i := 0 to n - 1
      invariant |l| == n
      invariant Cong(cur, Eval(Vanish(xs[..i]), x), q)
      invariant forall k :: 0 <= k <= i ==> Cong(l[k], Eval(Vanish(xs[..k]), x), q)
    {
      PrefixStep(xs, i, x);
      TermStep(cur, x, i + 1, Eval(Vanish(xs[..i]), x), Eval(Vanish(xs[..i + 1]), x), q);
      var term := x - (i + 1);
      term := term % q;
      cur := cur * term;
      cur := cur % q;
      l := l[i + 1 := cur];
    }
  }

  lemma CongRefl(a: int, q: int)
    requires q > 0
    ensures Cong(a, a, q)
  {
  }

  /** R[i] = prod_{j > i} (x - (j+1)). */
  method Suffixes(n: nat, x: int, q: int) returns (r: seq<int>)
    requires q > 1 && n > 0
    ensures |r| == n && forall i :: 0 <= i < n ==> Cong(r[i], Eval(Vanish(Counting(n)[i + 1..]), x), q)
  {
    hide Vanish, Eval, Cong;
    ghost var xs := Counting(n);
    r := seq(n, _ => 1);
    var cur := 1;
    VanishEmpty(x);
    assert xs[n..] == [];
    CongRefl(1, q);
    var i := n - 1;
    while i > 0
      invariant 0 <= i < n && |r| == n
      invariant Cong(cur, Eval(Vanish(xs[i + 1..]), x), q)
      invariant forall k :: i <= k < n ==> Cong(r[k], Eval(Vanish(xs[k + 1..]), x), q)
    {
      SuffixStep(xs, i, x);
      TermStep(cur, x, i + 1, Eval(Vanish(xs[i + 1..]), x), Eval(Vanish(xs[i..]), x), q);
      var term := x - (i + 1);
      term := term % q;
      cur := cur * term;
      cur := cur % q;
      r := r[i - 1 := cur];
      i := i - 1;
    }
  }

  /** Partial sums of Lagrange's formula: the terms of the first i points. */
  ghost function Partial(xs: seq<int>, ws: seq<int>, i: nat, x: int): int
    requires |xs| == |ws| && i <= |xs|
  {
    Eval(Comb(xs[..i], ws[..i]), x) * Eval(Vanish(xs[i..]), x)
  }

  lemma PartialStep(xs: seq<int>, ws: seq<int>, i: nat, x: int)
    requires |xs| == |ws| && i < |xs|
    ensures Partial(xs, ws, i + 1, x)
         == Partial(xs, ws, i, x) + ws[i] * Eval(Vanish(xs[..i]), x) * Eval(Vanish(xs[i + 1..]), x)
  {
    hide Eval, Comb, Vanish;
    assert xs[..i + 1] == xs[..i] + [xs[i]] && ws[..i + 1] == ws[..i] + [ws[i]];
    assert [xs[i]][1..] == [];
    CombConcat(xs[..i], [xs[i]], ws[..i], [ws[i]], x);
    CombSingle(xs[i], ws[i], x);
    VanishStep([xs[i]], x);
    VanishEmpty(x);
    SuffixStep(xs, i, x);
    SumStep(Eval(Comb(xs[..i], ws[..i]), x), Eval(Vanish(xs[i + 1..]), x), Eval(Vanish(xs[..i]), x), ws[i], x - xs[i],
            Eval(Comb(xs[..i + 1], ws[..i + 1]), x), Eval(Vanish(xs[i..]), x));
  }

  lemma CombSingle(p: int, w: int, x: int)
    ensures Eval(Comb([p], [w]), x) == w
  {
    assert [w] == [w] + [];
    EvalCons(w, [], x);
    assert Eval([], x) == 0;
  }

  lemma SumStep(c: int, r: int, l: int, w: int, d: int, c': int, v: int)
    requires c' == c * d + w * l && v == r * d
    ensures c' * r == c * v + w * l * r
  {
    MulEq(r, c', c * d + w * l);
    MulEq(c, v, r * d);
    assert (c * d + w * l) * r == c * (r * d) + w * l * r;
  }

  lemma TermValue(w: int, l: int, r: int, lv: int, rv: int, q: int)
    requires q > 0 && Cong(l, lv, q) && Cong(r, rv, q)
    ensures Cong((((w * l) % q) * r) % q, w * lv * rv, q)
  {
    CongScale(l, lv, w, q);
    CongMod(w * l, q);
    CongMul((w * l) % q, w * lv, r, rv, q);
    CongMod(((w * l) % q) * r, q);
  }

  /** One target: prefix products, suffix products, and the weighted sum. */
  method EvalOne(w: seq<int>, x: int, q: int) returns (res: int)
    requires q > 1 && |w| > 0
    ensures res == Eval(Comb(Counting(|w|), w), x) % q
  {
    var n := |w|;
    var l := Prefixes(n, x, q);
    var r := Suffixes(n, x, q);
    ghost var xs := Counting(n);
    PartialStart(xs, w, x);
    ModSmall(0, q);
    hide *;
    res := 0;
    for i := 0 to n
      invariant res == Partial(xs, w, i, x) % q
    {
      PartialStep(xs, w, i, x);
      TermValue(w[i], l[i], r[i], Eval(Vanish(xs[..i]), x), Eval(Vanish(xs[i + 1..]), x), q);
      var term := (w[i] * l[i]) % q;
      term := (term * r[i]) % q;
      AddTerm(res, term, Partial(xs, w, i, x), w[i] * Eval(Vanish(xs[..i]), x) * Eval(Vanish(xs[i + 1..]), x),
              Partial(xs, w, i + 1, x), q);
      res := (res + term) % q;
    }
    PartialEnd(xs, w, x);
  }

  lemma AddTerm(res: int, term: int, p: int, t: int, p': int, q: int)
    requires q > 0 && res == p % q && Cong(term, t, q) && p' == p + t
    ensures (res + term) % q == p' % q
  {
    CongMod(p, q);
    CongAdd(res, p, term, t, q);
  }

  lemma PartialStart(xs: seq<int>, ws: seq<int>, x: int)
    requires |xs| == |ws|
    ensures Partial(xs, ws, 0, x) == 0
  {
    assert xs[..0] == [] && ws[..0] == [];
    CombEmpty(x);
  }

  lemma PartialEnd(xs: seq<int>, ws: seq<int>, x: int)
    requires |xs| == |ws|
    ensures Partial(xs, ws, |xs|, x) == Eval(Comb(xs, ws), x)
  {
    assert xs[..|xs|] == xs && ws[..|xs|] == ws && xs[|xs|..] == [];
    VanishEmpty(x);
  }

  // ---- all targets ----

  lemma InterpolantEval(xs: seq<int>, y: seq<int>, x: int, q: int)
    requires q > 1 && |xs| == |y| > 0
    ensures Eval(Comb(xs, Weights(xs, y, q)), x) % q == Eval(Interpolant(xs, y, q), x) % q
  {
    CombNorm(xs, Weights(xs, y, q), q);
    PCongEval(Interpolant(xs, y, q), Comb(xs, Weights(xs, y, q)), x, q);
  }

  /** The weights y_i / D_i. */
  method BarycentricWeights(y: seq<int>, dInv: seq<int>, q: int) returns (w: seq<int>)
    requires q > 1 && |dInv| == |y|
    requires forall i :: 0 <= i < |y| ==> dInv[i] == Inv(Eval(Vanish(Without(Counting(|y|), i)), i + 1), q)
    ensures w == Weights(Counting(|y|), y, q)
  {
    hide Inv, Eval, Vanish, Without;
    w := Zeros(|y|);
    for i := 0 to |y|
      invariant |w| == |y|
      invariant forall k :: 0 <= k < i ==> w[k] == Weights(Counting(|y|), y, q)[k]
    {
      assert Counting(|y|)[i] == i + 1;
      w := w[i := y[i] * dInv[i]];
      w := w[i := w[i] % q];
    }
  }

  /** Barycentric evaluation gives the interpolating polynomial's value at every target, nodes included. */
  method LagrangeEvalBatch(c: Config, y: seq<int>, targets: seq<int>) returns (res: Result<seq<int>>)
    requires EngineOk(c)
    ensures res.Ok? <==> |y| <= c.q
    ensures res.Ok? ==> Evaluated(res.value, Interpolant(Counting(|y|), y, c.q), targets, c.q)
  {
    var q := c.q;
    QIsPrime(c);
    var result := Zeros(|targets|);
    ModSmall(0, q);
    if |y| == 0 {
      forall t | 0 <= t < |targets| ensures Eval([0], targets[t]) == 0 { assert Eval([], targets[t]) == 0; }
      return Ok(result);
    }
    var dInv := LagrangeDenominatorInverses(c, |y|);
    if dInv.Err? { return Err(dInv.message); }
    var w := BarycentricWeights(y, dInv.value, q);
    hide EngineOk, Eval, Comb, Weights, Interpolant;
    for t := 0 to |targets|
      invariant |result| == |targets|
      invariant forall k :: 0 <= k < t ==> result[k] == Eval(Interpolant(Counting(|y|), y, q), targets[k]) % q
    {
      var v := EvalOne(w, targets[t], q);
      InterpolantEval(Counting(|y|), y, targets[t], q);
      result := result[t := v];
    }
    res := Ok(result);
  }

  /** When the strategy selector can fail: too many points for the field, or a forced NTT whose targets or
      degree do not fit its domain. */
  ghost predicate ReconstructionAllowed(c: Config, y: seq<int>, targets: seq<int>)
    requires c.q > 1
  {
    |y| == 0 || |targets| == 0 ||
    (|y| <= c.q && ((!Supported(c, |y|) && Max(|y|, |targets|) < c.coeffThreshold)
                    || AutoAllowed(c, Interpolant(PublicPoints(c, |y|), y, c.q), targets)))
  }

  /** Whatever the strategy, the values of the interpolating polynomial through the public points. */
  method LagrangeEvalBatchAuto(c: Config, y: seq<int>, targets: seq<int>) returns (res: Result<seq<int>>)
    requires EngineOk(c)
    ensures res.Ok? <==> ReconstructionAllowed(c, y, targets)
    ensures res.Ok? ==> Evaluated(res.value, Interpolant(PublicPoints(c, |y|), y, c.q), targets, c.q)
  {
    QIsPrime(c);
    if |y| == 0 || |targets| == 0 {
      ModSmall(0, c.q);
      forall t | 0 <= t < |targets| ensures Eval([0], targets[t]) == 0 { assert Eval([], targets[t]) == 0; }
      return Ok(Zeros(|targets|));
    }
    PublicIs(c, |y|);
    hide EngineOk, Eval, Interpolant, AutoAllowed, PublicPoints;
    if Supported(c, |y|) {
      var viaNtt := InterpolateByNtt(c, y);
      SmallerThanField2(c, |y|);
      res := PolyEvalBatchAuto(c, viaNtt.value, targets);
      return;
    }
    if Max(|y|, |targets|) < c.coeffThreshold {
      res := LagrangeEvalBatch(c, y, targets);
      return;
    }
    var coeffs := LagrangeInterpolatePublicPoints(c, y);
    if coeffs.Err? { return Err(coeffs.message); }
    res := PolyEvalBatchAuto(c, coeffs.value, targets);
  }

  lemma SmallerThanField2(c: Config, n: nat)
    requires EngineOk(c) && Supported(c, n)
    ensures n < c.q
  {
    SmallerThanField(c, n);
  }

  lemma PublicIs(c: Config, n: nat)
    requires c.q > 1
    ensures !Supported(c, n) ==> PublicPoints(c, n) == Counting(n)
  {
  }

  /** In particular the values of p at the public points give the values of p at every target. */
  lemma Reconstruction(c: Config, p: seq<int>, y: seq<int>, targets: seq<int>, values: seq<int>)
    requires EngineOk(c) && 0 < |y| <= c.q && |p| <= |y|
    requires Evaluated(y, p, PublicPoints(c, |y|), c.q)
    requires Evaluated(values, Interpolant(PublicPoints(c, |y|), y, c.q), targets, c.q)
    ensures Evaluated(values, p, targets, c.q)
  {
    var xs, q := PublicPoints(c, |y|), c.q;
    PublicPointsDistinct(c, |y|);
    forall k | 0 <= k < |y| ensures Cong(Eval(p, xs[k]), y[k], q) { CongMod(Eval(p, xs[k]), q); }
    forall t | 0 <= t < |targets| ensures values[t] == Eval(p, targets[t]) % q {
      InterpolantValue(p, xs, y, targets[t], q);
    }
  }
}
