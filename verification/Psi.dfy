/** Private set intersection over OPA over batched OLE: both parties' local computations and the theorem
    that the receiver outputs exactly the accepted elements of its own set, in order. */
module Psi {
  import opened ModArith
  import opened Poly
  import opened PolyOps
  import opened Results
  import opened Engine
  import opened NttPoly
  import opened PolyMul
  import opened Vanishing
  import opened Lagrange
  import opened ProductTree
  import opened Interp
  import opened Barycentric

  // ---- batched OLE as a function of its inputs ----

  /** What the OLE protocols give the receiver for every index. */
  function OleValues(a: seq<int>, x: seq<int>, b: seq<int>, q: int): (y: seq<int>)
    requires q > 0 && |a| == |x| == |b|
    ensures |y| == |x|
  {
    seq(|x|, i requires 0 <= i < |x| => (a[i] * x[i] + b[i]) % q)
  }

  // ---- input sets ----

  ghost predicate NoDuplicates(s: seq<int>) {
    forall i, j :: 0 <= i < j < |s| ==> s[i] != s[j]
  }

  ghost predicate ValidSet(c: Config, s: seq<int>) {
    1 <= |s| <= c.maxItems && Reduced(s, c.q) && NoDuplicates(s)
  }

  method ValidatePsiSet(c: Config, values: seq<int>) returns (res: Result<()>)
    ensures res.Ok? <==> ValidSet(c, values)
  {
    if |values| == 0 || |values| > c.maxItems { return Err("item count outside CG_MAX_ITEMS"); }
    var seen: set<int> := {};
    for i := 0 to |values|
      invariant forall v :: v in seen <==> v in values[..i]
      invariant forall k :: 0 <= k < i ==> 0 <= values[k] < c.q
      invariant forall j, k :: 0 <= j < k < i ==> values[j] != values[k]
    {
      var x := values[i];
      if x < 0 || x >= c.q { return Err("PSI element outside Z_q"); }
      if x in seen {
        var k :| 0 <= k < i && values[..i][k] == x;
        assert values[k] == values[i];
        return Err("duplicate PSI element");
      }
      assert x !in values[..i];
      assert forall k :: 0 <= k < i ==> values[k] == values[..i][k];
      assert values[..i + 1] == values[..i] + [x];
      seen := seen + {x};
    }
    res := Ok(());
  }

  /** Number of OPA points for sets of the two sizes, when the limits allow it. */
  function Points(c: Config, mA: nat, mB: nat): (n: nat) {
    if c.ntt then NextPow2(mA + mB + 1) else mA + mB + 1
  }

  predicate PointsAllowed(c: Config, mA: nat, mB: nat) {
    mA + mB + 1 <= c.maxItems && Points(c, mA, mB) <= c.maxItems
  }

  method PointCount(c: Config, mA: nat, mB: nat) returns (res: Result<nat>)
    ensures res.Ok? <==> PointsAllowed(c, mA, mB)
    ensures res.Ok? ==> res.value == Points(c, mA, mB) >= mA + mB + 1
    ensures res.Ok? ==>
      if c.ntt then IsPow2(res.value) && res.value < 2 * (mA + mB + 1) else res.value == mA + mB + 1
    ensures res.Ok? ==> res.value <= c.maxItems
    ensures res.Err? ==> mA + mB + 1 > c.maxItems || (c.ntt && NextPow2(mA + mB + 1) > c.maxItems)
  {
    if mA > c.maxItems || mB > c.maxItems - mA { return Err("combined item count exceeds CG_MAX_ITEMS"); }
    if mA + mB > c.maxItems || 1 > c.maxItems - (mA + mB) { return Err("combined item count exceeds CG_MAX_ITEMS"); }
    res := PsiOpaPointCount(c, mA + mB + 1);
  }

  // ---- OPA ----

  /** The local part of OPA: one polynomial at the public points. */
  method OpaEvaluate(c: Config, n: nat, coeffs: seq<int>) returns (res: Result<seq<int>>)
    requires EngineOk(c)
    ensures res.Ok? <==> n <= c.q && AutoAllowed(c, coeffs, PublicPoints(c, n))
    ensures res.Ok? ==> Evaluated(res.value, coeffs, PublicPoints(c, n), c.q)
  {
    PublicPointsDistinct(c, n);
    var distinct := RequirePublicEvalPointsDistinct(c, n);
    if distinct.Err? { return Err(distinct.message); }
    var alpha := PublicEvalPoints(c, n);
    res := PolyEvalBatchAuto(c, coeffs, alpha);
  }

  /** The OLE outputs are the values of b + a * x at the public points. */
  lemma OpaValues(a: seq<int>, x: seq<int>, b: seq<int>, ap: seq<int>, xp: seq<int>, bp: seq<int>,
                  points: seq<int>, q: int)
    requires q > 0 && Evaluated(a, ap, points, q) && Evaluated(x, xp, points, q) && Evaluated(b, bp, points, q)
    ensures Evaluated(OleValues(a, x, b, q), Add(bp, Mul(ap, xp)), points, q)
  {
    forall i | 0 <= i < |points|
      ensures OleValues(a, x, b, q)[i] == Eval(Add(bp, Mul(ap, xp)), points[i]) % q
    {
      EvalAdd(bp, Mul(ap, xp), points[i]);
      EvalMul(ap, xp, points[i]);
      OleStep(a[i], x[i], b[i], Eval(ap, points[i]), Eval(xp, points[i]), Eval(bp, points[i]),
              Eval(Mul(ap, xp), points[i]), q);
    }
  }

  lemma OleStep(a: int, x: int, b: int, ea: int, ex: int, eb: int, m: int, q: int)
    requires q > 0 && a == ea % q && x == ex % q && b == eb % q && m == ea * ex
    ensures (a * x + b) % q == (eb + m) % q
  {
    CongMod(ea, q);
    CongMod(ex, q);
    CongMod(eb, q);
    CongMul(a, ea, x, ex, q);
    CongAdd(a * x, m, b, eb, q);
  }

  // ---- the two parties ----

  /** The points are distinct, and a party that forces the NTT finds them to be a domain. */
  predicate ExchangeAllowed(c: Config, mA: nat, mB: nat) {
    && PointsAllowed(c, mA, mB) && Points(c, mA, mB) <= c.q
    && (c.evalMethod == UseNtt ==> Supported(c, Points(c, mA, mB)))
  }

  /** Both of the sender's polynomials have at most |S_A| + |S_B| + 1 coefficients. */
  lemma SenderLengths(setA: seq<int>, rA: seq<int>, rPrime: seq<int>, q: int)
    requires q > 1 && |rA| == |setA| + 1 && |rPrime| > 0
    ensures |Norm(Vanish(setA), q)| == |setA| + 1
    ensures 1 <= |Product(Norm(Vanish(setA), q), rPrime, q)| <= |setA| + |rPrime|
  {
    NormVanishShape(setA, q);
    ProductCong(Norm(Vanish(setA), q), rPrime, q);
  }

  /** What the sender puts into the OLE: q_A = p_A * r'_A and r_A at the public points. */
  datatype SenderInputs = SenderInputs(n: nat, b: seq<int>, a: seq<int>)

  method PsiSender(c: Config, setA: seq<int>, mB: nat, rA: seq<int>, rPrime: seq<int>)
    returns (res: Result<SenderInputs>)
    requires EngineOk(c) && |rA| == |setA| + 1 && |rPrime| == mB + 1
    ensures res.Ok? ==> ValidSet(c, setA) && PointsAllowed(c, |setA|, mB)
    ensures res.Ok? ==> res.value.n == Points(c, |setA|, mB) <= c.q
    ensures res.Ok? ==> Evaluated(res.value.a, rA, PublicPoints(c, res.value.n), c.q)
    ensures res.Ok? ==> Evaluated(res.value.b, Product(Norm(Vanish(setA), c.q), rPrime, c.q),
                                  PublicPoints(c, res.value.n), c.q)
    ensures res.Ok? <==> ValidSet(c, setA) && ExchangeAllowed(c, |setA|, mB)
  {
    var valid := ValidatePsiSet(c, setA);
    if valid.Err? { return Err(valid.message); }
    var n := PointCount(c, |setA|, mB);
    if n.Err? { return Err(n.message); }
    var pA := PolyFromRoots(c, setA);
    var qA := PolyMulMod(c, pA, rPrime);
    SenderLengths(setA, rA, rPrime, c.q);
    var b := OpaEvaluate(c, n.value, qA);
    if b.Err? { return Err(b.message); }
    var a := OpaEvaluate(c, n.value, rA);
    // r_A is shorter than the point count, so this evaluation cannot fail once the first one has passed
    assert a.Ok?;
    res := Ok(SenderInputs(n.value, b.value, a.value));
  }

  /** What the receiver puts into the OLE: p_B at the public points. */
  method PsiReceiverInputs(c: Config, setB: seq<int>, mA: nat) returns (res: Result<seq<int>>)
    requires EngineOk(c)
    ensures res.Ok? ==> ValidSet(c, setB) && PointsAllowed(c, mA, |setB|) && Points(c, mA, |setB|) <= c.q
    ensures res.Ok? ==>
      Evaluated(res.value, Norm(Vanish(setB), c.q), PublicPoints(c, Points(c, mA, |setB|)), c.q)
    ensures res.Ok? <==> ValidSet(c, setB) && ExchangeAllowed(c, mA, |setB|)
  {
    var valid := ValidatePsiSet(c, setB);
    if valid.Err? { return Err(valid.message); }
    var n := PointCount(c, mA, |setB|);
    if n.Err? { return Err(n.message); }
    var pB := PolyFromRoots(c, setB);
    NormVanishShape(setB, c.q);
    res := OpaEvaluate(c, n.value, pB);
  }

  /** The elements of s whose value is zero, in the order of s. */
  function ZeroesOf(s: seq<int>, values: seq<int>): seq<int>
    requires |s| == |values|
  {
    if |s| == 0 then []
    else ZeroesOf(s[..|s| - 1], values[..|s| - 1]) + (if values[|s| - 1] == 0 then [s[|s| - 1]] else [])
  }

  /** Reconstruction and zero test. */
  method PsiReceiverFinish(c: Config, y: seq<int>, setB: seq<int>) returns (res: Result<seq<int>>)
    requires EngineOk(c)
    ensures res.Ok? <==> ReconstructionAllowed(c, y, setB)
    ensures res.Ok? ==> exists values ::
      Evaluated(values, Interpolant(PublicPoints(c, |y|), y, c.q), setB, c.q) && res.value == ZeroesOf(setB, values)
  {
    var evals := LagrangeEvalBatchAuto(c, y, setB);
    if evals.Err? { return Err(evals.message); }
    var values := evals.value;
    assert Evaluated(values, Interpolant(PublicPoints(c, |y|), y, c.q), setB, c.q);
    hide *;
    var intersection := [];
    for i := 0 to |setB|
      invariant intersection == ZeroesOf(setB[..i], values[..i])
    {
      ZeroesStep(setB, values, i);
      if values[i] == 0 { intersection := intersection + [setB[i]]; }
    }
    assert setB[..|setB|] == setB && values[..|setB|] == values;
    res := Ok(intersection);
  }

  lemma ZeroesStep(s: seq<int>, values: seq<int>, i: nat)
    requires |s| == |values| && i < |s|
    ensures ZeroesOf(s[..i + 1], values[..i + 1])
         == ZeroesOf(s[..i], values[..i]) + (if values[i] == 0 then [s[i]] else [])
  {
    assert s[..i + 1][..i] == s[..i] && values[..i + 1][..i] == values[..i];
  }

  // ---- exactness ----

  /** beta passes the test: it is an element of A, or a root of the mask r'_A. */
  predicate Accepted(beta: int, setA: seq<int>, rPrime: seq<int>, q: int)
    requires q > 0
  {
    beta in setA || Eval(rPrime, beta) % q == 0
  }

  /** The accepted elements of s, in the order of s. */
  function AcceptedOf(s: seq<int>, setA: seq<int>, rPrime: seq<int>, q: int): seq<int>
    requires q > 0
  {
    if |s| == 0 then []
    else AcceptedOf(s[..|s| - 1], setA, rPrime, q)
         + (if Accepted(s[|s| - 1], setA, rPrime, q) then [s[|s| - 1]] else [])
  }

  lemma {:induction false} SameSelection(s: seq<int>, values: seq<int>, setA: seq<int>, rPrime: seq<int>, q: int)
    requires q > 0 && |s| == |values|
    requires forall i :: 0 <= i < |s| ==> (values[i] == 0 <==> Accepted(s[i], setA, rPrime, q))
    ensures ZeroesOf(s, values) == AcceptedOf(s, setA, rPrime, q)
    decreases |s|
  {
    if |s| > 0 {
      SameSelection(s[..|s| - 1], values[..|s| - 1], setA, rPrime, q);
    }
  }

  /** p_A vanishes exactly on A. */
  lemma VanishesOnSet(setA: seq<int>, beta: int, q: int)
    requires Prime(q) && Reduced(setA, q) && 0 <= beta < q
    ensures Cong(Eval(Norm(Vanish(setA), q), beta), 0, q) <==> beta in setA
  {
    NormVanishShape(setA, q);
    PCongEval(Norm(Vanish(setA), q), Vanish(setA), beta, q);
    ModSmall(beta, q);
    if Cong(Eval(Vanish(setA), beta), 0, q) {
      RootsOnly(setA, beta, q);
      var k :| 0 <= k < |setA| && Cong(beta, setA[k], q);
      ModSmall(setA[k], q);
    }
    if beta in setA {
      var k :| 0 <= k < |setA| && setA[k] == beta;
      VanishRoot(setA, k);
    }
  }

  /** q_A + r_A * p_B, the polynomial whose values the receiver gets. */
  function Masked(pA: seq<int>, rA: seq<int>, rPrime: seq<int>, pB: seq<int>, q: int): seq<int>
    requires q > 0
  {
    Add(Product(pA, rPrime, q), Mul(rA, pB))
  }

  /** The point count always covers its degree. */
  lemma MaskedDegree(setA: seq<int>, setB: seq<int>, rA: seq<int>, rPrime: seq<int>, q: int)
    requires q > 1 && |rA| == |setA| + 1 && |rPrime| == |setB| + 1
    ensures |Masked(Norm(Vanish(setA), q), rA, rPrime, Norm(Vanish(setB), q), q)| <= |setA| + |setB| + 1
  {
    var pA, pB := Norm(Vanish(setA), q), Norm(Vanish(setB), q);
    NormVanishShape(setA, q);
    NormVanishShape(setB, q);
    ProductCong(pA, rPrime, q);
    MulLength(rA, pB);
    AddShape(Product(pA, rPrime, q), Mul(rA, pB));
  }

  /** At an element of B it vanishes exactly when p_A or r'_A does. */
  lemma MaskedValue(setA: seq<int>, setB: seq<int>, rA: seq<int>, rPrime: seq<int>, i: nat, q: int)
    requires Prime(q) && Reduced(setA, q) && Reduced(setB, q) && |rPrime| > 0 && i < |setB|
    ensures var p := Masked(Norm(Vanish(setA), q), rA, rPrime, Norm(Vanish(setB), q), q);
      Eval(p, setB[i]) % q == 0 <==> Accepted(setB[i], setA, rPrime, q)
  {
    var pA, pB, x := Norm(Vanish(setA), q), Norm(Vanish(setB), q), setB[i];
    assert 0 <= x < q;
    NormVanishShape(setA, q);
    ProductCong(pA, rPrime, q);
    hide *;
    VanishesOnSet(setA, x, q);
    NodeRoot(setB, i, q);
    PCongEval(Product(pA, rPrime, q), Mul(pA, rPrime), x, q);
    MaskedEval(pA, rA, rPrime, pB, x, q);
    ZeroOfMasked(Eval(pA, x), Eval(rPrime, x), Eval(rA, x), Eval(pB, x), Eval(Product(pA, rPrime, q), x),
                 Eval(Mul(pA, rPrime), x), Eval(Mul(rA, pB), x), Eval(Masked(pA, rA, rPrime, pB, q), x), q);
    AcceptedIs(x, setA, rPrime, q);
  }

  lemma AcceptedIs(beta: int, setA: seq<int>, rPrime: seq<int>, q: int)
    requires q > 0
    ensures Accepted(beta, setA, rPrime, q) <==> beta in setA || Eval(rPrime, beta) % q == 0
  {
  }

  lemma MaskedEval(pA: seq<int>, rA: seq<int>, rPrime: seq<int>, pB: seq<int>, x: int, q: int)
    requires q > 0
    ensures Eval(Masked(pA, rA, rPrime, pB, q), x) == Eval(Product(pA, rPrime, q), x) + Eval(Mul(rA, pB), x)
    ensures Eval(Mul(pA, rPrime), x) == Eval(pA, x) * Eval(rPrime, x)
    ensures Eval(Mul(rA, pB), x) == Eval(rA, x) * Eval(pB, x)
  {
    EvalMul(pA, rPrime, x);
    EvalMul(rA, pB, x);
    EvalAdd(Product(pA, rPrime, q), Mul(rA, pB), x);
  }

  lemma ZeroOfMasked(a: int, r: int, s: int, b: int, m: int, ar: int, t: int, e: int, q: int)
    requires Prime(q) && Cong(m, ar, q) && ar == a * r && Cong(b, 0, q) && t == s * b && e == m + t
    ensures e % q == 0 <==> Cong(a, 0, q) || r % q == 0
  {
    ModSmall(0, q);
    CongScale(b, 0, s, q);
    CongAdd(m, ar, t, 0, q);
    if ar % q == 0 { EuclidLemma(a, r, q); }
    if Cong(a, 0, q) { CongScale(a, 0, r, q); }
    if r % q == 0 { CongScale(r, 0, a, q); }
  }

  /** The two programs agree on the field and on the public points; their tuning may differ. */
  predicate SameField(cA: Config, cB: Config) {
    cA.q == cB.q && cA.g == cB.g && cA.ntt == cB.ntt && cA.maxLog == cB.maxLog
  }

  lemma SamePublicPoints(cA: Config, cB: Config, n: nat)
    requires SameField(cA, cB) && cA.q > 1
    ensures PublicPoints(cA, n) == PublicPoints(cB, n)
  {
  }

  /** A receiver that forces the NTT evaluates the reconstructed polynomial at its own elements: they must be an NTT
      domain, in order, and the masked polynomial must have no more coefficients than there are elements. */
  ghost predicate ReconstructionFits(c: Config, setA: seq<int>, setB: seq<int>, rA: seq<int>, rPrime: seq<int>)
    requires c.q > 1
  {
    c.evalMethod == UseNtt ==>
      && Supported(c, |setB|) && setB == PublicPoints(c, |setB|)
      && |Norm(MaskedOf(setA, setB, rA, rPrime, c.q), c.q)| <= |setB|
  }

  function MaskedOf(setA: seq<int>, setB: seq<int>, rA: seq<int>, rPrime: seq<int>, q: int): seq<int>
    requires q > 0
  {
    Masked(Norm(Vanish(setA), q), rA, rPrime, Norm(Vanish(setB), q), q)
  }

  /** Reconstruction succeeds exactly then. */
  lemma ReconstructionExact(c: Config, setA: seq<int>, setB: seq<int>, rA: seq<int>, rPrime: seq<int>, y: seq<int>,
                            n: nat)
    requires EngineOk(c) && |setB| > 0 && |rA| == |setA| + 1 && |rPrime| == |setB| + 1
    requires |setA| + |setB| + 1 <= n <= c.q && (c.evalMethod == UseNtt ==> Supported(c, n))
    requires Evaluated(y, MaskedOf(setA, setB, rA, rPrime, c.q), PublicPoints(c, n), c.q)
    ensures ReconstructionAllowed(c, y, setB) <==> ReconstructionFits(c, setA, setB, rA, rPrime)
  {
    var p := MaskedOf(setA, setB, rA, rPrime, c.q);
    MaskedDegree(setA, setB, rA, rPrime, c.q);
    MaskedNonEmpty(setA, setB, rA, rPrime, c.q);
    EvaluateThenInterpolate(c, p, y, n);
    hide EngineOk, Norm, Masked, Interpolant, PublicPoints, Eval;
  }

  lemma MaskedNonEmpty(setA: seq<int>, setB: seq<int>, rA: seq<int>, rPrime: seq<int>, q: int)
    requires q > 1 && |rA| == |setA| + 1 && |rPrime| == |setB| + 1
    ensures |MaskedOf(setA, setB, rA, rPrime, q)| > 0
  {
    SenderLengths(setA, rA, rPrime, q);
    NormVanishShape(setB, q);
    MulLength(rA, Norm(Vanish(setB), q));
    AddShape(Product(Norm(Vanish(setA), q), rPrime, q), Mul(rA, Norm(Vanish(setB), q)));
  }

  lemma LeadingTerms(pA: seq<int>, rA: seq<int>, rPrime: seq<int>, pB: seq<int>, m: nat, q: int)
    requires q > 0 && |rA| == |pA| > 0 && |rPrime| == |pB| > 0 && m == |pA| + |pB| - 2
    requires pA[|pA| - 1] == 1 && pB[|pB| - 1] == 1
    ensures Coef(Mul(pA, rPrime), m) == rPrime[|pB| - 1] && Coef(Mul(rA, pB), m) == rA[|pA| - 1]
    ensures Cong(Coef(Product(pA, rPrime, q), m), rPrime[|pB| - 1], q)
  {
    hide *;
    ProductCong(pA, rPrime, q);
    LeadCoef(pA, rPrime);
    LeadCoef(rA, pB);
    CongAt(Product(pA, rPrime, q), Mul(pA, rPrime), m, q);
  }

  lemma CongAt(p: seq<int>, r: seq<int>, i: int, q: int)
    requires q > 0 && PCong(p, r, q)
    ensures Cong(Coef(p, i), Coef(r, i), q)
  {
  }

  /** The masked polynomial has all its |S_A| + |S_B| + 1 coefficients unless the leading ones of the masks cancel. */
  lemma MaskedLead(setA: seq<int>, setB: seq<int>, rA: seq<int>, rPrime: seq<int>, q: int)
    requires q > 1 && |setB| > 0 && |rA| == |setA| + 1 && |rPrime| == |setB| + 1
    ensures |Norm(MaskedOf(setA, setB, rA, rPrime, q), q)| == |setA| + |setB| + 1
        <==> (rPrime[|setB|] + rA[|setA|]) % q != 0
  {
    hide *;
    var pA, pB, m := Norm(Vanish(setA), q), Norm(Vanish(setB), q), |setA| + |setB|;
    var u, v, w := Product(pA, rPrime, q), Mul(rA, pB), MaskedOf(setA, setB, rA, rPrime, q);
    NormVanishShape(setA, q);
    NormVanishShape(setB, q);
    LeadingTerms(pA, rA, rPrime, pB, m, q);
    MaskedIs(pA, rA, rPrime, pB, q);
    MaskedOfIs(setA, setB, rA, rPrime, q);
    AddShape(u, v);
    MaskedDegree(setA, setB, rA, rPrime, q);
    MaskedNonEmpty(setA, setB, rA, rPrime, q);
    NormCanon(w, q);
    CongAt(Norm(w, q), w, m, q);
    TopCoefficient(Norm(w, q), m, q);
    TopSum(Coef(Norm(w, q), m), Coef(w, m), Coef(u, m), Coef(v, m), rPrime[|setB|], rA[|setA|], q);
  }

  lemma MaskedOfIs(setA: seq<int>, setB: seq<int>, rA: seq<int>, rPrime: seq<int>, q: int)
    requires q > 0
    ensures MaskedOf(setA, setB, rA, rPrime, q) == Masked(Norm(Vanish(setA), q), rA, rPrime, Norm(Vanish(setB), q), q)
  {
  }

  lemma TopSum(n: int, w: int, u: int, v: int, a: int, b: int, q: int)
    requires q > 0 && Cong(n, w, q) && w == u + v && Cong(u, a, q) && v == b
    ensures n % q == (a + b) % q
  {
    CongAdd(u, a, v, b, q);
  }

  lemma TopCoefficient(p: seq<int>, m: nat, q: int)
    requires q > 1 && Canon(p, q) && m > 0 && |p| <= m + 1
    ensures |p| == m + 1 <==> Coef(p, m) % q != 0
  {
    ModSmall(0, q);
    if |p| == m + 1 { ModSmall(p[m], q); }
  }

  /** So a receiver that forces the NTT fails on every set, unless the leading coefficients of the masks cancel. */
  lemma ForcedNttFails(c: Config, setA: seq<int>, setB: seq<int>, rA: seq<int>, rPrime: seq<int>)
    requires c.q > 1 && c.evalMethod == UseNtt && |setB| > 0 && |rA| == |setA| + 1 && |rPrime| == |setB| + 1
    requires (rPrime[|setB|] + rA[|setA|]) % c.q != 0
    ensures !ReconstructionFits(c, setA, setB, rA, rPrime)
  {
    MaskedLead(setA, setB, rA, rPrime, c.q);
  }

  /** Both parties and the OLE between them, in every evaluation mode of either. */
  method RunPsi(cA: Config, cB: Config, setA: seq<int>, setB: seq<int>, rA: seq<int>, rPrime: seq<int>)
    returns (res: Result<seq<int>>)
    requires EngineOk(cA) && EngineOk(cB) && SameField(cA, cB)
    requires |rA| == |setA| + 1 && |rPrime| == |setB| + 1
    ensures res.Ok? ==> res.value == AcceptedOf(setB, setA, rPrime, cB.q)
    ensures cB.q > 1
    ensures res.Ok? <==>
      && ValidSet(cA, setA) && ValidSet(cB, setB) && ExchangeAllowed(cA, |setA|, |setB|)
      && ExchangeAllowed(cB, |setA|, |setB|) && ReconstructionFits(cB, setA, setB, rA, rPrime)
  {
    QIsPrime(cA);
    var sender := PsiSender(cA, setA, |setB|, rA, rPrime);
    if sender.Err? { return Err(sender.message); }
    var receiver := PsiReceiverInputs(cB, setB, |setA|);
    if receiver.Err? { return Err(receiver.message); }
    SamePublicPoints(cA, cB, sender.value.n);
    assert Points(cA, |setA|, |setB|) == Points(cB, |setA|, |setB|);
    var y := OleValues(sender.value.a, receiver.value, sender.value.b, cA.q);
    MaskedValues(cB, setA, setB, rA, rPrime, sender.value.a, receiver.value, sender.value.b, sender.value.n);
    PointsCover(cB, |setA|, |setB|);
    ReconstructionExact(cB, setA, setB, rA, rPrime, y, sender.value.n);
    res := PsiReceiverFinish(cB, y, setB);
    if res.Ok? {
      PsiExact(cB, setA, setB, rA, rPrime, sender.value.a, receiver.value, sender.value.b, y, res.value);
    }
  }

  /** What the receiver gets out of the OLE are the values of the masked polynomial. */
  lemma MaskedValues(c: Config, setA: seq<int>, setB: seq<int>, rA: seq<int>, rPrime: seq<int>,
                     a: seq<int>, x: seq<int>, b: seq<int>, n: nat)
    requires c.q > 1 && Evaluated(a, rA, PublicPoints(c, n), c.q)
    requires Evaluated(x, Norm(Vanish(setB), c.q), PublicPoints(c, n), c.q)
    requires Evaluated(b, Product(Norm(Vanish(setA), c.q), rPrime, c.q), PublicPoints(c, n), c.q)
    ensures |a| == |x| == |b|
    ensures Evaluated(OleValues(a, x, b, c.q), MaskedOf(setA, setB, rA, rPrime, c.q), PublicPoints(c, n), c.q)
  {
    var pA, pB := Norm(Vanish(setA), c.q), Norm(Vanish(setB), c.q);
    hide Norm, Vanish, Product, Mul, Add, Eval;
    OpaValues(a, x, b, rA, pB, Product(pA, rPrime, c.q), PublicPoints(c, n), c.q);
  }

  /** Exactness of PSI for all sets and all masks. */
  lemma PsiExact(c: Config, setA: seq<int>, setB: seq<int>, rA: seq<int>, rPrime: seq<int>,
                 a: seq<int>, x: seq<int>, b: seq<int>, y: seq<int>, out: seq<int>)
    requires EngineOk(c) && ValidSet(c, setA) && ValidSet(c, setB) && Points(c, |setA|, |setB|) <= c.q
    requires |rA| == |setA| + 1 && |rPrime| == |setB| + 1
    requires var alpha := PublicPoints(c, Points(c, |setA|, |setB|));
      Evaluated(a, rA, alpha, c.q) && Evaluated(x, Norm(Vanish(setB), c.q), alpha, c.q)
      && Evaluated(b, Product(Norm(Vanish(setA), c.q), rPrime, c.q), alpha, c.q)
      && y == OleValues(a, x, b, c.q)
    requires exists values :: Evaluated(values, Interpolant(PublicPoints(c, |y|), y, c.q), setB, c.q)
                              && out == ZeroesOf(setB, values)
    ensures out == AcceptedOf(setB, setA, rPrime, c.q)
  {
    var q, n := c.q, Points(c, |setA|, |setB|);
    var values :| Evaluated(values, Interpolant(PublicPoints(c, |y|), y, q), setB, q) && out == ZeroesOf(setB, values);
    PointsCover(c, |setA|, |setB|);
    hide *;
    QIsPrime(c);
    SetReduced(c, setA);
    SetReduced(c, setB);
    var pA, pB := Norm(Vanish(setA), q), Norm(Vanish(setB), q);
    OpaValues(a, x, b, rA, pB, Product(pA, rPrime, q), PublicPoints(c, n), q);
    MaskedIs(pA, rA, rPrime, pB, q);
    EvaluatedLength(values, Interpolant(PublicPoints(c, |y|), y, q), setB, q);
    EvaluatedLength(y, Masked(pA, rA, rPrime, pB, q), PublicPoints(c, n), q);
    ExactFrom(c, setA, setB, rA, rPrime, y, values, n);
  }

  lemma PointsCover(c: Config, mA: nat, mB: nat)
    ensures Points(c, mA, mB) >= mA + mB + 1
  {
    NextPow2Correct(mA + mB + 1);
  }

  /** From the values of the masked polynomial to the output. */
  lemma ExactFrom(c: Config, setA: seq<int>, setB: seq<int>, rA: seq<int>, rPrime: seq<int>,
                  y: seq<int>, values: seq<int>, n: nat)
    requires EngineOk(c) && Prime(c.q) && Reduced(setA, c.q) && Reduced(setB, c.q)
    requires |rA| == |setA| + 1 && |rPrime| == |setB| + 1 && |setA| + |setB| + 1 <= n <= c.q
    requires |y| == n && |values| == |setB|
    requires Evaluated(y, Masked(Norm(Vanish(setA), c.q), rA, rPrime, Norm(Vanish(setB), c.q), c.q),
                       PublicPoints(c, n), c.q)
    requires Evaluated(values, Interpolant(PublicPoints(c, |y|), y, c.q), setB, c.q)
    ensures ZeroesOf(setB, values) == AcceptedOf(setB, setA, rPrime, c.q)
  {
    hide *;
    var q := c.q;
    QIsPrime(c);
    var p := Masked(Norm(Vanish(setA), q), rA, rPrime, Norm(Vanish(setB), q), q);
    MaskedDegree(setA, setB, rA, rPrime, q);
    Reconstruction(c, p, y, setB, values);
    forall i | 0 <= i < |setB| ensures values[i] == 0 <==> Accepted(setB[i], setA, rPrime, q) {
      MaskedValue(setA, setB, rA, rPrime, i, q);
      EvaluatedAt(values, p, setB, i, q);
    }
    SameSelection(setB, values, setA, rPrime, q);
  }

  lemma SetReduced(c: Config, s: seq<int>)
    requires ValidSet(c, s)
    ensures Reduced(s, c.q)
  {
  }

  lemma MaskedIs(pA: seq<int>, rA: seq<int>, rPrime: seq<int>, pB: seq<int>, q: int)
    requires q > 0
    ensures Masked(pA, rA, rPrime, pB, q) == Add(Product(pA, rPrime, q), Mul(rA, pB))
  {
  }

  lemma EvaluatedLength(values: seq<int>, p: seq<int>, points: seq<int>, q: int)
    requires q > 0 && Evaluated(values, p, points, q)
    ensures |values| == |points|
  {
  }

  lemma EvaluatedAt(values: seq<int>, p: seq<int>, points: seq<int>, i: nat, q: int)
    requires q > 0 && Evaluated(values, p, points, q) && i < |points|
    ensures |values| == |points| && values[i] == Eval(p, points[i]) % q
  {
  }
}
