/** The public points, and interpolation through them up a subproduct tree or by one inverse NTT. */
module Interp {
  import opened ModArith
  import opened Poly
  import opened PolyOps
  import opened Results
  import opened Dft
  import opened Engine
  import opened NttPoly
  import opened PolyMul
  import opened Vanishing
  import opened Lagrange
  import opened ProductTree

  // ---- the public points ----

  /** A power of the root below its order is not 1. */
  lemma {:induction false} PowerNotOne(rt: seq<int>, e: nat, d: nat, q: int)
    requires q > 0 && Roots(rt, q) && e < |rt| && 0 < d < Pow2(e) && !Cong(1, -1, q)
    ensures !Cong(Pow(rt[e], d), 1, q)
  {
    if Cong(Pow(rt[e], d), 1, q) {
      var k := d / 2;
      RootPower(rt, e, q);
      if d % 2 == 0 {
        assert Cong(rt[e - 1 + 1] * rt[e - 1 + 1], rt[e - 1], q);
        SquarePower(rt[e], rt[e - 1], k, q);
        PowerNotOne(rt, e - 1, k, q);
      } else {
        OddPower(rt[e], Pow2(e - 1), k, q);
      }
    }
  }

  /** An odd power of a root whose h-th power is -1 is not 1. */
  lemma OddPower(r: int, h: nat, k: nat, q: int)
    requires q > 0 && Cong(Pow(r, h), -1, q) && Cong(Pow(r, 2 * k + 1), 1, q)
    ensures Cong(1, -1, q)
  {
    hide Pow;
    PowSwap(r, h, 2 * k + 1);
    PowCong(Pow(r, h), -1, 2 * k + 1, q);
    PowCong(Pow(r, 2 * k + 1), 1, h, q);
    PowOne(h);
    MinusOnePower(k);
  }

  lemma {:induction false} MinusOnePower(k: nat)
    ensures Pow(-1, 2 * k) == 1 && Pow(-1, 2 * k + 1) == -1
  {
    if k > 0 {
      MinusOnePower(k - 1);
      assert Pow(-1, 2 * k) == -1 * Pow(-1, 2 * k - 1);
    }
  }

  lemma PowersDiffer(r: int, i: nat, j: nat, q: int)
    requires Prime(q) && i < j && Pow(r, i) % q != 0 && !Cong(Pow(r, j - i), 1, q)
    ensures !Cong(Pow(r, i), Pow(r, j), q)
  {
    hide Pow;
    PowAdd(r, i, j - i);
    if Cong(Pow(r, i), Pow(r, j), q) {
      FactorUnit(Pow(r, i), Pow(r, j - i), Pow(r, j), q);
    }
  }

  lemma FactorUnit(a: int, b: int, m: int, q: int)
    requires Prime(q) && m == a * b && Cong(a, m, q) && a % q != 0
    ensures Cong(b, 1, q)
  {
    CongDiff(m, a, q);
    assert m - a == a * (b - 1);
    EuclidLemma(a, b - 1, q);
    CongDiff(b, 1, q);
  }

  lemma {:induction false} PowerNonzero(r: int, i: nat, q: int)
    requires Prime(q) && r % q != 0
    ensures Pow(r, i) % q != 0
  {
    if i == 0 {
      ModSmall(1, q);
    } else {
      PowerNonzero(r, i - 1, q);
      if Pow(r, i) % q == 0 {
        EuclidLemma(r, Pow(r, i - 1), q);
        assert false;
      }
    }
  }

  lemma OneIsNotMinusOne(c: Config, e: nat)
    requires FieldOk(c) && c.ntt && 1 <= e <= c.maxLog && RootChecks(c, e)
    ensures !Cong(1, -1, c.q)
  {
    TableIsRoots(c, e);
    ChecksDown(c, 1, e);
    var r := RootAt(c, 1);
    assert RootTable(c, e)[1] == r;
    assert Pow2(0) == 1 && Pow(r, 1) == r * Pow(r, 0);
    ModSmall(1, c.q);
  }

  lemma DomainPointsDiffer(c: Config, n: nat, i: nat, j: nat)
    requires FieldOk(c) && Supported(c, n) && RootChecks(c, Log2(n)) && i < j < n
    ensures !Cong(DomainPoints(c, n)[i], DomainPoints(c, n)[j], c.q)
  {
    var e, q := Log2(n), c.q;
    var rt := RootTable(c, e);
    assert e >= 1 by { assert Pow2(0) == 1; }
    TableIsRoots(c, e);
    OneIsNotMinusOne(c, e);
    PowerNotOne(rt, e, j - i, q);
    RootNonzero(rt, e, q);
    PowerNonzero(rt[e], i, q);
    PowersDiffer(rt[e], i, j, q);
    CongMod(Pow(rt[e], i), q);
    CongMod(Pow(rt[e], j), q);
  }

  lemma SmallerThanField(c: Config, n: nat)
    requires FieldOk(c) && Supported(c, n)
    ensures n < c.q
  {
    DivisibleDown(c.q - 1, Log2(n), c.maxLog);
    if n > c.q - 1 {
      ModSmall(c.q - 1, n);
      assert false;
    }
  }

  /** The guard of the program is exactly the condition for the denominators to be invertible. */
  lemma PublicPointsDistinct(c: Config, n: nat)
    requires EngineOk(c)
    ensures Distinct(PublicPoints(c, n), c.q) <==> n <= c.q
  {
    var xs, q := PublicPoints(c, n), c.q;
    if Supported(c, n) {
      SmallerThanField(c, n);
      ChecksDown(c, Log2(n), c.maxLog);
      forall i, j | 0 <= i < j < n ensures !Cong(xs[i], xs[j], q) { DomainPointsDiffer(c, n, i, j); }
    } else {
      forall i, j | 0 <= i < j < n && n <= q ensures !Cong(xs[i], xs[j], q) {
        CongDiff(j + 1, i + 1, q);
        ModSmall(j - i, q);
      }
      if n > q {
        CongMultiple(1, 1, q);
        assert xs[0] == 1 && xs[q] == q + 1;
        assert Cong(xs[0], xs[q], q);
      }
    }
  }

  method RequirePublicEvalPointsDistinct(c: Config, n: nat) returns (res: Result<()>)
    requires EngineOk(c)
    ensures res.Ok? <==> Distinct(PublicPoints(c, n), c.q)
  {
    PublicPointsDistinct(c, n);
    if n == 0 { return Ok(()); }
    if n > c.q { return Err("public OPA/Lagrange point count exceeds plaintext field size"); }
    res := Ok(());
  }

  /** The number of OPA points: at least the requested bound, rounded up to a domain when the NTT is on. */
  method PsiOpaPointCount(c: Config, bound: nat) returns (res: Result<nat>)
    ensures res.Ok? ==> bound <= res.value <= c.maxItems && res.value < 2 * bound
    ensures res.Ok? ==> if c.ntt then IsPow2(res.value) && res.value == NextPow2(bound) else res.value == bound
    ensures res.Err? <==> bound == 0 || bound > c.maxItems || (c.ntt && NextPow2(bound) > c.maxItems)
  {
    if bound == 0 || bound > c.maxItems { return Err("item count outside CG_MAX_ITEMS"); }
    NextPow2Correct(bound);
    if c.ntt {
      var count := NextPowerOfTwo(bound);
      if count > c.maxItems { return Err("item count outside CG_MAX_ITEMS"); }
      return Ok(count);
    }
    res := Ok(bound);
  }

  // ---- interpolation up the tree ----

  lemma {:induction false} GroupsAligned(xs: seq<int>, ws: seq<int>, level: nat)
    requires |xs| == |ws|
    ensures |Groups(xs, level)| == |Groups(ws, level)|
    ensures forall i :: 0 <= i < |Groups(xs, level)| ==> |Groups(xs, level)[i]| == |Groups(ws, level)[i]| > 0
  {
    if level > 0 {
      GroupsAligned(xs, ws, level - 1);
    }
  }

  /** Every accumulator is Lagrange's combination of its own points and weights. */
  ghost predicate AccOk(acc: seq<seq<int>>, gs: seq<seq<int>>, ws: seq<seq<int>>, q: int)
    requires q > 0
  {
    && |acc| == |gs| == |ws|
    && (forall i :: 0 <= i < |gs| ==> |gs[i]| == |ws[i]| > 0)
    && forall i :: 0 <= i < |acc| ==> acc[i] == Norm(Comb(gs[i], ws[i]), q)
  }

  lemma CombLeaf(x: int, w: int, q: int)
    requires 0 <= w < q
    ensures [w] == Norm(Comb([x], [w]), q)
  {
    ModSmall(w, q);
    assert Red([w], q) == [w];
  }

  lemma CombNorm(xs: seq<int>, ws: seq<int>, q: int)
    requires q > 1 && |xs| == |ws| > 0
    ensures Canon(Norm(Comb(xs, ws), q), q) && PCong(Norm(Comb(xs, ws), q), Comb(xs, ws), q)
  {
    CombShape(xs, ws);
    NormCanon(Comb(xs, ws), q);
  }

  /** acc_left * P_right + acc_right * P_left is the accumulator of the joined points. */
  lemma CombNode(xs: seq<int>, ys: seq<int>, ws: seq<int>, vs: seq<int>, q: int)
    requires q > 1 && |xs| == |ws| > 0 && |ys| == |vs| > 0
    ensures var l := Product(Norm(Comb(xs, ws), q), Norm(Vanish(ys), q), q);
      var r := Product(Norm(Comb(ys, vs), q), Norm(Vanish(xs), q), q);
      Norm(Add(l, r), q) == Norm(Comb(xs + ys, ws + vs), q)
  {
    var a, b := Norm(Comb(xs, ws), q), Norm(Comb(ys, vs), q);
    var u, v := Norm(Vanish(xs), q), Norm(Vanish(ys), q);
    CombNorm(xs, ws, q);
    CombNorm(ys, vs, q);
    NormVanishShape(xs, q);
    NormVanishShape(ys, q);
    CombShape(xs + ys, ws + vs);
    ProductCong(a, v, q);
    ProductCong(b, u, q);
    NormSum(Product(a, v, q), Product(b, u, q), q);
    AddShape(Product(a, v, q), Product(b, u, q));
    NormCanon(Add(Product(a, v, q), Product(b, u, q)), q);
    CombNodeCong(xs, ys, ws, vs, a, b, u, v, Product(a, v, q), Product(b, u, q), q);
    NormUnique(Norm(Add(Product(a, v, q), Product(b, u, q)), q), Comb(xs + ys, ws + vs), q);
  }

  lemma CombNodeCong(xs: seq<int>, ys: seq<int>, ws: seq<int>, vs: seq<int>, a: seq<int>, b: seq<int>, u: seq<int>,
                     v: seq<int>, l: seq<int>, r: seq<int>, q: int)
    requires q > 1 && |xs| == |ws| && |ys| == |vs| && |l| > 0 && |r| > 0
    requires PCong(a, Comb(xs, ws), q) && PCong(b, Comb(ys, vs), q)
    requires PCong(u, Vanish(xs), q) && PCong(v, Vanish(ys), q) && PCong(l, Mul(a, v), q) && PCong(r, Mul(b, u), q)
    ensures PCong(Norm(Add(l, r), q), Comb(xs + ys, ws + vs), q)
  {
    hide *;
    var l', r' := Mul(Comb(xs, ws), Vanish(ys)), Mul(Comb(ys, vs), Vanish(xs));
    PCongMul(a, Comb(xs, ws), v, Vanish(ys), q);
    PCongMul(b, Comb(ys, vs), u, Vanish(xs), q);
    PCongTrans(l, Mul(a, v), l', q);
    PCongTrans(r, Mul(b, u), r', q);
    PCongAdd(l, l', r, r', q);
    NormSum(l, r, q);
    PCongTrans(Norm(Add(l, r), q), Add(l, r), Add(l', r'), q);
    forall x ensures Eval(Add(l', r'), x) == Eval(Comb(xs + ys, ws + vs), x) {
      EvalAdd(l', r', x);
      EvalMul(Comb(xs, ws), Vanish(ys), x);
      EvalMul(Comb(ys, vs), Vanish(xs), x);
      CombConcat(xs, ys, ws, vs, x);
    }
    PCongSame(Add(l', r'), Comb(xs + ys, ws + vs), q);
    PCongTrans(Norm(Add(l, r), q), Add(l', r'), Comb(xs + ys, ws + vs), q);
  }

  /** One node of the next accumulator level. */
  method CombineNode(c: Config, acc: seq<seq<int>>, polys: seq<seq<int>>, i: nat,
                     ghost gs: seq<seq<int>>, ghost ws: seq<seq<int>>) returns (node: seq<int>)
    requires EngineOk(c) && AccOk(acc, gs, ws, c.q) && LevelOk(polys, gs, c.q) && 2 * i < |acc|
    ensures |Paired(gs, i)| == |Paired(ws, i)| > 0
    ensures node == Norm(Comb(Paired(gs, i), Paired(ws, i)), c.q)
  {
    hide *;
    QIsPrime(c);
    AccSize(acc, gs, ws, c.q);
    LevelSize(polys, gs, c.q);
    PairedIs(gs, i);
    PairedIs(ws, i);
    var li := 2 * i;
    var ri := li + 1;
    AccAt(acc, gs, ws, li, c.q);
    if ri >= |acc| {
      node := acc[li];
      return;
    }
    AccAt(acc, gs, ws, ri, c.q);
    NodeAt(polys, gs, li, c.q);
    NodeAt(polys, gs, ri, c.q);
    var left := PolyMulMod(c, acc[li], polys[ri]);
    var right := PolyMulMod(c, acc[ri], polys[li]);
    node := PolyAddMod(left, right, c.q);
    CombNode(gs[li], gs[ri], ws[li], ws[ri], c.q);
  }

  /** One level of the combination. */
  method CombineLevel(c: Config, acc: seq<seq<int>>, polys: seq<seq<int>>,
                      ghost gs: seq<seq<int>>, ghost ws: seq<seq<int>>) returns (next: seq<seq<int>>)
    requires EngineOk(c) && AccOk(acc, gs, ws, c.q) && LevelOk(polys, gs, c.q)
    ensures AccOk(next, PairUp(gs), PairUp(ws), c.q)
  {
    hide *;
    QIsPrime(c);
    AccSize(acc, gs, ws, c.q);
    ghost var q, up, wup := c.q, PairUp(gs), PairUp(ws);
    PairUpAt(gs);
    PairUpAt(ws);
    next := seq((|acc| + 1) / 2, _ => []);
    for i := 0 to |next|
      invariant |next| == (|acc| + 1) / 2
      invariant forall k :: 0 <= k < i ==> |up[k]| == |wup[k]| > 0
      invariant forall k :: 0 <= k < i ==> next[k] == Norm(Comb(up[k], wup[k]), q)
    {
      var node := CombineNode(c, acc, polys, i, gs, ws);
      next := next[i := node];
    }
    AccIntro(next, up, wup, q);
  }

  lemma PairedIs(gs: seq<seq<int>>, i: nat)
    requires 2 * i < |gs|
    ensures Paired(gs, i) == if 2 * i + 1 < |gs| then gs[2 * i] + gs[2 * i + 1] else gs[2 * i]
  {
  }

  lemma PairUpAt(gs: seq<seq<int>>)
    ensures |PairUp(gs)| == (|gs| + 1) / 2
    ensures forall i :: 0 <= i < |PairUp(gs)| ==> 2 * i < |gs| && PairUp(gs)[i] == Paired(gs, i)
  {
  }

  lemma AccSize(acc: seq<seq<int>>, gs: seq<seq<int>>, ws: seq<seq<int>>, q: int)
    requires q > 0 && AccOk(acc, gs, ws, q)
    ensures |acc| == |gs| == |ws|
  {
  }

  lemma AccIntro(acc: seq<seq<int>>, gs: seq<seq<int>>, ws: seq<seq<int>>, q: int)
    requires q > 0 && |acc| == |gs| == |ws|
    requires forall i :: 0 <= i < |gs| ==> |gs[i]| == |ws[i]| > 0
    requires forall i :: 0 <= i < |acc| ==> acc[i] == Norm(Comb(gs[i], ws[i]), q)
    ensures AccOk(acc, gs, ws, q)
  {
  }

  /** The weight loop: y_i / P'(x_i), an error when a denominator vanishes. */
  method WeightLeaves(y: seq<int>, denom: seq<int>, q: int, ghost xs: seq<int>) returns (res: Result<seq<seq<int>>>)
    requires Prime(q) && |y| == |denom| == |xs|
    requires forall k :: 0 <= k < |xs| ==> Cong(denom[k], Eval(Vanish(Without(xs, k)), xs[k]), q)
    ensures res.Ok? <==> Distinct(xs, q)
    ensures res.Ok? ==> AccOk(res.value, Groups(xs, 0), Groups(Weights(xs, y, q), 0), q)
  {
    DenominatorsNonzero(xs, q);
    ghost var w := Weights(xs, y, q);
    hide Inv, Vanish, Eval, Without, Prime, Distinct;
    var acc := seq(|y|, _ => []);
    for i := 0 to |y|
      invariant |acc| == |y|
      invariant forall k :: 0 <= k < i ==> acc[k] == [w[k]]
      invariant forall k :: 0 <= k < i ==> denom[k] % q != 0
    {
      if denom[i] % q == 0 { return Err("mod_inverse: not invertible"); }
      var inv := Inv(denom[i], q);
      InvSame(denom[i], Eval(Vanish(Without(xs, i)), xs[i]), q);
      var wi := (y[i] * inv) % q;
      acc := acc[i := [wi]];
    }
    LeavesOk(acc, xs, y, q);
    res := Ok(acc);
  }

  lemma InvSame(a: int, b: int, q: int)
    requires q > 1 && Cong(a, b, q)
    ensures Inv(a, q) == Inv(b, q)
  {
  }

  lemma LeavesOk(acc: seq<seq<int>>, xs: seq<int>, y: seq<int>, q: int)
    requires q > 1 && |acc| == |xs| == |y|
    requires forall k :: 0 <= k < |y| ==> acc[k] == [Weights(xs, y, q)[k]]
    ensures AccOk(acc, Groups(xs, 0), Groups(Weights(xs, y, q), 0), q)
  {
    var w := Weights(xs, y, q);
    forall k | 0 <= k < |y| ensures acc[k] == Norm(Comb(Groups(xs, 0)[k], Groups(w, 0)[k]), q) {
      CongMod(y[k] * Inv(Eval(Vanish(Without(xs, k)), xs[k]), q), q);
      CombLeaf(xs[k], w[k], q);
    }
  }

  /** P'(x_i) modulo q for every point, by multipoint evaluation. */
  method Denominators(c: Config, top: seq<int>, alpha: seq<int>) returns (denom: seq<int>)
    requires EngineOk(c) && top == Norm(Vanish(alpha), c.q)
    ensures |denom| == |alpha|
    ensures forall k :: 0 <= k < |alpha| ==> Cong(denom[k], Eval(Vanish(Without(alpha, k)), alpha[k]), c.q)
  {
    QIsPrime(c);
    hide EngineOk, Norm, Vanish, Eval, Deriv;
    var deriv := PolyDerivativeMod(top, c.q);
    denom := PolyEvalBatchProductTree(c, deriv, alpha);
    forall k | 0 <= k < |alpha| ensures Cong(denom[k], Eval(Vanish(Without(alpha, k)), alpha[k]), c.q) {
      DenominatorValue(denom[k], alpha, k, c.q);
    }
  }

  lemma DenominatorValue(d: int, xs: seq<int>, k: nat, q: int)
    requires q > 1 && k < |xs| && d == Eval(Norm(Deriv(Norm(Vanish(xs), q)), q), xs[k]) % q
    ensures Cong(d, Eval(Vanish(Without(xs, k)), xs[k]), q)
  {
    var p, x := Norm(Vanish(xs), q), xs[k];
    NormVanishShape(xs, q);
    NormCanon(Deriv(p), q);
    hide *;
    PCongEval(Norm(Deriv(p), q), Deriv(p), x, q);
    DerivEval(p, x);
    PCongDEval(p, Vanish(xs), x, q);
    DerivativeAtRoot(xs, k);
    Chain(d, Eval(Norm(Deriv(p), q), x), Eval(Deriv(p), x), DEval(Vanish(xs), x), q);
  }

  lemma Chain(d: int, a: int, b: int, e: int, q: int)
    requires q > 0 && d == a % q && Cong(a, b, q) && Cong(b, e, q)
    ensures Cong(d, e, q)
  {
    CongMod(a, q);
  }

  /** Interpolation on the leaf points of a tree over the public points. */
  method LagrangeInterpolateFromTree(c: Config, y: seq<int>, levels: seq<seq<seq<int>>>, ghost n: nat)
    returns (res: Result<seq<int>>)
    requires EngineOk(c) && TreeOk(levels, PublicPoints(c, n), c.q)
    ensures res.Ok? <==> |y| == 0 || (|y| == n && n <= c.q)
    ensures res.Ok? ==> res.value == Interpolant(PublicPoints(c, |y|), y, c.q)
  {
    QIsPrime(c);
    if |y| == 0 { return Ok([0]); }
    if |levels| > 0 { TreeTop(levels, PublicPoints(c, n), c.q); }
    if |levels| == 0 || |levels[0]| != |y| { return Err("lagrange_interpolate_from_tree: bad tree"); }
    PublicPointsDistinct(c, n);
    hide *;
    var top := levels[|levels| - 1][0];
    var alpha := PublicEvalPoints(c, |y|);
    var denom := Denominators(c, top, alpha);
    var leaves := WeightLeaves(y, denom, c.q, alpha);
    if leaves.Err? { return Err(leaves.message); }
    var r := CombineUp(c, leaves.value, levels, alpha, Weights(alpha, y, c.q));
    InterpolantIs(alpha, y, c.q);
    res := Ok(r);
  }

  lemma InterpolantIs(xs: seq<int>, y: seq<int>, q: int)
    requires q > 1 && |xs| == |y| > 0
    ensures Interpolant(xs, y, q) == Norm(Comb(xs, Weights(xs, y, q)), q)
  {
  }

  /** From the leaves to the root. */
  method CombineUp(c: Config, leaves: seq<seq<int>>, levels: seq<seq<seq<int>>>, ghost xs: seq<int>, ghost w: seq<int>)
    returns (r: seq<int>)
    requires EngineOk(c) && TreeOk(levels, xs, c.q) && |levels| > 0 && |w| == |xs|
    requires AccOk(leaves, Groups(xs, 0), Groups(w, 0), c.q)
    ensures r == Norm(Comb(xs, w), c.q)
  {
    QIsPrime(c);
    TreeTop(levels, xs, c.q);
    TreeLevels(levels, xs, c.q);
    hide *;
    var acc := leaves;
    var level := 0;
    while level + 1 < |levels|
      invariant 0 <= level < |levels|
      invariant AccOk(acc, Groups(xs, level), Groups(w, level), c.q)
    {
      LevelOf(levels, level, xs, c.q);
      GroupsUp(xs, level);
      GroupsUp(w, level);
      acc := CombineLevel(c, acc, levels[level], Groups(xs, level), Groups(w, level));
      level := level + 1;
    }
    AccSize(acc, Groups(xs, level), Groups(w, level), c.q);
    RootGroup(w, level);
    AccAt(acc, Groups(xs, level), Groups(w, level), 0, c.q);
    r := acc[0];
  }

  lemma AccAt(acc: seq<seq<int>>, gs: seq<seq<int>>, ws: seq<seq<int>>, i: nat, q: int)
    requires q > 0 && AccOk(acc, gs, ws, q) && i < |acc|
    ensures |acc| == |gs| == |ws| && |gs[i]| == |ws[i]| > 0 && acc[i] == Norm(Comb(gs[i], ws[i]), q)
  {
  }

  /** The route through the inverse NTT gives the same polynomial. */
  lemma NttInterpolant(c: Config, y: seq<int>, p: seq<int>)
    requires EngineOk(c) && Supported(c, |y|) && Canon(p, c.q) && |p| <= |y|
    requires forall k :: 0 <= k < |y| ==> Cong(Eval(p, DomainPoints(c, |y|)[k]), y[k], c.q)
    ensures p == Interpolant(PublicPoints(c, |y|), y, c.q)
  {
    var xs, q := PublicPoints(c, |y|), c.q;
    SmallerThanField(c, |y|);
    PublicPointsDistinct(c, |y|);
    InterpolantUnique(p, xs, y, q);
    CanonIsNorm(p, q);
  }

  lemma CanonIsNorm(p: seq<int>, q: int)
    requires q > 0 && Canon(p, q)
    ensures Norm(p, q) == p
  {
    forall i | 0 <= i < |p| ensures Red(p, q)[i] == p[i] { ModSmall(p[i], q); }
    assert Red(p, q) == p;
  }

  /** Interpolation through the public points: whichever route is taken, Lagrange's polynomial. */
  method LagrangeInterpolatePublicPoints(c: Config, y: seq<int>) returns (res: Result<seq<int>>)
    requires EngineOk(c)
    ensures res.Ok? <==> |y| <= c.q
    ensures res.Ok? ==> res.value == Interpolant(PublicPoints(c, |y|), y, c.q)
  {
    QIsPrime(c);
    if Supported(c, |y|) {
      res := InterpolateByNtt(c, y);
      SmallerThanField(c, |y|);
      return;
    }
    var alpha := PublicEvalPoints(c, |y|);
    var tree := PolyBuildProductTree(c, alpha);
    res := LagrangeInterpolateFromTree(c, y, tree, |y|);
  }

  /** `lagrange_interpolate_ntt` when the engine's roots are good. */
  method InterpolateByNtt(c: Config, y: seq<int>) returns (res: Result<seq<int>>)
    requires EngineOk(c) && Supported(c, |y|)
    ensures res == Ok(Interpolant(PublicPoints(c, |y|), y, c.q))
  {
    ChecksDown(c, Log2(|y|), c.maxLog);
    res := LagrangeInterpolateNtt(c, y);
    NttInterpolant(c, y, res.value);
  }

  /** Interpolating the values of p at the public points gives p back, reduced and trimmed. */
  lemma EvaluateThenInterpolate(c: Config, p: seq<int>, y: seq<int>, n: nat)
    requires EngineOk(c) && n <= c.q && 0 < |p| <= n && Evaluated(y, p, PublicPoints(c, n), c.q)
    ensures Interpolant(PublicPoints(c, n), y, c.q) == Norm(p, c.q)
  {
    var xs, q := PublicPoints(c, n), c.q;
    PublicPointsDistinct(c, n);
    forall k | 0 <= k < n ensures Cong(Eval(p, xs[k]), y[k], q) { CongMod(Eval(p, xs[k]), q); }
    InterpolantUnique(p, xs, y, q);
  }

  /** Evaluating the interpolant at the public points gives the residues of y back. */
  lemma InterpolateThenEvaluate(c: Config, y: seq<int>, values: seq<int>)
    requires EngineOk(c) && 0 < |y| <= c.q
    requires Evaluated(values, Interpolant(PublicPoints(c, |y|), y, c.q), PublicPoints(c, |y|), c.q)
    ensures values == Red(y, c.q)
  {
    var xs, q := PublicPoints(c, |y|), c.q;
    PublicPointsDistinct(c, |y|);
    InterpolantFits(xs, y, q);
    forall k | 0 <= k < |y| ensures values[k] == Red(y, q)[k] {
      assert Cong(Eval(Interpolant(xs, y, q), xs[k]), y[k], q);
    }
  }
}
