/** The multiplication dispatcher `poly_mul_mod`: NTT, schoolbook or Karatsuba, one answer. */
module PolyMul {
  import opened ModArith
  import opened Poly
  import opened PolyOps
  import opened Results
  import opened Engine
  import opened NttPoly

  const KARATSUBA_CUTOFF: nat := 32

  function Min(a: nat, b: nat): nat { if a < b then a else b }

  function Max(a: nat, b: nat): nat { if a < b then b else a }

  /** A half-open slice that is clipped to the vector and never empty. */
  function PolySlice(p: seq<int>, begin: nat, end: nat): seq<int> {
    var b, e := Min(begin, |p|), Min(end, |p|);
    if e <= b then [0] else p[b..e]
  }

  lemma PCongSub(p: seq<int>, p': seq<int>, r: seq<int>, r': seq<int>, q: int)
    requires q > 0 && PCong(p, p', q) && PCong(r, r', q)
    ensures PCong(Sub(p, r), Sub(p', r'), q)
  {
    hide Sub, Coef, Cong;
    SubShape(p, r);
    SubShape(p', r');
    forall i ensures Cong(Coef(Sub(p, r), i), Coef(Sub(p', r'), i), q) {
      CongSub(Coef(p, i), Coef(p', i), Coef(r, i), Coef(r', i), q);
    }
  }

  /** p times X^h. */
  function Shift(h: nat, p: seq<int>): seq<int> {
    Zeros(h) + p
  }

  lemma ShiftCoef(h: nat, p: seq<int>, i: int)
    ensures Coef(Shift(h, p), i) == Coef(p, i - h)
  {
  }

  lemma PCongShift(h: nat, p: seq<int>, r: seq<int>, q: int)
    requires q > 0 && PCong(p, r, q)
    ensures PCong(Shift(h, p), Shift(h, r), q)
  {
    forall i ensures Cong(Coef(Shift(h, p), i), Coef(Shift(h, r), i), q) {
      ShiftCoef(h, p, i);
      ShiftCoef(h, r, i);
      assert Cong(Coef(p, i - h), Coef(r, i - h), q);
    }
  }

  lemma EvalShift(h: nat, p: seq<int>, x: int)
    ensures Eval(Shift(h, p), x) == Pow(x, h) * Eval(p, x)
  {
    EvalConcat(Zeros(h), p, x);
    EvalZeros(h, x);
  }

  /** z0 + z1 X^h + z2 X^2h. */
  function Assemble(z0: seq<int>, z1: seq<int>, z2: seq<int>, h: nat): seq<int> {
    Add(z0, Add(Shift(h, z1), Shift(2 * h, z2)))
  }

  lemma AssembleCoef(z0: seq<int>, z1: seq<int>, z2: seq<int>, h: nat, i: int)
    ensures Coef(Assemble(z0, z1, z2, h), i) == Coef(z0, i) + Coef(z1, i - h) + Coef(z2, i - 2 * h)
  {
    AddShape(Shift(h, z1), Shift(2 * h, z2));
    AddShape(z0, Add(Shift(h, z1), Shift(2 * h, z2)));
    ShiftCoef(h, z1, i);
    ShiftCoef(2 * h, z2, i);
  }

  /** Karatsuba's middle term. */
  function Middle(a0: seq<int>, a1: seq<int>, b0: seq<int>, b1: seq<int>): seq<int> {
    Sub(Sub(Mul(Add(a0, a1), Add(b0, b1)), Mul(a0, b0)), Mul(a1, b1))
  }

  lemma EvalMiddle(a0: seq<int>, a1: seq<int>, b0: seq<int>, b1: seq<int>, x: int)
    ensures Eval(Middle(a0, a1, b0, b1), x) == Eval(a0, x) * Eval(b1, x) + Eval(a1, x) * Eval(b0, x)
  {
    var m := Mul(Add(a0, a1), Add(b0, b1));
    EvalSub(m, Mul(a0, b0), x);
    EvalSub(Sub(m, Mul(a0, b0)), Mul(a1, b1), x);
    EvalMul(Add(a0, a1), Add(b0, b1), x);
    EvalMul(a0, b0, x);
    EvalMul(a1, b1, x);
    EvalAdd(a0, a1, x);
    EvalAdd(b0, b1, x);
    MiddleStep(Eval(a0, x), Eval(a1, x), Eval(b0, x), Eval(b1, x));
  }

  lemma MiddleStep(a0: int, a1: int, b0: int, b1: int)
    ensures (a0 + a1) * (b0 + b1) - a0 * b0 - a1 * b1 == a0 * b1 + a1 * b0
  {
  }

  lemma EvalSlices(a: seq<int>, h: nat, x: int)
    requires 0 < h <= |a| || |a| <= h
    ensures Eval(a, x) == Eval(PolySlice(a, 0, h), x) + Pow(x, h) * Eval(PolySlice(a, h, |a|), x)
  {
    if h < |a| {
      assert a == a[..h] + a[h..];
      EvalConcat(a[..h], a[h..], x);
    } else {
      assert Eval([0], x) == 0;
      assert a[0..|a|] == a;
      assert PolySlice(a, h, |a|) == [0];
      if a == [] { assert Eval([], x) == 0; }
    }
  }

  /** Karatsuba's identity, exactly, for any split of the operands at h. */
  lemma KaratsubaIdentity(a: seq<int>, b: seq<int>, a0: seq<int>, a1: seq<int>, b0: seq<int>, b1: seq<int>,
                          h: nat, x: int)
    requires Eval(a, x) == Eval(a0, x) + Pow(x, h) * Eval(a1, x)
    requires Eval(b, x) == Eval(b0, x) + Pow(x, h) * Eval(b1, x)
    ensures Eval(Assemble(Mul(a0, b0), Middle(a0, a1, b0, b1), Mul(a1, b1), h), x) == Eval(Mul(a, b), x)
  {
    hide *;
    var m := Middle(a0, a1, b0, b1);
    EvalAssemble(Mul(a0, b0), m, Mul(a1, b1), h, x);
    EvalMul(a, b, x);
    EvalMul(a0, b0, x);
    EvalMul(a1, b1, x);
    EvalMiddle(a0, a1, b0, b1, x);
    PowAdd(x, h, h);
    KaratsubaSum(Eval(a0, x), Eval(a1, x), Eval(b0, x), Eval(b1, x), Pow(x, h), Pow(x, 2 * h),
                 Eval(a, x), Eval(b, x), Eval(m, x), Eval(Mul(a0, b0), x), Eval(Mul(a1, b1), x));
  }

  lemma EvalAssemble(z0: seq<int>, z1: seq<int>, z2: seq<int>, h: nat, x: int)
    ensures Eval(Assemble(z0, z1, z2, h), x)
         == Eval(z0, x) + (Pow(x, h) * Eval(z1, x) + Pow(x, 2 * h) * Eval(z2, x))
  {
    EvalAdd(z0, Add(Shift(h, z1), Shift(2 * h, z2)), x);
    EvalAdd(Shift(h, z1), Shift(2 * h, z2), x);
    EvalShift(h, z1, x);
    EvalShift(2 * h, z2, x);
  }

  lemma KaratsubaSum(a0: int, a1: int, b0: int, b1: int, xh: int, x2h: int, a: int, b: int, m: int, l: int, u: int)
    requires x2h == xh * xh && a == a0 + xh * a1 && b == b0 + xh * b1
    requires m == a0 * b1 + a1 * b0 && l == a0 * b0 && u == a1 * b1
    ensures a * b == l + (xh * m + x2h * u)
  {
    MulEq(u, x2h, xh * xh);
    MulEq(xh, m, a0 * b1 + a1 * b0);
    assert (xh * a1) * (xh * b1) == (xh * xh) * (a1 * b1);
    assert a0 * (xh * b1) == xh * (a0 * b1) && (xh * a1) * b0 == xh * (a1 * b0);
    assert a * b == (a0 + xh * a1) * (b0 + xh * b1);
  }

  /** What the recursive calls return, assembled, is the product modulo q. */
  lemma KaratsubaCorrect(a: seq<int>, b: seq<int>, h: nat, z0: seq<int>, z1: seq<int>, z2: seq<int>, q: int)
    requires q > 0 && h > 0
    requires var a0, a1 := PolySlice(a, 0, h), PolySlice(a, h, |a|);
      var b0, b1 := PolySlice(b, 0, h), PolySlice(b, h, |b|);
      PCong(z0, Mul(a0, b0), q) && PCong(z1, Middle(a0, a1, b0, b1), q) && PCong(z2, Mul(a1, b1), q)
    ensures PCong(Assemble(z0, z1, z2, h), Mul(a, b), q)
  {
    var a0, a1 := PolySlice(a, 0, h), PolySlice(a, h, |a|);
    var b0, b1 := PolySlice(b, 0, h), PolySlice(b, h, |b|);
    var m := Middle(a0, a1, b0, b1);
    var t := Assemble(Mul(a0, b0), m, Mul(a1, b1), h);
    PCongShift(h, z1, m, q);
    PCongShift(2 * h, z2, Mul(a1, b1), q);
    PCongAdd(Shift(h, z1), Shift(h, m), Shift(2 * h, z2), Shift(2 * h, Mul(a1, b1)), q);
    PCongAdd(z0, Mul(a0, b0), Add(Shift(h, z1), Shift(2 * h, z2)), Add(Shift(h, m), Shift(2 * h, Mul(a1, b1))), q);
    forall x ensures Eval(t, x) == Eval(Mul(a, b), x) {
      EvalSlices(a, h, x);
      EvalSlices(b, h, x);
      KaratsubaIdentity(a, b, a0, a1, b0, b1, h, x);
    }
    PCongSame(t, Mul(a, b), q);
    PCongTrans(Assemble(z0, z1, z2, h), t, Mul(a, b), q);
  }

  /** The middle term the code computes: products of sums, minus the outer products, reducing at each step. */
  lemma MiddleCorrect(a0: seq<int>, a1: seq<int>, b0: seq<int>, b1: seq<int>, q: int)
    requires q > 0 && |a0| > 0 && |a1| > 0 && |b0| > 0 && |b1| > 0
    ensures var z := Product(Norm(Add(a0, a1), q), Norm(Add(b0, b1), q), q);
      var z1 := Norm(Sub(Norm(Sub(z, Product(a0, b0, q)), q), Product(a1, b1, q)), q);
      PCong(z1, Middle(a0, a1, b0, b1), q) && Canon(z1, q)
  {
    var s, t := Norm(Add(a0, a1), q), Norm(Add(b0, b1), q);
    var z, z0, z2 := Product(s, t, q), Product(a0, b0, q), Product(a1, b1, q);
    NormSum(a0, a1, q);
    NormSum(b0, b1, q);
    ProductCong(s, t, q);
    ProductCong(a0, b0, q);
    ProductCong(a1, b1, q);
    hide *;
    PCongMul(s, Add(a0, a1), t, Add(b0, b1), q);
    PCongTrans(z, Mul(s, t), Mul(Add(a0, a1), Add(b0, b1)), q);
    NormDifference(z, Mul(Add(a0, a1), Add(b0, b1)), z0, Mul(a0, b0), q);
    NormDifference(Norm(Sub(z, z0), q), Sub(Mul(Add(a0, a1), Add(b0, b1)), Mul(a0, b0)), z2, Mul(a1, b1), q);
    MiddleIs(a0, a1, b0, b1);
  }

  lemma MiddleIs(a0: seq<int>, a1: seq<int>, b0: seq<int>, b1: seq<int>)
    ensures Middle(a0, a1, b0, b1) == Sub(Sub(Mul(Add(a0, a1), Add(b0, b1)), Mul(a0, b0)), Mul(a1, b1))
  {
  }

  lemma NormSum(p: seq<int>, r: seq<int>, q: int)
    requires q > 0 && |p| > 0 && |r| > 0
    ensures PCong(Norm(Add(p, r), q), Add(p, r), q) && 1 <= |Norm(Add(p, r), q)| <= Max(|p|, |r|)
  {
    AddShape(p, r);
    NormCanon(Add(p, r), q);
  }

  lemma NormDifference(p: seq<int>, p': seq<int>, r: seq<int>, r': seq<int>, q: int)
    requires q > 0 && |p| > 0 && PCong(p, p', q) && PCong(r, r', q)
    ensures PCong(Norm(Sub(p, r), q), Sub(p', r'), q) && Canon(Norm(Sub(p, r), q), q)
    ensures |Norm(Sub(p, r), q)| >= 1
  {
    SubShape(p, r);
    NormCanon(Sub(p, r), q);
    PCongSub(p, p', r, r', q);
    PCongTrans(Norm(Sub(p, r), q), Sub(p, r), Sub(p', r'), q);
  }

  lemma ProductCong(a: seq<int>, b: seq<int>, q: int)
    requires q > 0 && |a| > 0 && |b| > 0
    ensures PCong(Product(a, b, q), Mul(a, b), q) && Canon(Product(a, b, q), q)
    ensures 1 <= |Product(a, b, q)| <= |a| + |b| - 1
  {
    MulLength(a, b);
    NormCanon(Mul(a, b), q);
  }

  /** The first accumulation loop, which has no bound check of its own. */
  method AddLow(out0: seq<int>, z: seq<int>, q: int) returns (out: seq<int>)
    requires q > 0 && |z| <= |out0|
    ensures |out| == |out0|
    ensures forall k :: 0 <= k < |out| ==> Cong(out[k], out0[k] + Coef(z, k), q)
    ensures Reduced(out0, q) ==> Reduced(out, q)
  {
    out := out0;
    for i := 0 to |z|
      invariant |out| == |out0|
      invariant forall k :: 0 <= k < i ==> Cong(out[k], out0[k] + Coef(z, k), q)
      invariant forall k :: i <= k < |out| ==> out[k] == out0[k]
      invariant Reduced(out0, q) ==> Reduced(out, q)
    {
      CongMod(out[i] + z[i], q);
      out := out[i := out[i] + z[i]];
      out := out[i := out[i] % q];
    }
  }

  /** The other two loops stop at the end of out. */
  method AddShifted(out0: seq<int>, z: seq<int>, off: nat, q: int) returns (out: seq<int>)
    requires q > 0
    ensures |out| == |out0|
    ensures forall k :: 0 <= k < |out| ==> Cong(out[k], out0[k] + Coef(z, k - off), q)
    ensures Reduced(out0, q) ==> Reduced(out, q)
  {
    out := out0;
    for i := 0 to |z|
      invariant |out| == |out0|
      invariant forall k :: 0 <= k < |out| && k < off + i ==> Cong(out[k], out0[k] + Coef(z, k - off), q)
      invariant forall k :: off + i <= k < |out| ==> out[k] == out0[k]
      invariant Reduced(out0, q) ==> Reduced(out, q)
    {
      if i + off >= |out| { break; }
      CongMod(out[i + off] + z[i], q);
      out := out[i + off := out[i + off] + z[i]];
      out := out[i + off := out[i + off] % q];
    }
  }

  lemma SumOfThree(o1: int, o2: int, o3: int, z0: int, z1: int, z2: int, q: int)
    requires q > 0 && Cong(o1, 0 + z0, q) && Cong(o2, o1 + z1, q) && Cong(o3, o2 + z2, q)
    ensures Cong(o3, z0 + z1 + z2, q)
  {
    CongAdd(o1, z0, z1, z1, q);
    CongAdd(o2, z0 + z1, z2, z2, q);
  }

  /** The three loops together: the lowest |out| coefficients of the assembled polynomial, trimmed. */
  method Accumulate(z0: seq<int>, z1: seq<int>, z2: seq<int>, h: nat, n: nat, q: int) returns (out: seq<int>)
    requires q > 0 && |z0| <= n
    ensures |out| == n && Reduced(out, q)
    ensures forall k :: 0 <= k < n ==> Cong(out[k], Coef(Assemble(z0, z1, z2, h), k), q)
  {
    var zero := Zeros(n);
    var low := AddLow(zero, z0, q);
    var mid := AddShifted(low, z1, h, q);
    out := AddShifted(mid, z2, 2 * h, q);
    forall k | 0 <= k < n ensures Cong(out[k], Coef(Assemble(z0, z1, z2, h), k), q) {
      AssembleCoef(z0, z1, z2, h, k);
      SumOfThree(low[k], mid[k], out[k], Coef(z0, k), Coef(z1, k - h), Coef(z2, k - 2 * h), q);
    }
  }

  lemma TruncationExact(out: seq<int>, s: seq<int>, p: seq<int>, q: int)
    requires q > 0 && |out| == |p| >= 1 && Reduced(out, q) && PCong(s, p, q)
    requires forall k :: 0 <= k < |out| ==> Cong(out[k], Coef(s, k), q)
    ensures Trim(out) == Norm(p, q)
  {
    assert out == Red(p, q) by {
      forall k | 0 <= k < |out| ensures out[k] == Red(p, q)[k] {
        assert Cong(Coef(s, k), Coef(p, k), q);
        ModSmall(out[k], q);
      }
    }
  }

  lemma SliceSizes(a: seq<int>, h: nat)
    requires 0 < h && 0 < |a| <= 2 * h
    ensures 1 <= |PolySlice(a, 0, h)| <= Min(h, |a|) && 1 <= |PolySlice(a, h, |a|)| <= h
  {
  }

  /** Every route returns the canonical product: the recursion is well founded on the longer operand,
      and no write leaves the vector, however lopsided the operands are. */
  method PolyMulMod(c: Config, a: seq<int>, b: seq<int>) returns (r: seq<int>)
    requires EngineOk(c)
    ensures r == Product(a, b, c.q)
    decreases Max(|a|, |b|)
  {
    var q := c.q;
    if |a| == 0 || |b| == 0 { return [0]; }
    var nttN := NextPowerOfTwo(|a| + |b| - 1);
    if Max(|a|, |b|) >= c.nttThreshold && Supported(c, nttN) {
      var viaNtt := PolyMulNttMod(c, a, b);
      return viaNtt.value;
    }
    if |a| < KARATSUBA_CUTOFF || |b| < KARATSUBA_CUTOFF {
      r := PolyMulNaiveMod(a, b, q);
      return;
    }
    var half := (Max(|a|, |b|) + 1) / 2;
    var a0, a1 := PolySlice(a, 0, half), PolySlice(a, half, |a|);
    var b0, b1 := PolySlice(b, 0, half), PolySlice(b, half, |b|);
    SliceSizes(a, half);
    SliceSizes(b, half);
    hide PolySlice;
    NormSum(a0, a1, q);
    NormSum(b0, b1, q);
    ProductCong(a0, b0, q);
    ProductCong(a1, b1, q);
    MiddleCorrect(a0, a1, b0, b1, q);
    hide Product, Norm, Middle, Mul, EngineOk, PCong, Reduced, Assemble;
    var z0 := PolyMulMod(c, a0, b0);
    var z2 := PolyMulMod(c, a1, b1);
    var a01 := PolyAddMod(a0, a1, q);
    var b01 := PolyAddMod(b0, b1, q);
    var z1 := PolyMulMod(c, a01, b01);
    z1 := PolySubMod(z1, z0, q);
    z1 := PolySubMod(z1, z2, q);
    KaratsubaCorrect(a, b, half, z0, z1, z2, q);
    var out := Accumulate(z0, z1, z2, half, |a| + |b| - 1, q);
    MulLength(a, b);
    TruncationExact(out, Assemble(z0, z1, z2, half), Mul(a, b), q);
    r := PolyTrim(out);
    ProductIs(a, b, q);
  }

  lemma ProductIs(a: seq<int>, b: seq<int>, q: int)
    requires q > 0 && |a| > 0 && |b| > 0
    ensures Product(a, b, q) == Norm(Mul(a, b), q)
  {
  }

  // ---- the early breaks ----

  lemma ZeroProduct(a: seq<int>, b: seq<int>, x: int)
    requires a == [0] || b == [0]
    ensures Eval(Mul(a, b), x) == Eval([], x)
  {
    hide Mul;
    EvalMul(a, b, x);
    assert Eval([0], x) == 0 && Eval([], x) == 0;
  }

  /** A product with the zero polynomial has only zero coefficients; otherwise its length bounds it. */
  lemma SliceProductHigh(a: seq<int>, b: seq<int>, k: int)
    requires |a| > 0 && |b| > 0 && (k >= |a| + |b| - 1 || a == [0] || b == [0])
    ensures Coef(Mul(a, b), k) == 0
  {
    MulLength(a, b);
    if k < |a| + |b| - 1 {
      forall x ensures Eval(Mul(a, b), x) == Eval([], x) { ZeroProduct(a, b, x); }
      CoefsEqual(Mul(a, b), []);
    }
  }

  /** The coefficients the two `break`s skip are all zero. */
  lemma BreaksDropZeros(a: seq<int>, b: seq<int>, h: nat, z1: seq<int>, z2: seq<int>, q: int)
    requires q > 0 && h > 0 && |a| > 0 && |b| > 0 && h < |a| + |b|
    requires var a0, a1 := PolySlice(a, 0, h), PolySlice(a, h, |a|);
      var b0, b1 := PolySlice(b, 0, h), PolySlice(b, h, |b|);
      PCong(z1, Middle(a0, a1, b0, b1), q) && PCong(z2, Mul(a1, b1), q)
    requires Reduced(z1, q) && Reduced(z2, q)
    ensures forall i :: 0 <= i < |z1| && i + h >= |a| + |b| - 1 ==> z1[i] == 0
    ensures forall i :: 0 <= i < |z2| && i + 2 * h >= |a| + |b| - 1 ==> z2[i] == 0
  {
    var a0, a1 := PolySlice(a, 0, h), PolySlice(a, h, |a|);
    var b0, b1 := PolySlice(b, 0, h), PolySlice(b, h, |b|);
    ModSmall(0, q);
    forall i | 0 <= i < |z1| && i + h >= |a| + |b| - 1 ensures z1[i] == 0 {
      MiddleHigh(a0, a1, b0, b1, i);
      assert Cong(Coef(z1, i), Coef(Middle(a0, a1, b0, b1), i), q);
      ModSmall(z1[i], q);
    }
    forall i | 0 <= i < |z2| && i + 2 * h >= |a| + |b| - 1 ensures z2[i] == 0 {
      SliceProductHigh(a1, b1, i);
      assert Cong(Coef(z2, i), Coef(Mul(a1, b1), i), q);
      ModSmall(z2[i], q);
    }
  }

  lemma MiddleHigh(a0: seq<int>, a1: seq<int>, b0: seq<int>, b1: seq<int>, i: int)
    requires |a0| > 0 && |a1| > 0 && |b0| > 0 && |b1| > 0
    requires i >= |a0| + |b1| - 1 || b1 == [0]
    requires i >= |a1| + |b0| - 1 || a1 == [0]
    ensures Coef(Middle(a0, a1, b0, b1), i) == 0
  {
    var t := Add(Mul(a0, b1), Mul(a1, b0));
    forall x ensures Eval(Middle(a0, a1, b0, b1), x) == Eval(t, x) {
      EvalMiddle(a0, a1, b0, b1, x);
      EvalAdd(Mul(a0, b1), Mul(a1, b0), x);
      EvalMul(a0, b1, x);
      EvalMul(a1, b0, x);
    }
    CoefsEqual(Middle(a0, a1, b0, b1), t);
    AddShape(Mul(a0, b1), Mul(a1, b0));
    SliceProductHigh(a0, b1, i);
    SliceProductHigh(a1, b0, i);
  }
}
