/** The coefficient-vector routines of cg_rf_common.hpp: trimming, addition, subtraction,
    schoolbook multiplication, Horner evaluation, division by a monic polynomial, derivative.
    Every routine is proved to return the canonical representative of its exact result. */
module PolyOps {
  import opened ModArith
  import opened Poly
  import opened Results

  /** Schoolbook, Karatsuba and NTT multiplication all return this vector. */
  function Product(a: seq<int>, b: seq<int>, q: int): seq<int>
    requires q > 0
  {
    if |a| == 0 || |b| == 0 then [0] else Norm(Mul(a, b), q)
  }

  method PolyTrim(p: seq<int>) returns (r: seq<int>)
    ensures r == Trim(p)
  {
    r := p;
    while |r| > 1 && r[|r| - 1] == 0
      invariant Trim(r) == Trim(p)
    {
      r := r[..|r| - 1];
    }
  }

  /** Reduces every coefficient, then trims. */
  method PolyModQ(p: seq<int>, q: int) returns (r: seq<int>)
    requires q > 0
    ensures r == Norm(p, q)
  {
    r := p;
    for i := 0 to |p|
      invariant |r| == |p|
      invariant forall k :: 0 <= k < i ==> r[k] == p[k] % q
      invariant forall k :: i <= k < |p| ==> r[k] == p[k]
    {
      r := r[i := r[i] % q];
    }
    assert r == Red(p, q);
    r := PolyTrim(r);
  }

  method PolyAddMod(a: seq<int>, b: seq<int>, q: int) returns (r: seq<int>)
    requires q > 0
    ensures r == Norm(Add(a, b), q)
  {
    var n := if |a| > |b| then |a| else |b|;
    r := Zeros(n);
    AddShape(a, b);
    for i := 0 to n
      invariant |r| == n
      invariant forall k :: 0 <= k < i ==> r[k] == Coef(Add(a, b), k) % q
      invariant forall k :: i <= k < n ==> r[k] == 0
    {
      if i < |a| { r := r[i := r[i] + a[i]]; }
      if i < |b| { r := r[i := r[i] + b[i]]; }
      assert r[i] == Coef(Add(a, b), i);
      r := r[i := r[i] % q];
    }
    assert r == Red(Add(a, b), q);
    r := PolyTrim(r);
  }

  method PolySubMod(a: seq<int>, b: seq<int>, q: int) returns (r: seq<int>)
    requires q > 0
    ensures r == Norm(Sub(a, b), q)
  {
    var n := if |a| > |b| then |a| else |b|;
    r := Zeros(n);
    SubShape(a, b);
    for i := 0 to n
      invariant |r| == n
      invariant forall k :: 0 <= k < i ==> r[k] == Coef(Sub(a, b), k) % q
      invariant forall k :: i <= k < n ==> r[k] == 0
    {
      if i < |a| { r := r[i := r[i] + a[i]]; }
      if i < |b| { r := r[i := r[i] - b[i]]; }
      assert r[i] == Coef(Sub(a, b), i);
      r := r[i := r[i] % q];
    }
    assert r == Red(Sub(a, b), q);
    r := PolyTrim(r);
  }

  // ---- schoolbook multiplication ----

  /** Partial sums of the double loop: i full rows and j terms of row i are in. */
  ghost predicate RowsDone(out: seq<int>, a: seq<int>, b: seq<int>, i: nat, j: nat)
    requires i <= |a| && j <= |b| && (i < |a| || j == 0)
  {
    forall x :: Eval(out, x) == Eval(a[..i], x) * Eval(b, x)
                                + (if j == 0 then 0 else Pow(x, i) * (a[i] * Eval(b[..j], x)))
  }

  lemma EvalPrefix(a: seq<int>, i: nat, x: int)
    requires i < |a|
    ensures Eval(a[..i + 1], x) == Eval(a[..i], x) + Pow(x, i) * a[i]
  {
    assert a[..i + 1] == a[..i] + [a[i]];
    EvalSnoc(a[..i], a[i], x);
  }

  lemma TermAdded(out: seq<int>, a: seq<int>, b: seq<int>, i: nat, j: nat)
    requires i < |a| && j < |b| && i + j < |out| && RowsDone(out, a, b, i, j)
    ensures RowsDone(out[i + j := out[i + j] + a[i] * b[j]], a, b, i, j + 1)
  {
    var out' := out[i + j := out[i + j] + a[i] * b[j]];
    forall x ensures Eval(out', x) == Eval(a[..i], x) * Eval(b, x) + Pow(x, i) * (a[i] * Eval(b[..j + 1], x)) {
      EvalUpdate(out, i + j, out[i + j] + a[i] * b[j], x);
      EvalPrefix(b, j, x);
      PowAdd(x, i, j);
      assert Eval(b[..0], x) == 0;
      TermStep(Pow(x, i), Pow(x, j), Pow(x, i + j), a[i], b[j], Eval(b[..j], x), Eval(b[..j + 1], x));
    }
  }

  lemma TermStep(xi: int, xj: int, xij: int, a: int, b: int, e: int, e': int)
    requires xij == xi * xj && e' == e + xj * b
    ensures xi * (a * e') == xi * (a * e) + xij * (a * b)
  {
    MulEq(a, e', e + xj * b);
    MulEq(xi, a * e', a * e + a * (xj * b));
    MulEq(a * b, xij, xi * xj);
    assert xi * (a * (xj * b)) == (xi * xj) * (a * b);
  }

  lemma RowAdded(out: seq<int>, a: seq<int>, b: seq<int>, i: nat)
    requires i < |a| && |b| > 0 && RowsDone(out, a, b, i, |b|)
    ensures RowsDone(out, a, b, i + 1, 0)
  {
    forall x ensures Eval(out, x) == Eval(a[..i + 1], x) * Eval(b, x) {
      EvalPrefix(a, i, x);
      assert b[..|b|] == b;
      RowStep(Eval(a[..i], x), Pow(x, i), a[i], Eval(b, x), Eval(a[..i + 1], x));
    }
  }

  lemma RowStep(e: int, xi: int, a: int, b: int, e': int)
    requires e' == e + xi * a
    ensures e' * b == e * b + xi * (a * b)
  {
    MulEq(b, e', e + xi * a);
  }

  method PolyMulNaiveMod(a: seq<int>, b: seq<int>, q: int) returns (r: seq<int>)
    requires q > 0
    ensures r == Product(a, b, q)
  {
    if |a| == 0 || |b| == 0 { return [0]; }
    var n := |a| + |b| - 1;
    r := Zeros(n);
    forall x ensures Eval(r, x) == 0 { EvalZeros(n, x); }
    for i := 0 to |a|
      invariant |r| == n
      invariant RowsDone(r, a, b, i, 0)
    {
      for j := 0 to |b|
        invariant |r| == n
        invariant RowsDone(r, a, b, i, j)
      {
        TermAdded(r, a, b, i, j);
        r := r[i + j := r[i + j] + a[i] * b[j]];
      }
      RowAdded(r, a, b, i);
    }
    assert a[..|a|] == a;
    forall x ensures Eval(r, x) == Eval(Mul(a, b), x) { EvalMul(a, b, x); }
    MulLength(a, b);
    CoefsEqual(r, Mul(a, b));
    SameCoefs(r, Mul(a, b));
    r := PolyModQ(r, q);
  }

  lemma SameCoefs(p: seq<int>, r: seq<int>)
    requires |p| == |r| && forall i :: Coef(p, i) == Coef(r, i)
    ensures p == r
  {
    forall i | 0 <= i < |p| ensures p[i] == r[i] {
      assert Coef(p, i) == Coef(r, i);
    }
  }

  // ---- evaluation ----

  /** Horner's rule from the highest coefficient downward. */
  method PolyEval(coeffs: seq<int>, x: int, q: int) returns (res: int)
    requires q > 0
    ensures res == Eval(coeffs, x) % q
  {
    if |coeffs| == 0 {
      ModSmall(0, q);
      return 0;
    }
    res := coeffs[|coeffs| - 1] % q;
    var i := |coeffs| - 2;
    assert Eval(coeffs[|coeffs| - 1..], x) == coeffs[|coeffs| - 1] + x * 0;
    while i >= 0
      invariant -1 <= i <= |coeffs| - 2
      invariant res == Eval(coeffs[i + 1..], x) % q
    {
      assert coeffs[i..][1..] == coeffs[i + 1..];
      HornerMod(res, x, coeffs[i], Eval(coeffs[i + 1..], x), q);
      res := (res * x + coeffs[i]) % q;
      i := i - 1;
    }
    assert coeffs[0..] == coeffs;
  }

  lemma HornerMod(res: int, x: int, c: int, e: int, q: int)
    requires q > 0 && res == e % q
    ensures (res * x + c) % q == (c + x * e) % q
  {
    CongMod(e, q);
    CongScale(res, e, x, q);
    CongAdd(res * x, x * e, c, c, q);
  }

  /** X - root over Z_q. */
  function LinearFromRoot(root: int, q: int): (p: seq<int>)
    requires q > 1
  {
    var x := root % q;
    [if x != 0 then q - x else 0, 1]
  }

  lemma LinearFromRootCorrect(root: int, q: int)
    requires q > 1
    ensures Canon(LinearFromRoot(root, q), q) && PCong(LinearFromRoot(root, q), [-root, 1], q)
  {
    var x := root % q;
    var c := if x != 0 then q - x else 0;
    CongMod(root, q);
    ModSmall(0, q);
    CongMultiple(-x, 1, q);
    CongSub(0, 0, x, root, q);
    assert Cong(c, -root, q);
    var p, r := LinearFromRoot(root, q), [-root, 1];
    forall i ensures Cong(Coef(p, i), Coef(r, i), q) {
      assert i != 0 ==> Coef(p, i) == Coef(r, i);
    }
  }

  // ---- formal derivative ----

  /** The coefficients (k + 1) * p[k + 1]. */
  function Deriv(p: seq<int>): seq<int> {
    if |p| <= 1 then [0] else seq(|p| - 1, k requires 0 <= k < |p| - 1 => p[k + 1] * (k + 1))
  }

  method PolyDerivativeMod(p: seq<int>, q: int) returns (d: seq<int>)
    requires q > 0
    ensures d == Norm(Deriv(p), q)
  {
    if |p| <= 1 {
      ModSmall(0, q);
      assert Red([0], q) == [0];
      return [0];
    }
    d := Zeros(|p| - 1);
    for i := 1 to |p|
      invariant |d| == |p| - 1
      invariant forall k :: 0 <= k < i - 1 ==> d[k] == Deriv(p)[k] % q
    {
      d := d[i - 1 := p[i] * i];
      d := d[i - 1 := d[i - 1] % q];
    }
    assert d == Red(Deriv(p), q);
    d := PolyTrim(d);
  }

  /** Its value is the derivative's. */
  lemma DerivEval(p: seq<int>, x: int)
    ensures Eval(Deriv(p), x) == DEval(p, x)
  {
    if |p| <= 1 {
      assert Eval([0], x) == 0;
      assert DEval(p, x) == 0;
    } else {
      DerivativeCoefs(p, Deriv(p), 0, x);
    }
  }

  /** Coefficients (n+k+1)*p[k+1], where n counts coefficients already dropped. */
  lemma {:induction false} DerivativeCoefs(p: seq<int>, d: seq<int>, n: nat, x: int)
    requires |p| >= 1 && |d| == |p| - 1
    requires forall k :: 0 <= k < |d| ==> d[k] == p[k + 1] * (n + k + 1)
    ensures Eval(d, x) == DEval(p, x) + n * Eval(p[1..], x)
  {
    if |p| > 1 {
      var p' := p[1..];
      forall k | 0 <= k < |d[1..]| ensures d[1..][k] == p'[k + 1] * (n + 1 + k + 1) {
        assert d[k + 1] == p[k + 2] * (n + (k + 1) + 1);
      }
      DerivativeCoefs(p', d[1..], n + 1, x);
      DerivativeStep(p'[0], x, n, Eval(p'[1..], x), DEval(p', x), Eval(d[1..], x));
    } else {
      assert p[1..] == [] && d == [];
    }
  }

  lemma DerivativeStep(c: int, x: int, n: int, a: int, a': int, e: int)
    requires e == a' + (n + 1) * a
    ensures c * (n + 1) + x * e == (c + x * a) + x * a' + n * (c + x * a)
  {
    MulEq(x, e, a' + (n + 1) * a);
  }

  // ---- division by a monic polynomial ----

  /** dividend = divisor * quo + rem modulo q, coefficient by coefficient. */
  ghost predicate DividesInto(dividend: seq<int>, divisor: seq<int>, quo: seq<int>, rem: seq<int>, q: int)
    requires q > 0
  {
    PCong(dividend, Add(Mul(divisor, quo), rem), q)
  }

  /** Long division in progress: the coefficients of rem above k are gone, and j terms of
      coeff * X^(k-d) * divisor are subtracted; err collects the multiples of q dropped by reductions. */
  ghost predicate Dividing(p: seq<int>, divisor: seq<int>, quo: seq<int>, rem: seq<int>, err: seq<int>,
                           k: nat, j: nat, q: int)
    requires 1 <= |divisor| <= k && k <= |rem| && j < |divisor|
  {
    forall x :: Eval(p, x) == Eval(divisor, x) * Eval(quo, x) + Eval(rem[..k], x)
                              + rem[k - 1] * (Pow(x, k - |divisor|) * Eval(divisor[..j], x)) + q * Eval(err, x)
  }

  /** All of p: k coefficients of rem remain. */
  ghost predicate Divided(p: seq<int>, divisor: seq<int>, quo: seq<int>, rem: seq<int>, err: seq<int>, k: nat, q: int)
    requires k <= |rem|
  {
    forall x :: Eval(p, x) == Eval(divisor, x) * Eval(quo, x) + Eval(rem[..k], x) + q * Eval(err, x)
  }

  lemma DivTerm(p: seq<int>, divisor: seq<int>, quo: seq<int>, rem: seq<int>, err: seq<int>, k: nat, j: nat, q: int)
    requires q > 0 && 1 <= |divisor| <= k && k <= |rem| && j < |divisor| - 1 && |err| == |rem|
    requires Dividing(p, divisor, quo, rem, err, k, j, q)
    ensures var dst := k - |divisor| + j;
      var v := rem[dst] - rem[k - 1] * divisor[j];
      Dividing(p, divisor, quo, rem[dst := v % q], err[dst := err[dst] + v / q], k, j + 1, q)
  {
    var dst := k - |divisor| + j;
    var c := rem[k - 1];
    var v := rem[dst] - c * divisor[j];
    var rem', err' := rem[dst := v % q], err[dst := err[dst] + v / q];
    assert rem'[..k] == rem[..k][dst := v % q];
    forall x ensures Eval(p, x) == Eval(divisor, x) * Eval(quo, x) + Eval(rem'[..k], x)
                                   + c * (Pow(x, k - |divisor|) * Eval(divisor[..j + 1], x)) + q * Eval(err', x) {
      EvalUpdate(rem[..k], dst, v % q, x);
      EvalUpdate(err, dst, err[dst] + v / q, x);
      EvalPrefix(divisor, j, x);
      PowAdd(x, k - |divisor|, j);
      DivTermStep(Pow(x, k - |divisor|), Pow(x, j), Pow(x, dst), c, divisor[j], Eval(divisor[..j], x),
                  Eval(divisor[..j + 1], x), rem[dst], v % q, v / q, q);
      DistributeErr(q, Eval(err, x), Pow(x, dst), v / q, Eval(err', x));
    }
  }

  lemma DistributeErr(q: int, e: int, xd: int, t: int, e': int)
    requires e' == e + xd * t
    ensures q * e' == q * e + q * (xd * t)
  {
    MulEq(q, e', e + xd * t);
  }

  lemma DivTermStep(xs: int, xj: int, xd: int, c: int, b: int, e: int, e': int, old_: int, m: int, t: int, q: int)
    requires xd == xs * xj && e' == e + xj * b && old_ - c * b == q * t + m
    ensures c * (xs * e) == xd * (m - old_) + c * (xs * e') + q * (xd * t)
  {
    MulEq(xs, e', e + xj * b);
    MulEq(c, xs * e', xs * e + xs * (xj * b));
    assert c * (xs * (xj * b)) == (xs * xj) * (c * b);
    MulEq(c * b, xd, xs * xj);
    MulEq(xd, old_ - c * b, q * t + m);
    assert xd * (q * t) == q * (xd * t);
  }

  lemma DivRow(p: seq<int>, divisor: seq<int>, quo: seq<int>, rem: seq<int>, err: seq<int>, k: nat, q: int)
    requires 1 <= |divisor| <= k && k <= |rem| && divisor[|divisor| - 1] == 1
    requires k - |divisor| < |quo| && quo[k - |divisor|] == 0
    requires Dividing(p, divisor, quo, rem, err, k, |divisor| - 1, q)
    ensures Divided(p, divisor, quo[k - |divisor| := rem[k - 1]], rem, err, k - 1, q)
  {
    var s := k - |divisor|;
    var quo' := quo[s := rem[k - 1]];
    forall x ensures Eval(p, x) == Eval(divisor, x) * Eval(quo', x) + Eval(rem[..k - 1], x) + q * Eval(err, x) {
      EvalUpdate(quo, s, rem[k - 1], x);
      EvalPrefix(divisor, |divisor| - 1, x);
      assert divisor[..|divisor|] == divisor;
      EvalPrefix(rem, k - 1, x);
      PowAdd(x, s, |divisor| - 1);
      DivRowStep(Pow(x, s), Pow(x, |divisor| - 1), Pow(x, k - 1), rem[k - 1], Eval(divisor[..|divisor| - 1], x),
                 Eval(divisor, x), Eval(quo, x), Eval(quo', x));
    }
  }

  lemma DivRowStep(xs: int, xd: int, xk: int, c: int, e: int, e': int, f: int, f': int)
    requires xk == xs * xd && e' == e + xd * 1 && f' == f + xs * c
    ensures e' * f + xk * c + c * (xs * e) == e' * f'
  {
    MulEq(e', f', f + xs * c);
    MulEq(xs * c, e', e + xd);
    MulEq(c, xk, xs * xd);
  }

  /** The loop of the division: one row per coefficient of p at or above the divisor's degree. */
  method LongDivision(p: seq<int>, divisor: seq<int>, q: int)
    returns (rem: seq<int>, ghost quo: seq<int>, ghost err: seq<int>)
    requires q > 1 && 2 <= |divisor| <= |p| && divisor[|divisor| - 1] == 1 && Reduced(p, q)
    ensures |rem| == |p| && Reduced(rem, q) && Divided(p, divisor, quo, rem, err, |divisor| - 1, q)
  {
    var d := |divisor| - 1;
    rem := p;
    err := Zeros(|p|);
    quo := Zeros(|p|);
    assert Divided(p, divisor, quo, rem, err, |rem|, q) by {
      forall x ensures Eval(quo, x) == 0 && Eval(err, x) == 0 { EvalZeros(|p|, x); }
      assert rem[..|p|] == p;
    }
    hide Divided, Dividing, Eval;
    var k := |rem| - 1;
    while k >= d
      invariant d - 1 <= k < |rem| == |p| == |err| == |quo|
      invariant Divided(p, divisor, quo, rem, err, k + 1, q)
      invariant forall i :: 0 <= i <= k - d ==> quo[i] == 0
      invariant Reduced(rem, q)
    {
      var coeff := rem[k];
      if coeff != 0 {
        StartRow(p, divisor, quo, rem, err, k + 1, q);
        for j := 0 to d
          invariant |rem| == |p| == |err| && rem[k] == coeff && Reduced(rem, q)
          invariant Dividing(p, divisor, quo, rem, err, k + 1, j, q)
        {
          var dst := k - d + j;
          DivTerm(p, divisor, quo, rem, err, k + 1, j, q);
          ghost var before := rem;
          rem := rem[dst := rem[dst] - coeff * divisor[j]];
          err := err[dst := err[dst] + rem[dst] / q];
          rem := rem[dst := rem[dst] % q];
          assert rem == before[dst := (before[dst] - coeff * divisor[j]) % q];
        }
        DivRow(p, divisor, quo, rem, err, k + 1, q);
        quo := quo[k - d := coeff];
      } else {
        SkipRow(p, divisor, quo, rem, err, k + 1, q);
      }
      k := k - 1;
    }
  }

  /** Remainder of a division by a monic polynomial. */
  method PolyModMonic(dividend: seq<int>, divisor: seq<int>, q: int)
    returns (res: Result<seq<int>>, ghost quo: seq<int>)
    requires q > 1
    requires |divisor| > 0 ==> divisor[|divisor| - 1] == 1
    ensures res.Err? <==> |divisor| == 0
    ensures res.Ok? ==> DividesInto(dividend, divisor, quo, res.value, q)
    ensures res.Ok? ==> Canon(res.value, q) && (|res.value| < |divisor| || res.value == [0])
  {
    quo := [];
    if |divisor| == 0 { return Err("poly_mod_monic: empty divisor"), quo; }
    if |dividend| == 0 {
      DivideNothing([], divisor, [0], q);
      return Ok([0]), quo;
    }
    var rem := PolyModQ(dividend, q);
    NormCanon(dividend, q);
    if |rem| < |divisor| {
      DivideNothing(dividend, divisor, rem, q);
      return Ok(rem), quo;
    }
    var d := |divisor| - 1;
    if d == 0 {
      quo := dividend;
      DivideByOne(dividend, q);
      assert divisor == [1];
      return Ok([0]), quo;
    }
    ghost var p, err := rem, [];
    rem, quo, err := LongDivision(rem, divisor, q);
    FinishDivision(dividend, p, divisor, quo, rem, err, d, q);
    rem := rem[..d];
    rem := PolyTrim(rem);
    res := Ok(rem);
  }

  lemma StartRow(p: seq<int>, divisor: seq<int>, quo: seq<int>, rem: seq<int>, err: seq<int>, k: nat, q: int)
    requires 1 <= |divisor| <= k && k <= |rem| && Divided(p, divisor, quo, rem, err, k, q)
    ensures Dividing(p, divisor, quo, rem, err, k, 0, q)
  {
    assert divisor[..0] == [];
  }

  lemma SkipRow(p: seq<int>, divisor: seq<int>, quo: seq<int>, rem: seq<int>, err: seq<int>, k: nat, q: int)
    requires 1 <= k <= |rem| && rem[k - 1] == 0 && Divided(p, divisor, quo, rem, err, k, q)
    ensures Divided(p, divisor, quo, rem, err, k - 1, q)
  {
    forall x ensures Eval(rem[..k], x) == Eval(rem[..k - 1], x) { EvalPrefix(rem, k - 1, x); }
  }

  lemma DivideNothing(p: seq<int>, divisor: seq<int>, rem: seq<int>, q: int)
    requires q > 0 && PCong(rem, p, q)
    ensures DividesInto(p, divisor, [], rem, q)
  {
    var t := Add(Mul(divisor, []), rem);
    forall x ensures Eval(t, x) == Eval(rem, x) {
      EvalAdd(Mul(divisor, []), rem, x);
      EvalMul(divisor, [], x);
    }
    CoefsEqual(t, rem);
  }

  lemma DivideByOne(p: seq<int>, q: int)
    requires q > 0
    ensures DividesInto(p, [1], p, [0], q)
  {
    var t := Add(Mul([1], p), [0]);
    forall x ensures Eval(p, x) == Eval(t, x) {
      EvalAdd(Mul([1], p), [0], x);
      EvalMul([1], p, x);
      EvalCons(1, [], x);
      EvalCons(0, [], x);
    }
    PCongSame(p, t, q);
  }

  lemma FinishDivision(dividend: seq<int>, p: seq<int>, divisor: seq<int>, quo: seq<int>, rem: seq<int>,
                       err: seq<int>, d: nat, q: int)
    requires q > 0 && PCong(p, dividend, q) && 1 <= d <= |rem| && Reduced(rem, q)
    requires Divided(p, divisor, quo, rem, err, d, q)
    ensures var r := Trim(rem[..d]);
      DividesInto(dividend, divisor, quo, r, q) && Canon(r, q) && |r| <= d
  {
    var r := rem[..d];
    TrimShape(r);
    var t := Add(Mul(divisor, quo), r);
    forall x ensures Eval(p, x) == Eval(t, x) + q * Eval(err, x) {
      EvalAdd(Mul(divisor, quo), r, x);
      EvalMul(divisor, quo, x);
    }
    PCongIntro(p, t, err, q);
    var t' := Add(Mul(divisor, quo), Trim(r));
    AddShape(Mul(divisor, quo), r);
    AddShape(Mul(divisor, quo), Trim(r));
    forall i ensures Cong(Coef(dividend, i), Coef(t', i), q) {
      assert Cong(Coef(p, i), Coef(dividend, i), q);
      assert Cong(Coef(p, i), Coef(t, i), q);
      assert Coef(t, i) == Coef(t', i);
    }
  }

  /** The remainder is determined: two short canonical remainders of the same division by a monic polynomial
      are equal, whatever the quotients. */
  lemma RemainderUnique(p: seq<int>, divisor: seq<int>, t: seq<int>, r: seq<int>, t': seq<int>, r': seq<int>, q: int)
    requires q > 1 && |divisor| >= 2 && divisor[|divisor| - 1] == 1
    requires DividesInto(p, divisor, t, r, q) && DividesInto(p, divisor, t', r', q)
    requires Canon(r, q) && Canon(r', q) && |r| < |divisor| && |r'| < |divisor|
    ensures r == r'
  {
    var d, u := Sub(t, t') + [0], Sub(r', r);
    var n := Norm(d, q);
    NormCanon(d, q);
    SubShape(r', r);
    DifferenceOfDivisions(p, divisor, t, r, t', r', d, u, q);
    MulLength(divisor, n);
    LeadCoef(divisor, n);
    PCongMul(divisor, divisor, n, d, q);
    var k := |divisor| + |n| - 2;
    assert Cong(Coef(Mul(divisor, n), k), Coef(Mul(divisor, d), k), q);
    assert Cong(Coef(Mul(divisor, d), k), Coef(u, k), q);
    assert Coef(u, k) == 0;
    ModSmall(0, q);
    ModSmall(n[|n| - 1], q);
    assert n == [0];
    ZeroQuotient(divisor, n, d, u, q);
    forall i ensures Cong(Coef(r, i), Coef(r', i), q) {
      assert Cong(Coef(u, i), Coef([], i), q);
      SumOfZero(Coef(r', i), Coef(r, i), Coef(u, i), q);
    }
    CanonUnique(r, r', q);
  }

  /** divisor * (t - t') = r' - r modulo q. */
  lemma DifferenceOfDivisions(p: seq<int>, divisor: seq<int>, t: seq<int>, r: seq<int>, t': seq<int>, r': seq<int>,
                              d: seq<int>, u: seq<int>, q: int)
    requires q > 1 && DividesInto(p, divisor, t, r, q) && DividesInto(p, divisor, t', r', q)
    requires d == Sub(t, t') + [0] && u == Sub(r', r)
    ensures PCong(Mul(divisor, d), u, q)
  {
    var a, b := Add(Mul(divisor, t), r), Add(Mul(divisor, t'), r');
    forall i ensures Cong(Coef(a, i), Coef(b, i), q) {
      assert Cong(Coef(p, i), Coef(a, i), q) && Cong(Coef(p, i), Coef(b, i), q);
    }
    var s := PCongElim(a, b, q);
    forall x ensures Eval(Mul(divisor, d), x) == Eval(u, x) + q * Eval(s, x) {
      DifferenceAt(divisor, t, r, t', r', x);
    }
    PCongIntro(Mul(divisor, d), u, s, q);
  }

  lemma DifferenceAt(divisor: seq<int>, t: seq<int>, r: seq<int>, t': seq<int>, r': seq<int>, x: int)
    ensures Eval(Mul(divisor, Sub(t, t') + [0]), x) - Eval(Sub(r', r), x)
         == Eval(Add(Mul(divisor, t), r), x) - Eval(Add(Mul(divisor, t'), r'), x)
  {
    hide *;
    EvalAdd(Mul(divisor, t), r, x);
    EvalAdd(Mul(divisor, t'), r', x);
    EvalMul(divisor, t, x);
    EvalMul(divisor, t', x);
    EvalMul(divisor, Sub(t, t') + [0], x);
    EvalSnoc(Sub(t, t'), 0, x);
    EvalSub(t, t', x);
    EvalSub(r', r, x);
    MulEq(Eval(divisor, x), Eval(Sub(t, t') + [0], x), Eval(t, x) - Eval(t', x));
  }

  lemma ZeroQuotient(divisor: seq<int>, n: seq<int>, d: seq<int>, u: seq<int>, q: int)
    requires q > 1 && n == [0] && PCong(n, d, q) && PCong(Mul(divisor, d), u, q)
    ensures PCong(u, [], q)
  {
    hide *;
    PCongRefl(divisor, q);
    PCongMul(divisor, divisor, n, d, q);
    forall x ensures Eval(Mul(divisor, n), x) == Eval([], x) {
      EvalMul(divisor, n, x);
      EvalZero(x);
    }
    PCongSame(Mul(divisor, n), [], q);
    PCongBack(Mul(divisor, n), Mul(divisor, d), u, [], q);
  }

  lemma PCongRefl(p: seq<int>, q: int)
    requires q > 0
    ensures PCong(p, p, q)
  {
  }

  lemma EvalZero(x: int)
    ensures Eval([0], x) == 0 && Eval([], x) == 0
  {
  }

  lemma PCongBack(a: seq<int>, b: seq<int>, u: seq<int>, z: seq<int>, q: int)
    requires q > 0 && PCong(a, b, q) && PCong(b, u, q) && PCong(a, z, q)
    ensures PCong(u, z, q)
  {
    forall i ensures Cong(Coef(u, i), Coef(z, i), q) {
      assert Cong(Coef(a, i), Coef(b, i), q) && Cong(Coef(b, i), Coef(u, i), q) && Cong(Coef(a, i), Coef(z, i), q);
    }
  }
}
