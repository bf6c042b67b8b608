/** Polynomials as coefficient sequences, constant term first, over the integers.
    An identity of polynomials is proved by evaluating both sides: `CoefsZero`
    turns agreement at every integer into agreement of the coefficients. */
module Poly {
  import opened ModArith

  function Coef(p: seq<int>, i: int): int {
    if 0 <= i < |p| then p[i] else 0
  }

  function Eval(p: seq<int>, x: int): int {
    if |p| == 0 then 0 else p[0] + x * Eval(p[1..], x)
  }

  function Add(p: seq<int>, r: seq<int>): seq<int> {
    if |p| == 0 then r else if |r| == 0 then p else [p[0] + r[0]] + Add(p[1..], r[1..])
  }

  function Scale(c: int, p: seq<int>): seq<int> {
    if |p| == 0 then [] else [c * p[0]] + Scale(c, p[1..])
  }

  function Mul(p: seq<int>, r: seq<int>): seq<int> {
    if |p| == 0 then [] else Add(Scale(p[0], r), [0] + Mul(p[1..], r))
  }

  function Zeros(n: nat): (z: seq<int>)
    ensures |z| == n && forall i :: 0 <= i < n ==> z[i] == 0
  {
    seq(n, _ => 0)
  }

  // ---- Horner steps as identities of integers ----

  lemma AddStep(x: int, e: int, a: int, b: int)
    requires e == a + b
    ensures x * e == x * a + x * b
  {
  }

  lemma ScaleStep(c: int, x: int, a: int, b: int, e: int)
    requires e == c * b
    ensures c * (a + x * b) == c * a + x * e
  {
  }

  lemma HornerProduct(c: int, x: int, a: int, b: int, m: int)
    requires m == a * b
    ensures (c + x * a) * b == c * b + x * m
  {
  }

  lemma HornerShift(x: int, e: int, a: int, b: int, c: int)
    requires e == a + b * c
    ensures x * e == x * a + (x * b) * c
  {
  }

  // ---- evaluation is a ring homomorphism ----

  lemma {:induction false} EvalAdd(p: seq<int>, r: seq<int>, x: int)
    ensures Eval(Add(p, r), x) == Eval(p, x) + Eval(r, x)
  {
    if |p| != 0 && |r| != 0 {
      EvalAdd(p[1..], r[1..], x);
      assert Add(p, r)[1..] == Add(p[1..], r[1..]);
      AddStep(x, Eval(Add(p, r)[1..], x), Eval(p[1..], x), Eval(r[1..], x));
    }
  }

  lemma {:induction false} EvalScale(c: int, p: seq<int>, x: int)
    ensures Eval(Scale(c, p), x) == c * Eval(p, x)
  {
    if |p| != 0 {
      EvalScale(c, p[1..], x);
      assert Scale(c, p)[1..] == Scale(c, p[1..]);
      ScaleStep(c, x, p[0], Eval(p[1..], x), Eval(Scale(c, p)[1..], x));
    }
  }

  lemma EvalCons(c: int, p: seq<int>, x: int)
    ensures Eval([c] + p, x) == c + x * Eval(p, x)
  {
    assert ([c] + p)[1..] == p;
  }

  lemma {:induction false} EvalMul(p: seq<int>, r: seq<int>, x: int)
    ensures Eval(Mul(p, r), x) == Eval(p, x) * Eval(r, x)
  {
    if |p| != 0 {
      EvalMul(p[1..], r, x);
      EvalScale(p[0], r, x);
      EvalCons(0, Mul(p[1..], r), x);
      EvalAdd(Scale(p[0], r), [0] + Mul(p[1..], r), x);
      HornerProduct(p[0], x, Eval(p[1..], x), Eval(r, x), Eval(Mul(p[1..], r), x));
    }
  }

  lemma {:induction false} EvalConcat(p: seq<int>, r: seq<int>, x: int)
    ensures Eval(p + r, x) == Eval(p, x) + Pow(x, |p|) * Eval(r, x)
  {
    if |p| == 0 {
      assert p + r == r;
    } else {
      EvalConcat(p[1..], r, x);
      assert (p + r)[1..] == p[1..] + r;
      HornerShift(x, Eval(p[1..] + r, x), Eval(p[1..], x), Pow(x, |p| - 1), Eval(r, x));
    }
  }

  lemma {:induction false} EvalZeros(n: nat, x: int)
    ensures Eval(Zeros(n), x) == 0
  {
    if n != 0 {
      assert Zeros(n)[1..] == Zeros(n - 1);
      EvalZeros(n - 1, x);
    }
  }

  lemma EvalPad(p: seq<int>, n: nat, x: int)
    ensures Eval(p + Zeros(n), x) == Eval(p, x)
  {
    EvalConcat(p, Zeros(n), x);
    EvalZeros(n, x);
  }

  lemma {:induction false} EvalUpdate(p: seq<int>, i: nat, v: int, x: int)
    requires i < |p|
    ensures Eval(p[i := v], x) == Eval(p, x) + Pow(x, i) * (v - p[i])
  {
    if i == 0 {
      assert p[i := v][1..] == p[1..];
    } else {
      EvalUpdate(p[1..], i - 1, v, x);
      assert p[i := v][1..] == p[1..][i - 1 := v];
      HornerShift(x, Eval(p[1..][i - 1 := v], x), Eval(p[1..], x), Pow(x, i - 1), v - p[i]);
    }
  }

  lemma EvalSnoc(p: seq<int>, c: int, x: int)
    ensures Eval(p + [c], x) == Eval(p, x) + Pow(x, |p|) * c
  {
    EvalConcat(p, [c], x);
  }

  // ---- lengths and coefficients ----

  lemma {:induction false} AddShape(p: seq<int>, r: seq<int>)
    ensures |Add(p, r)| == if |p| < |r| then |r| else |p|
    ensures forall i :: Coef(Add(p, r), i) == Coef(p, i) + Coef(r, i)
  {
    if |p| != 0 && |r| != 0 {
      AddShape(p[1..], r[1..]);
      forall i ensures Coef(Add(p, r), i) == Coef(p, i) + Coef(r, i) {
        assert Coef(Add(p[1..], r[1..]), i - 1) == Coef(p[1..], i - 1) + Coef(r[1..], i - 1);
      }
    }
  }

  lemma {:induction false} ScaleShape(c: int, p: seq<int>)
    ensures |Scale(c, p)| == |p|
    ensures forall i :: Coef(Scale(c, p), i) == c * Coef(p, i)
  {
    if |p| != 0 {
      ScaleShape(c, p[1..]);
      forall i ensures Coef(Scale(c, p), i) == c * Coef(p, i) {
        assert Coef(Scale(c, p[1..]), i - 1) == c * Coef(p[1..], i - 1);
      }
    }
  }

  lemma {:induction false} MulLength(p: seq<int>, r: seq<int>)
    requires |p| > 0 && |r| > 0
    ensures |Mul(p, r)| == |p| + |r| - 1
  {
    ScaleShape(p[0], r);
    AddShape(Scale(p[0], r), [0] + Mul(p[1..], r));
    if |p| > 1 {
      MulLength(p[1..], r);
    }
  }

  /** The highest coefficient of a product. */
  lemma {:induction false} LeadCoef(a: seq<int>, b: seq<int>)
    requires |a| > 0 && |b| > 0
    ensures Coef(Mul(a, b), |a| + |b| - 2) == a[|a| - 1] * b[|b| - 1]
  {
    var k := |a| + |b| - 2;
    ScaleShape(a[0], b);
    AddShape(Scale(a[0], b), [0] + Mul(a[1..], b));
    assert Coef([0] + Mul(a[1..], b), k) == if k == 0 then 0 else Coef(Mul(a[1..], b), k - 1);
    if |a| > 1 {
      LeadCoef(a[1..], b);
      assert Coef(Scale(a[0], b), k) == a[0] * Coef(b, k) == 0;
    } else {
      assert Coef(Mul(a[1..], b), k - 1) == 0;
    }
  }

  /** A polynomial that vanishes at every positive integer has only zero coefficients. */
  lemma {:induction false} CoefsZero(p: seq<int>)
    requires forall x :: x >= 1 ==> Eval(p, x) == 0
    ensures forall i :: 0 <= i < |p| ==> p[i] == 0
  {
    if |p| != 0 {
      var c := p[0];
      var x := if c >= 0 then c + 1 else -c + 1;
      assert Eval(p, x) == 0;
      MultipleTooSmall(c, x, -Eval(p[1..], x));
      forall y | y >= 1 ensures Eval(p[1..], y) == 0 {
        assert Eval(p, y) == 0;
        assert y * Eval(p[1..], y) == 0;
      }
      CoefsZero(p[1..]);
      assert forall i :: 1 <= i < |p| ==> p[i] == p[1..][i - 1];
    }
  }

  lemma MultipleTooSmall(c: int, x: int, k: int)
    requires c == x * k && -x < c < x
    ensures c == 0
  {
  }

  // ---- congruence of polynomials modulo q, coefficient by coefficient ----

  ghost predicate PCong(p: seq<int>, r: seq<int>, q: int)
    requires q > 0
  {
    forall i :: Cong(Coef(p, i), Coef(r, i), q)
  }

  function Sub(p: seq<int>, r: seq<int>): seq<int> {
    Add(p, Scale(-1, r))
  }

  lemma SubShape(p: seq<int>, r: seq<int>)
    ensures |Sub(p, r)| == if |p| < |r| then |r| else |p|
    ensures forall i :: Coef(Sub(p, r), i) == Coef(p, i) - Coef(r, i)
  {
    ScaleShape(-1, r);
    AddShape(p, Scale(-1, r));
  }

  lemma EvalSub(p: seq<int>, r: seq<int>, x: int)
    ensures Eval(Sub(p, r), x) == Eval(p, x) - Eval(r, x)
  {
    EvalAdd(p, Scale(-1, r), x);
    EvalScale(-1, r, x);
  }

  /** Polynomials with the same value at every integer have the same coefficients. */
  lemma CoefsEqual(p: seq<int>, r: seq<int>)
    requires forall x :: Eval(p, x) == Eval(r, x)
    ensures forall i :: Coef(p, i) == Coef(r, i)
  {
    forall x | x >= 1 ensures Eval(Sub(p, r), x) == 0 {
      EvalSub(p, r, x);
    }
    CoefsZero(Sub(p, r));
    SubShape(p, r);
    forall i ensures Coef(p, i) == Coef(r, i) {
      assert Coef(Sub(p, r), i) == 0;
    }
  }

  lemma EvalAddScale(r: seq<int>, q: int, s: seq<int>, x: int)
    ensures Eval(Add(r, Scale(q, s)), x) == Eval(r, x) + q * Eval(s, x)
  {
    EvalAdd(r, Scale(q, s), x);
    EvalScale(q, s, x);
  }

  /** The difference of two polynomials is q times a third one: then they are congruent. */
  lemma PCongIntro(p: seq<int>, r: seq<int>, s: seq<int>, q: int)
    requires q > 0
    requires forall x :: Eval(p, x) == Eval(r, x) + q * Eval(s, x)
    ensures PCong(p, r, q)
  {
    var t := Add(r, Scale(q, s));
    forall x ensures Eval(p, x) == Eval(t, x) {
      EvalAddScale(r, q, s, x);
    }
    CoefsEqual(p, t);
    ScaleShape(q, s);
    AddShape(r, Scale(q, s));
    forall i ensures Cong(Coef(p, i), Coef(r, i), q) {
      CoefMultiple(Coef(p, i), Coef(r, i), Coef(s, i), q);
    }
  }

  lemma CoefMultiple(a: int, b: int, c: int, q: int)
    requires q > 0 && a == b + q * c
    ensures Cong(a, b, q)
  {
    assert a == b + c * q;
    CongMultiple(b, c, q);
  }

  function Tail(p: seq<int>): seq<int> {
    if |p| == 0 then [] else p[1..]
  }

  /** Congruent polynomials differ by q times some polynomial. */
  lemma {:induction false} PCongElim(p: seq<int>, r: seq<int>, q: int) returns (s: seq<int>)
    requires q > 0 && PCong(p, r, q)
    ensures forall x :: Eval(p, x) == Eval(r, x) + q * Eval(s, x)
    decreases |p| + |r|
  {
    if |p| == 0 && |r| == 0 {
      s := [];
    } else {
      assert Cong(Coef(p, 0), Coef(r, 0), q);
      var k := CongQuotient(Coef(p, 0), Coef(r, 0), q);
      forall i ensures Cong(Coef(Tail(p), i), Coef(Tail(r), i), q) {
        assert Cong(Coef(p, i + 1), Coef(r, i + 1), q);
      }
      var t := PCongElim(Tail(p), Tail(r), q);
      s := [k] + t;
      forall x ensures Eval(p, x) == Eval(r, x) + q * Eval(s, x) {
        EvalCons(k, t, x);
        HornerWitness(Coef(p, 0), Coef(r, 0), k, x, Eval(Tail(p), x), Eval(Tail(r), x), Eval(t, x), q);
      }
    }
  }

  lemma HornerWitness(c: int, d: int, k: int, x: int, a: int, b: int, t: int, q: int)
    requires c == d + k * q && a == b + q * t
    ensures c + x * a == (d + x * b) + q * (k + x * t)
  {
    MulEq(x, a, b + q * t);
  }

  lemma PCongEval(p: seq<int>, r: seq<int>, x: int, q: int)
    requires q > 0 && PCong(p, r, q)
    ensures Cong(Eval(p, x), Eval(r, x), q)
  {
    var s := PCongElim(p, r, q);
    CoefMultiple(Eval(p, x), Eval(r, x), Eval(s, x), q);
  }

  lemma PCongTrans(p: seq<int>, r: seq<int>, s: seq<int>, q: int)
    requires q > 0 && PCong(p, r, q) && PCong(r, s, q)
    ensures PCong(p, s, q)
  {
    forall i ensures Cong(Coef(p, i), Coef(s, i), q) {
      assert Cong(Coef(p, i), Coef(r, i), q) && Cong(Coef(r, i), Coef(s, i), q);
    }
  }

  lemma PCongAdd(p: seq<int>, p': seq<int>, r: seq<int>, r': seq<int>, q: int)
    requires q > 0 && PCong(p, p', q) && PCong(r, r', q)
    ensures PCong(Add(p, r), Add(p', r'), q)
  {
    hide Add, Coef, Cong;
    AddShape(p, r);
    AddShape(p', r');
    forall i ensures Cong(Coef(Add(p, r), i), Coef(Add(p', r'), i), q) {
      CongAdd(Coef(p, i), Coef(p', i), Coef(r, i), Coef(r', i), q);
    }
  }

  lemma PCongMulLeft(p: seq<int>, p': seq<int>, r: seq<int>, q: int)
    requires q > 0 && PCong(p, p', q)
    ensures PCong(Mul(p, r), Mul(p', r), q)
  {
    var s := PCongElim(p, p', q);
    forall x ensures Eval(Mul(p, r), x) == Eval(Mul(p', r), x) + q * Eval(Mul(s, r), x) {
      EvalMul(p, r, x);
      EvalMul(p', r, x);
      EvalMul(s, r, x);
      ProductWitness(Eval(p, x), Eval(p', x), Eval(s, x), Eval(r, x), q);
    }
    PCongIntro(Mul(p, r), Mul(p', r), Mul(s, r), q);
  }

  lemma ProductWitness(a: int, b: int, s: int, c: int, q: int)
    requires a == b + q * s
    ensures a * c == b * c + q * (s * c)
  {
    MulEq(c, a, b + q * s);
  }

  /** Polynomials with the same value at every integer are congruent modulo everything. */
  lemma PCongSame(p: seq<int>, r: seq<int>, q: int)
    requires q > 0 && forall x :: Eval(p, x) == Eval(r, x)
    ensures PCong(p, r, q)
  {
    PCongIntro(p, r, [], q);
  }

  lemma PCongMul(p: seq<int>, p': seq<int>, r: seq<int>, r': seq<int>, q: int)
    requires q > 0 && PCong(p, p', q) && PCong(r, r', q)
    ensures PCong(Mul(p, r), Mul(p', r'), q)
  {
    PCongMulLeft(p, p', r, q);
    PCongMulLeft(r, r', p', q);
    MulCommutes(p', r, q);
    MulCommutes(p', r', q);
    forall i ensures Cong(Coef(Mul(p, r), i), Coef(Mul(p', r'), i), q) {
      assert Cong(Coef(Mul(p, r), i), Coef(Mul(p', r), i), q);
      assert Cong(Coef(Mul(p', r), i), Coef(Mul(r, p'), i), q);
      assert Cong(Coef(Mul(r, p'), i), Coef(Mul(r', p'), i), q);
      assert Cong(Coef(Mul(p', r'), i), Coef(Mul(r', p'), i), q);
    }
  }

  lemma MulCommutes(p: seq<int>, r: seq<int>, q: int)
    requires q > 0
    ensures PCong(Mul(p, r), Mul(r, p), q)
  {
    forall x ensures Eval(Mul(p, r), x) == Eval(Mul(r, p), x) {
      EvalMul(p, r, x);
      EvalMul(r, p, x);
    }
    PCongSame(Mul(p, r), Mul(r, p), q);
  }

  // ---- canonical representatives: reduced coefficients, no trailing zeros ----

  function Red(p: seq<int>, q: int): (r: seq<int>)
    requires q > 0
    ensures |r| == |p| && forall i :: 0 <= i < |p| ==> r[i] == p[i] % q
  {
    seq(|p|, i requires 0 <= i < |p| => p[i] % q)
  }

  function Trim(p: seq<int>): seq<int> {
    if |p| > 1 && p[|p| - 1] == 0 then Trim(p[..|p| - 1]) else p
  }

  function Norm(p: seq<int>, q: int): seq<int>
    requires q > 0
  {
    Trim(Red(p, q))
  }

  ghost predicate Reduced(p: seq<int>, q: int) {
    forall i :: 0 <= i < |p| ==> 0 <= p[i] < q
  }

  ghost predicate Canon(p: seq<int>, q: int) {
    |p| >= 1 && Reduced(p, q) && (|p| == 1 || p[|p| - 1] != 0)
  }

  lemma {:induction false} TrimShape(p: seq<int>)
    ensures |Trim(p)| <= |p| && Trim(p) == p[..|Trim(p)|]
    ensures forall i :: Coef(Trim(p), i) == Coef(p, i)
    ensures |p| >= 1 ==> |Trim(p)| >= 1 && (|Trim(p)| == 1 || Trim(p)[|Trim(p)| - 1] != 0)
  {
    if |p| > 1 && p[|p| - 1] == 0 {
      TrimShape(p[..|p| - 1]);
      forall i ensures Coef(Trim(p), i) == Coef(p, i) {
        assert Coef(Trim(p[..|p| - 1]), i) == Coef(p[..|p| - 1], i);
      }
    }
  }

  lemma RedCong(p: seq<int>, q: int)
    requires q > 0
    ensures PCong(Red(p, q), p, q) && Reduced(Red(p, q), q)
  {
    forall i ensures Cong(Coef(Red(p, q), i), Coef(p, i), q) {
      CongMod(Coef(p, i), q);
    }
    forall i | 0 <= i < |p| ensures 0 <= Red(p, q)[i] < q {
      CongMod(p[i], q);
    }
  }

  lemma NormCanon(p: seq<int>, q: int)
    requires q > 0 && |p| >= 1
    ensures Canon(Norm(p, q), q) && PCong(Norm(p, q), p, q) && |Norm(p, q)| <= |p|
  {
    RedCong(p, q);
    TrimShape(Red(p, q));
    forall i ensures Cong(Coef(Norm(p, q), i), Coef(p, i), q) {
      assert Cong(Coef(Red(p, q), i), Coef(p, i), q);
    }
  }

  /** A residue class of polynomials has one canonical representative. */
  lemma CanonUnique(p: seq<int>, r: seq<int>, q: int)
    requires q > 0 && Canon(p, q) && Canon(r, q) && PCong(p, r, q)
    ensures p == r
  {
    forall i | 0 <= i ensures Coef(p, i) == Coef(r, i) {
      assert Cong(Coef(p, i), Coef(r, i), q);
      ModSmall(Coef(p, i), q);
      ModSmall(Coef(r, i), q);
    }
    assert Coef(p, |r| - 1) == Coef(r, |r| - 1);
    assert Coef(p, |p| - 1) == Coef(r, |p| - 1);
    forall i | 0 <= i < |p| ensures p[i] == r[i] {
      assert Coef(p, i) == Coef(r, i);
    }
  }

  lemma NormUnique(p: seq<int>, r: seq<int>, q: int)
    requires q > 0 && Canon(p, q) && |r| >= 1 && PCong(p, r, q)
    ensures p == Norm(r, q)
  {
    NormCanon(r, q);
    forall i ensures Cong(Coef(p, i), Coef(Norm(r, q), i), q) {
      assert Cong(Coef(p, i), Coef(r, i), q);
      assert Cong(Coef(Norm(r, q), i), Coef(r, i), q);
    }
    CanonUnique(p, Norm(r, q), q);
  }

  // ---- roots ----

  /** Synthetic division: the quotient of p by X - r. */
  function Quotient(p: seq<int>, r: int): seq<int> {
    if |p| <= 1 then [] else [Eval(p[1..], r)] + Quotient(p[1..], r)
  }

  lemma {:induction false} FactorTheorem(p: seq<int>, r: int, x: int)
    ensures Eval(p, x) == Eval(p, r) + (x - r) * Eval(Quotient(p, r), x)
  {
    hide Eval;
    if |p| <= 1 {
      EvalConstant(p, r, x);
    } else {
      EvalUnfold(p, x);
      EvalUnfold(p, r);
      FactorTheorem(p[1..], r, x);
      EvalCons(Eval(p[1..], r), Quotient(p[1..], r), x);
      FactorStep(p[0], r, x, Eval(p[1..], x), Eval(p[1..], r), Eval(Quotient(p[1..], r), x));
    }
  }

  lemma EvalUnfold(p: seq<int>, x: int)
    requires |p| > 0
    ensures Eval(p, x) == p[0] + x * Eval(p[1..], x)
  {
  }

  lemma EvalConstant(p: seq<int>, r: int, x: int)
    requires |p| <= 1
    ensures Eval(p, x) == Eval(p, r) && Eval([], x) == 0
  {
    assert |p| == 1 ==> Eval(p[1..], x) == 0 && Eval(p[1..], r) == 0;
  }

  lemma FactorStep(c: int, r: int, x: int, a: int, b: int, t: int)
    requires a == b + (x - r) * t
    ensures c + x * a == (c + r * b) + (x - r) * (b + x * t)
  {
    MulEq(x, a, b + (x - r) * t);
  }

  lemma {:induction false} QuotientLength(p: seq<int>, r: int)
    ensures |Quotient(p, r)| == if |p| == 0 then 0 else |p| - 1
  {
    if |p| > 1 {
      QuotientLength(p[1..], r);
    }
  }

  ghost predicate Distinct(xs: seq<int>, q: int)
    requires q > 0
  {
    forall i, j :: 0 <= i < j < |xs| ==> !Cong(xs[i], xs[j], q)
  }

  /** Over a prime field a polynomial with as many roots as coefficients is zero. */
  lemma {:induction false} TooManyRoots(p: seq<int>, xs: seq<int>, q: int)
    requires Prime(q) && Distinct(xs, q) && |p| <= |xs|
    requires forall i :: 0 <= i < |xs| ==> Cong(Eval(p, xs[i]), 0, q)
    ensures PCong(p, [], q)
    decreases |p|
  {
    if |p| != 0 {
      var r, rest := xs[0], xs[1..];
      var t := Quotient(p, r);
      QuotientLength(p, r);
      forall i | 0 <= i < |rest| ensures Cong(Eval(t, rest[i]), 0, q) {
        var x := rest[i];
        assert x == xs[i + 1];
        assert !Cong(xs[0], xs[i + 1], q);
        FactorTheorem(p, r, x);
        RootOfQuotient(Eval(p, x), Eval(p, r), x, r, Eval(t, x), q);
      }
      TooManyRoots(t, rest, q);
      ProductOfZero(p, t, r, q);
    }
  }

  lemma RootOfQuotient(a: int, b: int, x: int, r: int, t: int, q: int)
    requires Prime(q) && a == b + (x - r) * t && Cong(a, 0, q) && Cong(b, 0, q) && !Cong(r, x, q)
    ensures Cong(t, 0, q)
  {
    CongSub(a, 0, b, 0, q);
    assert a - b == (x - r) * t;
    ModSmall(0, q);
    EuclidLemma(x - r, t, q);
    CongDiff(x, r, q);
  }

  lemma ProductOfZero(p: seq<int>, t: seq<int>, r: int, q: int)
    requires q > 0 && Cong(Eval(p, r), 0, q) && PCong(t, [], q) && t == Quotient(p, r)
    ensures PCong(p, [], q)
  {
    var s := PCongElim(t, [], q);
    var k := CongQuotient(Eval(p, r), 0, q);
    var w := Add([k], Mul([-r, 1], s));
    forall x ensures Eval(p, x) == Eval([], x) + q * Eval(w, x) {
      FactorTheorem(p, r, x);
      EvalAffine(k, r, s, x);
      assert Eval(t, x) == Eval([], x) + q * Eval(s, x);
      MultipleStep(Eval(p, x), Eval(p, r), x - r, Eval(t, x), k, Eval(s, x), q);
    }
    PCongIntro(p, [], w, q);
  }

  lemma MultipleStep(a: int, b: int, d: int, t: int, k: int, s: int, q: int)
    requires a == b + d * t && b == k * q && t == q * s
    ensures a == q * (k + d * s)
  {
    MulEq(d, t, q * s);
  }

  /** k + (X - r) * s evaluates as written. */
  lemma EvalAffine(k: int, r: int, s: seq<int>, x: int)
    ensures Eval(Add([k], Mul([-r, 1], s)), x) == k + (x - r) * Eval(s, x)
  {
    EvalAdd([k], Mul([-r, 1], s), x);
    EvalMul([-r, 1], s, x);
    EvalCons(k, [], x);
    EvalLinear(-r, x);
    MulEq(Eval(s, x), Eval([-r, 1], x), x - r);
  }

  lemma EvalLinear(c: int, x: int)
    ensures Eval([c, 1], x) == c + x
  {
    EvalCons(1, [], x);
    assert [c, 1] == [c] + [1];
    EvalCons(c, [1], x);
  }

  /** Two polynomials of fewer than n coefficients that agree at n distinct points are congruent. */
  lemma InterpolationUnique(p: seq<int>, r: seq<int>, xs: seq<int>, q: int)
    requires Prime(q) && Distinct(xs, q) && |p| <= |xs| && |r| <= |xs|
    requires forall i :: 0 <= i < |xs| ==> Cong(Eval(p, xs[i]), Eval(r, xs[i]), q)
    ensures PCong(p, r, q)
  {
    var d := Sub(p, r);
    SubShape(p, r);
    forall i | 0 <= i < |xs| ensures Cong(Eval(d, xs[i]), 0, q) {
      EvalSub(p, r, xs[i]);
      CongSub(Eval(p, xs[i]), Eval(r, xs[i]), Eval(r, xs[i]), Eval(r, xs[i]), q);
    }
    TooManyRoots(d, xs, q);
    forall i ensures Cong(Coef(p, i), Coef(r, i), q) {
      assert Cong(Coef(d, i), Coef([], i), q);
      SumOfZero(Coef(p, i), Coef(r, i), Coef(d, i), q);
    }
  }

  lemma SumOfZero(a: int, b: int, d: int, q: int)
    requires q > 0 && d == a - b && Cong(d, 0, q)
    ensures Cong(a, b, q)
  {
    ModSmall(0, q);
    CongDiff(a, b, q);
  }

  // ---- formal derivative ----

  /** Value at x of the derivative of p. */
  function DEval(p: seq<int>, x: int): int {
    if |p| == 0 then 0 else Eval(p[1..], x) + x * DEval(p[1..], x)
  }

  lemma {:induction false} DEvalAdd(p: seq<int>, r: seq<int>, x: int)
    ensures DEval(Add(p, r), x) == DEval(p, x) + DEval(r, x)
  {
    if |p| != 0 && |r| != 0 {
      DEvalAdd(p[1..], r[1..], x);
      EvalAdd(p[1..], r[1..], x);
      assert Add(p, r)[1..] == Add(p[1..], r[1..]);
      AddStep(x, DEval(Add(p, r)[1..], x), DEval(p[1..], x), DEval(r[1..], x));
    }
  }

  lemma {:induction false} DEvalScale(c: int, p: seq<int>, x: int)
    ensures DEval(Scale(c, p), x) == c * DEval(p, x)
  {
    if |p| != 0 {
      DEvalScale(c, p[1..], x);
      EvalScale(c, p[1..], x);
      assert Scale(c, p)[1..] == Scale(c, p[1..]);
      ScaleStep(c, x, Eval(p[1..], x), DEval(p[1..], x), DEval(Scale(c, p)[1..], x));
    }
  }

  lemma DEvalCons(c: int, p: seq<int>, x: int)
    ensures DEval([c] + p, x) == Eval(p, x) + x * DEval(p, x)
  {
    assert ([c] + p)[1..] == p;
  }

  /** Leibniz's rule. */
  lemma {:induction false} DEvalMul(p: seq<int>, r: seq<int>, x: int)
    ensures DEval(Mul(p, r), x) == DEval(p, x) * Eval(r, x) + Eval(p, x) * DEval(r, x)
  {
    if |p| != 0 {
      var m := Mul(p[1..], r);
      DEvalMul(p[1..], r, x);
      EvalMul(p[1..], r, x);
      DEvalScale(p[0], r, x);
      DEvalCons(0, m, x);
      DEvalAdd(Scale(p[0], r), [0] + m, x);
      LeibnizStep(p[0], x, Eval(p[1..], x), DEval(p[1..], x), Eval(r, x), DEval(r, x), Eval(m, x), DEval(m, x));
    }
  }

  lemma LeibnizStep(c: int, x: int, a: int, a': int, b: int, b': int, m: int, m': int)
    requires m == a * b && m' == a' * b + a * b'
    ensures c * b' + (m + x * m') == (a + x * a') * b + (c + x * a) * b'
  {
    MulEq(x, m', a' * b + a * b');
  }

  lemma PCongDEval(p: seq<int>, r: seq<int>, x: int, q: int)
    requires q > 0 && PCong(p, r, q)
    ensures Cong(DEval(p, x), DEval(r, x), q)
    decreases |p| + |r|
  {
    if |p| != 0 || |r| != 0 {
      forall i ensures Cong(Coef(Tail(p), i), Coef(Tail(r), i), q) {
        assert Cong(Coef(p, i + 1), Coef(r, i + 1), q);
      }
      PCongDEval(Tail(p), Tail(r), x, q);
      PCongEval(Tail(p), Tail(r), x, q);
      CongScale(DEval(Tail(p), x), DEval(Tail(r), x), x, q);
      CongAdd(Eval(Tail(p), x), Eval(Tail(r), x), x * DEval(Tail(p), x), x * DEval(Tail(r), x), q);
    }
  }
}
