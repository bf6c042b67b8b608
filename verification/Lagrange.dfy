/** Lagrange's formula over Z_q as one exact polynomial, and the interpolating polynomial it defines. */
module Lagrange {
  import opened ModArith
  import opened Poly
  import opened PolyOps
  import opened Vanishing
  import Dft

  /** sum_k ws[k] * prod_{j != k} (X - xs[j]). */
  function Comb(xs: seq<int>, ws: seq<int>): seq<int>
    requires |xs| == |ws|
  {
    if |xs| <= 1 then ws
    else Add(Scale(ws[0], Vanish(xs[1..])), Mul([-xs[0], 1], Comb(xs[1..], ws[1..])))
  }

  /** The points other than the k-th. */
  function Without(xs: seq<int>, k: nat): seq<int>
    requires k < |xs|
  {
    xs[..k] + xs[k + 1..]
  }

  lemma CombStep(xs: seq<int>, ws: seq<int>, x: int)
    requires |xs| == |ws| > 0
    ensures Eval(Comb(xs, ws), x)
         == ws[0] * Eval(Vanish(xs[1..]), x) + (x - xs[0]) * Eval(Comb(xs[1..], ws[1..]), x)
  {
    hide Eval, Vanish, Mul, Add, Scale;
    if |xs| == 1 {
      CombOne(xs[0], ws[0], x);
      assert xs == [xs[0]] && ws == [ws[0]] && xs[1..] == [] && ws[1..] == [];
    } else {
      EvalCombined(ws[0], Vanish(xs[1..]), xs[0], Comb(xs[1..], ws[1..]), x);
    }
  }

  lemma CombOne(r: int, w: int, x: int)
    ensures Eval([w], x) == w * Eval(Vanish([]), x) + (x - r) * Eval([], x)
  {
    VanishEmpty(x);
    assert [w] == [w] + [];
    EvalCons(w, [], x);
    assert Eval([], x) == 0;
  }

  lemma EvalCombined(w: int, v: seq<int>, r: int, t: seq<int>, x: int)
    ensures Eval(Add(Scale(w, v), Mul([-r, 1], t)), x) == w * Eval(v, x) + (x - r) * Eval(t, x)
  {
    hide *;
    EvalAdd(Scale(w, v), Mul([-r, 1], t), x);
    EvalScale(w, v, x);
    EvalTimesLinear(r, t, x);
  }

  lemma {:induction false} CombShape(xs: seq<int>, ws: seq<int>)
    requires |xs| == |ws|
    ensures |Comb(xs, ws)| == |xs|
  {
    if |xs| > 1 {
      var t, v := Comb(xs[1..], ws[1..]), Vanish(xs[1..]);
      CombShape(xs[1..], ws[1..]);
      VanishShape(xs[1..]);
      ScaleShape(ws[0], v);
      MulLength([-xs[0], 1], t);
      AddShape(Scale(ws[0], v), Mul([-xs[0], 1], t));
    }
  }

  /** How a tree node combines its two halves. */
  lemma {:induction false} CombConcat(xs: seq<int>, ys: seq<int>, ws: seq<int>, vs: seq<int>, x: int)
    requires |xs| == |ws| && |ys| == |vs|
    ensures Eval(Comb(xs + ys, ws + vs), x)
         == Eval(Comb(xs, ws), x) * Eval(Vanish(ys), x) + Eval(Comb(ys, vs), x) * Eval(Vanish(xs), x)
  {
    hide Comb, Vanish;
    if |xs| == 0 {
      assert xs == [] && ws == [] && xs + ys == ys && ws + vs == vs;
      VanishEmpty(x);
      CombEmpty(x);
    } else {
      hide *;
      CombConcat(xs[1..], ys, ws[1..], vs, x);
      CombStep(xs, ws, x);
      CombStep(xs + ys, ws + vs, x);
      assert (xs + ys)[1..] == xs[1..] + ys && (ws + vs)[1..] == ws[1..] + vs;
      assert (xs + ys)[0] == xs[0] && (ws + vs)[0] == ws[0];
      VanishConcat(xs[1..], ys, x);
      VanishStep(xs, x);
      CombConcatStep(ws[0], x - xs[0], Eval(Comb(xs[1..], ws[1..]), x), Eval(Comb(ys, vs), x),
                     Eval(Vanish(xs[1..]), x), Eval(Vanish(ys), x), Eval(Comb(xs, ws), x),
                     Eval(Comb(xs[1..] + ys, ws[1..] + vs), x), Eval(Vanish(xs[1..] + ys), x), Eval(Vanish(xs), x));
    }
  }

  lemma CombEmpty(x: int)
    ensures Eval(Comb([], []), x) == 0
  {
  }

  lemma CombConcatStep(w: int, d: int, c: int, e: int, v: int, u: int, c': int, m: int, p: int, v': int)
    requires c' == w * v + d * c && m == c * u + e * v && p == v * u && v' == d * v
    ensures w * p + d * m == c' * u + e * v'
  {
    MulEq(w, p, v * u);
    MulEq(d, m, c * u + e * v);
    MulEq(u, c', w * v + d * c);
    MulEq(e, v', d * v);
    assert (w * v + d * c) * u == w * (v * u) + d * (c * u);
    assert d * (c * u + e * v) == d * (c * u) + e * (d * v);
  }

  /** At a node only its own term survives. */
  lemma {:induction false} CombAtNode(xs: seq<int>, ws: seq<int>, k: nat)
    requires |xs| == |ws| && k < |xs|
    ensures Eval(Comb(xs, ws), xs[k]) == ws[k] * Eval(Vanish(Without(xs, k)), xs[k])
  {
    hide Comb, Vanish, Eval;
    var x := xs[k];
    CombStep(xs, ws, x);
    if k == 0 {
      assert Without(xs, 0) == xs[1..];
    } else {
      var rest := Without(xs[1..], k - 1);
      assert Without(xs, k) == [xs[0]] + rest;
      CombAtNode(xs[1..], ws[1..], k - 1);
      VanishRoot(xs[1..], k - 1);
      assert xs[1..][k - 1] == x && ws[1..][k - 1] == ws[k];
      VanishStep([xs[0]] + rest, x);
      assert ([xs[0]] + rest)[1..] == rest;
      NodeStep(x - xs[0], ws[k], Eval(Vanish(rest), x), Eval(Comb(xs[1..], ws[1..]), x), Eval(Vanish(Without(xs, k)), x));
    }
  }

  lemma NodeStep(d: int, w: int, v: int, c: int, v': int)
    requires c == w * v && v' == d * v
    ensures d * c == w * v'
  {
    MulEq(d, c, w * v);
    MulEq(w, v', d * v);
  }

  /** The derivative of the vanishing polynomial at a root is the product of the differences. */
  lemma {:induction false} DerivativeAtRoot(xs: seq<int>, k: nat)
    requires k < |xs|
    ensures DEval(Vanish(xs), xs[k]) == Eval(Vanish(Without(xs, k)), xs[k])
  {
    hide Vanish, Eval, DEval;
    var x := xs[k];
    VanishDerivative(xs, x);
    if k == 0 {
      assert Without(xs, 0) == xs[1..];
    } else {
      var rest := Without(xs[1..], k - 1);
      assert Without(xs, k) == [xs[0]] + rest;
      DerivativeAtRoot(xs[1..], k - 1);
      VanishRoot(xs[1..], k - 1);
      assert xs[1..][k - 1] == x;
      VanishStep([xs[0]] + rest, x);
      assert ([xs[0]] + rest)[1..] == rest;
    }
  }

  lemma VanishDerivative(xs: seq<int>, x: int)
    requires |xs| > 0
    ensures DEval(Vanish(xs), x) == Eval(Vanish(xs[1..]), x) + (x - xs[0]) * DEval(Vanish(xs[1..]), x)
  {
    VanishIs(xs);
    hide *;
    var v := Vanish(xs[1..]);
    DEvalMul([-xs[0], 1], v, x);
    EvalLinear(-xs[0], x);
    DEvalLinear(-xs[0], x);
    LinearFactor(DEval([-xs[0], 1], x), Eval(v, x), Eval([-xs[0], 1], x), DEval(v, x), x - xs[0]);
  }

  lemma LinearFactor(slope: int, rest: int, factor: int, restSlope: int, c: int)
    requires slope == 1 && factor == c
    ensures slope * rest + factor * restSlope == rest + c * restSlope
  {
    MulEq(rest, slope, 1);
    MulEq(restSlope, factor, c);
  }

  lemma VanishIs(xs: seq<int>)
    requires |xs| > 0
    ensures Vanish(xs) == Mul([-xs[0], 1], Vanish(xs[1..]))
  {
  }

  lemma DEvalLinear(c: int, x: int)
    ensures DEval([c, 1], x) == 1
  {
    assert [c, 1] == [c] + [1] && [1] == [1] + [];
    DEvalCons(c, [1], x);
    DEvalCons(1, [], x);
    EvalCons(1, [], x);
    assert Eval([], x) == 0 && DEval([], x) == 0;
  }

  /** The denominator of a node is invertible exactly when no other node coincides with it. */
  lemma DenominatorZero(xs: seq<int>, k: nat, q: int)
    requires Prime(q) && k < |xs|
    ensures Cong(Eval(Vanish(Without(xs, k)), xs[k]), 0, q)
        <==> exists j :: 0 <= j < |xs| && j != k && Cong(xs[k], xs[j], q)
  {
    var rest, x := Without(xs, k), xs[k];
    if Cong(Eval(Vanish(rest), x), 0, q) {
      RootsOnly(rest, x, q);
      var i :| 0 <= i < |rest| && Cong(x, rest[i], q);
      assert rest[i] == xs[if i < k then i else i + 1];
    }
    if j :| 0 <= j < |xs| && j != k && Cong(xs[k], xs[j], q) {
      var i := if j < k then j else j - 1;
      assert rest[i] == xs[j];
      VanishRoot(rest, i);
      Dft.EvalCongArg(Vanish(rest), x, rest[i], q);
    }
  }

  lemma DenominatorsNonzero(xs: seq<int>, q: int)
    requires Prime(q)
    ensures Distinct(xs, q) <==> forall k :: 0 <= k < |xs| ==> Eval(Vanish(Without(xs, k)), xs[k]) % q != 0
  {
    ModSmall(0, q);
    forall k | 0 <= k < |xs| && Distinct(xs, q) ensures Eval(Vanish(Without(xs, k)), xs[k]) % q != 0 {
      DenominatorZero(xs, k, q);
    }
    if !Distinct(xs, q) {
      var i, j :| 0 <= i < j < |xs| && Cong(xs[i], xs[j], q);
      DenominatorZero(xs, i, q);
    }
  }

  // ---- the interpolating polynomial ----

  /** y_k divided by its denominator. */
  function Weights(xs: seq<int>, y: seq<int>, q: int): (w: seq<int>)
    requires q > 1 && |xs| == |y|
    ensures |w| == |y|
  {
    seq(|y|, k requires 0 <= k < |y| => (y[k] * Inv(Eval(Vanish(Without(xs, k)), xs[k]), q)) % q)
  }

  /** Lagrange's interpolating polynomial, canonical. */
  function Interpolant(xs: seq<int>, y: seq<int>, q: int): seq<int>
    requires q > 1 && |xs| == |y|
  {
    if |y| == 0 then [0] else Norm(Comb(xs, Weights(xs, y, q)), q)
  }

  /** p has fewer coefficients than there are points, or is constant, and takes the value y at every point. */
  ghost predicate Fits(p: seq<int>, xs: seq<int>, y: seq<int>, q: int)
    requires q > 0
  {
    |xs| == |y| && |p| <= |xs| && forall k :: 0 <= k < |xs| ==> Cong(Eval(p, xs[k]), y[k], q)
  }

  lemma WeightTimesDenominator(w: int, d: int, y: int, q: int)
    requires Prime(q) && d % q != 0 && w == (y * Inv(d, q)) % q
    ensures Cong(w * d, y, q)
  {
    InvCorrect(d, q);
    ModSmall(1, q);
    UndoDivision(w, d, Inv(d, q), y, q);
  }

  lemma UndoDivision(w: int, d: int, i: int, y: int, q: int)
    requires q > 0 && Cong(d * i, 1, q) && w == (y * i) % q
    ensures Cong(w * d, y, q)
  {
    CongMod(y * i, q);
    CongScale(w, y * i, d, q);
    CongScale(d * i, 1, y, q);
    assert y * i * d == d * i * y;
  }

  /** It takes the given values. */
  lemma InterpolantFits(xs: seq<int>, y: seq<int>, q: int)
    requires Prime(q) && |xs| == |y| > 0 && Distinct(xs, q)
    ensures Fits(Interpolant(xs, y, q), xs, y, q) && Canon(Interpolant(xs, y, q), q)
  {
    var ws := Weights(xs, y, q);
    CombShape(xs, ws);
    NormCanon(Comb(xs, ws), q);
    DenominatorsNonzero(xs, q);
    forall k | 0 <= k < |xs| ensures Cong(Eval(Interpolant(xs, y, q), xs[k]), y[k], q) {
      var d := Eval(Vanish(Without(xs, k)), xs[k]);
      PCongEval(Norm(Comb(xs, ws), q), Comb(xs, ws), xs[k], q);
      CombAtNode(xs, ws, k);
      WeightTimesDenominator(ws[k], d, y[k], q);
    }
  }

  /** No other polynomial of so few coefficients does: evaluating and interpolating are mutually inverse. */
  lemma InterpolantUnique(p: seq<int>, xs: seq<int>, y: seq<int>, q: int)
    requires Prime(q) && |p| > 0 && Distinct(xs, q) && Fits(p, xs, y, q)
    ensures Norm(p, q) == Interpolant(xs, y, q)
  {
    var r := Interpolant(xs, y, q);
    InterpolantFits(xs, y, q);
    forall i | 0 <= i < |xs| ensures Cong(Eval(r, xs[i]), Eval(p, xs[i]), q) {
      assert Cong(Eval(p, xs[i]), y[i], q) && Cong(Eval(r, xs[i]), y[i], q);
    }
    InterpolationUnique(r, p, xs, q);
    NormUnique(r, p, q);
  }

  /** So wherever p fits, the interpolant has p's value at every point of the field. */
  lemma InterpolantValue(p: seq<int>, xs: seq<int>, y: seq<int>, t: int, q: int)
    requires Prime(q) && Distinct(xs, q) && Fits(p, xs, y, q) && |y| > 0
    ensures Cong(Eval(Interpolant(xs, y, q), t), Eval(p, t), q)
  {
    var r := Interpolant(xs, y, q);
    InterpolantFits(xs, y, q);
    forall i | 0 <= i < |xs| ensures Cong(Eval(r, xs[i]), Eval(p, xs[i]), q) {
      assert Cong(Eval(p, xs[i]), y[i], q) && Cong(Eval(r, xs[i]), y[i], q);
    }
    InterpolationUnique(r, p, xs, q);
    PCongEval(r, p, t, q);
  }
}
