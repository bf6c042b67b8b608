/** The discrete Fourier transform over Z_q on lengths 2^e: the two butterfly identities,
    and the theorem that the transform with the inverse root undoes the transform. */
module Dft {
  import opened ModArith
  import opened Poly

  function Evens(a: seq<int>): (r: seq<int>)
    ensures |r| == (|a| + 1) / 2 && forall i :: 0 <= i < |r| ==> r[i] == a[2 * i]
  {
    seq((|a| + 1) / 2, i requires 0 <= i < (|a| + 1) / 2 => a[2 * i])
  }

  function Odds(a: seq<int>): (r: seq<int>)
    ensures |r| == |a| / 2 && forall i :: 0 <= i < |r| ==> r[i] == a[2 * i + 1]
  {
    seq(|a| / 2, i requires 0 <= i < |a| / 2 => a[2 * i + 1])
  }

  /** Values of a at the powers of w. */
  function Transform(a: seq<int>, w: int, q: int): (y: seq<int>)
    requires q > 0
    ensures |y| == |a| && forall k :: 0 <= k < |a| ==> y[k] == Eval(a, Pow(w, k)) % q
  {
    seq(|a|, k requires 0 <= k < |a| => Eval(a, Pow(w, k)) % q)
  }

  /** rt[t] is the root used by the stage of length 2^t: each is the square of the next, rt[1] is -1. */
  ghost predicate Roots(rt: seq<int>, q: int)
    requires q > 0
  {
    && |rt| >= 1 && Cong(rt[0], 1, q)
    && (|rt| >= 2 ==> Cong(rt[1], -1, q))
    && forall t :: 0 <= t < |rt| - 1 ==> Cong(rt[t + 1] * rt[t + 1], rt[t], q)
  }

  lemma {:induction false} EvalCongArg(p: seq<int>, x: int, y: int, q: int)
    requires q > 0 && Cong(x, y, q)
    ensures Cong(Eval(p, x), Eval(p, y), q)
  {
    if |p| != 0 {
      EvalCongArg(p[1..], x, y, q);
      CongMul(x, y, Eval(p[1..], x), Eval(p[1..], y), q);
      CongAdd(p[0], p[0], x * Eval(p[1..], x), y * Eval(p[1..], y), q);
    }
  }

  lemma {:induction false} EvalSplit(a: seq<int>, x: int)
    requires |a| % 2 == 0
    ensures Eval(a, x) == Eval(Evens(a), x * x) + x * Eval(Odds(a), x * x)
  {
    if |a| != 0 {
      var b := a[2..];
      EvalSplit(b, x);
      assert Evens(a) == [a[0]] + Evens(b);
      assert Odds(a) == [a[1]] + Odds(b);
      EvalCons(a[0], Evens(b), x * x);
      EvalCons(a[1], Odds(b), x * x);
      assert a[1..][1..] == b;
      SplitStep(a[0], a[1], x, Eval(b, x), Eval(Evens(b), x * x), Eval(Odds(b), x * x));
    }
  }

  lemma SplitStep(c: int, d: int, x: int, e: int, a: int, b: int)
    requires e == a + x * b
    ensures c + x * (d + x * e) == (c + x * x * a) + x * (d + x * x * b)
  {
    MulEq(x, e, a + x * b);
    MulEq(x, x * e, x * a + x * (x * b));
    assert x * (x * a) == x * x * a;
    assert x * (x * (x * b)) == x * (x * x * b);
  }

  /** The root of order 2^t raised to 2^t is 1, and raised to half of that is -1. */
  lemma {:induction false} RootPower(rt: seq<int>, t: nat, q: int)
    requires q > 0 && t < |rt| && Roots(rt, q)
    ensures Cong(Pow(rt[t], Pow2(t)), 1, q)
    ensures t >= 1 ==> Cong(Pow(rt[t], Pow2(t - 1)), -1, q)
  {
    if t == 0 {
      assert Pow(rt[0], 1) == rt[0] * Pow(rt[0], 0);
    } else if t == 1 {
      assert Pow(rt[1], 1) == rt[1] * Pow(rt[1], 0);
      assert Pow(rt[1], 2) == rt[1] * Pow(rt[1], 1);
      assert Pow2(1) == 2 * Pow2(0);
      CongMul(rt[1], -1, rt[1], -1, q);
    } else {
      RootPower(rt, t - 1, q);
      SquarePower(rt[t], rt[t - 1], Pow2(t - 1), q);
      SquarePower(rt[t], rt[t - 1], Pow2(t - 2), q);
      assert Pow2(t) == 2 * Pow2(t - 1) && Pow2(t - 1) == 2 * Pow2(t - 2);
    }
  }

  /** w*w = v gives w^(2n) = v^n. */
  lemma SquarePower(w: int, v: int, n: nat, q: int)
    requires q > 0 && Cong(w * w, v, q)
    ensures Cong(Pow(w, 2 * n), Pow(v, n), q)
  {
    PowMul(w, 2, n);
    assert Pow(w, 1) == w * Pow(w, 0);
    assert Pow(w, 2) == w * Pow(w, 1) == w * w;
    PowCong(w * w, v, n, q);
  }

  /** (w^k)^2 = v^k. */
  lemma PowerSquared(w: int, v: int, k: nat, q: int)
    requires q > 0 && Cong(w * w, v, q)
    ensures Cong(Pow(w, k) * Pow(w, k), Pow(v, k), q)
  {
    PowProduct(w, w, k);
    PowCong(w * w, v, k, q);
  }

  /** A transform of length 2h from the transforms of its even and odd parts, below h. */
  lemma ButterflyLow(a: seq<int>, w: int, v: int, k: nat, q: int)
    requires q > 0 && |a| % 2 == 0 && Cong(w * w, v, q)
    ensures Cong(Eval(a, Pow(w, k)), Eval(Evens(a), Pow(v, k)) + Pow(w, k) * Eval(Odds(a), Pow(v, k)), q)
  {
    var x, y := Pow(w, k), Pow(v, k);
    EvalSplit(a, x);
    PowerSquared(w, v, k, q);
    EvalCongArg(Evens(a), x * x, y, q);
    EvalCongArg(Odds(a), x * x, y, q);
    CongScale(Eval(Odds(a), x * x), Eval(Odds(a), y), x, q);
    CongAdd(Eval(Evens(a), x * x), Eval(Evens(a), y), x * Eval(Odds(a), x * x), x * Eval(Odds(a), y), q);
  }

  lemma EvalSplitNegated(a: seq<int>, x: int)
    requires |a| % 2 == 0
    ensures Eval(a, -x) == Eval(Evens(a), x * x) - x * Eval(Odds(a), x * x)
  {
    EvalSplit(a, -x);
    assert (-x) * (-x) == x * x;
  }

  /** The same at h + k, where w^h = -1. */
  lemma ButterflyHigh(a: seq<int>, w: int, v: int, h: nat, k: nat, q: int)
    requires q > 0 && |a| % 2 == 0 && Cong(w * w, v, q) && Cong(Pow(w, h), -1, q)
    ensures Cong(Eval(a, Pow(w, h + k)), Eval(Evens(a), Pow(v, k)) - Pow(w, k) * Eval(Odds(a), Pow(v, k)), q)
  {
    hide Eval, Pow;
    var x, y := Pow(w, k), Pow(v, k);
    PowAdd(w, h, k);
    CongScale(Pow(w, h), -1, x, q);
    assert Cong(Pow(w, h + k), -x, q);
    EvalCongArg(a, Pow(w, h + k), -x, q);
    EvalSplitNegated(a, x);
    PowerSquared(w, v, k, q);
    EvalCongArg(Evens(a), x * x, y, q);
    EvalCongArg(Odds(a), x * x, y, q);
    CongScale(Eval(Odds(a), x * x), Eval(Odds(a), y), x, q);
    CongSub(Eval(Evens(a), x * x), Eval(Evens(a), y), x * Eval(Odds(a), x * x), x * Eval(Odds(a), y), q);
  }

  // ---- inversion ----

  /** lo + hi, the vector whose transform is the even half of the transform of lo ++ hi. */
  function Fold(a: seq<int>, h: nat): (u: seq<int>)
    requires |a| == 2 * h
    ensures |u| == h
  {
    seq(h, i requires 0 <= i < h => a[i] + a[h + i])
  }

  /** (lo - hi) twisted by the powers of w, which gives the odd half. */
  function Twist(a: seq<int>, h: nat, w: int): (v: seq<int>)
    requires |a| == 2 * h
    ensures |v| == h
  {
    seq(h, i requires 0 <= i < h => (a[i] - a[h + i]) * Pow(w, i))
  }

  lemma {:induction false} EvalPointwise(p: seq<int>, r: seq<int>, s: seq<int>, c: int, w: int, x: int)
    requires |p| == |r| == |s|
    requires forall i :: 0 <= i < |p| ==> s[i] == (p[i] + c * r[i]) * Pow(w, i)
    ensures Eval(s, x) == Eval(p, w * x) + c * Eval(r, w * x)
    decreases |p|
  {
    hide Eval, Pow;
    if |p| == 0 {
      assert p == [] && r == [] && s == [];
      assert Eval([], x) == 0 && Eval([], w * x) == 0 by { EvalNothing(x); EvalNothing(w * x); }
    } else {
      var n := |p| - 1;
      assert p == p[..n] + [p[n]] && r == r[..n] + [r[n]] && s == s[..n] + [s[n]];
      EvalPointwise(p[..n], r[..n], s[..n], c, w, x);
      EvalSnoc(p[..n], p[n], w * x);
      EvalSnoc(r[..n], r[n], w * x);
      EvalSnoc(s[..n], s[n], x);
      PowProduct(w, x, n);
      PointwiseStep(Pow(x, n), Pow(w, n), Pow(w * x, n), p[n], r[n], c, s[n],
                    Eval(p[..n], w * x), Eval(r[..n], w * x), Eval(r, w * x));
    }
  }

  lemma EvalNothing(x: int)
    ensures Eval([], x) == 0
  {
  }

  lemma PointwiseStep(xn: int, wn: int, wxn: int, p: int, r: int, c: int, s: int, e: int, f: int, f': int)
    requires wxn == wn * xn && s == (p + c * r) * wn && f' == f + wxn * r
    ensures (e + c * f) + xn * s == (e + wxn * p) + c * f'
  {
    MulEq(c, f', f + wxn * r);
    MulEq(xn, s, (p + c * r) * wn);
    assert xn * ((p + c * r) * wn) == (wn * xn) * (p + c * r);
    MulEq(p + c * r, wxn, wn * xn);
    assert (p + c * r) * wxn == wxn * p + c * (wxn * r);
  }

  /** Value of lo ++ hi at x, when x^h is the sign c. */
  lemma EvalHalves(a: seq<int>, h: nat, x: int, c: int, q: int)
    requires q > 0 && |a| == 2 * h && Cong(Pow(x, h), c, q)
    ensures Cong(Eval(a, x), Eval(a[..h], x) + c * Eval(a[h..], x), q)
  {
    assert a == a[..h] + a[h..];
    EvalConcat(a[..h], a[h..], x);
    CongScale(Pow(x, h), c, Eval(a[h..], x), q);
    CongAdd(Eval(a[..h], x), Eval(a[..h], x), Pow(x, h) * Eval(a[h..], x), c * Eval(a[h..], x), q);
  }

  lemma EvenHalf(a: seq<int>, h: nat, w: int, v: int, k: nat, q: int)
    requires q > 0 && |a| == 2 * h && Cong(w * w, v, q) && Cong(Pow(w, 2 * h), 1, q)
    ensures Cong(Eval(a, Pow(w, 2 * k)), Eval(Fold(a, h), Pow(v, k)), q)
  {
    hide Eval, Pow;
    var x := Pow(w, 2 * k);
    RootOfUnityPower(w, h, k, q);
    EvalHalves(a, h, x, 1, q);
    forall i | 0 <= i < h ensures Fold(a, h)[i] == (a[..h][i] + 1 * a[h..][i]) * Pow(1, i) { PowOne(i); }
    EvalPointwise(a[..h], a[h..], Fold(a, h), 1, 1, x);
    SquarePower(w, v, k, q);
    EvalCongArg(Fold(a, h), x, Pow(v, k), q);
  }

  /** (w^(2k))^h = 1 when w^(2h) = 1. */
  lemma RootOfUnityPower(w: int, h: nat, k: nat, q: int)
    requires q > 0 && Cong(Pow(w, 2 * h), 1, q)
    ensures Cong(Pow(Pow(w, 2 * k), h), 1, q)
  {
    PowMul(w, k, 2);
    PowMul(Pow(w, k), 2, h);
    PowSwap(w, k, 2 * h);
    PowCong(Pow(w, 2 * h), 1, k, q);
    PowOne(k);
  }

  lemma OddHalf(a: seq<int>, h: nat, w: int, v: int, k: nat, q: int)
    requires q > 0 && |a| == 2 * h && Cong(w * w, v, q) && Cong(Pow(w, 2 * h), 1, q) && Cong(Pow(w, h), -1, q)
    ensures Cong(Eval(a, Pow(w, 2 * k + 1)), Eval(Twist(a, h, w), Pow(v, k)), q)
  {
    var x := Pow(w, 2 * k);
    assert Pow(w, 2 * k + 1) == w * x;
    RootOfUnityPower(w, h, k, q);
    PowProduct(w, x, h);
    CongMul(Pow(w, h), -1, Pow(x, h), 1, q);
    EvalHalves(a, h, w * x, -1, q);
    EvalPointwise(a[..h], a[h..], Twist(a, h, w), -1, w, x);
    SquarePower(w, v, k, q);
    EvalCongArg(Twist(a, h, w), x, Pow(v, k), q);
  }

  ghost predicate InverseRoots(rt: seq<int>, ir: seq<int>, q: int)
    requires q > 0
  {
    Roots(rt, q) && Roots(ir, q) && |rt| == |ir|
    && forall t :: 0 <= t < |rt| ==> Cong(rt[t] * ir[t], 1, q)
  }

  /** The even and odd halves of a transform are transforms of Fold and Twist. */
  lemma TransformHalves(a: seq<int>, rt: seq<int>, e: nat, q: int)
    requires q > 0 && Roots(rt, q) && 1 <= e < |rt| && |a| == Pow2(e)
    ensures var y, h := Transform(a, rt[e], q), Pow2(e - 1);
      Evens(y) == Transform(Fold(a, h), rt[e - 1], q) && Odds(y) == Transform(Twist(a, h, rt[e]), rt[e - 1], q)
  {
    var y, h := Transform(a, rt[e], q), Pow2(e - 1);
    RootPower(rt, e, q);
    assert Cong(rt[e - 1 + 1] * rt[e - 1 + 1], rt[e - 1], q);
    forall k | 0 <= k < h
      ensures Evens(y)[k] == Transform(Fold(a, h), rt[e - 1], q)[k]
      ensures Odds(y)[k] == Transform(Twist(a, h, rt[e]), rt[e - 1], q)[k]
    {
      EvenHalf(a, h, rt[e], rt[e - 1], k, q);
      OddHalf(a, h, rt[e], rt[e - 1], k, q);
    }
  }

  /** Transforming with rt and then with the inverse roots multiplies every entry by 2^e. */
  lemma {:induction false} TransformTwice(a: seq<int>, rt: seq<int>, ir: seq<int>, e: nat, k: nat, q: int)
    requires q > 0 && InverseRoots(rt, ir, q) && e < |rt| && |a| == Pow2(e) && k < |a|
    ensures Cong(Eval(Transform(a, rt[e], q), Pow(ir[e], k)), Pow2(e) * a[k], q)
    decreases e
  {
    var y := Transform(a, rt[e], q);
    if e == 0 {
      TransformOne(a, rt[0], ir[0], q);
    } else {
      var h := Pow2(e - 1);
      var j := if k < h then k else k - h;
      var u, v := Fold(a, h), Twist(a, h, rt[e]);
      hide Eval, Pow, Fold, Twist, Roots, Evens, Odds, Transform;
      TransformHalves(a, rt, e, q);
      TransformTwice(u, rt, ir, e - 1, j, q);
      TransformTwice(v, rt, ir, e - 1, j, q);
      Recombine(a, y, rt, ir, e, k, j, q);
    }
  }

  lemma TransformOne(a: seq<int>, w: int, v: int, q: int)
    requires q > 0 && |a| == 1
    ensures Cong(Eval(Transform(a, w, q), Pow(v, 0)), a[0], q)
  {
    var y := Transform(a, w, q);
    assert a == [a[0]] + [] && y == [y[0]] + [];
    EvalCons(a[0], [], Pow(w, 0));
    EvalCons(y[0], [], Pow(v, 0));
    assert Eval([], Pow(w, 0)) == 0 == Eval([], Pow(v, 0));
    assert y[0] == a[0] % q;
    CongMod(a[0], q);
  }

  /** The induction step of TransformTwice. */
  lemma Recombine(a: seq<int>, y: seq<int>, rt: seq<int>, ir: seq<int>, e: nat, k: nat, j: nat, q: int)
    requires q > 0 && InverseRoots(rt, ir, q) && 1 <= e < |rt| && |a| == |y| == Pow2(e) && k < |a|
    requires j == if k < Pow2(e - 1) then k else k - Pow2(e - 1)
    requires Cong(Eval(Evens(y), Pow(ir[e - 1], j)), Pow2(e - 1) * Fold(a, Pow2(e - 1))[j], q)
    requires Cong(Eval(Odds(y), Pow(ir[e - 1], j)), Pow2(e - 1) * Twist(a, Pow2(e - 1), rt[e])[j], q)
    ensures Cong(Eval(y, Pow(ir[e], k)), Pow2(e) * a[k], q)
  {
    hide Eval, Pow;
    var h := Pow2(e - 1);
    assert Cong(ir[e - 1 + 1] * ir[e - 1 + 1], ir[e - 1], q);
    RootPower(ir, e, q);
    PowProduct(rt[e], ir[e], j);
    PowCong(rt[e] * ir[e], 1, j, q);
    PowOne(j);
    var s, t := Eval(Evens(y), Pow(ir[e - 1], j)), Eval(Odds(y), Pow(ir[e - 1], j));
    if k < h {
      ButterflyLow(y, ir[e], ir[e - 1], j, q);
      RecombineLow(s, t, Pow(rt[e], j), Pow(ir[e], j), h, a[j], a[h + j], q);
    } else {
      ButterflyHigh(y, ir[e], ir[e - 1], h, j, q);
      RecombineHigh(s, t, Pow(rt[e], j), Pow(ir[e], j), h, a[j], a[h + j], q);
    }
  }

  lemma Untwist(t: int, wk: int, ik: int, h: int, d: int, q: int)
    requires q > 0 && Cong(t, h * (d * wk), q) && Cong(wk * ik, 1, q)
    ensures Cong(ik * t, h * d, q)
  {
    CongScale(t, h * (d * wk), ik, q);
    CongScale(wk * ik, 1, h * d, q);
    assert ik * (h * (d * wk)) == (wk * ik) * (h * d);
  }

  lemma RecombineLow(s: int, t: int, wk: int, ik: int, h: int, lo: int, hi: int, q: int)
    requires q > 0 && Cong(s, h * (lo + hi), q) && Cong(t, h * ((lo - hi) * wk), q) && Cong(wk * ik, 1, q)
    ensures Cong(s + ik * t, 2 * h * lo, q)
  {
    Untwist(t, wk, ik, h, lo - hi, q);
    CongAdd(s, h * (lo + hi), ik * t, h * (lo - hi), q);
    assert h * (lo + hi) + h * (lo - hi) == 2 * h * lo;
  }

  lemma RecombineHigh(s: int, t: int, wk: int, ik: int, h: int, lo: int, hi: int, q: int)
    requires q > 0 && Cong(s, h * (lo + hi), q) && Cong(t, h * ((lo - hi) * wk), q) && Cong(wk * ik, 1, q)
    ensures Cong(s - ik * t, 2 * h * hi, q)
  {
    Untwist(t, wk, ik, h, lo - hi, q);
    CongSub(s, h * (lo + hi), ik * t, h * (lo - hi), q);
    assert h * (lo + hi) - h * (lo - hi) == 2 * h * hi;
  }
}
