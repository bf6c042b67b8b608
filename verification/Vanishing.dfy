/** Vanishing polynomials prod (X - x_i), exactly over the integers. */
module Vanishing {
  import opened ModArith
  import opened Poly
  import opened PolyOps

  function Vanish(xs: seq<int>): seq<int> {
    if |xs| == 0 then [1] else Mul([-xs[0], 1], Vanish(xs[1..]))
  }

  lemma EvalTimesLinear(r: int, t: seq<int>, x: int)
    ensures Eval(Mul([-r, 1], t), x) == (x - r) * Eval(t, x)
  {
    hide *;
    EvalMul([-r, 1], t, x);
    EvalLinear(-r, x);
    MulEq(Eval(t, x), Eval([-r, 1], x), x - r);
  }

  lemma VanishStep(xs: seq<int>, x: int)
    requires |xs| > 0
    ensures Eval(Vanish(xs), x) == (x - xs[0]) * Eval(Vanish(xs[1..]), x)
  {
    hide Eval, Mul;
    EvalTimesLinear(xs[0], Vanish(xs[1..]), x);
  }

  lemma VanishEmpty(x: int)
    ensures Eval(Vanish([]), x) == 1
  {
    EvalCons(1, [], x);
    assert [1] == [1] + [];
  }

  lemma {:induction false} VanishConcat(xs: seq<int>, ys: seq<int>, x: int)
    ensures Eval(Vanish(xs + ys), x) == Eval(Vanish(xs), x) * Eval(Vanish(ys), x)
  {
    if |xs| == 0 {
      VanishEmpty(x);
      assert xs + ys == ys;
    } else {
      hide *;
      VanishConcat(xs[1..], ys, x);
      VanishStep(xs, x);
      VanishStep(xs + ys, x);
      assert (xs + ys)[1..] == xs[1..] + ys;
      MulAssoc(x - xs[0], Eval(Vanish(xs[1..]), x), Eval(Vanish(ys), x), Eval(Vanish(xs[1..] + ys), x));
    }
  }

  lemma MulAssoc(d: int, a: int, b: int, m: int)
    requires m == a * b
    ensures d * m == (d * a) * b
  {
  }

  lemma {:induction false} VanishRoot(xs: seq<int>, k: nat)
    requires k < |xs|
    ensures Eval(Vanish(xs), xs[k]) == 0
  {
    VanishStep(xs, xs[k]);
    if k > 0 {
      VanishRoot(xs[1..], k - 1);
    }
  }

  lemma {:induction false} VanishShape(xs: seq<int>)
    ensures |Vanish(xs)| == |xs| + 1 && Vanish(xs)[|xs|] == 1
  {
    if |xs| > 0 {
      var t := Vanish(xs[1..]);
      VanishShape(xs[1..]);
      MulLength([-xs[0], 1], t);
      LeadCoef([-xs[0], 1], t);
      assert Coef(Mul([-xs[0], 1], t), |xs|) == 1 * t[|t| - 1];
    }
  }

  /** The canonical form of a vanishing polynomial is monic and keeps its degree. */
  lemma NormVanishShape(xs: seq<int>, q: int)
    requires q > 1
    ensures var p := Norm(Vanish(xs), q);
      Canon(p, q) && |p| == |xs| + 1 && p[|xs|] == 1 && PCong(p, Vanish(xs), q)
  {
    var v := Vanish(xs);
    VanishShape(xs);
    NormCanon(v, q);
    ModSmall(1, q);
    TrimShape(Red(v, q));
    assert Coef(Trim(Red(v, q)), |xs|) == Coef(Red(v, q), |xs|) == 1;
  }

  lemma NormVanishLeaf(x: int, q: int)
    requires q > 1
    ensures LinearFromRoot(x, q) == Norm(Vanish([x]), q)
  {
    LinearFromRootCorrect(x, q);
    VanishShape([x]);
    assert [x][1..] == [];
    forall y ensures Eval([-x, 1], y) == Eval(Vanish([x]), y) {
      VanishStep([x], y);
      VanishEmpty(y);
      EvalLinear(-x, y);
    }
    PCongSame([-x, 1], Vanish([x]), q);
    PCongTrans(LinearFromRoot(x, q), [-x, 1], Vanish([x]), q);
    NormUnique(LinearFromRoot(x, q), Vanish([x]), q);
  }

  /** The product of two nodes of a subproduct tree is the node of their joined points. */
  lemma NormVanishProduct(xs: seq<int>, ys: seq<int>, q: int)
    requires q > 1
    ensures Product(Norm(Vanish(xs), q), Norm(Vanish(ys), q), q) == Norm(Vanish(xs + ys), q)
  {
    var u, v := Norm(Vanish(xs), q), Norm(Vanish(ys), q);
    NormVanishShape(xs, q);
    NormVanishShape(ys, q);
    VanishShape(xs + ys);
    MulLength(u, v);
    NormCanon(Mul(u, v), q);
    assert Product(u, v, q) == Norm(Mul(u, v), q);
    hide *;
    PCongMul(u, Vanish(xs), v, Vanish(ys), q);
    forall x ensures Eval(Mul(Vanish(xs), Vanish(ys)), x) == Eval(Vanish(xs + ys), x) {
      EvalMul(Vanish(xs), Vanish(ys), x);
      VanishConcat(xs, ys, x);
    }
    PCongSame(Mul(Vanish(xs), Vanish(ys)), Vanish(xs + ys), q);
    PCongTrans(Product(u, v, q), Mul(u, v), Mul(Vanish(xs), Vanish(ys)), q);
    PCongTrans(Product(u, v, q), Mul(Vanish(xs), Vanish(ys)), Vanish(xs + ys), q);
    NormUnique(Product(u, v, q), Vanish(xs + ys), q);
  }

  lemma NormVanishEmpty(q: int)
    requires q > 1
    ensures Norm(Vanish([]), q) == [1]
  {
    ModSmall(1, q);
    assert Red([1], q) == [1];
  }

  /** A point of the group is a root of the node modulo q. */
  lemma NodeRoot(xs: seq<int>, k: nat, q: int)
    requires q > 1 && k < |xs|
    ensures Cong(Eval(Norm(Vanish(xs), q), xs[k]), 0, q)
  {
    NormVanishShape(xs, q);
    PCongEval(Norm(Vanish(xs), q), Vanish(xs), xs[k], q);
    VanishRoot(xs, k);
  }

  /** Over a prime field the vanishing polynomial has no other roots. */
  lemma {:induction false} RootsOnly(xs: seq<int>, x: int, q: int)
    requires Prime(q) && Cong(Eval(Vanish(xs), x), 0, q)
    ensures exists k :: 0 <= k < |xs| && Cong(x, xs[k], q)
  {
    ModSmall(0, q);
    if |xs| == 0 {
      VanishEmpty(x);
      ModSmall(1, q);
      assert false;
    } else {
      VanishStep(xs, x);
      EuclidLemma(x - xs[0], Eval(Vanish(xs[1..]), x), q);
      if (x - xs[0]) % q == 0 {
        CongDiff(x, xs[0], q);
        assert Cong(x, xs[0], q);
      } else {
        RootsOnly(xs[1..], x, q);
        var k :| 0 <= k < |xs[1..]| && Cong(x, xs[1..][k], q);
        assert xs[k + 1] == xs[1..][k];
      }
    }
  }
}
