/** PSI over the exchanges that carry it: whatever the interleaving, lanes, chunks and masks, the receiver's output
    is exact. */
module PsiRuns {
  import opened Poly
  import opened PolyOps
  import opened Engine
  import opened Vanishing
  import opened Lagrange
  import opened ProductTree
  import opened Barycentric
  import opened Psi
  import opened ClassGroup
  import opened Chain
  import opened ChainRuns
  import opened Phases
  import opened LockStep
  import opened LockStepRuns
  import opened RfOle

  /** The exchange runs on the parties' evaluations of r_A, p_B and p_A * r'_A at the public points. */
  ghost predicate PsiBatch(c: Config, setA: seq<int>, setB: seq<int>, rA: seq<int>, rPrime: seq<int>, w: Batch)
    requires c.q > 1
  {
    var alpha := PublicPoints(c, Points(c, |setA|, |setB|));
    && Evaluated(w.a, rA, alpha, c.q) && Evaluated(w.x, Norm(Vanish(setB), c.q), alpha, c.q)
    && Evaluated(w.b, PolyOps.Product(Norm(Vanish(setA), c.q), rPrime, c.q), alpha, c.q)
  }

  ghost predicate PsiOk(c: Config, setA: seq<int>, setB: seq<int>, rA: seq<int>, rPrime: seq<int>) {
    && EngineOk(c) && ValidSet(c, setA) && ValidSet(c, setB) && ExchangeAllowed(c, |setA|, |setB|)
    && |rA| == |setA| + 1 && |rPrime| == |setB| + 1
  }

  function Values<T>(buf: seq<Item<T>>): (y: seq<int>)
    ensures |y| == |buf|
  {
    seq(|buf|, i requires 0 <= i < |buf| => if buf[i].Plain? then buf[i].v else 0)
  }

  /** The receiver's last step on y: it succeeds exactly if the evaluation mode allows it, and then its zero test
      gives the accepted elements in the order of S_B. */
  ghost predicate ExactFinish(c: Config, setA: seq<int>, setB: seq<int>, rA: seq<int>, rPrime: seq<int>, y: seq<int>)
    requires c.q > 1
  {
    && (ReconstructionAllowed(c, y, setB) <==> ReconstructionFits(c, setA, setB, rA, rPrime))
    && forall values :: Evaluated(values, Interpolant(PublicPoints(c, |y|), y, c.q), setB, c.q) ==>
         |values| == |setB| && ZeroesOf(setB, values) == AcceptedOf(setB, setA, rPrime, c.q)
  }

  lemma ValuesAre<T>(w: Batch, q: nat)
    requires q > 0 && |w.x| == |w.a| == |w.b|
    ensures Values(Outputs<T>(w, q)) == OleValues(w.a, w.x, w.b, q)
  {
    forall i | 0 <= i < |w.x| ensures Values(Outputs<T>(w, q))[i] == OleValues(w.a, w.x, w.b, q)[i] {
      assert Outputs<T>(w, q)[i] == Plain((w.a[i] * w.x[i] + w.b[i]) % q);
    }
  }

  lemma PsiFacts(c: Config, setA: seq<int>, setB: seq<int>, rA: seq<int>, rPrime: seq<int>, w: Batch)
    requires c.q > 1 && PsiOk(c, setA, setB, rA, rPrime) && PsiBatch(c, setA, setB, rA, rPrime, w)
    ensures EngineOk(c) && ValidSet(c, setA) && ValidSet(c, setB) && |setB| > 0
    ensures |rA| == |setA| + 1 && |rPrime| == |setB| + 1
    ensures var n := Points(c, |setA|, |setB|);
      && |setA| + |setB| + 1 <= n <= c.q && (c.evalMethod == UseNtt ==> Supported(c, n))
      && |w.a| == |w.x| == |w.b| == n
      && Evaluated(w.a, rA, PublicPoints(c, n), c.q) && Evaluated(w.x, Norm(Vanish(setB), c.q), PublicPoints(c, n), c.q)
      && Evaluated(w.b, PolyOps.Product(Norm(Vanish(setA), c.q), rPrime, c.q), PublicPoints(c, n), c.q)
  {
    PointsCover(c, |setA|, |setB|);
  }

  /** OLE outputs on these inputs always lead to the exact result. */
  lemma OutputsFinish(c: Config, setA: seq<int>, setB: seq<int>, rA: seq<int>, rPrime: seq<int>, w: Batch, y: seq<int>)
    requires c.q > 1 && PsiOk(c, setA, setB, rA, rPrime) && PsiBatch(c, setA, setB, rA, rPrime, w)
    requires |w.a| == |w.x| == |w.b| && y == OleValues(w.a, w.x, w.b, c.q)
    ensures ExactFinish(c, setA, setB, rA, rPrime, y)
  {
    PsiFacts(c, setA, setB, rA, rPrime, w);
    hide PsiOk, PsiBatch, EngineOk, ValidSet, Evaluated, ReconstructionAllowed, ReconstructionFits, AcceptedOf, OleValues,
         Norm, Vanish, PolyOps.Product, Interpolant, PublicPoints, Supported, MaskedOf, Points, ZeroesOf;
    var n := Points(c, |setA|, |setB|);
    MaskedValues(c, setA, setB, rA, rPrime, w.a, w.x, w.b, n);
    ReconstructionExact(c, setA, setB, rA, rPrime, y, n);
    forall values | Evaluated(values, Interpolant(PublicPoints(c, |y|), y, c.q), setB, c.q)
      ensures |values| == |setB| && ZeroesOf(setB, values) == AcceptedOf(setB, setA, rPrime, c.q)
    {
      EvaluatedLength(values, Interpolant(PublicPoints(c, |y|), y, c.q), setB, c.q);
      PsiExact(c, setA, setB, rA, rPrime, w.a, w.x, w.b, y, ZeroesOf(setB, values));
    }
  }

  /** PSI through both firewalls: every interleaving is bounded and never stuck, and when it is done the receiver's
      reconstruction and zero test give exactly the accepted elements. */
  lemma {:induction false} PsiOverRf<T(!new)>(c: Config, setA: seq<int>, setB: seq<int>, rA: seq<int>,
                                              rPrime: seq<int>, s: Scheme<T>, w: Batch, p1: Params, p2: Params,
                                              x: seq<State<Item<T>>>, moves: seq<Move>, x': seq<State<Item<T>>>)
    requires c.q > 1 && PsiOk(c, setA, setB, rA, rPrime) && PsiBatch(c, setA, setB, rA, rPrime, w)
    requires SchemeOk(s) && TrivialLift(s) && s.q == c.q && RoundsOk(p1, p2) && p1.n == Points(c, |setA|, |setB|)
    requires PhasesOk(Rounds(s, w, p1, p2)) && Starts(Rounds(s, w, p1, p2), x)
    requires Runs(Rounds(s, w, p1, p2), x, moves, x')
    ensures |x| == |x'| == 2 && |moves| <= Remaining(Rounds(s, w, p1, p2), x, 2)
    ensures SystemShaped(Rounds(s, w, p1, p2), x') && |x'[1].st| == 4
    ensures if Done(Rounds(s, w, p1, p2), x')
            then ExactFinish(c, setA, setB, rA, rPrime, Values(x'[1].st[3].outBuf))
            else exists m :: CanMove(Rounds(s, w, p1, p2), x', m)
  {
    hide *;
    PsiFacts(c, setA, setB, rA, rPrime, w);
    BatchIs(w, p1.n);
    RfOleTheorem(s, w, p1, p2, x, moves, x');
    if Done(Rounds(s, w, p1, p2), x') {
      ValuesAre<T>(w, s.q);
      OutputsFinish(c, setA, setB, rA, rPrime, w, OleValues(w.a, w.x, w.b, c.q));
    }
  }

  lemma BatchIs(w: Batch, n: nat)
    requires |w.a| == |w.x| == |w.b| == n
    ensures BatchOk(w, n)
  {
  }

  lemma DirectChunks(p: Params, k: nat, j: nat)
    requires Direct(p, k, j)
    ensures |p.chunk| == 3
  {
  }

  /** PSI over the direct exchange: with nested chunks and room enough every interleaving is bounded, never stuck, and
      ends with the exact result; otherwise none ever ends. */
  lemma {:induction false} PsiOverDirect<T(!new)>(c: Config, setA: seq<int>, setB: seq<int>, rA: seq<int>,
                                                  rPrime: seq<int>, s: Scheme<T>, w: Batch, p: Params, k: nat, j: nat,
                                                  x: State<Item<T>>, steps: seq<Step>, x': State<Item<T>>)
    requires c.q > 1 && PsiOk(c, setA, setB, rA, rPrime) && PsiBatch(c, setA, setB, rA, rPrime, w)
    requires SchemeOk(s) && s.q == c.q && p.n == Points(c, |setA|, |setB|) && Direct(p, k, j) && Initial(p, x)
    requires |w.x| == p.n && Exchange(p, DirectOf(s, w), RfOle.Inputs(w), x, steps, x')
    ensures Shaped(p, x') && |x'.st| == 3
    ensures Nested(p, k, j) && Roomy(p) ==>
      && |steps| <= Measure(p, x.st) && (Final(p, x') || exists step :: Allowed(p, x', step))
      && (Finished(p, x'.st[2]) ==> ExactFinish(c, setA, setB, rA, rPrime, Values(x'.st[2].outBuf)))
    ensures !(Nested(p, k, j) && Roomy(p)) ==> !Final(p, x')
  {
    hide *;
    PsiFacts(c, setA, setB, rA, rPrime, w);
    BatchIs(w, p.n);
    DirectChunks(p, k, j);
    DirectOleTheorem(s, w, p, k, j, x, steps, x');
    if Nested(p, k, j) && Roomy(p) && Finished(p, x'.st[2]) {
      ValuesAre<T>(w, s.q);
      OutputsFinish(c, setA, setB, rA, rPrime, w, OleValues(w.a, w.x, w.b, c.q));
    }
  }
}
