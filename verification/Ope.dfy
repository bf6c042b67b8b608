/** Oblivious polynomial evaluation reduced to batched OLE by a masked Horner recurrence. */
module Ope {
  import opened ModArith
  import opened Poly
  import opened PolyOps
  import opened Results
  import opened Psi

  /** The sender's OLE inputs for the coefficients and masks: the multipliers are the previous Horner state, which
      is a mask everywhere but at the start, and the additive parts hide the next one. */
  ghost predicate SenderInputsOk(coeffs: seq<int>, rhos: seq<int>, a: seq<int>, b: seq<int>, q: int)
    requires q > 0
  {
    var d := |coeffs| - 1;
    && d >= 1 && |a| == |b| == d && |rhos| == d - 1
    && a[0] == coeffs[d] && (forall i :: 1 <= i < d ==> a[i] == rhos[i - 1])
    && b[d - 1] == coeffs[0] && forall i :: 0 <= i < d - 1 ==> b[i] == (coeffs[d - 1 - i] - rhos[i]) % q
  }

  method BuildOpeSenderOleInputs(coeffs: seq<int>, q: int, rhos: seq<int>) returns (res: Result<(seq<int>, seq<int>)>)
    requires q > 0 && (|coeffs| >= 2 ==> |rhos| == |coeffs| - 2)
    ensures res.Ok? <==> |coeffs| >= 2
    ensures res.Ok? ==> SenderInputsOk(coeffs, rhos, res.value.0, res.value.1, q)
  {
    if |coeffs| < 2 { return Err("OPE requires degree >= 1"); }
    var d := |coeffs| - 1;
    var a, b := Zeros(d), Zeros(d);
    var sPrev := coeffs[d];
    for i := 1 to d
      invariant |a| == |b| == d
      invariant sPrev == if i == 1 then coeffs[d] else rhos[i - 2]
      invariant i > 1 ==> a[0] == coeffs[d]
      invariant forall k :: 1 <= k < i - 1 ==> a[k] == rhos[k - 1]
      invariant forall k :: 0 <= k < i - 1 ==> b[k] == (coeffs[d - 1 - k] - rhos[k]) % q
    {
      var rho := rhos[i - 1];
      a := a[i - 1 := sPrev];
      b := b[i - 1 := (coeffs[d - i] - rho) % q];
      sPrev := rho;
    }
    a := a[d - 1 := sPrev];
    b := b[d - 1 := coeffs[0]];
    res := Ok((a, b));
  }

  /** The receiver's recurrence: each output is added to alpha times the state. */
  function Folded(y: seq<int>, alpha: int): int {
    if |y| == 0 then 0 else y[|y| - 1] + alpha * Folded(y[..|y| - 1], alpha)
  }

  lemma FoldStep(y: int, alpha: int, s: int, e: int, q: int)
    requires q > 0 && s == e % q
    ensures (y + (alpha * s) % q) % q == (y + alpha * e) % q
  {
    CongMod(e, q);
    CongScale(s, e, alpha, q);
    CongMod(alpha * s, q);
    CongAdd(y, y, (alpha * s) % q, alpha * e, q);
  }

  method FinishOpeReceiver(y: seq<int>, alpha: int, q: int) returns (res: Result<int>)
    requires q > 0
    ensures res.Ok? <==> |y| > 0
    ensures res.Ok? ==> res.value == Folded(y, alpha) % q
  {
    if |y| == 0 { return Err("OPE requires at least one OLE output"); }
    var sB := 0;
    ModSmall(0, q);
    for i := 0 to |y| - 1
      invariant sB == Folded(y[..i], alpha) % q
    {
      FoldStep(y[i], alpha, sB, Folded(y[..i], alpha), q);
      assert y[..i + 1][..i] == y[..i];
      sB := (y[i] + (alpha * sB) % q) % q;
    }
    FoldStep(y[|y| - 1], alpha, sB, Folded(y[..|y| - 1], alpha), q);
    res := Ok((y[|y| - 1] + (alpha * sB) % q) % q);
  }

  /** Horner's state after i steps, from the top coefficient down. */
  ghost function HornerState(coeffs: seq<int>, i: nat, alpha: int): int
    requires i < |coeffs|
  {
    Eval(coeffs[|coeffs| - 1 - i..], alpha)
  }

  lemma HornerNext(coeffs: seq<int>, i: nat, alpha: int)
    requires i + 1 < |coeffs|
    ensures HornerState(coeffs, i + 1, alpha) == coeffs[|coeffs| - 2 - i] + alpha * HornerState(coeffs, i, alpha)
  {
    assert coeffs[|coeffs| - 2 - i..][1..] == coeffs[|coeffs| - 1 - i..];
  }

  lemma TopCoefficient(coeffs: seq<int>, alpha: int)
    requires |coeffs| > 0
    ensures HornerState(coeffs, 0, alpha) == coeffs[|coeffs| - 1]
  {
    assert coeffs[|coeffs| - 1..] == [coeffs[|coeffs| - 1]] + [];
    EvalCons(coeffs[|coeffs| - 1], [], alpha);
    assert Eval([], alpha) == 0;
  }

  /** One masked transition: receiver state plus mask follows Horner's state. */
  lemma MaskedStep(f: int, h: int, y: int, a: int, b: int, c: int, rho: int, rho': int, alpha: int, q: int)
    requires q > 0 && Cong(f + rho, h, q) && a == rho && y == (a * alpha + b) % q && Cong(b, c - rho', q)
    ensures Cong(y + alpha * f + rho', c + alpha * h, q)
  {
    CongMod(a * alpha + b, q);
    CongScale(f + rho, h, alpha, q);
    assert alpha * (f + rho) == alpha * f + a * alpha;
    CongAdd(b, c - rho', rho', rho', q);
    CongAdd(y, a * alpha + b, alpha * f + rho', alpha * f + rho', q);
    CongAdd(b + rho', c, alpha * f + a * alpha, alpha * h, q);
  }

  /** What the OLE instances give the receiver, all at its own alpha. */
  ghost predicate OleOutputs(a: seq<int>, b: seq<int>, alpha: int, y: seq<int>, q: int)
    requires q > 0
  {
    |y| == |a| == |b| && forall k :: 0 <= k < |y| ==> y[k] == (a[k] * alpha + b[k]) % q
  }

  lemma OutputAt(a: seq<int>, b: seq<int>, alpha: int, y: seq<int>, k: nat, q: int)
    requires q > 0 && OleOutputs(a, b, alpha, y, q) && k < |a|
    ensures |y| == |a| == |b| && y[k] == (a[k] * alpha + b[k]) % q
  {
  }

  /** The mask in force after i instances. */
  ghost function CurrentMask(coeffs: seq<int>, rhos: seq<int>, i: nat): int
    requires 1 <= i < |coeffs| && |rhos| == |coeffs| - 2
  {
    if i < |coeffs| - 1 then rhos[i - 1] else 0
  }

  /** The invariant of the protocol: what the receiver holds plus the current mask is Horner's state. */
  lemma {:induction false} MaskedState(coeffs: seq<int>, rhos: seq<int>, a: seq<int>, b: seq<int>, alpha: int,
                                       y: seq<int>, i: nat, q: int)
    requires q > 0 && SenderInputsOk(coeffs, rhos, a, b, q) && 1 <= i < |coeffs| && |rhos| == |coeffs| - 2
    requires OleOutputs(a, b, alpha, y, q)
    ensures i <= |y| && Cong(Folded(y[..i], alpha) + CurrentMask(coeffs, rhos, i), HornerState(coeffs, i, alpha), q)
    decreases i
  {
    hide *;
    InputAt(coeffs, rhos, a, b, i, q);
    OutputAt(a, b, alpha, y, i - 1, q);
    if i == 1 {
      FoldedNone(y, alpha);
      TopCoefficient(coeffs, alpha);
      StartState(coeffs[|coeffs| - 1], q);
      NextState(coeffs, rhos, a[0], b[0], coeffs[|coeffs| - 1], alpha, y, 0, q);
    } else {
      MaskedState(coeffs, rhos, a, b, alpha, y, i - 1, q);
      MaskBefore(coeffs, rhos, i);
      NextState(coeffs, rhos, a[i - 1], b[i - 1], rhos[i - 2], alpha, y, i - 1, q);
    }
  }

  lemma MaskBefore(coeffs: seq<int>, rhos: seq<int>, i: nat)
    requires 2 <= i < |coeffs| && |rhos| == |coeffs| - 2
    ensures CurrentMask(coeffs, rhos, i - 1) == rhos[i - 2]
  {
  }

  /** One OLE instance takes the invariant from i to i + 1. */
  lemma NextState(coeffs: seq<int>, rhos: seq<int>, a: int, b: int, rho: int, alpha: int, y: seq<int>, i: nat, q: int)
    requires q > 0 && i + 1 < |coeffs| && |rhos| == |coeffs| - 2 && i < |y| && a == rho && y[i] == (a * alpha + b) % q
    requires var d := |coeffs| - 1; b == if i + 1 < d then (coeffs[d - 1 - i] - rhos[i]) % q else coeffs[0]
    requires Cong(Folded(y[..i], alpha) + rho, HornerState(coeffs, i, alpha), q)
    ensures Cong(Folded(y[..i + 1], alpha) + CurrentMask(coeffs, rhos, i + 1), HornerState(coeffs, i + 1, alpha), q)
  {
    hide HornerState, Cong, Folded;
    var c, rho' := coeffs[|coeffs| - 2 - i], CurrentMask(coeffs, rhos, i + 1);
    HornerNext(coeffs, i, alpha);
    FoldedNext(y, i, alpha);
    MaskHides(b, c, rho', q);
    MaskedStep(Folded(y[..i], alpha), HornerState(coeffs, i, alpha), y[i], a, b, c, rho, rho', alpha, q);
  }

  /** The i-th OLE instance of the sender. */
  lemma InputAt(coeffs: seq<int>, rhos: seq<int>, a: seq<int>, b: seq<int>, i: nat, q: int)
    requires q > 0 && SenderInputsOk(coeffs, rhos, a, b, q) && 1 <= i < |coeffs|
    ensures var d := |coeffs| - 1; |a| == |b| == d && |rhos| == d - 1
    ensures a[i - 1] == if i == 1 then coeffs[|coeffs| - 1] else rhos[i - 2]
    ensures b[i - 1] == if i < |coeffs| - 1 then (coeffs[|coeffs| - 1 - i] - rhos[i - 1]) % q else coeffs[0]
  {
  }

  lemma FoldedNext(y: seq<int>, i: nat, alpha: int)
    requires i < |y|
    ensures Folded(y[..i + 1], alpha) == y[i] + alpha * Folded(y[..i], alpha)
  {
    assert y[..i + 1][..i] == y[..i];
  }

  lemma FoldedNone(y: seq<int>, alpha: int)
    ensures Folded(y[..0], alpha) == 0
  {
  }

  lemma StartState(c: int, q: int)
    requires q > 0
    ensures Cong(0 + c, c, q)
  {
  }

  lemma MaskHides(b: int, c: int, rho: int, q: int)
    requires q > 0 && (b == (c - rho) % q || b == c - rho)
    ensures Cong(b, c - rho, q)
  {
    CongMod(c - rho, q);
  }

  /** For every polynomial of degree at least 1, every point and every choice of masks, folding the OLE outputs
      gives the polynomial's value. */
  lemma OpeCorrect(coeffs: seq<int>, rhos: seq<int>, a: seq<int>, b: seq<int>, alpha: int, y: seq<int>, q: int)
    requires q > 0 && SenderInputsOk(coeffs, rhos, a, b, q)
    requires OleOutputs(a, b, alpha, y, q)
    ensures Cong(Folded(y, alpha), Eval(coeffs, alpha), q)
  {
    MaskedState(coeffs, rhos, a, b, alpha, y, |coeffs| - 1, q);
    assert y[..|y|] == y && coeffs[0..] == coeffs;
  }

  /** Both sides and the OLE between them. */
  method RunOpe(coeffs: seq<int>, alpha: int, rhos: seq<int>, q: int) returns (res: Result<int>)
    requires q > 0 && (|coeffs| >= 2 ==> |rhos| == |coeffs| - 2)
    ensures res.Ok? <==> |coeffs| >= 2
    ensures res.Ok? ==> res.value == Eval(coeffs, alpha) % q
  {
    var inputs := BuildOpeSenderOleInputs(coeffs, q, rhos);
    if inputs.Err? { return Err(inputs.message); }
    var (a, b) := inputs.value;
    var y := OleValues(a, seq(|a|, _ => alpha), b, q);
    OpeCorrect(coeffs, rhos, a, b, alpha, y, q);
    res := FinishOpeReceiver(y, alpha, q);
  }
}
