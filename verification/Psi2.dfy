/** The reveal step of two-way PSI: a fixed number of slots, padded with zeros, filtered by the other party.
    The padding value is a legal set element, so the step is exact only under the stated condition. */
module Psi2 {
  import opened Poly
  import opened PolyMul
  import opened Results
  import opened Engine
  import opened Psi

  /** What the revealing party sends: its result, then zeros. */
  function Slots(result: seq<int>, bound: nat): (s: seq<int>)
    requires |result| <= bound
    ensures |s| == bound
  {
    result + Zeros(bound - |result|)
  }

  method SendReveal(result: seq<int>, mA: nat, mB: nat) returns (res: Result<seq<int>>)
    ensures res.Ok? <==> |result| <= Min(mA, mB)
    ensures res.Ok? ==> res.value == Slots(result, Min(mA, mB))
  {
    var bound := Min(mA, mB);
    if |result| > bound { return Err("intersection larger than public reveal bound"); }
    var sent := [];
    for i := 0 to bound
      invariant sent == Slots(result, bound)[..i]
    {
      var isReal := i < |result|;
      sent := sent + [if isReal then result[i] else 0];
    }
    res := Ok(sent);
  }

  /** First occurrences in s of elements of own. */
  function Filtered(s: seq<int>, own: set<int>): seq<int> {
    if |s| == 0 then []
    else
      var rest, x := Filtered(s[..|s| - 1], own), s[|s| - 1];
      if x in own && x !in s[..|s| - 1] then rest + [x] else rest
  }

  method ReceiveReveal(slots: seq<int>, setA: seq<int>) returns (out: seq<int>)
    ensures out == Filtered(slots, set x | x in setA)
  {
    var own := set x | x in setA;
    var seen: set<int> := {};
    out := [];
    for i := 0 to |slots|
      invariant forall v :: v in seen <==> v in own && v in slots[..i]
      invariant out == Filtered(slots[..i], own)
    {
      var value := slots[i];
      assert slots[..i + 1] == slots[..i] + [value] && slots[..i + 1][..i] == slots[..i];
      if value in own && value !in seen {
        seen := seen + {value};
        out := out + [value];
      }
    }
    assert slots[..|slots|] == slots;
  }

  /** The elements of A that a duplicate-free result contributes. */
  function Common(result: seq<int>, own: set<int>): seq<int> {
    if |result| == 0 then []
    else Common(result[..|result| - 1], own)
         + (if result[|result| - 1] in own then [result[|result| - 1]] else [])
  }

  lemma {:induction false} FilteredResult(result: seq<int>, own: set<int>)
    requires NoDuplicates(result)
    ensures Filtered(result, own) == Common(result, own)
    decreases |result|
  {
    if |result| > 0 {
      var n := |result| - 1;
      FilteredResult(result[..n], own);
      assert result[n] !in result[..n];
    }
  }

  lemma {:induction false} FilteredPadding(result: seq<int>, k: nat, own: set<int>)
    requires NoDuplicates(result)
    ensures Filtered(result + Zeros(k), own)
         == Common(result, own) + (if 0 in own && 0 !in result && k > 0 then [0] else [])
    decreases k
  {
    if k == 0 {
      assert result + Zeros(0) == result;
      FilteredResult(result, own);
    } else {
      var s := result + Zeros(k);
      FilteredPadding(result, k - 1, own);
      assert s[..|s| - 1] == result + Zeros(k - 1);
      assert 0 in s[..|s| - 1] <==> 0 in result || k > 1 by {
        if k > 1 { assert s[|result|] == 0; }
        if 0 in s[..|s| - 1] && k == 1 { assert s[..|s| - 1] == result; }
        if 0 in result {
          var i :| 0 <= i < |result| && result[i] == 0;
          assert s[..|s| - 1][i] == 0;
        }
      }
    }
  }

  /** What A ends with, for any duplicate-free result: its own elements of the result, and a false zero exactly
      when 0 is in A, was not revealed, and some slot was left over. */
  lemma {:induction false} RevealOutput(result: seq<int>, setA: seq<int>, bound: nat)
    requires NoDuplicates(result) && |result| <= bound
    ensures var own := set x | x in setA;
      Filtered(Slots(result, bound), own)
        == Common(result, own) + (if 0 in own && 0 !in result && |result| < bound then [0] else [])
  {
    hide *;
    SlotsFiltered(result, bound, set x | x in setA);
  }

  lemma {:induction false} SlotsFiltered(result: seq<int>, bound: nat, own: set<int>)
    requires NoDuplicates(result) && |result| <= bound
    ensures Filtered(Slots(result, bound), own)
         == Common(result, own) + (if 0 in own && 0 !in result && |result| < bound then [0] else [])
  {
    FilteredPadding(result, bound - |result|, own);
    hide Filtered, Common, NoDuplicates;
  }

  lemma {:induction false} CommonAll(result: seq<int>, own: set<int>)
    requires forall i :: 0 <= i < |result| ==> result[i] in own
    ensures Common(result, own) == result
    decreases |result|
  {
    if |result| > 0 {
      var n := |result| - 1;
      CommonAll(result[..n], own);
      assert result == result[..n] + [result[n]];
    }
  }

  /** When B computed exactly the intersection, A ends with exactly the intersection if and only if 0 is not in A,
      or 0 is in B, or no slot is unused. */
  lemma RevealExact(result: seq<int>, setA: seq<int>, setB: seq<int>, bound: nat)
    requires NoDuplicates(result) && |result| <= bound
    requires forall x :: x in result <==> x in setA && x in setB
    ensures var out := Filtered(Slots(result, bound), set x | x in setA);
      out == result <==> 0 !in setA || 0 in setB || |result| == bound
    ensures var out := Filtered(Slots(result, bound), set x | x in setA);
      (forall x :: x in out <==> x in setA && x in setB) <==> 0 !in setA || 0 in setB || |result| == bound
  {
    var own := set x | x in setA;
    var out := Filtered(Slots(result, bound), own);
    RevealOutput(result, setA, bound);
    forall i | 0 <= i < |result| ensures result[i] in own { assert result[i] in result; }
    CommonAll(result, own);
    if 0 in setA && 0 !in setB && |result| < bound {
      assert out == result + [0];
      assert out[|result|] == 0;
      assert 0 in out;
    } else {
      assert out == result;
    }
  }

  // ---- two-way PSI as a whole ----

  lemma {:induction false} AcceptedMembers(s: seq<int>, setA: seq<int>, rPrime: seq<int>, q: int, x: int)
    requires q > 0
    ensures x in AcceptedOf(s, setA, rPrime, q) <==> x in s && Accepted(x, setA, rPrime, q)
    decreases |s|
  {
    hide Accepted;
    if |s| > 0 {
      var n := |s| - 1;
      AcceptedMembers(s[..n], setA, rPrime, q, x);
      assert s == s[..n] + [s[n]];
    }
  }

  lemma {:induction false} AcceptedNoDuplicates(s: seq<int>, setA: seq<int>, rPrime: seq<int>, q: int)
    requires q > 0 && NoDuplicates(s)
    ensures NoDuplicates(AcceptedOf(s, setA, rPrime, q))
    decreases |s|
  {
    hide Accepted;
    if |s| > 0 {
      var n := |s| - 1;
      AcceptedNoDuplicates(s[..n], setA, rPrime, q);
      AcceptedMembers(s[..n], setA, rPrime, q, s[n]);
    }
  }

  lemma CommonSnoc(rest: seq<int>, v: int, own: set<int>)
    ensures Common(rest + [v], own) == Common(rest, own) + (if v in own then [v] else [])
    ensures Common(rest + [], own) == Common(rest, own)
  {
    assert (rest + [v])[..|rest|] == rest && rest + [] == rest;
  }

  /** A's filter removes the elements that only the mask r'_A let through. */
  lemma {:induction false} FilterRemovesMasks(s: seq<int>, setA: seq<int>, rPrime: seq<int>, q: int)
    requires q > 0
    ensures var own := set x | x in setA;
      Common(AcceptedOf(s, setA, rPrime, q), own) == Common(s, own)
    decreases |s|
  {
    if |s| > 0 {
      var n := |s| - 1;
      var rest := AcceptedOf(s[..n], setA, rPrime, q);
      FilterRemovesMasks(s[..n], setA, rPrime, q);
      CommonSnoc(rest, s[n], set x | x in setA);
      hide Eval;
    }
  }

  /** What A gets from B's result for any masks: S_B filtered by S_A, and a false zero exactly when 0 is in A, not in
      B, and B left a slot over. */
  lemma TwoWayOutput(setA: seq<int>, setB: seq<int>, rPrime: seq<int>, q: int, bound: nat)
    requires q > 0 && NoDuplicates(setB) && |AcceptedOf(setB, setA, rPrime, q)| <= bound
    ensures var result, own := AcceptedOf(setB, setA, rPrime, q), set x | x in setA;
      Filtered(Slots(result, bound), own)
        == Common(setB, own) + (if 0 in setA && 0 !in setB && |result| < bound then [0] else [])
  {
    AcceptedNoDuplicates(setB, setA, rPrime, q);
    AcceptedMembers(setB, setA, rPrime, q, 0);
    FilterRemovesMasks(setB, setA, rPrime, q);
    RevealOutput(AcceptedOf(setB, setA, rPrime, q), setA, bound);
  }

  /** Both programs: B's accepted elements, and what A makes of the revealed slots. B gives up exactly when the
      masks let more elements through than there are slots. */
  method RunTwoWay(cA: Config, cB: Config, setA: seq<int>, setB: seq<int>, rA: seq<int>, rPrime: seq<int>)
    returns (res: Result<(seq<int>, seq<int>)>)
    requires EngineOk(cA) && EngineOk(cB) && SameField(cA, cB)
    requires |rA| == |setA| + 1 && |rPrime| == |setB| + 1
    ensures cB.q > 1
    ensures res.Ok? <==>
      && ValidSet(cA, setA) && ValidSet(cB, setB) && ExchangeAllowed(cA, |setA|, |setB|)
      && ExchangeAllowed(cB, |setA|, |setB|) && ReconstructionFits(cB, setA, setB, rA, rPrime)
      && |AcceptedOf(setB, setA, rPrime, cB.q)| <= Min(|setA|, |setB|)
    ensures res.Ok? ==>
      var result, own := AcceptedOf(setB, setA, rPrime, cB.q), set x | x in setA;
      && res.value.0 == result
      && res.value.1 == Common(setB, own)
           + (if 0 in setA && 0 !in setB && |result| < Min(|setA|, |setB|) then [0] else [])
  {
    var resultB := RunPsi(cA, cB, setA, setB, rA, rPrime);
    if resultB.Err? { return Err(resultB.message); }
    var slots := SendReveal(resultB.value, |setA|, |setB|);
    if slots.Err? { return Err(slots.message); }
    TwoWayOutput(setA, setB, rPrime, cB.q, Min(|setA|, |setB|));
    var resultA := ReceiveReveal(slots.value, setA);
    res := Ok((resultB.value, resultA));
  }
}
