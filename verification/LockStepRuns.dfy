/** Runs of the direct exchange: exactly when they complete, for any two chunk sizes, lanes and capacities. */
module LockStepRuns {
  import ModArith
  import opened Lanes
  import opened Chain
  import opened ChainRuns
  import opened LockStep

  // ---- bounded traffic ----

  ghost function InFlight<T>(q: seq<seq<T>>): nat {
    if |q| == 0 then 0 else InFlight(q[..|q| - 1]) + |q[|q| - 1]|
  }

  lemma {:induction false} InFlightBound<T>(lo: seq<nat>, q: seq<seq<T>>, y: nat, x: nat)
    requires |q| < |lo|
    requires forall l :: 0 <= l < |q| ==> |q[l]| <= Clip(lo, l, x) - Clip(lo, l, y)
    ensures InFlight(q) <= Carried(lo, |q|, y, x)
    decreases |q|
  {
    if |q| > 0 { InFlightBound(lo, q[..|q| - 1], y, x); }
  }

  /** In either direction, never more than one chunk of the receiver. */
  lemma OneChunkInFlight<T>(p: Params, k: nat, j: nat, f: (nat, nat, T) -> T, src: seq<T>, c: State<T>)
    requires Direct(p, k, j) && Nested(p, k, j) && Inv(p, f, src, c) && Shaped(p, c) && Aligned(p, c)
    ensures InFlight(c.q[0]) <= k && InFlight(c.q[1]) <= k
  {
    hide Inv;
    var b := c.st[2].begin;
    var e := ChunkEnd(p, 0, b);
    Begins(p, f, src, c);
    EndBounds(p, 0, b);
    forall l | 0 <= l < |p.lo| - 1
      ensures |c.q[0][l]| <= Clip(p.lo, l, e) - Clip(p.lo, l, b) && |c.q[1][l]| <= Clip(p.lo, l, e) - Clip(p.lo, l, b)
    {
      LaneTraffic(p, k, j, f, src, c, l);
    }
    InFlightBound(p.lo, c.q[0], b, e);
    InFlightBound(p.lo, c.q[1], b, e);
    CarriedAll(p.lo, p.n, |p.lo| - 1, b, e);
  }

  lemma LaneTraffic<T>(p: Params, k: nat, j: nat, f: (nat, nat, T) -> T, src: seq<T>, c: State<T>, l: nat)
    requires Direct(p, k, j) && Nested(p, k, j) && Inv(p, f, src, c) && Shaped(p, c) && Aligned(p, c)
    requires l < |p.lo| - 1
    ensures var b, e := c.st[2].begin, ChunkEnd(p, 0, c.st[2].begin);
      |c.q[0][l]| <= Clip(p.lo, l, e) - Clip(p.lo, l, b) && |c.q[1][l]| <= Clip(p.lo, l, e) - Clip(p.lo, l, b)
  {
    var s, b := c.st[1], c.st[2].begin;
    var e := ChunkEnd(p, 0, b);
    LaneFacts(p, f, src, c, l);
    Begins(p, f, src, c);
    EndBounds(p, 0, b);
    EndBounds(p, 1, s.begin);
    NestedEnd(p, k, j, b);
    ChunkBoundary(p, 1, s.begin);
    ClipOrder(p.lo, p.n, l, b, e);
    if Late(p, c) {
      assert s.sent[l] == Clip(p.lo, l, b);
    } else {
      ClipOrder(p.lo, p.n, l, b, s.begin);
      if s.begin < e { ClipOrder(p.lo, p.n, l, ChunkEnd(p, 1, s.begin), e); }
    }
    hide Inv, Boundary;
  }

  // ---- runs ----

  ghost predicate Exchange<T>(p: Params, f: (nat, nat, T) -> T, src: seq<T>, c: State<T>, steps: seq<Step>, c': State<T>)
    requires |src| == p.n && |p.chunk| == 3
    decreases |steps|
  {
    if |steps| == 0 then c == c'
    else Shaped(p, c) && Allowed(p, c, steps[0])
         && Exchange(p, f, src, Apply(p, f, src, c, steps[0]), steps[1..], c')
  }

  lemma {:induction false} ExchangeKeeps<T>(p: Params, k: nat, j: nat, f: (nat, nat, T) -> T, src: seq<T>, c: State<T>,
                                            steps: seq<Step>, c': State<T>)
    requires Direct(p, k, j) && Nested(p, k, j) && Inv(p, f, src, c) && Shaped(p, c) && Aligned(p, c)
    requires Exchange(p, f, src, c, steps, c')
    ensures Inv(p, f, src, c') && Shaped(p, c') && Aligned(p, c')
    ensures |steps| + Measure(p, c'.st) <= Measure(p, c.st)
    decreases |steps|
  {
    hide Inv, Measure, Aligned, Enabled, Apply;
    if |steps| > 0 {
      StepKeeps(p, f, src, c, steps[0]);
      StepDecreases(p, f, src, c, steps[0]);
      AlignedKept(p, k, j, f, src, c, steps[0]);
      ExchangeKeeps(p, k, j, f, src, Apply(p, f, src, c, steps[0]), steps[1..], c');
    }
  }

  /** The chain's invariant needs no condition on the chunks. */
  lemma {:induction false} ExchangeInv<T>(p: Params, f: (nat, nat, T) -> T, src: seq<T>, c: State<T>, steps: seq<Step>,
                                          c': State<T>)
    requires |p.chunk| == 3 && |src| == p.n && Inv(p, f, src, c) && Exchange(p, f, src, c, steps, c')
    ensures Inv(p, f, src, c')
    decreases |steps|
  {
    if |steps| > 0 {
      assert Enabled(p, c, steps[0]);
      hide Inv, Enabled, Apply;
      StepKeeps(p, f, src, c, steps[0]);
      ExchangeInv(p, f, src, Apply(p, f, src, c, steps[0]), steps[1..], c');
    }
  }

  /** An initial state is an aligned one. */
  lemma InitialAligned<T>(p: Params, k: nat, j: nat, f: (nat, nat, T) -> T, src: seq<T>, c: State<T>)
    requires Direct(p, k, j) && |src| == p.n && Initial(p, c)
    ensures Inv(p, f, src, c) && Shaped(p, c) && |c.st| == 3 && Aligned(p, c)
  {
    InitialInv(p, f, src, c);
    InvShaped(p, f, src, c);
    EndBounds(p, 0, 0);
  }

  /** Every run with nested chunks and room enough: bounded, never stuck, at most one chunk in flight each way, and
      once the receiver's loop is over, which is when it sends its acknowledgement, every answer is in place. */
  lemma DirectTheorem<T>(p: Params, k: nat, j: nat, f: (nat, nat, T) -> T, src: seq<T>, c: State<T>,
                         steps: seq<Step>, c': State<T>)
    requires Direct(p, k, j) && Nested(p, k, j) && Roomy(p)
    requires |src| == p.n && Initial(p, c) && Exchange(p, f, src, c, steps, c')
    ensures |steps| <= Measure(p, c.st)
    ensures Shaped(p, c') && |c'.st| == 3 && (Final(p, c') || exists step :: Allowed(p, c', step))
    ensures InFlight(c'.q[0]) <= k && InFlight(c'.q[1]) <= k
    ensures Finished(p, c'.st[2]) ==> forall i :: 0 <= i < p.n ==> c'.st[2].outBuf[i] == Val(f, src, 2, i)
  {
    InitialAligned(p, k, j, f, src, c);
    hide Inv, Measure, Aligned, Exchange, Enabled, PositionOk, Nested, Roomy;
    ExchangeKeeps(p, k, j, f, src, c, steps, c');
    MeasureNonNegative(p, f, src, c');
    OneChunkInFlight(p, k, j, f, src, c');
    if !Final(p, c') {
      var step := DirectProgress(p, k, j, f, src, c');
    }
    if Finished(p, c'.st[2]) {
      forall i | 0 <= i < p.n ensures c'.st[2].outBuf[i] == Val(f, src, 2, i) { FinalData(p, f, src, c', 2, i); }
    }
  }

  /** From every aligned state some run completes. */
  lemma {:induction false} ExchangeCompletes<T>(p: Params, k: nat, j: nat, f: (nat, nat, T) -> T, src: seq<T>,
                                                c: State<T>) returns (steps: seq<Step>, c': State<T>)
    requires Direct(p, k, j) && Nested(p, k, j) && Roomy(p) && |src| == p.n
    requires Inv(p, f, src, c) && Shaped(p, c) && Aligned(p, c)
    ensures Exchange(p, f, src, c, steps, c') && Final(p, c')
    decreases Measure(p, c.st)
  {
    hide Inv, Measure, Aligned, Allowed, Enabled, Apply, Final, Nested, Roomy;
    if Final(p, c) {
      steps, c' := [], c;
    } else {
      var step := DirectProgress(p, k, j, f, src, c);
      AllowedEnabled(p, c, step);
      var y := Apply(p, f, src, c, step);
      StepKeeps(p, f, src, c, step);
      StepDecreases(p, f, src, c, step);
      AlignedKept(p, k, j, f, src, c, step);
      MeasureNonNegative(p, f, src, y);
      var rest;
      rest, c' := ExchangeCompletes(p, k, j, f, src, y);
      steps := [step] + rest;
      assert steps[1..] == rest;
    }
  }

  lemma AllowedEnabled<T>(p: Params, c: State<T>, step: Step)
    requires Shaped(p, c) && |c.st| == 3 && Allowed(p, c, step)
    ensures Enabled(p, c, step)
  {
  }

  // ---- chunks that are not nested ----

  /** The receiver is in its first chunk; the sender is at most waiting for the rest of the chunk at x, which
      begins before the receiver's chunk ends and ends after it. */
  ghost predicate Stalled<T>(p: Params, x: nat, c: State<T>)
    requires Shaped(p, c) && |c.st| == 3
  {
    && ReceiverOk(p, c) && c.st[2].begin == 0 && !c.st[2].sending
    && c.st[1].begin <= x && (c.st[1].begin == x ==> !c.st[1].sending)
  }

  /** Where the sender's chunk sticks out. */
  lemma Straddle(p: Params, k: nat, j: nat) returns (x: nat)
    requires Direct(p, k, j) && !Nested(p, k, j)
    ensures Boundary(p, 1, x) && x < k == ChunkEnd(p, 0, 0) < ChunkEnd(p, 1, x)
  {
    x := (k / j) * j;
    assert p.chunk[0] == k && p.chunk[1] == j;
    assert k == x + k % j;
    ModArith.ModUnique(x, k / j, 0, j);
  }

  lemma StalledKept<T>(p: Params, k: nat, j: nat, x: nat, f: (nat, nat, T) -> T, src: seq<T>, c: State<T>, step: Step)
    requires Direct(p, k, j) && Boundary(p, 1, x) && x < ChunkEnd(p, 0, 0) < ChunkEnd(p, 1, x)
    requires Inv(p, f, src, c) && Shaped(p, c) && Stalled(p, x, c) && Allowed(p, c, step)
    ensures var c' := Apply(p, f, src, c, step); Shaped(p, c') && Stalled(p, x, c')
  {
    ReceiverKept(p, k, j, f, src, c, step);
    Begins(p, f, src, c);
    EndBounds(p, 0, 0);
    EndBounds(p, 1, x);
    ChunkBoundary(p, 1, c.st[1].begin);
    if step == Turn(1) { TurnWaits(p, k, j, x, f, src, c); }
    if step == Turn(2) { ReadWaits(p, k, j, x, f, src, c); }
    hide Inv, Boundary, PositionOk, Clip;
  }

  /** The sender's chunk at x is never complete. */
  lemma TurnWaits<T>(p: Params, k: nat, j: nat, x: nat, f: (nat, nat, T) -> T, src: seq<T>, c: State<T>)
    requires Direct(p, k, j) && Boundary(p, 1, x) && x < ChunkEnd(p, 0, 0) < ChunkEnd(p, 1, x)
    requires Inv(p, f, src, c) && Shaped(p, c) && Stalled(p, x, c) && Allowed(p, c, Turn(1))
    ensures c.st[1].begin < x
  {
    if c.st[1].begin == x {
      EndBounds(p, 1, x);
      var l := NonEmptyRange(p, ChunkEnd(p, 0, 0), ChunkEnd(p, 1, x));
      LaneFacts(p, f, src, c, l);
      assert false;
    }
  }

  /** The receiver never has all answers to its first chunk. */
  lemma ReadWaits<T>(p: Params, k: nat, j: nat, x: nat, f: (nat, nat, T) -> T, src: seq<T>, c: State<T>)
    requires Direct(p, k, j) && Boundary(p, 1, x) && x < ChunkEnd(p, 0, 0) < ChunkEnd(p, 1, x)
    requires Inv(p, f, src, c) && Shaped(p, c) && Stalled(p, x, c)
    ensures !Allowed(p, c, Turn(2))
  {
    if Allowed(p, c, Turn(2)) {
      EndBounds(p, 0, 0);
      var s := c.st[1];
      ChunkBoundary(p, 1, s.begin);
      var l := NonEmptyRange(p, x, ChunkEnd(p, 0, 0));
      var through := if s.sending then ChunkEnd(p, 1, s.begin) else s.begin;
      ClipOrder(p.lo, p.n, l, through, x);
      LaneFacts(p, f, src, c, l);
      assert false;
    }
  }

  lemma {:induction false} StalledForever<T>(p: Params, k: nat, j: nat, x: nat, f: (nat, nat, T) -> T, src: seq<T>,
                                             c: State<T>, steps: seq<Step>, c': State<T>)
    requires Direct(p, k, j) && Boundary(p, 1, x) && x < ChunkEnd(p, 0, 0) < ChunkEnd(p, 1, x)
    requires Inv(p, f, src, c) && Shaped(p, c) && Stalled(p, x, c) && Exchange(p, f, src, c, steps, c')
    ensures Shaped(p, c') && Stalled(p, x, c')
    decreases |steps|
  {
    hide Inv, Enabled, Apply, Stalled;
    if |steps| > 0 {
      StepKeeps(p, f, src, c, steps[0]);
      StalledKept(p, k, j, x, f, src, c, steps[0]);
      StalledForever(p, k, j, x, f, src, Apply(p, f, src, c, steps[0]), steps[1..], c');
    }
  }

  // ---- lanes that are too narrow ----

  /** The receiver has not got past its chunk at b. */
  ghost predicate Jammed<T>(p: Params, b: nat, c: State<T>)
    requires Shaped(p, c) && |c.st| == 3
  {
    ReceiverOk(p, c) && c.st[0].begin <= b
  }

  /** Neither the answers up to x nor the items behind x fit. */
  ghost predicate Tight(p: Params, b: nat, x: nat)
    requires |p.chunk| == 3
  {
    && Boundary(p, 0, b) && Boundary(p, 1, x) && b < x <= ChunkEnd(p, 0, b)
    && !Fits(p, 1, b, x) && !Fits(p, 0, x, ChunkEnd(p, 0, b))
  }

  lemma JammedKept<T>(p: Params, k: nat, j: nat, b: nat, x: nat, f: (nat, nat, T) -> T, src: seq<T>, c: State<T>,
                      step: Step)
    requires Direct(p, k, j) && Tight(p, b, x) && Inv(p, f, src, c) && Shaped(p, c) && Jammed(p, b, c)
    requires Allowed(p, c, step)
    ensures var c' := Apply(p, f, src, c, step); Shaped(p, c') && Jammed(p, b, c')
  {
    ReceiverKept(p, k, j, f, src, c, step);
    ChunkBoundary(p, 0, c.st[2].begin);
    if step == NextChunk(0) { SendWaits(p, k, j, b, x, f, src, c); }
    hide Inv, Boundary, PositionOk, Clip, Tight;
  }

  /** The chunk at b cannot be sent: the sender does not leave its chunk that ends at x, and behind x there is too
      much for the lanes. */
  lemma SendWaits<T>(p: Params, k: nat, j: nat, b: nat, x: nat, f: (nat, nat, T) -> T, src: seq<T>, c: State<T>)
    requires Direct(p, k, j) && Tight(p, b, x) && Inv(p, f, src, c) && Shaped(p, c) && Jammed(p, b, c)
    requires Allowed(p, c, NextChunk(0))
    ensures c.st[0].begin < b && ChunkEnd(p, 0, c.st[0].begin) <= b
  {
    var s, e := c.st[1], ChunkEnd(p, 0, b);
    ChunkBoundary(p, 0, c.st[0].begin);
    EndBounds(p, 0, b);
    if c.st[0].begin == b {
      var l :| 0 <= l < |p.lo| - 1 && Clip(p.lo, l, x) - Clip(p.lo, l, b) > p.cap(1, l);
      var m :| 0 <= m < |p.lo| - 1 && Clip(p.lo, m, e) - Clip(p.lo, m, x) > p.cap(0, m);
      Begins(p, f, src, c);
      EndBounds(p, 1, s.begin);
      ChunkBoundary(p, 1, s.begin);
      SenderBehind(p, k, j, b, x, l, f, src, c);
      ClipOrder(p.lo, p.n, m, ChunkEnd(p, 1, s.begin), x);
      LaneFacts(p, f, src, c, m);
      assert false;
    }
  }

  lemma SenderBehind<T>(p: Params, k: nat, j: nat, b: nat, x: nat, l: nat, f: (nat, nat, T) -> T, src: seq<T>,
                        c: State<T>)
    requires Direct(p, k, j) && Inv(p, f, src, c) && Shaped(p, c) && ReceiverOk(p, c)
    requires c.st[0].begin == c.st[2].begin == b && l < |p.lo| - 1
    requires Clip(p.lo, l, x) - Clip(p.lo, l, b) > p.cap(1, l)
    ensures c.st[1].begin < x
  {
    var s := c.st[1];
    LaneFacts(p, f, src, c, l);
    assert c.st[2].recvd[l] == Clip(p.lo, l, b);
    Begins(p, f, src, c);
    EndBounds(p, 1, s.begin);
    if x <= s.begin {
      ClipOrder(p.lo, p.n, l, x, s.begin);
      assert false;
    }
  }

  lemma {:induction false} JammedForever<T>(p: Params, k: nat, j: nat, b: nat, x: nat, f: (nat, nat, T) -> T,
                                            src: seq<T>, c: State<T>, steps: seq<Step>, c': State<T>)
    requires Direct(p, k, j) && Tight(p, b, x) && Inv(p, f, src, c) && Shaped(p, c) && Jammed(p, b, c)
    requires Exchange(p, f, src, c, steps, c')
    ensures Shaped(p, c') && Jammed(p, b, c')
    decreases |steps|
  {
    hide Inv, Enabled, Apply, Jammed, Tight;
    if |steps| > 0 {
      StepKeeps(p, f, src, c, steps[0]);
      JammedKept(p, k, j, b, x, f, src, c, steps[0]);
      JammedForever(p, k, j, b, x, f, src, Apply(p, f, src, c, steps[0]), steps[1..], c');
    }
  }

  // ---- exactly when ----

  /** If the chunks are not nested, or some range fits neither way, no interleaving ever finishes. */
  lemma DirectStalls<T>(p: Params, k: nat, j: nat, f: (nat, nat, T) -> T, src: seq<T>, c: State<T>, steps: seq<Step>,
                        c': State<T>)
    requires Direct(p, k, j) && !(Nested(p, k, j) && Roomy(p))
    requires |src| == p.n && Initial(p, c) && Exchange(p, f, src, c, steps, c')
    ensures Shaped(p, c') && !Final(p, c')
  {
    InitialAligned(p, k, j, f, src, c);
    EndBounds(p, 0, 0);
    if !Nested(p, k, j) {
      var x := Straddle(p, k, j);
      StalledForever(p, k, j, x, f, src, c, steps, c');
      assert !Finished(p, c'.st[2]);
    } else {
      var b: nat, x: nat :| Boundary(p, 0, b) && Boundary(p, 1, x) && b < x <= ChunkEnd(p, 0, b)
                            && !Fits(p, 1, b, x) && !Fits(p, 0, x, ChunkEnd(p, 0, b));
      JammedForever(p, k, j, b, x, f, src, c, steps, c');
      assert !Finished(p, c'.st[0]);
    }
  }

  /** The direct exchange can complete if and only if the receiver's chunks end where the sender's do and every
      pause of the sender leaves room; and then, by DirectTheorem, every interleaving does. */
  lemma DirectExact<T(!new)>(p: Params, k: nat, j: nat, f: (nat, nat, T) -> T, src: seq<T>, c: State<T>)
    requires Direct(p, k, j) && |src| == p.n && Initial(p, c)
    ensures (exists steps, c' :: Exchange(p, f, src, c, steps, c') && Shaped(p, c') && Final(p, c'))
        <==> Nested(p, k, j) && Roomy(p)
  {
    InitialAligned(p, k, j, f, src, c);
    hide Inv, Aligned, Exchange, Final, Nested, Roomy, Initial;
    if Nested(p, k, j) && Roomy(p) {
      var steps, c' := ExchangeCompletes(p, k, j, f, src, c);
      ExchangeKeeps(p, k, j, f, src, c, steps, c');
    } else {
      forall steps, c' | Exchange(p, f, src, c, steps, c') ensures Shaped(p, c') && !Final(p, c') {
        DirectStalls(p, k, j, f, src, c, steps, c');
      }
    }
  }
}
