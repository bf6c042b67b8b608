/** Runs of the chain: no unfinished state is deadlocked, every run is finite, and every item arrives. */
module ChainRuns {
  import opened Lanes
  import opened Chain

  // ---- deadlock freedom ----

  /** The station has sent or received everything it is responsible for. */
  ghost predicate Finished<T>(p: Params, a: Station<T>) {
    a.begin == p.n
  }

  ghost predicate Final<T>(p: Params, c: State<T>) {
    forall s :: 0 <= s < |c.st| ==> Finished(p, c.st[s])
  }

  lemma PositionAt<T>(p: Params, f: (nat, nat, T) -> T, src: seq<T>, c: State<T>, s: nat, l: nat)
    requires Inv(p, f, src, c) && s < |c.st| && l < |p.lo| - 1
    ensures |p.lo| >= 2 && ShapedStation(p, c.st[s]) && PositionOk(p, s, c.st[s], l) && c.st[s].begin <= p.n
    ensures c.st[s].sending ==> c.st[s].begin < p.n
    ensures ParamsOk(p) && Cuts(p.lo, p.n) && p.cap(s, l) >= 1 && p.lo[l + 1] <= p.n
    ensures |c.st| == |p.chunk| && |c.st[s].recvd| == |c.st[s].sent| == |p.lo| - 1
    ensures s + 1 < |c.st| ==> s < |c.q| && l < |c.q[s]| && l < |c.st[s + 1].recvd|
    ensures s + 1 < |c.st| ==> c.st[s + 1].recvd[l] + |c.q[s][l]| == c.st[s].sent[l]
  {
    assert PositionsOk(p, s, c.st[s]);
    if s + 1 < |c.st| {
      LinkOf(p, f, src, c, s);
      assert LaneOk(p, f, src, s, l, c.st[s].sent[l], c.st[s + 1].recvd[l], c.q[s][l]);
    }
  }

  /** A lane waiting for an item: it is in the queue, or some step upstream is enabled. */
  lemma {:induction false} RecvProgress<T>(p: Params, f: (nat, nat, T) -> T, src: seq<T>, c: State<T>, s: nat, l: nat)
    returns (step: Step)
    requires Inv(p, f, src, c) && Shaped(p, c) && 0 < s < |c.st| && !c.st[s].sending && c.st[s].begin < p.n
    requires l < |p.lo| - 1 && c.st[s].recvd[l] < Clip(p.lo, l, ChunkEnd(p, s, c.st[s].begin))
    ensures Enabled(p, c, step)
    decreases s
  {
    hide Inv, DataOk, LinkOk, LaneOk, ParamsOk, Cuts;
    var a, b := c.st[s - 1], c.st[s];
    PositionAt(p, f, src, c, s - 1, l);
    PositionAt(p, f, src, c, s, l);
    var endA, endB := ChunkEnd(p, s - 1, a.begin), ChunkEnd(p, s, b.begin);
    EndBounds(p, s - 1, a.begin);
    EndBounds(p, s, b.begin);
    ClipOrder(p.lo, p.n, l, b.begin, endB);
    if |c.q[s - 1][l]| > 0 {
      step := RecvItem(s, l);
    } else if a.sending {
      if a.sent[l] < Clip(p.lo, l, endA) {
        step := SendItem(s - 1, l);
      } else {
        step := OtherLane(p, f, src, c, s, l);
      }
    } else if s - 1 == 0 || LanesAt(p, a.recvd, endA) {
      step := Turn(s - 1);
    } else {
      var k :| 0 <= k < |a.recvd| && a.recvd[k] != Clip(p.lo, k, endA);
      PositionAt(p, f, src, c, s - 1, k);
      step := RecvProgress(p, f, src, c, s - 1, k);
    }
  }

  /** The station before is sending, and some lane is still short of the end of its chunk. */
  lemma SlowLane<T>(p: Params, f: (nat, nat, T) -> T, src: seq<T>, c: State<T>, s: nat, k: nat)
    returns (step: Step)
    requires Inv(p, f, src, c) && Shaped(p, c) && 0 < s < |c.st| && !c.st[s].sending && c.st[s].begin < p.n
    requires k < |p.lo| - 1 && c.st[s - 1].sending
    requires c.st[s - 1].sent[k] != Clip(p.lo, k, ChunkEnd(p, s - 1, c.st[s - 1].begin))
    requires ChunkEnd(p, s - 1, c.st[s - 1].begin) <= ChunkEnd(p, s, c.st[s].begin)
    ensures Enabled(p, c, step)
  {
    hide Inv, DataOk, LinkOk, LaneOk, ParamsOk, Cuts;
    var a, b := c.st[s - 1], c.st[s];
    PositionAt(p, f, src, c, s - 1, k);
    PositionAt(p, f, src, c, s, k);
    EndBounds(p, s - 1, a.begin);
    ClipOrder(p.lo, p.n, k, ChunkEnd(p, s - 1, a.begin), ChunkEnd(p, s, b.begin));
    step := if |c.q[s - 1][k]| < p.cap(s - 1, k) then SendItem(s - 1, k) else RecvItem(s, k);
  }

  /** The station before has sent its chunk on lane l, but another of its lanes is not through yet. */
  lemma OtherLane<T>(p: Params, f: (nat, nat, T) -> T, src: seq<T>, c: State<T>, s: nat, l: nat)
    returns (step: Step)
    requires Inv(p, f, src, c) && Shaped(p, c) && 0 < s < |c.st| && !c.st[s].sending && c.st[s].begin < p.n
    requires l < |p.lo| - 1 && c.st[s].recvd[l] < Clip(p.lo, l, ChunkEnd(p, s, c.st[s].begin))
    requires |c.q[s - 1][l]| == 0 && c.st[s - 1].sending
    requires c.st[s - 1].sent[l] >= Clip(p.lo, l, ChunkEnd(p, s - 1, c.st[s - 1].begin))
    ensures Enabled(p, c, step)
  {
    hide Inv, DataOk, LinkOk, LaneOk, ParamsOk, Cuts, PositionOk;
    var a, b := c.st[s - 1], c.st[s];
    PositionAt(p, f, src, c, s - 1, l);
    PositionAt(p, f, src, c, s, l);
    var endA, endB := ChunkEnd(p, s - 1, a.begin), ChunkEnd(p, s, b.begin);
    if endB < endA { ClipOrder(p.lo, p.n, l, endB, endA); }
    if LanesAt(p, a.sent, endA) {
      step := NextChunk(s - 1);
    } else {
      var k :| 0 <= k < |a.sent| && a.sent[k] != Clip(p.lo, k, endA);
      step := SlowLane(p, f, src, c, s, k);
    }
  }

  /** As long as some station is unfinished, some step is enabled. */
  lemma {:induction false} Progress<T>(p: Params, f: (nat, nat, T) -> T, src: seq<T>, c: State<T>, s: nat)
    returns (step: Step)
    requires Inv(p, f, src, c) && Shaped(p, c) && s < |c.st| && !Finished(p, c.st[s])
    ensures Enabled(p, c, step)
    decreases |c.st| - s
  {
    assert |p.lo| >= 2;
    hide Inv, DataOk, LinkOk, LaneOk, ParamsOk, Cuts;
    var a := c.st[s];
    PositionAt(p, f, src, c, s, 0);
    var end := ChunkEnd(p, s, a.begin);
    EndBounds(p, s, a.begin);
    if !a.sending {
      if s == 0 || LanesAt(p, a.recvd, end) {
        step := Turn(s);
      } else {
        var l :| 0 <= l < |a.recvd| && a.recvd[l] != Clip(p.lo, l, end);
        PositionAt(p, f, src, c, s, l);
        step := RecvProgress(p, f, src, c, s, l);
      }
    } else if s + 1 == |c.st| || LanesAt(p, a.sent, end) {
      step := NextChunk(s);
    } else {
      var l :| 0 <= l < |a.sent| && a.sent[l] != Clip(p.lo, l, end);
      PositionAt(p, f, src, c, s, l);
      ClipOrder(p.lo, p.n, l, a.begin, end);
      if |c.q[s][l]| < p.cap(s, l) {
        step := SendItem(s, l);
      } else {
        PositionAt(p, f, src, c, s + 1, l);
        ClipOrder(p.lo, p.n, l, end, p.n);
        step := Progress(p, f, src, c, s + 1);
      }
    }
  }

  // ---- termination ----

  /** Distance of all positions from n. */
  ghost function Slack(n: nat, v: seq<nat>): int {
    if |v| == 0 then 0 else Slack(n, v[..|v| - 1]) + n - v[|v| - 1]
  }

  lemma {:induction false} SlackBound(n: nat, v: seq<nat>)
    requires forall l :: 0 <= l < |v| ==> v[l] <= n
    ensures Slack(n, v) >= 0
  {
    if |v| > 0 { SlackBound(n, v[..|v| - 1]); }
  }

  lemma {:induction false} SlackStep(n: nat, v: seq<nat>, l: nat)
    requires l < |v|
    ensures Slack(n, v[l := v[l] + 1]) == Slack(n, v) - 1
    decreases |v|
  {
    var m := |v| - 1;
    if l == m {
      assert v[l := v[l] + 1][..m] == v[..m];
    } else {
      SlackStep(n, v[..m], l);
      assert v[l := v[l] + 1][..m] == v[..m][l := v[l] + 1];
    }
  }

  /** What one station still has to do. */
  ghost function Work<T>(p: Params, a: Station<T>): int {
    2 * (p.n - a.begin) + (if a.sending then 0 else 1) + Slack(p.n, a.recvd) + Slack(p.n, a.sent)
  }

  ghost function Measure<T>(p: Params, st: seq<Station<T>>): int {
    if |st| == 0 then 0 else Measure(p, st[..|st| - 1]) + Work(p, st[|st| - 1])
  }

  lemma {:induction false} MeasureUpdate<T>(p: Params, st: seq<Station<T>>, s: nat, a: Station<T>)
    requires s < |st|
    ensures Measure(p, st[s := a]) == Measure(p, st) - Work(p, st[s]) + Work(p, a)
    decreases |st|
  {
    var m := |st| - 1;
    if s == m {
      assert st[s := a][..m] == st[..m];
    } else {
      MeasureUpdate(p, st[..m], s, a);
      assert st[s := a][..m] == st[..m][s := a];
    }
  }

  ghost predicate Within<T>(p: Params, a: Station<T>) {
    && a.begin <= p.n && (forall l :: 0 <= l < |a.recvd| ==> a.recvd[l] <= p.n)
    && forall l :: 0 <= l < |a.sent| ==> a.sent[l] <= p.n
  }

  lemma {:induction false} MeasureBound<T>(p: Params, st: seq<Station<T>>)
    requires forall s :: 0 <= s < |st| ==> Within(p, st[s])
    ensures Measure(p, st) >= 0
    decreases |st|
  {
    if |st| > 0 {
      MeasureBound(p, st[..|st| - 1]);
      assert Within(p, st[|st| - 1]);
      SlackBound(p.n, st[|st| - 1].recvd);
      SlackBound(p.n, st[|st| - 1].sent);
    }
  }

  lemma MeasureNonNegative<T>(p: Params, f: (nat, nat, T) -> T, src: seq<T>, c: State<T>)
    requires Inv(p, f, src, c)
    ensures Measure(p, c.st) >= 0
  {
    forall s | 0 <= s < |c.st| ensures Within(p, c.st[s]) {
      assert PositionsOk(p, s, c.st[s]);
      forall l | 0 <= l < |p.lo| - 1 ensures c.st[s].recvd[l] <= p.n && c.st[s].sent[l] <= p.n {
        assert PositionOk(p, s, c.st[s], l);
      }
    }
    MeasureBound(p, c.st);
  }

  /** The station that takes the step has less to do afterwards; the others are untouched. */
  lemma StepWork<T>(p: Params, f: (nat, nat, T) -> T, src: seq<T>, c: State<T>, step: Step)
    requires Inv(p, f, src, c) && Shaped(p, c) && Enabled(p, c, step)
    ensures var st := Apply(p, f, src, c, step).st;
      st == c.st[step.s := st[step.s]] && Work(p, st[step.s]) < Work(p, c.st[step.s])
  {
    hide Slack, DataOk, LinkOk, LaneOk;
    var a := c.st[step.s];
    assert PositionsOk(p, step.s, a);
    EndBounds(p, step.s, a.begin);
    match step
    case SendItem(s, l) => SlackStep(p.n, a.sent, l);
    case RecvItem(s, l) => SlackStep(p.n, a.recvd, l);
    case Turn(s) =>
    case NextChunk(s) =>
  }

  /** Every step decreases the measure, whatever the interleaving. */
  lemma StepDecreases<T>(p: Params, f: (nat, nat, T) -> T, src: seq<T>, c: State<T>, step: Step)
    requires Inv(p, f, src, c) && Shaped(p, c) && Enabled(p, c, step)
    ensures Measure(p, Apply(p, f, src, c, step).st) < Measure(p, c.st)
  {
    var st := Apply(p, f, src, c, step).st;
    StepWork(p, f, src, c, step);
    EnabledStation(p, c, step);
    hide *;
    MeasureUpdate(p, c.st, step.s, st[step.s]);
  }

  lemma EnabledStation<T>(p: Params, c: State<T>, step: Step)
    requires Shaped(p, c) && Enabled(p, c, step)
    ensures step.s < |c.st|
  {
  }

  // ---- runs ----

  /** c' is reached from c by these steps, each enabled when it is taken. */
  ghost predicate Reaches<T>(p: Params, f: (nat, nat, T) -> T, src: seq<T>, c: State<T>, steps: seq<Step>, c': State<T>)
    requires |src| == p.n
    decreases |steps|
  {
    if |steps| == 0 then c == c'
    else Shaped(p, c) && Enabled(p, c, steps[0]) && Reaches(p, f, src, Apply(p, f, src, c, steps[0]), steps[1..], c')
  }

  lemma {:induction false} ReachesKeeps<T>(p: Params, f: (nat, nat, T) -> T, src: seq<T>, c: State<T>,
                                           steps: seq<Step>, c': State<T>)
    requires Inv(p, f, src, c) && Reaches(p, f, src, c, steps, c')
    ensures Inv(p, f, src, c') && |steps| + Measure(p, c'.st) <= Measure(p, c.st)
    decreases |steps|
  {
    if |steps| > 0 {
      StepKeeps(p, f, src, c, steps[0]);
      StepDecreases(p, f, src, c, steps[0]);
      ReachesKeeps(p, f, src, Apply(p, f, src, c, steps[0]), steps[1..], c');
    }
  }

  /** At the end the last station has received, in place, what the station before it must produce. */
  lemma FinalData<T>(p: Params, f: (nat, nat, T) -> T, src: seq<T>, c: State<T>, s: nat, i: nat)
    requires Inv(p, f, src, c) && s < |c.st| && Finished(p, c.st[s]) && i < p.n
    ensures ShapedStation(p, c.st[s]) && c.st[s].outBuf[i] == Val(f, src, s, i)
    ensures s > 0 ==> c.st[s].inBuf[i] == Val(f, src, s - 1, i)
  {
    assert PositionsOk(p, s, c.st[s]) && DataOk(p, f, src, s, c.st[s]);
    if s > 0 {
      var l := FindCut(p.lo, i, |p.lo| - 1);
      PositionAt(p, f, src, c, s, l);
    }
  }

  /** Every interleaving of an ungated chain: it is never stuck before the end, it stops within a bound fixed at
      the start, and at the end every station has processed every item. */
  lemma ChainTheorem<T>(p: Params, f: (nat, nat, T) -> T, src: seq<T>, c: State<T>, steps: seq<Step>, c': State<T>)
    requires ParamsOk(p) && |src| == p.n && Initial(p, c) && Reaches(p, f, src, c, steps, c')
    ensures |steps| <= Measure(p, c.st)
    ensures Shaped(p, c') && (Final(p, c') || exists step :: Enabled(p, c', step))
    ensures Final(p, c') ==> forall s, i :: 0 <= s < |c'.st| && 0 <= i < p.n ==>
      c'.st[s].outBuf[i] == Val(f, src, s, i) && (s > 0 ==> c'.st[s].inBuf[i] == Val(f, src, s - 1, i))
  {
    InitialInv(p, f, src, c);
    ReachesKeeps(p, f, src, c, steps, c');
    MeasureNonNegative(p, f, src, c');
    InvShaped(p, f, src, c');
    if !Final(p, c') {
      var s :| 0 <= s < |c'.st| && !Finished(p, c'.st[s]);
      var step := Progress(p, f, src, c', s);
    } else {
      forall s, i | 0 <= s < |c'.st| && 0 <= i < p.n
        ensures c'.st[s].outBuf[i] == Val(f, src, s, i) && (s > 0 ==> c'.st[s].inBuf[i] == Val(f, src, s - 1, i))
      {
        assert Finished(p, c'.st[s]);
        FinalData(p, f, src, c', s, i);
      }
    }
  }

  /** One sender, one receiver, any two chunkings and any lane count: the vector arrives index for index
      although the items carry no tags. */
  lemma LaneTransport<T>(n: nat, lanes: nat, cap: (nat, nat) -> nat, sendChunk: nat, recvChunk: nat, v: seq<T>,
                         c: State<T>, steps: seq<Step>, c': State<T>)
    requires |v| == n && lanes >= 1 && sendChunk >= 1 && recvChunk >= 1 && forall s, l :: cap(s, l) >= 1
    requires var p := Params(n, Boundaries(n, lanes), cap, [sendChunk, recvChunk]);
      Initial(p, c) && Reaches(p, (_, _, x) => x, v, c, steps, c')
    ensures var p := Params(n, Boundaries(n, lanes), cap, [sendChunk, recvChunk]);
      |c'.st| == 2 && Shaped(p, c')
      && (if Final(p, c') then c'.st[1].inBuf == v else exists step :: Enabled(p, c', step))
  {
    var p := Params(n, Boundaries(n, lanes), cap, [sendChunk, recvChunk]);
    BoundariesCut(n, lanes);
    ChainTheorem(p, (_, _, x) => x, v, c, steps, c');
    if Final(p, c') {
      forall i | 0 <= i < n ensures c'.st[1].inBuf[i] == v[i] {
        assert Val((_, _, x) => x, v, 0, i) == v[i];
      }
    }
  }
}
