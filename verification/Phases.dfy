/** Several passes of ciphertexts over the same chain of processes, some forward and some back. A process enters a
    pass only when its own part of every earlier pass is over, and passes of one direction share the sockets. */
module Phases {
  import opened Lanes
  import opened Chain
  import opened ChainRuns

  /** One pass: its lanes and chunk sizes, what each station makes of item i, and its direction. Item i enters as
      init(i, v), where v are the results for i of the earlier passes listed in `from`. */
  datatype Phase<!T> = Phase(p: Params, f: (nat, nat, T) -> T, back: bool, from: seq<nat>, init: (nat, seq<T>) -> T)

  /** Phase h, step. */
  datatype Move = Move(h: nat, step: Step)

  /** Same items and processes throughout; what a pass starts from was received by the process it starts at. */
  ghost predicate PhasesOk<T>(w: seq<Phase<T>>) {
    && |w| > 0
    && (forall h :: 0 <= h < |w| ==> PhaseOk(w, h))
  }

  ghost predicate PhaseOk<T>(w: seq<Phase<T>>, h: nat)
    requires h < |w|
  {
    && ParamsOk(w[h].p) && w[h].p.n == w[0].p.n && |w[h].p.chunk| == |w[0].p.chunk|
    && forall k :: 0 <= k < |w[h].from| ==> w[h].from[k] < h && w[w[h].from[k]].back != w[h].back
  }

  /** The process at station s of a pass, and also the station of process s. */
  function At<T>(ph: Phase<T>, s: nat): nat
    requires s < |ph.p.chunk|
  {
    if ph.back then |ph.p.chunk| - 1 - s else s
  }

  // ---- what the passes must compute ----

  /** What the last station of pass h must end with for item i. */
  ghost function Made<T>(w: seq<Phase<T>>, h: nat, i: nat): T
    requires PhasesOk(w) && h < |w| && i < w[0].p.n
    decreases h, 2
  {
    assert PhaseOk(w, h);
    Val(w[h].f, Sources(w, h), |w[h].p.chunk| - 1, i)
  }

  ghost function Sources<T>(w: seq<Phase<T>>, h: nat): (r: seq<T>)
    requires PhasesOk(w) && h < |w|
    ensures |r| == w[0].p.n
    decreases h, 1
  {
    assert PhaseOk(w, h);
    seq(w[0].p.n, i requires 0 <= i < w[0].p.n => w[h].init(i, Given(w, h, i)))
  }

  ghost function Given<T>(w: seq<Phase<T>>, h: nat, i: nat): (r: seq<T>)
    requires PhasesOk(w) && h < |w| && i < w[0].p.n
    ensures |r| == |w[h].from| && forall k :: 0 <= k < |r| ==> w[h].from[k] < h && r[k] == Made(w, w[h].from[k], i)
    decreases h, 0
  {
    assert PhaseOk(w, h);
    seq(|w[h].from|, k requires 0 <= k < |w[h].from| => Made(w, w[h].from[k], i))
  }

  // ---- steps ----

  ghost predicate SystemShaped<T>(w: seq<Phase<T>>, x: seq<State<T>>) {
    |x| == |w| && forall h :: 0 <= h < |w| ==> Shaped(w[h].p, x[h])
  }

  /** Items queued on lane l of link s by the first m passes, counting one direction. */
  ghost function Load<T>(w: seq<Phase<T>>, x: seq<State<T>>, back: bool, s: nat, l: nat, m: nat): nat
    requires m <= |w| == |x|
  {
    if m == 0 then 0 else Load(w, x, back, s, l, m - 1) + (if w[m - 1].back == back then Queued(x[m - 1], s, l) else 0)
  }

  ghost function Queued<T>(c: State<T>, s: nat, l: nat): nat {
    if s < |c.q| && l < |c.q[s]| then |c.q[s][l]| else 0
  }

  /** The process at station s of pass h is through with all earlier passes. */
  ghost predicate Open<T>(w: seq<Phase<T>>, x: seq<State<T>>, h: nat, s: nat)
    requires PhasesOk(w) && SystemShaped(w, x) && h < |w| && s < |w[h].p.chunk|
  {
    forall g :: 0 <= g < h ==> Through(w, x, g, h, s)
  }

  ghost predicate Through<T>(w: seq<Phase<T>>, x: seq<State<T>>, g: nat, h: nat, s: nat)
    requires PhasesOk(w) && SystemShaped(w, x) && g < |w| && h < |w| && s < |w[h].p.chunk|
  {
    assert PhaseOk(w, g) && PhaseOk(w, h);
    Finished(w[g].p, x[g].st[At(w[g], At(w[h], s))])
  }

  ghost predicate CanMove<T>(w: seq<Phase<T>>, x: seq<State<T>>, m: Move)
    requires PhasesOk(w) && SystemShaped(w, x)
  {
    && m.h < |w| && Enabled(w[m.h].p, x[m.h], m.step) && Open(w, x, m.h, m.step.s)
    && (m.step.SendItem? ==>
          Load(w, x, w[m.h].back, m.step.s, m.step.l, |w|) < w[m.h].p.cap(m.step.s, m.step.l))
  }

  /** What pass h starts from, read from the buffers of the process it starts at. */
  ghost function LocalSources<T>(w: seq<Phase<T>>, x: seq<State<T>>, h: nat): (r: seq<T>)
    requires PhasesOk(w) && SystemShaped(w, x) && h < |w|
    ensures |r| == w[0].p.n
  {
    assert PhaseOk(w, h);
    seq(w[0].p.n, i requires 0 <= i < w[0].p.n => w[h].init(i, LocalGiven(w, x, h, i)))
  }

  ghost function LocalGiven<T>(w: seq<Phase<T>>, x: seq<State<T>>, h: nat, i: nat): (r: seq<T>)
    requires PhasesOk(w) && SystemShaped(w, x) && h < |w| && i < w[0].p.n
    ensures |r| == |w[h].from|
  {
    assert PhaseOk(w, h);
    seq(|w[h].from|, k requires 0 <= k < |w[h].from| => Held(w, x, w[h].from[k], i))
  }

  /** What the last station of pass g holds for item i. */
  ghost function Held<T>(w: seq<Phase<T>>, x: seq<State<T>>, g: nat, i: nat): T
    requires PhasesOk(w) && SystemShaped(w, x) && g < |w| && i < w[0].p.n
  {
    assert PhaseOk(w, g);
    assert ShapedStation(w[g].p, x[g].st[|w[g].p.chunk| - 1]);
    x[g].st[|w[g].p.chunk| - 1].outBuf[i]
  }

  ghost function Moved<T>(w: seq<Phase<T>>, x: seq<State<T>>, m: Move): seq<State<T>>
    requires PhasesOk(w) && SystemShaped(w, x) && CanMove(w, x, m)
  {
    assert PhaseOk(w, m.h);
    x[m.h := Apply(w[m.h].p, w[m.h].f, LocalSources(w, x, m.h), x[m.h], m.step)]
  }

  // ---- invariant ----

  ghost predicate PhaseInv<T>(w: seq<Phase<T>>, x: seq<State<T>>, h: nat)
    requires PhasesOk(w) && h < |w| == |x|
  {
    Inv(w[h].p, w[h].f, Sources(w, h), x[h])
  }

  ghost predicate SystemInv<T>(w: seq<Phase<T>>, x: seq<State<T>>) {
    PhasesOk(w) && |x| == |w| && forall h :: 0 <= h < |w| ==> PhaseInv(w, x, h)
  }

  lemma ShapedFrom<T>(w: seq<Phase<T>>, x: seq<State<T>>)
    requires SystemInv(w, x)
    ensures SystemShaped(w, x)
  {
    forall h | 0 <= h < |w| ensures Shaped(w[h].p, x[h]) {
      assert PhaseInv(w, x, h);
      InvShaped(w[h].p, w[h].f, Sources(w, h), x[h]);
    }
  }

  /** A process has begun its part of a pass: it has received something, is past the start, or is sending. */
  ghost predicate Begun<T>(p: Params, a: Station<T>)
    requires |p.lo| >= 2 && ShapedStation(p, a)
  {
    a.begin > 0 || a.sending || !LanesAt(p, a.recvd, 0)
  }

  /** A process that has begun a pass is through with all earlier ones. */
  ghost predicate Separate<T>(w: seq<Phase<T>>, x: seq<State<T>>)
    requires PhasesOk(w) && SystemShaped(w, x)
  {
    forall g, h, s :: 0 <= g < h < |w| && 0 <= s < |w[h].p.chunk| && Begun(w[h].p, x[h].st[s]) ==> Through(w, x, g, h, s)
  }

  lemma FactsOf<T>(w: seq<Phase<T>>, x: seq<State<T>>, h: nat)
    requires SystemInv(w, x) && h < |w|
    ensures PhasesOk(w) && PhaseOk(w, h) && ParamsOk(w[h].p) && w[h].p.n == w[0].p.n == |Sources(w, h)|
    ensures |w[h].p.chunk| == |w[0].p.chunk| && |x| == |w|
    ensures Inv(w[h].p, w[h].f, Sources(w, h), x[h]) && Shaped(w[h].p, x[h])
  {
    assert PhaseOk(w, h) && PhaseInv(w, x, h);
    InvShaped(w[h].p, w[h].f, Sources(w, h), x[h]);
  }

  /** When the process a pass starts at turns, it holds the results of the earlier passes the pass starts from. */
  lemma {:induction false} SourceReady<T>(w: seq<Phase<T>>, x: seq<State<T>>, h: nat)
    requires SystemInv(w, x) && SystemShaped(w, x) && h < |w| && 0 < |w[h].p.chunk| && Open(w, x, h, 0)
    ensures LocalSources(w, x, h) == Sources(w, h)
  {
    FactsOf(w, x, h);
    forall i | 0 <= i < w[0].p.n ensures LocalGiven(w, x, h, i) == Given(w, h, i) {
      forall k | 0 <= k < |w[h].from| ensures LocalGiven(w, x, h, i)[k] == Given(w, h, i)[k] {
        HeldReady(w, x, h, w[h].from[k], i);
      }
    }
  }

  lemma {:induction false} HeldReady<T>(w: seq<Phase<T>>, x: seq<State<T>>, h: nat, g: nat, i: nat)
    requires SystemInv(w, x) && SystemShaped(w, x) && g < h < |w| && w[g].back != w[h].back && i < w[0].p.n
    requires 0 < |w[h].p.chunk| && Open(w, x, h, 0)
    ensures Held(w, x, g, i) == Made(w, g, i)
  {
    hide Inv;
    FactsOf(w, x, g);
    FactsOf(w, x, h);
    assert Through(w, x, g, h, 0);
    FinalData(w[g].p, w[g].f, Sources(w, g), x[g], |w[g].p.chunk| - 1, i);
  }

  // ---- the measure ----

  ghost function Remaining<T>(w: seq<Phase<T>>, x: seq<State<T>>, m: nat): int
    requires m <= |w| == |x|
  {
    if m == 0 then 0 else Remaining(w, x, m - 1) + Measure(w[m - 1].p, x[m - 1].st)
  }

  lemma {:induction false} RemainingUpdate<T>(w: seq<Phase<T>>, x: seq<State<T>>, m: nat, h: nat, c: State<T>)
    requires m <= |w| == |x| && h < |w|
    ensures Remaining(w, x[h := c], m)
         == Remaining(w, x, m) + (if h < m then Measure(w[h].p, c.st) - Measure(w[h].p, x[h].st) else 0)
    decreases m
  {
    hide Measure;
    if m > 0 { RemainingUpdate(w, x, m - 1, h, c); }
  }

  lemma {:induction false} RemainingNonNegative<T>(w: seq<Phase<T>>, x: seq<State<T>>, m: nat)
    requires SystemInv(w, x) && m <= |w|
    ensures Remaining(w, x, m) >= 0
    decreases m
  {
    hide Inv, Measure;
    if m > 0 {
      RemainingNonNegative(w, x, m - 1);
      FactsOf(w, x, m - 1);
      MeasureNonNegative(w[m - 1].p, w[m - 1].f, Sources(w, m - 1), x[m - 1]);
    }
  }

  // ---- every move keeps the invariant ----

  /** Only the first station's computation reads the source, and by then it is complete. */
  lemma {:induction false} MovedIs<T>(w: seq<Phase<T>>, x: seq<State<T>>, m: Move)
    requires SystemInv(w, x) && SystemShaped(w, x) && CanMove(w, x, m)
    ensures PhaseOk(w, m.h)
    ensures Moved(w, x, m) == x[m.h := Apply(w[m.h].p, w[m.h].f, Sources(w, m.h), x[m.h], m.step)]
  {
    FactsOf(w, x, m.h);
    hide Inv, Load, Sources, LocalSources, Open;
    if m.step.Turn? && m.step.s == 0 {
      SourceReady(w, x, m.h);
    }
  }

  lemma {:induction false} MoveKeeps<T>(w: seq<Phase<T>>, x: seq<State<T>>, m: Move)
    requires SystemInv(w, x) && SystemShaped(w, x) && CanMove(w, x, m)
    ensures SystemInv(w, Moved(w, x, m)) && SystemShaped(w, Moved(w, x, m))
    ensures Remaining(w, Moved(w, x, m), |w|) < Remaining(w, x, |w|)
  {
    hide Inv, Measure, Load, Sources, Open, Moved, Remaining, Apply;
    var h, src := m.h, Sources(w, m.h);
    FactsOf(w, x, h);
    MovedIs(w, x, m);
    var c := Apply(w[h].p, w[h].f, src, x[h], m.step);
    StepKeeps(w[h].p, w[h].f, src, x[h], m.step);
    StepDecreases(w[h].p, w[h].f, src, x[h], m.step);
    RemainingUpdate(w, x, |w|, h, c);
    var x' := Moved(w, x, m);
    forall g | 0 <= g < |w| ensures PhaseInv(w, x', g) {
      assert PhaseInv(w, x, g);
    }
    ShapedFrom(w, x');
  }

  /** A finished station stays finished. */
  lemma FinishedIsIdle<T>(p: Params, f: (nat, nat, T) -> T, src: seq<T>, c: State<T>, step: Step, s: nat)
    requires Inv(p, f, src, c) && Shaped(p, c) && Enabled(p, c, step) && s < |c.st| && Finished(p, c.st[s])
    ensures Finished(p, Apply(p, f, src, c, step).st[s])
  {
    assert PositionsOk(p, s, c.st[s]);
  }

  lemma OtherStations<T>(p: Params, f: (nat, nat, T) -> T, src: seq<T>, c: State<T>, step: Step, s: nat)
    requires Shaped(p, c) && |src| == p.n && Enabled(p, c, step) && s < |c.st| && s != step.s
    ensures Apply(p, f, src, c, step).st[s] == c.st[s]
  {
  }

  lemma SeparateKept<T>(w: seq<Phase<T>>, x: seq<State<T>>, m: Move)
    requires SystemInv(w, x) && SystemShaped(w, x) && CanMove(w, x, m) && Separate(w, x)
    ensures SystemShaped(w, Moved(w, x, m)) && Separate(w, Moved(w, x, m))
  {
    MoveKeeps(w, x, m);
    MovedIs(w, x, m);
    FactsOf(w, x, m.h);
    hide Inv, Load, Sources, Moved, Apply, Remaining, SystemInv, Enabled;
    var h0, src := m.h, Sources(w, m.h);
    var x' := Moved(w, x, m);
    forall g, h, s | 0 <= g < h < |w| && 0 <= s < |w[h].p.chunk| && Begun(w[h].p, x'[h].st[s])
      ensures Through(w, x', g, h, s)
    {
      if h == h0 && s != m.step.s { OtherStations(w[h].p, w[h].f, src, x[h], m.step, s); }
      assert Through(w, x, g, h, s);
      if g == h0 { ThroughKept(w, x, m, h, s); }
    }
  }

  lemma ThroughKept<T>(w: seq<Phase<T>>, x: seq<State<T>>, m: Move, h: nat, s: nat)
    requires SystemInv(w, x) && SystemShaped(w, x) && CanMove(w, x, m) && SystemShaped(w, Moved(w, x, m))
    requires h < |w| && s < |w[h].p.chunk| && Through(w, x, m.h, h, s)
    ensures Through(w, Moved(w, x, m), m.h, h, s)
  {
    MovedIs(w, x, m);
    FactsOf(w, x, m.h);
    FactsOf(w, x, h);
    hide Inv, Load, Sources, Moved, Apply, Enabled, Finished;
    FinishedIsIdle(w[m.h].p, w[m.h].f, Sources(w, m.h), x[m.h], m.step, At(w[m.h], At(w[h], s)));
  }

  // ---- deadlock freedom ----

  ghost predicate Done<T>(w: seq<Phase<T>>, x: seq<State<T>>)
    requires |x| == |w|
  {
    forall h :: 0 <= h < |w| ==> Final(w[h].p, x[h])
  }

  /** A lane of a pass is empty once the pass is over and before its upstream process has begun. */
  lemma EmptyLane<T>(p: Params, f: (nat, nat, T) -> T, src: seq<T>, c: State<T>, s: nat, l: nat)
    requires Inv(p, f, src, c) && Shaped(p, c) && (Final(p, c) || (s < |c.st| && !Begun(p, c.st[s])))
    ensures Queued(c, s, l) == 0
  {
    hide Inv;
    if s < |c.q| && l < |c.q[s]| {
      PositionAt(p, f, src, c, s, l);
      PositionAt(p, f, src, c, s + 1, l);
      EndBounds(p, s + 1, c.st[s + 1].begin);
      ClipOrder(p.lo, p.n, l, 0, c.st[s + 1].begin);
      ClipOrder(p.lo, p.n, l, c.st[s + 1].begin, ChunkEnd(p, s + 1, c.st[s + 1].begin));
    }
  }

  /** If the other passes have nothing on the lane, the sockets carry what pass h has queued. */
  lemma {:induction false} LoadIs<T>(w: seq<Phase<T>>, x: seq<State<T>>, h: nat, s: nat, l: nat, m: nat)
    requires m <= |w| == |x| && h < |w|
    requires forall g :: 0 <= g < m && g != h && w[g].back == w[h].back ==> Queued(x[g], s, l) == 0
    ensures Load(w, x, w[h].back, s, l, m) == if h < m then Queued(x[h], s, l) else 0
    decreases m
  {
    hide Queued;
    if m > 0 { LoadIs(w, x, h, s, l, m - 1); }
  }

  /** In the first unfinished pass every process may move, and sending finds the room its own lane shows. */
  lemma {:induction false} FirstPassMoves<T>(w: seq<Phase<T>>, x: seq<State<T>>, h: nat, step: Step)
    requires SystemInv(w, x) && SystemShaped(w, x) && Separate(w, x) && h < |w|
    requires (forall g :: 0 <= g < h ==> Final(w[g].p, x[g])) && Enabled(w[h].p, x[h], step)
    ensures CanMove(w, x, Move(h, step))
  {
    FactsOf(w, x, h);
    EnabledStation(w[h].p, x[h], step);
    forall g | 0 <= g < h ensures Through(w, x, g, h, step.s) {
      FactsOf(w, x, g);
      assert Finished(w[g].p, x[g].st[At(w[g], At(w[h], step.s))]);
    }
    if step.SendItem? {
      SendRoom(w, x, h, step.s, step.l);
      EnabledSend(w[h].p, x[h], step.s, step.l);
    }
    hide Inv, Load, Enabled;
  }

  lemma EnabledSend<T>(p: Params, c: State<T>, s: nat, l: nat)
    requires Shaped(p, c) && Enabled(p, c, SendItem(s, l))
    ensures s < |c.st| && s < |c.q| && l < |c.q[s]| && Queued(c, s, l) < p.cap(s, l) && c.st[s].sending
  {
  }

  lemma {:induction false} SendRoom<T>(w: seq<Phase<T>>, x: seq<State<T>>, h: nat, s: nat, l: nat)
    requires SystemInv(w, x) && SystemShaped(w, x) && Separate(w, x) && h < |w|
    requires (forall g :: 0 <= g < h ==> Final(w[g].p, x[g])) && Enabled(w[h].p, x[h], SendItem(s, l))
    ensures Load(w, x, w[h].back, s, l, |w|) == Queued(x[h], s, l)
  {
    FactsOf(w, x, h);
    EnabledSend(w[h].p, x[h], s, l);
    StillSending(w[h].p, w[h].f, Sources(w, h), x[h], s);
    hide Inv, Load, Enabled, Queued, Sources;
    forall g | 0 <= g < |w| && g != h && w[g].back == w[h].back ensures Queued(x[g], s, l) == 0 {
      FactsOf(w, x, g);
      assert g > h && Begun(w[g].p, x[g].st[s]) ==> Through(w, x, h, g, s);
      EmptyLane(w[g].p, w[g].f, Sources(w, g), x[g], s, l);
    }
    LoadIs(w, x, h, s, l, |w|);
  }

  lemma StillSending<T>(p: Params, f: (nat, nat, T) -> T, src: seq<T>, c: State<T>, s: nat)
    requires Inv(p, f, src, c) && Shaped(p, c) && s < |c.st| && c.st[s].sending
    ensures !Finished(p, c.st[s])
  {
    assert PositionsOk(p, s, c.st[s]);
  }

  /** The first unfinished pass can always move, whatever the later ones have queued. */
  lemma SystemProgress<T>(w: seq<Phase<T>>, x: seq<State<T>>) returns (m: Move)
    requires SystemInv(w, x) && SystemShaped(w, x) && Separate(w, x) && !Done(w, x)
    ensures CanMove(w, x, m)
  {
    hide Inv, Enabled, CanMove, Separate, Sources;
    var h :| 0 <= h < |w| && !Final(w[h].p, x[h]);
    while exists g :: 0 <= g < h && !Final(w[g].p, x[g])
      invariant 0 <= h < |w| && !Final(w[h].p, x[h])
      decreases h
    {
      var g :| 0 <= g < h && !Final(w[g].p, x[g]);
      h := g;
    }
    var s :| 0 <= s < |x[h].st| && !Finished(w[h].p, x[h].st[s]);
    FactsOf(w, x, h);
    var step := Progress(w[h].p, w[h].f, Sources(w, h), x[h], s);
    FirstPassMoves(w, x, h, step);
    m := Move(h, step);
  }

  // ---- runs ----

  ghost predicate Starts<T>(w: seq<Phase<T>>, x: seq<State<T>>)
    requires PhasesOk(w)
  {
    |x| == |w| && forall h :: 0 <= h < |w| ==> PhaseOk(w, h) && Initial(w[h].p, x[h])
  }

  lemma StartsOk<T>(w: seq<Phase<T>>, x: seq<State<T>>)
    requires PhasesOk(w) && Starts(w, x)
    ensures SystemInv(w, x) && SystemShaped(w, x) && Separate(w, x)
  {
    forall h | 0 <= h < |w| ensures PhaseInv(w, x, h) {
      assert PhaseOk(w, h);
      InitialInv(w[h].p, w[h].f, Sources(w, h), x[h]);
    }
    ShapedFrom(w, x);
  }

  ghost predicate Runs<T>(w: seq<Phase<T>>, x: seq<State<T>>, moves: seq<Move>, x': seq<State<T>>)
    requires PhasesOk(w)
    decreases |moves|
  {
    if |moves| == 0 then x == x'
    else SystemShaped(w, x) && CanMove(w, x, moves[0]) && Runs(w, Moved(w, x, moves[0]), moves[1..], x')
  }

  lemma {:induction false} RunsKeep<T>(w: seq<Phase<T>>, x: seq<State<T>>, moves: seq<Move>, x': seq<State<T>>)
    requires SystemInv(w, x) && SystemShaped(w, x) && Separate(w, x) && Runs(w, x, moves, x')
    ensures SystemInv(w, x') && SystemShaped(w, x') && Separate(w, x')
    ensures |moves| + Remaining(w, x', |w|) <= Remaining(w, x, |w|)
    decreases |moves|
  {
    hide Inv, Remaining, CanMove, Moved, Separate, SystemShaped, PhaseInv;
    if |moves| > 0 {
      MoveKeeps(w, x, moves[0]);
      SeparateKept(w, x, moves[0]);
      RunsKeep(w, Moved(w, x, moves[0]), moves[1..], x');
    }
  }

  /** Every run from an initial state: bounded, never stuck before the end, passes separate throughout, and at the
      end the last station of every pass holds what the passes so far make of every item. */
  lemma {:induction false} PhasesTheorem<T>(w: seq<Phase<T>>, x: seq<State<T>>, moves: seq<Move>, x': seq<State<T>>)
    requires PhasesOk(w) && Starts(w, x) && Runs(w, x, moves, x')
    ensures |x| == |x'| == |w| && |moves| <= Remaining(w, x, |w|)
    ensures SystemShaped(w, x') && Separate(w, x') && (Done(w, x') || exists m :: CanMove(w, x', m))
    ensures Done(w, x') ==> forall h, i :: 0 <= h < |w| && 0 <= i < w[0].p.n ==> Held(w, x', h, i) == Made(w, h, i)
  {
    StartsOk(w, x);
    hide Inv, Remaining, CanMove, Moved, Runs, Starts, Separate, SystemShaped, PhaseInv, Held, Made;
    RunsKeep(w, x, moves, x');
    RemainingNonNegative(w, x', |w|);
    if !Done(w, x') {
      var m := SystemProgress(w, x');
    } else {
      forall h, i | 0 <= h < |w| && 0 <= i < w[0].p.n ensures Held(w, x', h, i) == Made(w, h, i) {
        HeldAtEnd(w, x', h, i);
      }
    }
  }

  lemma {:induction false} HeldAtEnd<T>(w: seq<Phase<T>>, x: seq<State<T>>, h: nat, i: nat)
    requires SystemInv(w, x) && SystemShaped(w, x) && h < |w| && Final(w[h].p, x[h]) && i < w[0].p.n
    ensures Held(w, x, h, i) == Made(w, h, i)
  {
    hide Inv;
    FactsOf(w, x, h);
    FinalData(w[h].p, w[h].f, Sources(w, h), x[h], |w[h].p.chunk| - 1, i);
  }

  /** What is on the wire: in every reachable state each item on a link of a pass is what the upstream station must
      make of some item of that lane. */
  lemma {:induction false} OnTheWire<T>(w: seq<Phase<T>>, x: seq<State<T>>, moves: seq<Move>, x': seq<State<T>>,
                                        h: nat, s: nat, l: nat, k: nat) returns (i: nat)
    requires PhasesOk(w) && Starts(w, x) && Runs(w, x, moves, x') && |x'| == |w|
    requires h < |w| && s < |x'[h].q| && l < |x'[h].q[s]| && k < |x'[h].q[s][l]|
    ensures i < w[0].p.n && |w[h].p.lo| == |x'[h].q[s]| + 1 && w[h].p.lo[l] <= i < w[h].p.lo[l + 1]
    ensures w[h].p.n == w[0].p.n && x'[h].q[s][l][k] == Val(w[h].f, Sources(w, h), s, i)
  {
    StartsOk(w, x);
    RunsKeep(w, x, moves, x');
    FactsOf(w, x', h);
    hide Runs, Starts, SystemInv, Separate, Sources, Val;
    i := QueuedAt(w[h].p, w[h].f, Sources(w, h), x'[h], s, l, k);
  }

  lemma QueuedAt<T>(p: Params, f: (nat, nat, T) -> T, src: seq<T>, c: State<T>, s: nat, l: nat, k: nat) returns (i: nat)
    requires Inv(p, f, src, c) && |src| == p.n && s < |c.q| && l < |c.q[s]| && k < |c.q[s][l]|
    ensures i < p.n && |p.lo| == |c.q[s]| + 1 && p.lo[l] <= i < p.lo[l + 1]
    ensures c.q[s][l][k] == Val(f, src, s, i)
  {
    hide Val;
    LinkOf(p, f, src, c, s);
    PositionAt(p, f, src, c, s, l);
    PositionAt(p, f, src, c, s + 1, l);
    assert LaneOk(p, f, src, s, l, c.st[s].sent[l], c.st[s + 1].recvd[l], c.q[s][l]);
    i := c.st[s + 1].recvd[l] + k;
    EndBounds(p, s, c.st[s].begin);
    EndBounds(p, s + 1, c.st[s + 1].begin);
    ClipOrder(p.lo, p.n, l, c.st[s].begin, ChunkEnd(p, s, c.st[s].begin));
    ClipOrder(p.lo, p.n, l, c.st[s + 1].begin, ChunkEnd(p, s + 1, c.st[s + 1].begin));
  }

  // ---- shared sockets never overflow ----

  /** All passes of one direction see the same room on a socket. */
  ghost predicate SameRoom<T>(w: seq<Phase<T>>, back: bool, s: nat, l: nat, room: nat) {
    forall h :: 0 <= h < |w| && w[h].back == back ==> w[h].p.cap(s, l) == room
  }

  lemma {:induction false} LoadUpdate<T>(w: seq<Phase<T>>, x: seq<State<T>>, back: bool, s: nat, l: nat, m: nat,
                                         h: nat, c: State<T>)
    requires m <= |w| == |x| && h < |w|
    ensures Load(w, x[h := c], back, s, l, m) == Load(w, x, back, s, l, m)
      + (if h < m && w[h].back == back then Queued(c, s, l) - Queued(x[h], s, l) else 0)
    decreases m
  {
    hide Queued;
    if m > 0 { LoadUpdate(w, x, back, s, l, m - 1, h, c); }
  }

  /** A step queues at most one item, and only a sending step onto its own lane does. */
  lemma QueuedStep<T>(p: Params, f: (nat, nat, T) -> T, src: seq<T>, c: State<T>, step: Step, s: nat, l: nat)
    requires Shaped(p, c) && |src| == p.n && Enabled(p, c, step)
    ensures Queued(Apply(p, f, src, c, step), s, l) <= Queued(c, s, l) + (if step == SendItem(s, l) then 1 else 0)
  {
  }

  /** No move takes a socket beyond its room, whatever passes its items belong to. */
  lemma {:induction false} RoomKept<T>(w: seq<Phase<T>>, x: seq<State<T>>, m: Move, back: bool, s: nat, l: nat,
                                       room: nat)
    requires SystemInv(w, x) && SystemShaped(w, x) && CanMove(w, x, m) && SameRoom(w, back, s, l, room)
    requires Load(w, x, back, s, l, |w|) <= room
    ensures |Moved(w, x, m)| == |w| && Load(w, Moved(w, x, m), back, s, l, |w|) <= room
  {
    MovedIs(w, x, m);
    FactsOf(w, x, m.h);
    hide Inv, Sources, Load, Enabled, Apply, Queued, Moved;
    var c := Apply(w[m.h].p, w[m.h].f, Sources(w, m.h), x[m.h], m.step);
    QueuedStep(w[m.h].p, w[m.h].f, Sources(w, m.h), x[m.h], m.step, s, l);
    LoadUpdate(w, x, back, s, l, |w|, m.h, c);
  }

  lemma {:induction false} RoomRuns<T>(w: seq<Phase<T>>, x: seq<State<T>>, moves: seq<Move>, x': seq<State<T>>,
                                       back: bool, s: nat, l: nat, room: nat)
    requires SystemInv(w, x) && SystemShaped(w, x) && Separate(w, x) && Runs(w, x, moves, x')
    requires SameRoom(w, back, s, l, room) && Load(w, x, back, s, l, |w|) <= room
    ensures |x'| == |w| && Load(w, x', back, s, l, |w|) <= room
    decreases |moves|
  {
    hide Inv, Load, CanMove, Moved, Separate, SystemShaped, PhaseInv, SameRoom;
    if |moves| > 0 {
      MoveKeeps(w, x, moves[0]);
      SeparateKept(w, x, moves[0]);
      RoomKept(w, x, moves[0], back, s, l, room);
      RoomRuns(w, Moved(w, x, moves[0]), moves[1..], x', back, s, l, room);
    }
  }

  /** Nothing is queued at the start. */
  lemma {:induction false} StartsEmpty<T>(w: seq<Phase<T>>, x: seq<State<T>>, back: bool, s: nat, l: nat, m: nat)
    requires PhasesOk(w) && Starts(w, x) && m <= |w|
    ensures |x| == |w| && Load(w, x, back, s, l, m) == 0
    decreases m
  {
    if m > 0 {
      StartsEmpty(w, x, back, s, l, m - 1);
      assert PhaseOk(w, m - 1) && Initial(w[m - 1].p, x[m - 1]);
    }
  }

  /** In every reachable state every socket holds at most what it has room for. */
  lemma {:induction false} RoomTheorem<T>(w: seq<Phase<T>>, x: seq<State<T>>, moves: seq<Move>, x': seq<State<T>>,
                                          back: bool, s: nat, l: nat, room: nat)
    requires PhasesOk(w) && Starts(w, x) && Runs(w, x, moves, x') && SameRoom(w, back, s, l, room)
    ensures |x'| == |w| && Load(w, x', back, s, l, |w|) <= room
  {
    hide *;
    StartsOk(w, x);
    StartsEmpty(w, x, back, s, l, |w|);
    RoomRuns(w, x, moves, x', back, s, l, room);
  }

  /** From every reachable state some run completes. */
  lemma {:induction false} CanComplete<T>(w: seq<Phase<T>>, x: seq<State<T>>)
    returns (moves: seq<Move>, x': seq<State<T>>)
    requires SystemInv(w, x) && SystemShaped(w, x) && Separate(w, x)
    ensures |x'| == |w| && Runs(w, x, moves, x') && Done(w, x')
    decreases Remaining(w, x, |w|)
  {
    hide Inv, Remaining, CanMove, Moved, Done, Separate, SystemShaped, PhaseInv;
    if Done(w, x) {
      moves, x' := [], x;
    } else {
      var m := SystemProgress(w, x);
      MoveKeeps(w, x, m);
      SeparateKept(w, x, m);
      RemainingNonNegative(w, Moved(w, x, m), |w|);
      var rest;
      rest, x' := CanComplete(w, Moved(w, x, m));
      moves := [m] + rest;
      assert moves[1..] == rest;
    }
  }
}
