/** Runs of the pool: what a returned call has done, why nothing gets stuck, and why everything stops. */
module PoolRuns {
  import opened ThreadPool
  import opened PoolProof

  // ---- results ----

  /** What `parallel_for` promises when it returns: no index twice; all of them, when nothing throws; otherwise
      an exception of an index that did run. */
  ghost predicate Outcome(jb: Job) {
    && Distinct(jb.ran)
    && (if jb.caught == [] then (forall x :: x in jb.ran <==> jb.begin <= x < jb.end)
        else jb.caught[0] in jb.fails && jb.caught[0] in jb.ran)
    && (jb.caught == [] <==> forall x :: jb.begin <= x < jb.end ==> x !in jb.fails)
  }

  /** A call returns only after all its tasks are finished, with that outcome. */
  lemma ReturnedOutcome(p: Pool, j: nat)
    requires Inv(p) && j < |p.jobs| && p.jobs[j].phase == Returned
    ensures j !in p.q && forall k :: 0 <= k < |p.w| ==> !(Busy(p.w[k]) && p.w[k].job == j)
    ensures Outcome(p.jobs[j])
  {
    var jb := p.jobs[j];
    assert CallOk(p.w, p.q, j, jb);
    NoneBusy(p.w, j);
    NoneQueued(p.q, j);
    if jb.caught == [] {
      assert Quiet(p.w, j, jb);
      forall x | jb.begin <= x < jb.end ensures x in jb.ran {
        assert !SomePending(p.w, j, x);
      }
    } else {
      assert jb.caught[0] in jb.caught;
    }
  }

  /** After that nothing of the call changes any more. */
  lemma ReturnedStable(p: Pool, j: nat, s: Step)
    requires Inv(p) && j < |p.jobs| && p.jobs[j].phase == Returned && Enabled(p, s)
    ensures Next(p, s).jobs[j] == p.jobs[j]
  {
    ReturnedOutcome(p, j);
  }

  /** The exception that will be rethrown is fixed once it is recorded. */
  lemma FirstExceptionKept(p: Pool, j: nat, s: Step)
    requires Inv(p) && j < |p.jobs| && Enabled(p, s)
    ensures p.jobs[j].caught <= Next(p, s).jobs[j].caught && p.jobs[j].ran <= Next(p, s).jobs[j].ran
  {
  }

  // ---- progress ----

  /** Every call has returned or was never made before the pool went down, and no shutdown is half way. */
  ghost predicate Quiescent(p: Pool) {
    && (forall j :: 0 <= j < |p.jobs| ==>
          p.jobs[j].phase == Returned || (p.jobs[j].phase == Start && p.dtor != Live))
    && (p.dtor == Live || p.dtor == Joined)
  }

  /** Sleeping callers and workers are never left alone with work to do. */
  lemma Progress(p: Pool) returns (s: Step)
    requires Inv(p) && !Quiescent(p)
    ensures Enabled(p, s) && !s.SetStop?
  {
    hide CallOk;
    if j :| 0 <= j < |p.jobs| && p.jobs[j].phase == Start && p.dtor == Live {
      s := Push(j);
    } else if j :| 0 <= j < |p.jobs| && p.jobs[j].phase == Pushed {
      s := Notify(j);
    } else if j :| 0 <= j < |p.jobs| && p.jobs[j].phase == Waiting {
      s := CallerCheck(j);
    } else if k :| 0 <= k < |p.w| && Busy(p.w[k]) {
      s := Go(k);
    } else if k :| 0 <= k < |p.w| && p.w[k] == Awake {
      s := Look(k);
    } else if p.dtor == Stopping {
      s := NotifyStop;
    } else if j :| 0 <= j < |p.jobs| && p.jobs[j].phase == Sleeping {
      SleeperHasWork(p, j);
      assert false;
    } else {
      s := Join;
      forall k | 0 <= k < |p.w| ensures p.w[k] == Gone { assert p.w[k] != Asleep; }
    }
  }

  /** A sleeping caller still has a task queued or in a worker's hands, and somebody is up to deal with it. */
  lemma SleeperHasWork(p: Pool, j: nat)
    requires Inv(p) && j < |p.jobs| && p.jobs[j].phase == Sleeping
    ensures |p.q| > 0 || exists k :: 0 <= k < |p.w| && Busy(p.w[k])
    ensures (exists k :: 0 <= k < |p.w| && (Busy(p.w[k]) || p.w[k] == Awake))
            || p.dtor == Stopping || exists i :: 0 <= i < |p.jobs| && p.jobs[i].phase == Pushed
  {
    assert CallOk(p.w, p.q, j, p.jobs[j]);
    NoneBusy(p.w, j);
    NoneQueued(p.q, j);
    assert p.w[0] == Gone || p.w[0] == Asleep || p.w[0] == Awake || Busy(p.w[0]);
  }

  // ---- termination ----

  ghost function WorkerPot(wk: Worker): int {
    match wk
    case Awake => 1
    case Asleep => 0
    case Gone => 0
    case Check(_) => 6
    case Claim(_) => 5
    case Run(_, i, stop) => 7 + (if i < stop then stop - i else 0)
    case Fail(_, _) => 5
    case Finish(_) => 4
  }

  ghost function WorkersPot(w: seq<Worker>): int {
    if |w| == 0 then 0 else WorkersPot(w[..|w| - 1]) + WorkerPot(w[|w| - 1])
  }

  ghost function PhasePot(n: nat, jb: Job): int {
    match jb.phase
    case Start => n + 4 + 6 * jb.tasks
    case Pushed => n + 3
    case Waiting => 2
    case Sleeping => 0
    case Returned => 0
  }

  ghost function JobPot(n: nat, jb: Job): int {
    PhasePot(n, jb) + 4 * (if jb.cursor < jb.end then jb.end - jb.cursor else 0)
  }

  ghost function JobsPot(n: nat, jobs: seq<Job>): int {
    if |jobs| == 0 then 0 else JobsPot(n, jobs[..|jobs| - 1]) + JobPot(n, jobs[|jobs| - 1])
  }

  ghost function DtorPot(n: nat, d: Destructor): int {
    match d
    case Live => n + 3
    case Stopping => n + 2
    case Notified => 1
    case Joined => 0
  }

  ghost function Measure(p: Pool): int {
    WorkersPot(p.w) + JobsPot(|p.w|, p.jobs) + 6 * |p.q| + DtorPot(|p.w|, p.dtor)
  }

  lemma {:induction false} WorkersUpdate(w: seq<Worker>, k: nat, wk: Worker)
    requires k < |w|
    ensures WorkersPot(w[k := wk]) == WorkersPot(w) - WorkerPot(w[k]) + WorkerPot(wk)
    decreases |w|
  {
    var n := |w| - 1;
    if k == n {
      assert w[k := wk][..n] == w[..n];
    } else {
      WorkersUpdate(w[..n], k, wk);
      assert w[k := wk][..n] == w[..n][k := wk];
    }
  }

  lemma {:induction false} JobsUpdate(n: nat, jobs: seq<Job>, j: nat, jb: Job)
    requires j < |jobs|
    ensures JobsPot(n, jobs[j := jb]) == JobsPot(n, jobs) - JobPot(n, jobs[j]) + JobPot(n, jb)
    decreases |jobs|
  {
    var m := |jobs| - 1;
    if j == m {
      assert jobs[j := jb][..m] == jobs[..m];
    } else {
      JobsUpdate(n, jobs[..m], j, jb);
      assert jobs[j := jb][..m] == jobs[..m][j := jb];
    }
  }

  lemma {:induction false} WakeCost(w: seq<Worker>)
    ensures WorkersPot(WakeAll(w)) <= WorkersPot(w) + |w|
    decreases |w|
  {
    if |w| > 0 {
      WakeCost(w[..|w| - 1]);
      assert WakeAll(w)[..|w| - 1] == WakeAll(w[..|w| - 1]);
    }
  }

  lemma {:induction false} PotsNonNegative(w: seq<Worker>, n: nat, jobs: seq<Job>)
    ensures WorkersPot(w) >= 0 && JobsPot(n, jobs) >= 0
    decreases |w| + |jobs|
  {
    if |w| > 0 {
      PotsNonNegative(w[..|w| - 1], n, jobs);
    } else if |jobs| > 0 {
      PotsNonNegative(w, n, jobs[..|jobs| - 1]);
    }
  }

  /** The busy worker's action costs more than it frees. */
  lemma ActCost(n: nat, wk: Worker, jb: Job)
    requires Busy(wk) && JobOk(jb)
    ensures var (wk', jb') := Act(wk, jb); WorkerPot(wk') + JobPot(n, jb') < WorkerPot(wk) + JobPot(n, jb)
  {
  }

  lemma GoDecreases(p: Pool, k: nat)
    requires Inv(p) && Enabled(p, Go(k))
    ensures Measure(Next(p, Go(k))) < Measure(p)
  {
    var j, n := p.w[k].job, |p.w|;
    var (wk, jb) := Act(p.w[k], p.jobs[j]);
    assert Next(p, Go(k)) == p.(w := p.w[k := wk], jobs := p.jobs[j := jb]);
    hide Inv, WorkersPot, JobsPot, JobPot, WorkerPot, Act, Next, JobOk;
    JobOfCall(p, j);
    ActCost(n, p.w[k], p.jobs[j]);
    WorkersUpdate(p.w, k, wk);
    JobsUpdate(n, p.jobs, j, jb);
  }

  /** Every step decreases the measure, whatever the interleaving. */
  lemma StepDecreases(p: Pool, s: Step)
    requires Inv(p) && Enabled(p, s)
    ensures Measure(Next(p, s)) < Measure(p)
  {
    if s.Go? {
      GoDecreases(p, s.k);
    } else {
      OtherDecreases(p, s);
    }
  }

  lemma OtherDecreases(p: Pool, s: Step)
    requires Enabled(p, s) && !s.Go?
    ensures Measure(Next(p, s)) < Measure(p)
  {
    var p', n := Next(p, s), |p.w|;
    hide WorkersPot, JobsPot;
    match s
    case Push(j) => JobsUpdate(n, p.jobs, j, p'.jobs[j]);
    case Notify(j) =>
      JobsUpdate(n, p.jobs, j, p'.jobs[j]);
      WakeCost(p.w);
    case CallerCheck(j) => JobsUpdate(n, p.jobs, j, p'.jobs[j]);
    case Look(k) => WorkersUpdate(p.w, k, p'.w[k]);
    case SetStop =>
    case NotifyStop => WakeCost(p.w);
    case Join =>
  }

  lemma JobOfCall(p: Pool, j: nat)
    requires Inv(p) && j < |p.jobs|
    ensures JobOk(p.jobs[j])
  {
    assert CallOk(p.w, p.q, j, p.jobs[j]);
  }

  // ---- runs ----

  /** How many tasks a call queues: one per worker, but no more than there are blocks. */
  function TaskCount(n: nat, total: nat, chunk: nat): nat
    requires chunk >= 1
  {
    Min(n, (total + chunk - 1) / chunk)
  }

  lemma SomeTask(n: nat, total: nat, chunk: nat)
    requires n >= 1 && total >= 1 && chunk >= 1
    ensures 1 <= TaskCount(n, total, chunk) <= n
  {
    var m := total + chunk - 1;
    assert m == chunk * (m / chunk) + m % chunk;
    assert m / chunk != 0;
  }

  ghost predicate Fresh(n: nat, jb: Job) {
    && jb.begin < jb.end && jb.chunk >= 1 && jb.tasks == TaskCount(n, jb.end - jb.begin, jb.chunk)
    && jb.phase == Start && jb.cursor == jb.begin && jb.done == 0 && jb.ran == [] && jb.caught == []
  }

  /** The workers have just started; any number of calls will be made, by any number of threads. */
  ghost predicate Initial(p: Pool) {
    && |p.w| >= 1 && (forall k :: 0 <= k < |p.w| ==> p.w[k] == Awake) && p.q == [] && p.dtor == Live
    && forall j :: 0 <= j < |p.jobs| ==> Fresh(|p.w|, p.jobs[j])
  }

  lemma InitialInv(p: Pool)
    requires Initial(p)
    ensures Inv(p)
  {
    forall j | 0 <= j < |p.jobs| ensures CallOk(p.w, p.q, j, p.jobs[j]) {
      assert Fresh(|p.w|, p.jobs[j]);
      SomeTask(|p.w|, p.jobs[j].end - p.jobs[j].begin, p.jobs[j].chunk);
      NoneBusy(p.w, j);
    }
  }

  ghost predicate Reaches(p: Pool, steps: seq<Step>, p': Pool)
    decreases |steps|
  {
    if |steps| == 0 then p == p' else Enabled(p, steps[0]) && Reaches(Next(p, steps[0]), steps[1..], p')
  }

  lemma {:induction false} ReachesKeeps(p: Pool, steps: seq<Step>, p': Pool)
    requires Inv(p) && Reaches(p, steps, p')
    ensures Inv(p') && |steps| + Measure(p') <= Measure(p)
    decreases |steps|
  {
    hide Inv, Measure, Next, Enabled;
    if |steps| > 0 {
      StepKeeps(p, steps[0]);
      StepDecreases(p, steps[0]);
      ReachesKeeps(Next(p, steps[0]), steps[1..], p');
    }
  }

  /** Every interleaving of any number of concurrent calls: bounded, never stuck, and whatever has returned has
      the promised outcome. */
  lemma PoolTheorem(p: Pool, steps: seq<Step>, p': Pool)
    requires Initial(p) && Reaches(p, steps, p')
    ensures |steps| <= Measure(p)
    ensures Quiescent(p') || exists s :: Enabled(p', s) && !s.SetStop?
    ensures forall j :: 0 <= j < |p'.jobs| && p'.jobs[j].phase == Returned ==> Outcome(p'.jobs[j])
    ensures p'.dtor == Joined ==>
      p'.q == [] && forall j :: 0 <= j < |p'.jobs| && p'.jobs[j].phase != Start ==> p'.jobs[j].done == p'.jobs[j].tasks
  {
    InitialInv(p);
    hide Measure, Outcome;
    ReachesKeeps(p, steps, p');
    assert Measure(p') >= 0 by { MeasureNonNegative(p'); }
    if !Quiescent(p') {
      var s := Progress(p');
    }
    forall j | 0 <= j < |p'.jobs| && p'.jobs[j].phase == Returned ensures Outcome(p'.jobs[j]) {
      ReturnedOutcome(p', j);
    }
    if p'.dtor == Joined { Drained(p'); }
  }

  lemma MeasureNonNegative(p: Pool)
    ensures Measure(p) >= 0
  {
    PotsNonNegative(p.w, |p.w|, p.jobs);
  }

  /** The destructor drains: once it has joined the workers every queued task has been executed. */
  lemma Drained(p: Pool)
    requires Inv(p) && p.dtor == Joined
    ensures p.q == []
    ensures forall j :: 0 <= j < |p.jobs| && p.jobs[j].phase != Start ==> p.jobs[j].done == p.jobs[j].tasks
  {
    assert p.w[0] == Gone;
    forall j | 0 <= j < |p.jobs| && p.jobs[j].phase != Start ensures p.jobs[j].done == p.jobs[j].tasks {
      assert CallOk(p.w, p.q, j, p.jobs[j]);
      NoneBusy(p.w, j);
      NoneQueued(p.q, j);
    }
  }

  /** The pool without workers: the caller runs the loop itself and the first exception ends it. */
  method SerialFor(begin: nat, end: nat, fails: set<nat>) returns (ran: seq<nat>, caught: seq<nat>)
    requires begin < end
    ensures Outcome(Job(begin, end, 1, fails, 1, Returned, end, 1, ran, caught))
    ensures forall k :: 0 <= k < |ran| ==> ran[k] == begin + k
    ensures if caught == [] then |ran| == end - begin else 0 < |ran| && caught == [begin + |ran| - 1]
    ensures forall x :: begin <= x < begin + |ran| - 1 ==> x !in fails
  {
    ran, caught := [], [];
    for i := begin to end
      invariant |ran| == i - begin && forall k :: 0 <= k < |ran| ==> ran[k] == begin + k
      invariant forall x :: begin <= x < i ==> x !in fails
    {
      ran := ran + [i];
      if i in fails {
        caught := [i];
        assert ran[|ran| - 1] == i;
        return;
      }
    }
    forall x | begin <= x < end ensures x in ran { assert ran[x - begin] == x; }
  }
}
