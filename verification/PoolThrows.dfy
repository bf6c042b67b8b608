/** What an exception does to a `parallel_for`: the task that threw ends, nobody starts another block, and the
    blocks handed out are whole chunks. */
module PoolThrows {
  import ModArith
  import opened ThreadPool
  import opened PoolProof
  import opened PoolRuns

  /** How many workers are in exactly this situation. */
  function CountEq(w: seq<Worker>, v: Worker): nat {
    if |w| == 0 then 0 else CountEq(w[..|w| - 1], v) + (if w[|w| - 1] == v then 1 else 0)
  }

  lemma {:induction false} CountEqUpdate(w: seq<Worker>, k: nat, wk: Worker, v: Worker)
    requires k < |w|
    ensures CountEq(w[k := wk], v) == CountEq(w, v) - (if w[k] == v then 1 else 0) + (if wk == v then 1 else 0)
    decreases |w|
  {
    var n := |w| - 1;
    if k == n {
      assert w[k := wk][..n] == w[..n];
    } else {
      CountEqUpdate(w[..n], k, wk, v);
      assert w[k := wk][..n] == w[..n][k := wk];
    }
  }

  lemma {:induction false} CountEqWake(w: seq<Worker>, v: Worker)
    requires v != Asleep && v != Awake
    ensures CountEq(WakeAll(w), v) == CountEq(w, v)
    decreases |w|
  {
    if |w| > 0 {
      CountEqWake(w[..|w| - 1], v);
      assert WakeAll(w)[..|w| - 1] == WakeAll(w[..|w| - 1]);
    }
  }

  lemma {:induction false} CountEqBusy(w: seq<Worker>, v: Worker)
    requires Busy(v)
    ensures CountEq(w, v) <= CountBusy(w, v.job)
    decreases |w|
  {
    if |w| > 0 { CountEqBusy(w[..|w| - 1], v); }
  }

  /** Whole chunks have been handed out, and every recorded exception has ended a task. */
  ghost predicate FlowOk(p: Pool, j: nat)
    requires j < |p.jobs|
  {
    var jb := p.jobs[j];
    && jb.chunk >= 1 && jb.cursor >= jb.begin && (jb.cursor - jb.begin) % jb.chunk == 0
    && |jb.caught| <= jb.done + CountEq(p.w, Finish(j))
  }

  lemma ChunkStep(d: nat, chunk: nat)
    requires chunk >= 1 && d % chunk == 0
    ensures (d + chunk) % chunk == 0
  {
    var m := d / chunk;
    assert d == m * chunk;
    assert d + chunk == (m + 1) * chunk + 0;
    ModArith.ModUnique(d + chunk, m + 1, 0, chunk);
  }

  /** How the counts change with one step. */
  lemma CountStep(p: Pool, s: Step, v: Worker)
    requires Enabled(p, s) && Busy(v)
    ensures CountEq(Next(p, s).w, v) == CountEq(p.w, v)
      + (if s.Go? && Act(p.w[s.k], p.jobs[p.w[s.k].job]).0 == v then 1 else 0)
      - (if s.Go? && p.w[s.k] == v then 1 else 0)
      + (if s.Look? && |p.q| > 0 && Check(p.q[0]) == v then 1 else 0)
  {
    hide CountEq, Act;
    match s
    case Push(j) =>
    case Notify(j) => CountEqWake(p.w, v);
    case CallerCheck(j) =>
    case Look(k) => CountEqUpdate(p.w, k, Next(p, s).w[k], v);
    case Go(k) => CountEqUpdate(p.w, k, Act(p.w[k], p.jobs[p.w[k].job]).0, v);
    case SetStop =>
    case NotifyStop => CountEqWake(p.w, v);
    case Join =>
  }

  /** What one step may change of a call. */
  lemma JobStep(p: Pool, s: Step, j: nat)
    requires Enabled(p, s) && j < |p.jobs|
    ensures |Next(p, s).jobs| == |p.jobs|
    ensures var jb, jb' := p.jobs[j], Next(p, s).jobs[j];
      if s.Go? && p.w[s.k].job == j then jb' == Act(p.w[s.k], jb).1
      else jb'.(phase := jb.phase) == jb
  {
    hide Act;
  }

  lemma FlowKept(p: Pool, s: Step, j: nat)
    requires Enabled(p, s) && j < |p.jobs| && FlowOk(p, j)
    ensures |Next(p, s).jobs| == |p.jobs| && FlowOk(Next(p, s), j)
  {
    var jb := p.jobs[j];
    hide CountEq, Next;
    CountStep(p, s, Finish(j));
    JobStep(p, s, j);
    ChunkStep(jb.cursor - jb.begin, jb.chunk);
  }

  /** Once an exception is recorded nobody who looks at the flag claims a block any more: the cursor can only move by
      one chunk for every worker that had already looked. */
  lemma CursorDrains(p: Pool, s: Step, j: nat)
    requires Enabled(p, s) && j < |p.jobs| && p.jobs[j].caught != []
    ensures |Next(p, s).jobs| == |p.jobs|
    ensures var jb, jb' := p.jobs[j], Next(p, s).jobs[j];
      && jb'.caught != [] && jb'.chunk == jb.chunk
      && jb'.cursor + jb.chunk * CountEq(Next(p, s).w, Claim(j)) == jb.cursor + jb.chunk * CountEq(p.w, Claim(j))
  {
    hide CountEq, Next;
    CountStep(p, s, Claim(j));
    JobStep(p, s, j);
    var c, n := p.jobs[j].chunk, CountEq(p.w, Claim(j));
    OneLess(c, n);
  }

  lemma OneLess(c: nat, n: nat)
    ensures c * (n - 1) == c * n - c
  {
  }

  lemma {:induction false} FlowRuns(p: Pool, steps: seq<Step>, p': Pool, j: nat)
    requires Reaches(p, steps, p') && j < |p.jobs| && FlowOk(p, j)
    ensures |p'.jobs| == |p.jobs| && FlowOk(p', j)
    decreases |steps|
  {
    hide Enabled, Next, FlowOk;
    if |steps| > 0 {
      FlowKept(p, steps[0], j);
      FlowRuns(Next(p, steps[0]), steps[1..], p', j);
    }
  }

  lemma {:induction false} DrainRuns(p: Pool, steps: seq<Step>, p': Pool, j: nat)
    requires Reaches(p, steps, p') && j < |p.jobs| && p.jobs[j].caught != []
    ensures |p'.jobs| == |p.jobs| && p'.jobs[j].chunk == p.jobs[j].chunk
    ensures var c := p.jobs[j].chunk;
      p'.jobs[j].cursor + c * CountEq(p'.w, Claim(j)) == p.jobs[j].cursor + c * CountEq(p.w, Claim(j))
    decreases |steps|
  {
    hide Enabled, Next, CountEq;
    if |steps| > 0 {
      CursorDrains(p, steps[0], j);
      DrainRuns(Next(p, steps[0]), steps[1..], p', j);
    }
  }

  /** Every run: whole chunks are handed out, no task records two exceptions, and after the first recorded exception
      the cursor moves by at most one chunk for each worker that was already about to claim. */
  lemma ThrowTheorem(p: Pool, steps: seq<Step>, p': Pool, more: seq<Step>, p'': Pool, j: nat)
    requires Initial(p) && Reaches(p, steps, p') && Reaches(p', more, p'') && j < |p.jobs|
    ensures |p'.jobs| == |p''.jobs| == |p.jobs|
    ensures p'.jobs[j].chunk >= 1 && p'.jobs[j].cursor >= p'.jobs[j].begin
    ensures (p'.jobs[j].cursor - p'.jobs[j].begin) % p'.jobs[j].chunk == 0
    ensures |p'.jobs[j].caught| <= p'.jobs[j].tasks
    ensures p'.jobs[j].caught != [] ==>
      p''.jobs[j].cursor <= p'.jobs[j].cursor + p'.jobs[j].chunk * CountEq(p'.w, Claim(j))
  {
    hide *;
    InitialInv(p);
    StartsFlowing(p, j);
    FlowRuns(p, steps, p', j);
    ReachesKeeps(p, steps, p');
    FlowMeans(p', j);
    SameJobs(p', more, p'');
    if p'.jobs[j].caught != [] {
      DrainRuns(p', more, p'', j);
      Positive(p'.jobs[j].chunk, CountEq(p''.w, Claim(j)));
    }
  }

  lemma Positive(c: nat, n: nat)
    ensures c * n >= 0
  {
  }

  lemma FlowMeans(p: Pool, j: nat)
    requires Inv(p) && j < |p.jobs| && FlowOk(p, j)
    ensures var jb := p.jobs[j];
      && jb.chunk >= 1 && jb.cursor >= jb.begin && (jb.cursor - jb.begin) % jb.chunk == 0 && |jb.caught| <= jb.tasks
  {
    assert CallOk(p.w, p.q, j, p.jobs[j]);
    CountEqBusy(p.w, Finish(j));
    hide JobOk, Disjoint, Covered, WorkerOk;
  }

  lemma {:induction false} SameJobs(p: Pool, steps: seq<Step>, p': Pool)
    requires Reaches(p, steps, p')
    ensures |p'.jobs| == |p.jobs|
    decreases |steps|
  {
    if |steps| > 0 { SameJobs(Next(p, steps[0]), steps[1..], p'); }
  }

  lemma StartsFlowing(p: Pool, j: nat)
    requires Initial(p) && j < |p.jobs|
    ensures FlowOk(p, j)
  {
    var jb := p.jobs[j];
    assert Fresh(|p.w|, jb);
    ModArith.ModUnique(0, 0, 0, jb.chunk);
  }

  /** One task per worker, but never more tasks than blocks. */
  lemma TaskCountMeans(n: nat, total: nat, chunk: nat)
    requires n >= 1 && total >= 1 && chunk >= 1
    ensures var t := TaskCount(n, total, chunk);
      && 1 <= t <= n && (t - 1) * chunk < total && (t < n ==> t * chunk >= total)
  {
    SomeTask(n, total, chunk);
    var m := total + chunk - 1;
    var b := m / chunk;
    assert m == b * chunk + m % chunk;
    assert (b - 1) * chunk == b * chunk - chunk;
    if n < b { Fewer(n, b, chunk); }
  }

  lemma Fewer(n: nat, b: nat, chunk: nat)
    requires n <= b
    ensures (n - 1) * chunk <= (b - 1) * chunk
  {
  }
}
