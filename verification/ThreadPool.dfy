/** The worker pool and its `parallel_for`, as a state machine whose steps are the atomic actions of the
    program: queue operations under the pool's mutex, the loads and fetch-adds on the shared counters, each call
    of the loop body, the recording of an exception, and the sleeping and waking of workers and callers. */
module ThreadPool {

  /** A worker between tasks, or inside the task of some call: about to look at the exception flag, about to
      claim a block, inside a block with index i next, holding an exception, or about to count itself done. */
  datatype Worker = Awake | Asleep | Gone
                  | Check(job: nat) | Claim(job: nat) | Run(job: nat, i: nat, stop: nat)
                  | Fail(job: nat, i: nat) | Finish(job: nat)

  datatype Phase = Start | Pushed | Waiting | Sleeping | Returned

  /** One call: fn throws exactly on the indices in fails. ran lists the calls of fn, caught the exceptions
      in the order they reach the exception mutex; the first of them is the one kept. */
  datatype Job = Job(begin: nat, end: nat, chunk: nat, fails: set<nat>, tasks: nat, phase: Phase,
                     cursor: nat, done: nat, ran: seq<nat>, caught: seq<nat>)

  datatype Destructor = Live | Stopping | Notified | Joined

  datatype Pool = Pool(w: seq<Worker>, q: seq<nat>, jobs: seq<Job>, dtor: Destructor)

  datatype Step = Push(j: nat) | Notify(j: nat) | CallerCheck(j: nat)
                | Look(k: nat) | Go(k: nat)
                | SetStop | NotifyStop | Join

  predicate Busy(wk: Worker) {
    wk.Check? || wk.Claim? || wk.Run? || wk.Fail? || wk.Finish?
  }

  function WakeAll(w: seq<Worker>): (r: seq<Worker>)
    ensures |r| == |w| && forall k :: 0 <= k < |w| ==> r[k] == if w[k] == Asleep then Awake else w[k]
  {
    seq(|w|, k requires 0 <= k < |w| => if w[k] == Asleep then Awake else w[k])
  }

  function Repeat(j: nat, n: nat): (r: seq<nat>)
    ensures |r| == n && forall k :: 0 <= k < n ==> r[k] == j
  {
    seq(n, _ => j)
  }

  function Min(a: nat, b: nat): nat { if a < b then a else b }

  /** The next action of a busy worker on its own call. */
  function Act(wk: Worker, jb: Job): (Worker, Job)
    requires Busy(wk)
  {
    match wk
    case Check(j) => (if |jb.caught| > 0 then Finish(j) else Claim(j), jb)
    case Claim(j) =>
      var base := jb.cursor;
      (if base >= jb.end then Finish(j) else Run(j, base, Min(base + jb.chunk, jb.end)),
       jb.(cursor := base + jb.chunk))
    case Run(j, i, stop) =>
      if i >= stop then (Check(j), jb)
      else (if i in jb.fails then Fail(j, i) else Run(j, i + 1, stop), jb.(ran := jb.ran + [i]))
    case Fail(j, i) => (Finish(j), jb.(caught := jb.caught + [i]))
    case Finish(j) =>
      (Awake, jb.(done := jb.done + 1,
                  phase := if jb.done + 1 == jb.tasks && jb.phase == Sleeping then Waiting else jb.phase))
  }

  ghost predicate Enabled(p: Pool, s: Step) {
    match s
    case Push(j) => j < |p.jobs| && p.jobs[j].phase == Start && p.dtor == Live
    case Notify(j) => j < |p.jobs| && p.jobs[j].phase == Pushed
    case CallerCheck(j) => j < |p.jobs| && p.jobs[j].phase == Waiting
    case Look(k) => k < |p.w| && p.w[k] == Awake
    case Go(k) => k < |p.w| && Busy(p.w[k]) && p.w[k].job < |p.jobs|
    case SetStop => p.dtor == Live
    case NotifyStop => p.dtor == Stopping
    case Join => p.dtor == Notified && forall k :: 0 <= k < |p.w| ==> p.w[k] == Gone
  }

  ghost function Next(p: Pool, s: Step): Pool
    requires Enabled(p, s)
  {
    match s
    case Push(j) => p.(q := p.q + Repeat(j, p.jobs[j].tasks), jobs := p.jobs[j := p.jobs[j].(phase := Pushed)])
    case Notify(j) => p.(w := WakeAll(p.w), jobs := p.jobs[j := p.jobs[j].(phase := Waiting)])
    case CallerCheck(j) =>
      p.(jobs := p.jobs[j := p.jobs[j].(phase := if p.jobs[j].done == p.jobs[j].tasks then Returned else Sleeping)])
    case Look(k) =>
      if |p.q| > 0 then p.(w := p.w[k := Check(p.q[0])], q := p.q[1..])
      else p.(w := p.w[k := if p.dtor == Live then Asleep else Gone])
    case Go(k) =>
      var (wk, jb) := Act(p.w[k], p.jobs[p.w[k].job]);
      p.(w := p.w[k := wk], jobs := p.jobs[p.w[k].job := jb])
    case SetStop => p.(dtor := Stopping)
    case NotifyStop => p.(dtor := Notified, w := WakeAll(p.w))
    case Join => p.(dtor := Joined)
  }

  // ---- counting ----

  function CountTasks(q: seq<nat>, j: nat): nat {
    if |q| == 0 then 0 else CountTasks(q[..|q| - 1], j) + (if q[|q| - 1] == j then 1 else 0)
  }

  function CountBusy(w: seq<Worker>, j: nat): nat {
    if |w| == 0 then 0
    else CountBusy(w[..|w| - 1], j) + (if Busy(w[|w| - 1]) && w[|w| - 1].job == j then 1 else 0)
  }

  lemma {:induction false} CountTasksConcat(q: seq<nat>, r: seq<nat>, j: nat)
    ensures CountTasks(q + r, j) == CountTasks(q, j) + CountTasks(r, j)
    decreases |r|
  {
    if |r| == 0 {
      assert q + r == q;
    } else {
      CountTasksConcat(q, r[..|r| - 1], j);
      assert (q + r)[..|q + r| - 1] == q + r[..|r| - 1];
    }
  }

  lemma {:induction false} CountRepeat(i: nat, n: nat, j: nat)
    ensures CountTasks(Repeat(i, n), j) == if i == j then n else 0
  {
    if n > 0 {
      CountRepeat(i, n - 1, j);
      assert Repeat(i, n)[..n - 1] == Repeat(i, n - 1);
    }
  }

  lemma CountPop(q: seq<nat>, j: nat)
    requires |q| > 0
    ensures CountTasks(q, j) == (if q[0] == j then 1 else 0) + CountTasks(q[1..], j)
  {
    assert q == [q[0]] + q[1..];
    assert [q[0]][..0] == [];
    CountTasksConcat([q[0]], q[1..], j);
  }

  lemma {:induction false} CountBusyUpdate(w: seq<Worker>, k: nat, wk: Worker, j: nat)
    requires k < |w|
    ensures CountBusy(w[k := wk], j) == CountBusy(w, j)
      - (if Busy(w[k]) && w[k].job == j then 1 else 0) + (if Busy(wk) && wk.job == j then 1 else 0)
    decreases |w|
  {
    var n := |w| - 1;
    if k == n {
      assert w[k := wk][..n] == w[..n];
    } else {
      CountBusyUpdate(w[..n], k, wk, j);
      assert w[k := wk][..n] == w[..n][k := wk];
    }
  }

  lemma {:induction false} CountBusyWake(w: seq<Worker>, j: nat)
    ensures CountBusy(WakeAll(w), j) == CountBusy(w, j)
    decreases |w|
  {
    if |w| > 0 {
      CountBusyWake(w[..|w| - 1], j);
      assert WakeAll(w)[..|w| - 1] == WakeAll(w[..|w| - 1]);
    }
  }

  lemma {:induction false} NoneBusy(w: seq<Worker>, j: nat)
    ensures CountBusy(w, j) == 0 <==> forall k :: 0 <= k < |w| ==> !(Busy(w[k]) && w[k].job == j)
    decreases |w|
  {
    if |w| > 0 {
      var n := |w| - 1;
      NoneBusy(w[..n], j);
      if forall k :: 0 <= k < |w| ==> !(Busy(w[k]) && w[k].job == j) {
        assert !(Busy(w[n]) && w[n].job == j);
      } else {
        var k :| 0 <= k < |w| && Busy(w[k]) && w[k].job == j;
        if k < n { assert w[..n][k] == w[k]; }
      }
    }
  }

  lemma {:induction false} NoneQueued(q: seq<nat>, j: nat)
    ensures CountTasks(q, j) == 0 <==> j !in q
    decreases |q|
  {
    if |q| > 0 {
      NoneQueued(q[..|q| - 1], j);
      assert q == q[..|q| - 1] + [q[|q| - 1]];
    }
  }

  // ---- invariant ----

  ghost predicate Distinct(s: seq<nat>) {
    forall a, b :: 0 <= a < b < |s| ==> s[a] != s[b]
  }

  /** One call by itself. */
  ghost predicate JobOk(jb: Job) {
    && jb.begin < jb.end && jb.chunk >= 1 && jb.tasks >= 1 && jb.begin <= jb.cursor
    && Distinct(jb.ran) && (forall x :: x in jb.ran ==> jb.begin <= x < jb.end && x < jb.cursor)
    && (forall x :: x in jb.caught ==> x in jb.ran && x in jb.fails)
    && (jb.phase == Start ==> jb.cursor == jb.begin && jb.done == 0 && jb.ran == [] && jb.caught == [])
    && (jb.phase == Sleeping ==> jb.done < jb.tasks)
    && (jb.phase == Returned ==> jb.done == jb.tasks)
  }

  /** The worker is about to call fn(x) for this call. */
  ghost predicate Pending(wk: Worker, j: nat, x: nat) {
    wk.Run? && wk.job == j && wk.i <= x < wk.stop
  }

  /** What a worker inside a block knows about its call. */
  ghost predicate WorkerOk(wk: Worker, j: nat, jb: Job) {
    && (wk.Run? && wk.job == j ==> jb.begin <= wk.i <= wk.stop <= jb.end && wk.stop <= jb.cursor)
    && (forall x :: Pending(wk, j, x) ==> x !in jb.ran)
    && (wk.Fail? && wk.job == j ==> wk.i in jb.fails && wk.i in jb.ran)
  }

  ghost predicate Disjoint(w: seq<Worker>, j: nat) {
    forall a, b, x :: 0 <= a < b < |w| && Pending(w[a], j, x) ==> !Pending(w[b], j, x)
  }

  /** No call of fn has thrown so far. */
  ghost predicate Quiet(w: seq<Worker>, j: nat, jb: Job) {
    jb.caught == [] && forall k :: 0 <= k < |w| ==> !(w[k].Fail? && w[k].job == j)
  }

  ghost predicate SomePending(w: seq<Worker>, j: nat, x: nat) {
    exists k :: 0 <= k < |w| && Pending(w[k], j, x)
  }

  /** Until something throws, every claimed index has run or is about to; a task stops only when none is left. */
  ghost predicate Covered(w: seq<Worker>, j: nat, jb: Job) {
    && (Quiet(w, j, jb) ==> forall x :: jb.begin <= x < jb.cursor && x < jb.end ==> x in jb.ran || SomePending(w, j, x))
    && (Quiet(w, j, jb) && (jb.done > 0 || exists k :: 0 <= k < |w| && w[k] == Finish(j)) ==> jb.cursor >= jb.end)
    && (Quiet(w, j, jb) ==> forall x :: x in jb.ran ==> x !in jb.fails)
  }

  /** Every task of a call is queued, in a worker's hands, or counted as done. */
  ghost predicate Accounted(w: seq<Worker>, q: seq<nat>, j: nat, jb: Job) {
    CountTasks(q, j) + CountBusy(w, j) + jb.done == if jb.phase == Start then 0 else jb.tasks
  }

  ghost predicate CallOk(w: seq<Worker>, q: seq<nat>, j: nat, jb: Job) {
    && JobOk(jb) && Disjoint(w, j) && Covered(w, j, jb) && Accounted(w, q, j, jb)
    && forall k :: 0 <= k < |w| ==> WorkerOk(w[k], j, jb)
  }

  /** No wake-up is lost: a worker sleeps beside a non-empty queue only while a notification is still due. */
  ghost predicate SleepOk(p: Pool) {
    && (p.dtor == Live || p.dtor == Stopping || forall k :: 0 <= k < |p.w| ==> p.w[k] != Asleep)
    && (|p.q| == 0 || p.dtor == Stopping || (exists j :: 0 <= j < |p.jobs| && p.jobs[j].phase == Pushed)
        || forall k :: 0 <= k < |p.w| ==> p.w[k] != Asleep)
    && ((exists k :: 0 <= k < |p.w| && p.w[k] == Gone) ==> p.dtor != Live && |p.q| == 0)
    && (p.dtor == Joined ==> forall k :: 0 <= k < |p.w| ==> p.w[k] == Gone)
  }

  ghost predicate RefsOk(p: Pool) {
    && (forall k :: 0 <= k < |p.w| && Busy(p.w[k]) ==> p.w[k].job < |p.jobs|)
    && forall k :: 0 <= k < |p.q| ==> p.q[k] < |p.jobs|
  }

  ghost predicate Inv(p: Pool) {
    && |p.w| >= 1 && SleepOk(p) && RefsOk(p)
    && forall j :: 0 <= j < |p.jobs| ==> CallOk(p.w, p.q, j, p.jobs[j])
  }
}
