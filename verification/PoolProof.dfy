/** Every step of the pool keeps its invariant. */
module PoolProof {
  import opened ThreadPool

  /** The worker holds nothing of call j that the call's coverage depends on. */
  ghost predicate Plain(wk: Worker, j: nat) {
    !((wk.Run? || wk.Fail? || wk.Finish?) && wk.job == j)
  }

  /** The part of a call's invariant that depends on the workers' blocks. */
  ghost predicate BlocksOk(w: seq<Worker>, j: nat, jb: Job) {
    Disjoint(w, j) && Covered(w, j, jb) && forall k :: 0 <= k < |w| ==> WorkerOk(w[k], j, jb)
  }

  /** Workers that hold nothing of the call may change freely. */
  lemma PlainSwap(w: seq<Worker>, w': seq<Worker>, j: nat, jb: Job)
    requires |w| == |w'| && BlocksOk(w, j, jb)
    requires forall k :: 0 <= k < |w| ==> w'[k] == w[k] || (Plain(w[k], j) && Plain(w'[k], j))
    ensures BlocksOk(w', j, jb)
  {
    forall k, x | 0 <= k < |w| ensures Pending(w'[k], j, x) <==> Pending(w[k], j, x) {
      assert w'[k] == w[k] || (Plain(w[k], j) && Plain(w'[k], j));
    }
    assert Quiet(w', j, jb) ==> Quiet(w, j, jb) by {
      if Quiet(w', j, jb) {
        forall k | 0 <= k < |w| ensures !(w[k].Fail? && w[k].job == j) {
          assert w'[k] == w[k] || (Plain(w[k], j) && Plain(w'[k], j));
        }
      }
    }
    if Quiet(w', j, jb) {
      forall x | jb.begin <= x < jb.cursor && x < jb.end ensures x in jb.ran || SomePending(w', j, x) {
        if x !in jb.ran {
          assert SomePending(w, j, x);
          var k :| 0 <= k < |w| && Pending(w[k], j, x);
          assert Pending(w'[k], j, x);
        }
      }
      if k :| 0 <= k < |w'| && w'[k] == Finish(j) {
        assert w[k] == Finish(j);
      }
    }
    forall k | 0 <= k < |w'| ensures WorkerOk(w'[k], j, jb) {
      assert WorkerOk(w[k], j, jb);
      assert w'[k] == w[k] || (Plain(w[k], j) && Plain(w'[k], j));
    }
  }

  lemma CallParts(w: seq<Worker>, q: seq<nat>, j: nat, jb: Job)
    ensures CallOk(w, q, j, jb) <==> JobOk(jb) && BlocksOk(w, j, jb) && Accounted(w, q, j, jb)
  {
  }

  // ---- the busy worker's own call ----

  lemma CheckStep(w: seq<Worker>, k: nat, j: nat, jb: Job)
    requires k < |w| && w[k] == Check(j) && BlocksOk(w, j, jb)
    ensures BlocksOk(w[k := if |jb.caught| > 0 then Finish(j) else Claim(j)], j, jb)
  {
    var w' := w[k := if |jb.caught| > 0 then Finish(j) else Claim(j)];
    if |jb.caught| == 0 {
      PlainSwap(w, w', j, jb);
    } else {
      forall a, x | 0 <= a < |w| ensures Pending(w'[a], j, x) <==> Pending(w[a], j, x) {}
      forall a | 0 <= a < |w'| ensures WorkerOk(w'[a], j, jb) { assert WorkerOk(w[a], j, jb); }
    }
  }

  lemma ClaimNothing(w: seq<Worker>, k: nat, j: nat, jb: Job)
    requires k < |w| && w[k] == Claim(j) && BlocksOk(w, j, jb) && JobOk(jb) && jb.cursor >= jb.end
    ensures BlocksOk(w[k := Finish(j)], j, jb.(cursor := jb.cursor + jb.chunk))
  {
    var w', jb' := w[k := Finish(j)], jb.(cursor := jb.cursor + jb.chunk);
    forall a, x | 0 <= a < |w| ensures Pending(w'[a], j, x) <==> Pending(w[a], j, x) {}
    if Quiet(w', j, jb') {
      assert Quiet(w, j, jb) by {
        forall a | 0 <= a < |w| ensures !(w[a].Fail? && w[a].job == j) { assert a != k ==> w'[a] == w[a]; }
      }
      forall x | jb.begin <= x < jb'.cursor && x < jb.end ensures x in jb.ran || SomePending(w', j, x) {
        if x !in jb.ran {
          assert SomePending(w, j, x);
          var a :| 0 <= a < |w| && Pending(w[a], j, x);
          assert Pending(w'[a], j, x);
        }
      }
    }
    forall a | 0 <= a < |w'| ensures WorkerOk(w'[a], j, jb') { assert WorkerOk(w[a], j, jb); }
  }

  lemma ClaimBlock(w: seq<Worker>, k: nat, j: nat, jb: Job)
    requires k < |w| && w[k] == Claim(j) && BlocksOk(w, j, jb) && JobOk(jb) && jb.cursor < jb.end
    ensures BlocksOk(w[k := Run(j, jb.cursor, Min(jb.cursor + jb.chunk, jb.end))], j, jb.(cursor := jb.cursor + jb.chunk))
  {
    var stop := Min(jb.cursor + jb.chunk, jb.end);
    var w', jb' := w[k := Run(j, jb.cursor, stop)], jb.(cursor := jb.cursor + jb.chunk);
    forall a | 0 <= a < |w'| ensures WorkerOk(w'[a], j, jb') { assert WorkerOk(w[a], j, jb); }
    forall a, b, x | 0 <= a < b < |w'| && Pending(w'[a], j, x) ensures !Pending(w'[b], j, x) {
      assert WorkerOk(w[a], j, jb) && WorkerOk(w[b], j, jb);
    }
    if Quiet(w', j, jb') {
      assert Quiet(w, j, jb) by {
        forall a | 0 <= a < |w| ensures !(w[a].Fail? && w[a].job == j) { assert a != k ==> w'[a] == w[a]; }
      }
      forall x | jb.begin <= x < jb'.cursor && x < jb.end ensures x in jb.ran || SomePending(w', j, x) {
        if x >= jb.cursor {
          assert Pending(w'[k], j, x);
        } else if x !in jb.ran {
          assert SomePending(w, j, x);
          var a :| 0 <= a < |w| && Pending(w[a], j, x);
          assert Pending(w'[a], j, x);
        }
      }
      forall a | 0 <= a < |w'| ensures w'[a] != Finish(j) { assert a == k || w[a] != Finish(j); }
    }
  }

  /** One call of fn: the index was claimed by this worker alone and had not run. */
  lemma RunStep(w: seq<Worker>, k: nat, j: nat, i: nat, stop: nat, jb: Job)
    requires k < |w| && w[k] == Run(j, i, stop) && i < stop && BlocksOk(w, j, jb) && JobOk(jb)
    ensures i !in jb.ran && JobOk(jb.(ran := jb.ran + [i]))
    ensures BlocksOk(w[k := if i in jb.fails then Fail(j, i) else Run(j, i + 1, stop)], j, jb.(ran := jb.ran + [i]))
  {
    var jb' := jb.(ran := jb.ran + [i]);
    var w' := w[k := if i in jb.fails then Fail(j, i) else Run(j, i + 1, stop)];
    assert WorkerOk(w[k], j, jb) && Pending(w[k], j, i);
    assert jb.phase != Start;
    forall a, x | 0 <= a < |w| && Pending(w'[a], j, x) ensures Pending(w[a], j, x) && x != i {
      if a < k { assert Pending(w[a], j, x) ==> !Pending(w[k], j, x); }
      if k < a { assert Pending(w[k], j, i) ==> !Pending(w[a], j, i); }
    }
    forall a | 0 <= a < |w'| ensures WorkerOk(w'[a], j, jb') { assert WorkerOk(w[a], j, jb); }
    assert i in jb.fails ==> !Quiet(w', j, jb') by {
      if i in jb.fails { assert w'[k] == Fail(j, i); }
    }
    if Quiet(w', j, jb') {
      assert Quiet(w, j, jb) by {
        forall a | 0 <= a < |w| ensures !(w[a].Fail? && w[a].job == j) { assert a != k ==> w'[a] == w[a]; }
      }
      forall x | jb.begin <= x < jb.cursor && x < jb.end ensures x in jb'.ran || SomePending(w', j, x) {
        if x !in jb'.ran {
          assert x !in jb.ran && SomePending(w, j, x);
          var a :| 0 <= a < |w| && Pending(w[a], j, x);
          assert Pending(w'[a], j, x);
        }
      }
      if a :| 0 <= a < |w'| && w'[a] == Finish(j) { assert w[a] == Finish(j); }
    }
  }

  lemma BlockEnds(w: seq<Worker>, k: nat, j: nat, i: nat, stop: nat, jb: Job)
    requires k < |w| && w[k] == Run(j, i, stop) && i >= stop && BlocksOk(w, j, jb)
    ensures BlocksOk(w[k := Check(j)], j, jb)
  {
    var w' := w[k := Check(j)];
    forall a, x | 0 <= a < |w| ensures Pending(w'[a], j, x) <==> Pending(w[a], j, x) {}
    forall a | 0 <= a < |w'| ensures WorkerOk(w'[a], j, jb) { assert WorkerOk(w[a], j, jb); }
    if Quiet(w', j, jb) {
      assert Quiet(w, j, jb) by {
        forall a | 0 <= a < |w| ensures !(w[a].Fail? && w[a].job == j) { assert a != k ==> w'[a] == w[a]; }
      }
      forall x | jb.begin <= x < jb.cursor && x < jb.end ensures x in jb.ran || SomePending(w', j, x) {
        if x !in jb.ran {
          assert SomePending(w, j, x);
          var a :| 0 <= a < |w| && Pending(w[a], j, x);
          assert Pending(w'[a], j, x);
        }
      }
      if a :| 0 <= a < |w'| && w'[a] == Finish(j) { assert w[a] == Finish(j); }
    }
  }

  lemma FailStep(w: seq<Worker>, k: nat, j: nat, i: nat, jb: Job)
    requires k < |w| && w[k] == Fail(j, i) && BlocksOk(w, j, jb) && JobOk(jb)
    ensures BlocksOk(w[k := Finish(j)], j, jb.(caught := jb.caught + [i])) && JobOk(jb.(caught := jb.caught + [i]))
  {
    var w', jb' := w[k := Finish(j)], jb.(caught := jb.caught + [i]);
    assert WorkerOk(w[k], j, jb);
    assert !Quiet(w', j, jb');
    forall a, x | 0 <= a < |w| ensures Pending(w'[a], j, x) <==> Pending(w[a], j, x) {}
    forall a | 0 <= a < |w'| ensures WorkerOk(w'[a], j, jb') { assert WorkerOk(w[a], j, jb); }
  }

  lemma FinishStep(w: seq<Worker>, q: seq<nat>, k: nat, j: nat, jb: Job)
    requires k < |w| && w[k] == Finish(j) && BlocksOk(w, j, jb) && JobOk(jb) && Accounted(w, q, j, jb)
    ensures var jb' := Act(Finish(j), jb).1; BlocksOk(w[k := Awake], j, jb') && JobOk(jb')
  {
    var w', jb' := w[k := Awake], Act(Finish(j), jb).1;
    NoneBusy(w, j);
    assert Busy(w[k]) && w[k].job == j;
    forall a, x | 0 <= a < |w| ensures Pending(w'[a], j, x) <==> Pending(w[a], j, x) {}
    forall a | 0 <= a < |w'| ensures WorkerOk(w'[a], j, jb') { assert WorkerOk(w[a], j, jb); }
    if Quiet(w', j, jb') {
      assert Quiet(w, j, jb) by {
        forall a | 0 <= a < |w| ensures !(w[a].Fail? && w[a].job == j) { assert a != k ==> w'[a] == w[a]; }
      }
      forall x | jb.begin <= x < jb.cursor && x < jb.end ensures x in jb.ran || SomePending(w', j, x) {
        if x !in jb.ran {
          assert SomePending(w, j, x);
          var a :| 0 <= a < |w| && Pending(w[a], j, x);
          assert Pending(w'[a], j, x);
        }
      }
    }
  }

  lemma OwnBlocks(w: seq<Worker>, q: seq<nat>, k: nat, jb: Job)
    requires k < |w| && Busy(w[k]) && JobOk(jb) && BlocksOk(w, w[k].job, jb) && Accounted(w, q, w[k].job, jb)
    ensures var (wk, jb') := Act(w[k], jb); JobOk(jb') && BlocksOk(w[k := wk], w[k].job, jb')
  {
    hide BlocksOk, JobOk, Accounted;
    var j := w[k].job;
    match w[k]
    case Check(_) => CheckStep(w, k, j, jb);
    case Claim(_) =>
      ClaimJob(w, q, j, jb, k);
      if jb.cursor >= jb.end { ClaimNothing(w, k, j, jb); } else { ClaimBlock(w, k, j, jb); }
    case Run(_, i, stop) =>
      if i >= stop { BlockEnds(w, k, j, i, stop, jb); } else { RunStep(w, k, j, i, stop, jb); }
    case Fail(_, i) => FailStep(w, k, j, i, jb);
    case Finish(_) => FinishStep(w, q, k, j, jb);
  }

  /** Advancing the cursor of a call whose tasks are in somebody's hands. */
  lemma ClaimJob(w: seq<Worker>, q: seq<nat>, j: nat, jb: Job, k: nat)
    requires k < |w| && Busy(w[k]) && w[k].job == j && JobOk(jb) && Accounted(w, q, j, jb)
    ensures JobOk(jb.(cursor := jb.cursor + jb.chunk))
  {
    NoneBusy(w, j);
  }

  lemma OwnAccount(w: seq<Worker>, q: seq<nat>, k: nat, jb: Job)
    requires k < |w| && Busy(w[k]) && Accounted(w, q, w[k].job, jb)
    ensures var (wk, jb') := Act(w[k], jb); Accounted(w[k := wk], q, w[k].job, jb')
  {
    var j := w[k].job;
    CountBusyUpdate(w, k, Act(w[k], jb).0, j);
    NoneBusy(w, j);
  }

  /** The call that a busy worker acts on. */
  lemma OwnCall(w: seq<Worker>, q: seq<nat>, k: nat, jb: Job)
    requires k < |w| && Busy(w[k]) && CallOk(w, q, w[k].job, jb)
    ensures var (wk, jb') := Act(w[k], jb); CallOk(w[k := wk], q, w[k].job, jb')
  {
    var j := w[k].job;
    var (wk, jb') := Act(w[k], jb);
    hide CallOk, BlocksOk, JobOk, Accounted, Act;
    CallParts(w, q, j, jb);
    OwnBlocks(w, q, k, jb);
    OwnAccount(w, q, k, jb);
    CallParts(w[k := wk], q, j, jb');
  }

  // ---- everything else ----

  lemma SwapCall(w: seq<Worker>, w': seq<Worker>, q: seq<nat>, q': seq<nat>, j: nat, jb: Job)
    requires CallOk(w, q, j, jb) && |w| == |w'|
    requires forall k :: 0 <= k < |w| ==> w'[k] == w[k] || (Plain(w[k], j) && Plain(w'[k], j))
    requires CountTasks(q', j) + CountBusy(w', j) == CountTasks(q, j) + CountBusy(w, j)
    ensures CallOk(w', q', j, jb)
  {
    CallParts(w, q, j, jb);
    CallParts(w', q', j, jb);
    hide BlocksOk, CallOk, CountBusy, CountTasks;
    PlainSwap(w, w', j, jb);
  }

  /** Changing only the phase of a call. */
  lemma PhaseOnly(w: seq<Worker>, j: nat, jb: Job, ph: Phase)
    requires BlocksOk(w, j, jb)
    ensures BlocksOk(w, j, jb.(phase := ph))
  {
    forall k | 0 <= k < |w| ensures WorkerOk(w[k], j, jb.(phase := ph)) { assert WorkerOk(w[k], j, jb); }
  }

  lemma GoKeeps(p: Pool, k: nat)
    requires Inv(p) && Enabled(p, Go(k))
    ensures Inv(Next(p, Go(k)))
  {
    var p', j0 := Next(p, Go(k)), p.w[k].job;
    var (wk, jb) := Act(p.w[k], p.jobs[j0]);
    forall j | 0 <= j < |p'.jobs| ensures CallOk(p'.w, p'.q, j, p'.jobs[j]) {
      assert CallOk(p.w, p.q, j, p.jobs[j]);
      if j == j0 {
        OwnCall(p.w, p.q, k, p.jobs[j0]);
      } else {
        CountBusyUpdate(p.w, k, wk, j);
        ActStaysOn(p.w[k], p.jobs[j0]);
        SwapCall(p.w, p'.w, p.q, p'.q, j, p.jobs[j]);
      }
    }
    hide CallOk;
    GoRefs(p, k);
  }

  lemma ActStaysOn(wk: Worker, jb: Job)
    requires Busy(wk)
    ensures var (wk', jb') := Act(wk, jb);
      (Busy(wk') ==> wk'.job == wk.job) && wk' != Asleep && wk' != Gone && (jb.phase == Pushed ==> jb'.phase == Pushed)
  {
  }

  lemma GoRefs(p: Pool, k: nat)
    requires SleepOk(p) && RefsOk(p) && Enabled(p, Go(k))
    ensures SleepOk(Next(p, Go(k))) && RefsOk(Next(p, Go(k)))
  {
    var p' := Next(p, Go(k));
    ActStaysOn(p.w[k], p.jobs[p.w[k].job]);
    forall a | 0 <= a < |p.w| ensures (p'.w[a] == Asleep ==> p.w[a] == Asleep) && (p'.w[a] == Gone ==> p.w[a] == Gone) {
    }
    if j :| 0 <= j < |p.jobs| && p.jobs[j].phase == Pushed {
      assert p'.jobs[j].phase == Pushed;
    }
  }

  lemma LookKeeps(p: Pool, k: nat)
    requires Inv(p) && Enabled(p, Look(k))
    ensures Inv(Next(p, Look(k)))
  {
    var p' := Next(p, Look(k));
    forall j | 0 <= j < |p'.jobs| ensures CallOk(p'.w, p'.q, j, p'.jobs[j]) {
      assert CallOk(p.w, p.q, j, p.jobs[j]);
      CountBusyUpdate(p.w, k, p'.w[k], j);
      if |p.q| > 0 { CountPop(p.q, j); }
      SwapCall(p.w, p'.w, p.q, p'.q, j, p.jobs[j]);
    }
    hide CallOk;
    LookRefs(p, k);
  }

  lemma LookRefs(p: Pool, k: nat)
    requires SleepOk(p) && RefsOk(p) && Enabled(p, Look(k))
    ensures SleepOk(Next(p, Look(k))) && RefsOk(Next(p, Look(k)))
  {
    var p' := Next(p, Look(k));
    if |p.q| > 0 {
      forall a | 0 <= a < |p.w| ensures p'.w[a] == Asleep ==> p.w[a] == Asleep {}
      forall a | 0 <= a < |p'.q| ensures p'.q[a] < |p'.jobs| { assert p'.q[a] == p.q[a + 1]; }
    }
  }

  lemma WakeRefs(p: Pool, p': Pool)
    requires SleepOk(p) && RefsOk(p) && p'.q == p.q && p'.w == WakeAll(p.w) && |p'.jobs| == |p.jobs|
    requires p'.dtor == p.dtor || (p.dtor == Stopping && p'.dtor == Notified)
    ensures SleepOk(p') && RefsOk(p')
  {
  }

  lemma WakeCall(w: seq<Worker>, q: seq<nat>, j: nat, jb: Job)
    requires CallOk(w, q, j, jb)
    ensures CallOk(WakeAll(w), q, j, jb)
  {
    CountBusyWake(w, j);
    SwapCall(w, WakeAll(w), q, q, j, jb);
  }

  lemma PhaseCall(w: seq<Worker>, q: seq<nat>, j: nat, jb: Job, ph: Phase)
    requires CallOk(w, q, j, jb) && jb.phase != Start && ph != Start && JobOk(jb.(phase := ph))
    ensures CallOk(w, q, j, jb.(phase := ph))
  {
    CallParts(w, q, j, jb);
    CallParts(w, q, j, jb.(phase := ph));
    PhaseOnly(w, j, jb, ph);
  }

  lemma NotifyKeeps(p: Pool, j0: nat)
    requires Inv(p) && Enabled(p, Notify(j0))
    ensures Inv(Next(p, Notify(j0)))
  {
    var p' := Next(p, Notify(j0));
    forall j | 0 <= j < |p'.jobs| ensures CallOk(p'.w, p'.q, j, p'.jobs[j]) {
      assert CallOk(p.w, p.q, j, p.jobs[j]);
      WakeCall(p.w, p.q, j, p.jobs[j]);
      if j == j0 { PhaseCall(p'.w, p.q, j, p.jobs[j], Waiting); }
    }
    hide CallOk;
    WakeRefs(p, p');
  }

  lemma CallerKeeps(p: Pool, j0: nat)
    requires Inv(p) && Enabled(p, CallerCheck(j0))
    ensures Inv(Next(p, CallerCheck(j0)))
  {
    var p', jb := Next(p, CallerCheck(j0)), p.jobs[j0];
    assert CallOk(p.w, p.q, j0, jb);
    forall j | 0 <= j < |p'.jobs| ensures CallOk(p'.w, p'.q, j, p'.jobs[j]) {
      assert CallOk(p.w, p.q, j, p.jobs[j]);
      if j == j0 { PhaseCall(p.w, p.q, j, jb, if jb.done == jb.tasks then Returned else Sleeping); }
    }
    assert forall j :: 0 <= j < |p.jobs| && p.jobs[j].phase == Pushed ==> p'.jobs[j].phase == Pushed;
  }

  lemma PushKeeps(p: Pool, j0: nat)
    requires Inv(p) && Enabled(p, Push(j0))
    ensures Inv(Next(p, Push(j0)))
  {
    var p', jb := Next(p, Push(j0)), p.jobs[j0];
    forall j | 0 <= j < |p'.jobs| ensures CallOk(p'.w, p'.q, j, p'.jobs[j]) {
      assert CallOk(p.w, p.q, j, p.jobs[j]);
      CountTasksConcat(p.q, Repeat(j0, jb.tasks), j);
      CountRepeat(j0, jb.tasks, j);
      CallParts(p.w, p.q, j, p.jobs[j]);
      CallParts(p'.w, p'.q, j, p'.jobs[j]);
      PhaseOnly(p.w, j, p.jobs[j], Pushed);
    }
    assert p'.jobs[j0].phase == Pushed;
  }

  lemma StopKeeps(p: Pool, s: Step)
    requires Inv(p) && Enabled(p, s) && (s.SetStop? || s.NotifyStop? || s.Join?)
    ensures Inv(Next(p, s))
  {
    var p' := Next(p, s);
    forall j | 0 <= j < |p'.jobs| ensures CallOk(p'.w, p'.q, j, p'.jobs[j]) {
      assert CallOk(p.w, p.q, j, p.jobs[j]);
      if s.NotifyStop? { WakeCall(p.w, p.q, j, p.jobs[j]); }
    }
    hide CallOk;
    if s.NotifyStop? { WakeRefs(p, p'); }
  }

  lemma StepKeeps(p: Pool, s: Step)
    requires Inv(p) && Enabled(p, s)
    ensures Inv(Next(p, s))
  {
    hide Inv, Next;
    match s
    case Push(j) => PushKeeps(p, j);
    case Notify(j) => NotifyKeeps(p, j);
    case CallerCheck(j) => CallerKeeps(p, j);
    case Look(k) => LookKeeps(p, k);
    case Go(k) => GoKeeps(p, k);
    case SetStop => StopKeeps(p, s);
    case NotifyStop => StopKeeps(p, s);
    case Join => StopKeeps(p, s);
  }
}
