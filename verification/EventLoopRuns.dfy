/** What holds in every run of the event loop, and the methods of eventloop/eventloop.go that take its
    steps. */
module EventLoopRuns {
  import opened EventLoopState
  import opened EventLoopParts
  import opened EventLoopInvariant

  lemma InitialOk()
    ensures Inv(Initial)
  {
    assert Live(Initial.store) == {};
  }

  lemma BackgroundKeeps(s: Loop, on: bool)
    requires Inv(s) && s.background != on
    ensures Inv(s.(background := on, jobCount := if on then s.jobCount + 1 else s.jobCount - 1))
  {
  }

  lemma TerminatedKeeps(s: Loop, on: bool)
    requires Inv(s) && (!on ==> AllCancelled(s))
    ensures Inv(s.(terminated := on))
  {
    forall h | h in s.store ensures Pending(h, s.store[h], s.auxJobs, s.stuck, on) {
      JobAt(s, h);
    }
  }

  /** Every operation finds the jobs it needs, and keeps the invariant. */
  lemma StepKeeps(s: Loop, op: Op)
    requires Inv(s) && Enabled(s, op)
    ensures Defined(s, op) && Inv(Apply(s, op))
  {
    match op {
      case OpSchedule(kind) => ScheduleKeeps(s, kind);
      case OpSetImmediate => SetImmediateKeeps(s);
      case OpScheduleFromGo(kind) => ScheduleFromGoKeeps(s, kind);
      case OpClearFromGo(h) => ClearFromGoKeeps(s, h);
      case OpClear(h) => ClearJobKeeps(s, h);
      case OpSetRef(h, refed) => SetJobRefKeeps(s, h, refed);
      case OpExpire(h) => ExpireKeeps(s, h);
      case OpFire(h) => FireKeeps(s, h);
      case OpTick(h) => TickKeeps(s, h);
      case OpTickerStops(h) => TickerStopsKeeps(s, h);
      case OpRunTask => RunTaskKeeps(s);
      case OpBackground(on) => BackgroundKeeps(s, on);
      case OpTerminate => TerminatedKeeps(s, true);
      case OpCancelAll => CancelFromKeeps(s, 0);
      case OpRestart => TerminatedKeeps(s, false);
    }
  }

  /** The operations lead from s to t. */
  ghost predicate Leads(s: Loop, ops: seq<Op>, t: Loop)
    decreases |ops|
  {
    if ops == [] then s == t
    else Enabled(s, ops[0]) && Defined(s, ops[0]) && Leads(Apply(s, ops[0]), ops[1..], t)
  }

  lemma {:induction false} EveryRunKeeps(s: Loop, ops: seq<Op>, t: Loop)
    requires Inv(s) && Leads(s, ops, t)
    ensures Inv(t)
    decreases |ops|
  {
    if ops != [] {
      StepKeeps(s, ops[0]);
      EveryRunKeeps(Apply(s, ops[0]), ops[1..], t);
    }
  }

  /** In every run: the table is exact, the count is exact, and whatever is possible is defined. */
  lemma TableAndCountAreExact(ops: seq<Op>, t: Loop)
    requires Leads(Initial, ops, t)
    ensures forall i :: 0 <= i < |t.jobs| ==> t.jobs[i] in t.store && t.store[t.jobs[i]].idx == i
    ensures forall h :: h in t.store && h !in t.jobs ==> t.store[h].idx == -1
    ensures t.jobCount == |Live(t.store)| + if t.background then 1 else 0
    ensures forall op :: Enabled(t, op) ==> Defined(t, op)
  {
    InitialOk();
    EveryRunKeeps(Initial, ops, t);
    forall op | Enabled(t, op) ensures Defined(t, op) {
      StepKeeps(t, op);
    }
  }

  /** In every run: nothing runs after it is cleared, and a timeout or immediate runs at most once. */
  lemma CallbacksAreOrderly(ops: seq<Op>, t: Loop, i: nat, k: nat)
    requires Leads(Initial, ops, t)
    requires i < k < |t.log| && t.log[k].Ran? && t.log[i].job == t.log[k].job
    ensures t.log[i].Ran? && t.log[k].job in t.store && t.store[t.log[k].job].kind.IntervalJob?
  {
    InitialOk();
    EveryRunKeeps(Initial, ops, t);
    assert t.log[k] in t.log;
  }

  /** In every run: a timeout or immediate that should still run has its timer, its task, or was
      refused by a terminated loop. */
  lemma CallbacksAreComing(ops: seq<Op>, t: Loop, h: Handle)
    requires Leads(Initial, ops, t) && h in t.store && !t.store[h].cancelled
    ensures t.store[h].kind.TimerJob? ==>
      Register(h) in t.auxJobs || t.store[h].armed || t.store[h].firing || DoTimeout(h) in t.auxJobs || t.terminated
    ensures t.store[h].kind.ImmediateJob? ==> DoImmediate(h) in t.auxJobs || h in t.stuck
  {
    InitialOk();
    EveryRunKeeps(Initial, ops, t);
    JobAt(t, h);
  }

  /** The immediates that count but whose task was refused. */
  ghost function StuckLive(s: Loop): set<Handle> {
    set h | h in s.stuck && h in s.store && s.store[h].kind.ImmediateJob? && Counts(s.store[h])
  }

  lemma DrainedLive(s: Loop)
    requires Inv(s) && AllCancelled(s)
    ensures Live(s.store) == StuckLive(s)
  {
    forall h | h in Live(s.store) ensures h in StuckLive(s) {
      JobAt(s, h);
    }
  }

  /** The end of Terminate: no timer or interval is left, the table holds exactly the jobs that had
      been cancelled before, and the count is that of the refused immediates. So the count is 0 iff
      no ref'd immediate was refused and not cleared. */
  lemma TerminateCancels(s: Loop)
    requires Inv(s) && s.terminated && s.auxJobs == [] && !s.background
    ensures var t := CancelFrom(s, 0);
      && Inv(t) && AllCancelled(t)
      && (forall h :: h in t.jobs <==> h in s.jobs && s.store[h].cancelled)
      && t.jobCount == |StuckLive(s)|
      && (t.jobCount == 0 <==> StuckLive(s) == {})
  {
    CancelFromKeeps(s, 0);
    var t := CancelFrom(s, 0);
    forall h | h in t.store && !t.store[h].kind.ImmediateJob? ensures t.store[h].cancelled {
      JobAt(s, h);
      assert CancelView(s.store[h], t.store[h], h in Running(s));
      if !s.store[h].cancelled {
        assert s.jobs[s.store[h].idx] == h;
      }
    }
    DrainedLive(t);
    SameStuck(s, t);
  }

  lemma SameStuck(s: Loop, t: Loop)
    requires Inv(s) && Cancels(s, t, Running(s))
    ensures StuckLive(t) == StuckLive(s)
  {
    forall h | h in s.store ensures h in StuckLive(t) <==> h in StuckLive(s) {
      assert CancelView(s.store[h], t.store[h], h in Running(s));
      if s.store[h].kind.ImmediateJob? {
        JobAt(s, h);
        assert h !in Running(s);
      }
    }
  }

  /** An immediate set by a callback that Terminate drains is counted and never runs: the count stays
      1 with nothing queued, in the table or on a timer. */
  lemma LeakedImmediate()
    ensures exists t ::
      && Leads(Initial, [OpSetImmediate, OpTerminate, OpRunTask, OpSetImmediate, OpCancelAll], t)
      && t.jobCount == 1 && t.auxJobs == [] && t.jobs == [] && !t.background && t.log == [Ran(0)]
  {
    var s1 := SetImmediate(Initial);
    var s2 := s1.(terminated := true);
    var s3 := RunTask(s2);
    var s4 := SetImmediate(s3);
    assert s1.auxJobs == [DoImmediate(0)];
    assert Leads(s4, [], s4);
    assert Apply(s4, OpCancelAll) == s4;
    assert Leads(s4, [OpCancelAll], s4);
    assert [OpSetImmediate, OpCancelAll][1..] == [OpCancelAll];
    assert Leads(s3, [OpSetImmediate, OpCancelAll], s4);
    assert [OpRunTask, OpSetImmediate, OpCancelAll][1..] == [OpSetImmediate, OpCancelAll];
    assert Leads(s2, [OpRunTask, OpSetImmediate, OpCancelAll], s4);
    assert [OpTerminate, OpRunTask, OpSetImmediate, OpCancelAll][1..] == [OpRunTask, OpSetImmediate, OpCancelAll];
    assert Leads(s1, [OpTerminate, OpRunTask, OpSetImmediate, OpCancelAll], s4);
    var all := [OpSetImmediate, OpTerminate, OpRunTask, OpSetImmediate, OpCancelAll];
    assert all[1..] == [OpTerminate, OpRunTask, OpSetImmediate, OpCancelAll];
    assert Leads(Initial, all, s4);
  }

  /** A timer cleared after it went off stays in the table for ever if the loop is terminated before
      its task arrives. */
  lemma ClearedTimerStays()
    ensures exists t ::
      && Leads(Initial, [OpSchedule(TimerJob), OpExpire(0), OpClear(0), OpTerminate, OpFire(0), OpCancelAll], t)
      && t.jobs == [0] && t.auxJobs == [] && AllCancelled(t)
  {
    var s1 := Schedule(Initial, TimerJob);
    var s2 := Expire(s1, 0);
    var s3 := ClearTimeout(s2, 0);
    var s4 := s3.(terminated := true);
    var s5 := Fire(s4, 0);
    assert Leads(s5, [], s5);
    assert CancelFrom(s5, 1) == s5;
    assert Leads(s5, [OpCancelAll], s5);
    assert [OpFire(0), OpCancelAll][1..] == [OpCancelAll];
    assert Leads(s4, [OpFire(0), OpCancelAll], s5);
    assert [OpTerminate, OpFire(0), OpCancelAll][1..] == [OpFire(0), OpCancelAll];
    assert Leads(s3, [OpTerminate, OpFire(0), OpCancelAll], s5);
    assert [OpClear(0), OpTerminate, OpFire(0), OpCancelAll][1..] == [OpTerminate, OpFire(0), OpCancelAll];
    assert Leads(s2, [OpClear(0), OpTerminate, OpFire(0), OpCancelAll], s5);
    var all := [OpSchedule(TimerJob), OpExpire(0), OpClear(0), OpTerminate, OpFire(0), OpCancelAll];
    assert all[1..][1..] == [OpClear(0), OpTerminate, OpFire(0), OpCancelAll];
    assert Leads(s1, all[1..], s5);
    assert Leads(Initial, all, s5);
  }

  // ---------------------------------------------------------------------------------
  // The methods
  // ---------------------------------------------------------------------------------

  class EventLoop {
    var next: Handle
    var store: Store
    var jobs: seq<Handle>
    var jobCount: int
    var auxJobs: seq<Task>
    var terminated: bool
    var background: bool
    /** The wake-up channel holds its token. */
    var wakeupChan: bool
    ghost var stuck: set<Handle>
    ghost var log: seq<Event>

    ghost function Now(): Loop
      reads this
    {
      Loop(next, store, jobs, jobCount, auxJobs, terminated, background, stuck, log)
    }

    constructor ()
      ensures Now() == Initial && Inv(Now())
    {
      next, store, jobs, jobCount, auxJobs, terminated, background := 0, map[], [], 0, [], false, false;
      stuck, log, wakeupChan := {}, [], false;
      new;
      InitialOk();
    }

    method AddAuxJob(t: Task) returns (ok: bool)
      modifies this
      ensures Now() == Submit(old(Now()), t) && ok == !old(terminated)
      ensures wakeupChan == (ok || old(wakeupChan))
    {
      if terminated { return false; }
      auxJobs := auxJobs + [t];
      Wakeup();
      return true;
    }

    /** A full channel is left as it is. */
    method Wakeup()
      modifies this`wakeupChan
      ensures wakeupChan
    {
      wakeupChan := true;
    }

    method RemoveJob(h: Handle)
      requires TableOk(store, jobs) && h in store
      modifies this
      ensures Now() == EventLoopState.RemoveJob(old(Now()), h)
    {
      InTableIffIdx(Now(), h);
      var idx := store[h].idx;
      if idx < 0 { return; }
      var last := |jobs| - 1;
      if idx < last {
        jobs := jobs[idx := jobs[last]];
        store := store[jobs[idx] := store[jobs[idx]].(idx := idx)];
      }
      jobs := jobs[..last];
      store := store[h := store[h].(idx := -1)];
      assert Now().jobs == EventLoopState.RemoveJob(old(Now()), h).jobs;
    }

    method Schedule(kind: Kind) returns (h: Handle)
      requires !kind.ImmediateJob? && Inv(Now())
      modifies this
      ensures h == old(next) && Now() == EventLoopState.Schedule(old(Now()), kind) && Inv(Now())
    {
      hide Inv;
      ScheduleKeeps(Now(), kind);
      jobCount := jobCount + 1;
      h := next;
      next := next + 1;
      store := store[h := Job(kind, -1, false, true, true, true, false)];
      store := store[h := store[h].(idx := |jobs|)];
      jobs := jobs + [h];
      assert store == EventLoopState.Schedule(old(Now()), kind).store;
    }

    method SetImmediate() returns (h: Handle)
      requires Inv(Now())
      modifies this
      ensures h == old(next) && Now() == EventLoopState.SetImmediate(old(Now())) && Inv(Now())
    {
      hide Inv;
      SetImmediateKeeps(Now());
      jobCount := jobCount + 1;
      h := next;
      next := next + 1;
      store := store[h := Job(ImmediateJob, -1, false, true, true, false, false)];
      var ok := AddAuxJob(Task.DoImmediate(h));
      stuck := if ok then stuck else stuck + {h};
    }

    method SetTimer(kind: Kind) returns (r: (bool, Handle))
      requires !kind.ImmediateJob? && Inv(Now())
      modifies this
      ensures Now() == ScheduleFromGo(old(Now()), kind) && Inv(Now())
      ensures r == (!old(terminated), old(next))
    {
      hide Inv;
      ScheduleFromGoKeeps(Now(), kind);
      var h := next;
      var ok := AddAuxJob(Register(h));
      if ok {
        next := next + 1;
        store := store[h := Job(kind, -1, false, true, false, false, false)];
      }
      return (ok, h);
    }

    method SetJobRef(h: Handle, refed: bool)
      requires h in store && store[h].started && Inv(Now())
      modifies this
      ensures Now() == EventLoopState.SetJobRef(old(Now()), h, refed) && Inv(Now())
      ensures Now() != old(Now()) ==> wakeupChan
    {
      hide Inv;
      SetJobRefKeeps(Now(), h, refed);
      if store[h].cancelled || store[h].refed == refed { return; }
      store := store[h := store[h].(refed := refed)];
      if refed { jobCount := jobCount + 1; } else { jobCount := jobCount - 1; }
      Wakeup();
    }

    /** Mark a job over, as every clear and every run does first. */
    method End(e: Event)
      requires e.job in store
      modifies this
      ensures Now() == Finish(old(Now()), e)
    {
      var h := e.job;
      store := store[h := store[h].(cancelled := true)];
      if store[h].refed { jobCount := jobCount - 1; }
      log := log + [e];
    }

    method Clear(h: Handle)
      requires h in store && store[h].started && Inv(Now())
      modifies this
      ensures Now() == ClearJob(old(Now()), h) && Inv(Now())
    {
      ClearJobKeeps(Now(), h);
      if store[h].cancelled { return; }
      FinishKeeps(Now(), Cleared(h));
      if store[h].kind.TimerJob? && store[h].armed {
        DisarmKeeps(Finish(Now(), Cleared(h)), h);
      }
      hide Inv;
      End(Cleared(h));
      match store[h].kind {
        case TimerJob =>
          if store[h].armed {
            store := store[h := store[h].(armed := false)];
            TableOf(Now());
            this.RemoveJob(h);
          }
        case IntervalJob =>
          TableOf(Now());
          this.RemoveJob(h);
        case ImmediateJob =>
      }
    }

    method DoTimeout(h: Handle) returns (run: bool)
      requires TableOk(store, jobs) && h in store
      modifies this
      ensures Now() == DoTimeoutNow(old(Now()), h) && run == !old(store[h].cancelled)
    {
      RemoveReorders(Now(), h);
      this.RemoveJob(h);
      run := !store[h].cancelled;
      if run { End(Ran(h)); }
    }

    method DoInterval(h: Handle)
      requires h in store
      modifies this
      ensures Now() == if old(store[h].cancelled) then old(Now()) else old(Now()).(log := old(log) + [Ran(h)])
    {
      if !store[h].cancelled { log := log + [Ran(h)]; }
    }

    method DoImmediate(h: Handle)
      requires h in store
      modifies this
      ensures Now() == if old(store[h].cancelled) then old(Now()) else Finish(old(Now()), Ran(h))
    {
      if !store[h].cancelled { End(Ran(h)); }
    }

    /** The task of SetTimeout and SetInterval. */
    method Start(h: Handle)
      requires h in store
      modifies this
      ensures Now() == RegisterNow(old(Now()), h)
    {
      store := store[h := store[h].(started := true, armed := true)];
      jobCount := jobCount + 1;
      store := store[h := store[h].(idx := |jobs|)];
      jobs := jobs + [h];
      assert store == RegisterNow(old(Now()), h).store;
    }

    /** The loop thread takes and runs the oldest task. */
    method RunOldest()
      requires Inv(Now()) && |auxJobs| > 0
      modifies this
      ensures Inv(Now()) && old(auxJobs)[0].job in old(store) && Now() == RunTask(old(Now()))
    {
      RunTaskKeeps(Now());
      HeadTask(Now());
      if auxJobs[0].Clear? { PopKeeps(Now()); }
      TableOf(Now());
      hide Inv, TableOk, ClearJob, DoTimeoutNow, EventLoopState.RemoveJob, RegisterNow, Finish;
      var task := auxJobs[0];
      var h := task.job;
      auxJobs := auxJobs[1..];
      assert Now() == Pop(old(Now()));
      match task {
        case Register(_) => this.Start(h);
        case Clear(_) => this.Clear(h);
        case DoTimeout(_) => var _ := this.DoTimeout(h);
        case DoInterval(_) => this.DoInterval(h);
        case DoImmediate(_) => this.DoImmediate(h);
        case Remove(_) => this.RemoveJob(h);
      }
    }

    method CancelOne(h: Handle)
      requires TableOk(store, jobs) && h in store
      modifies this
      ensures Now() == EventLoopState.RemoveJob(CancelJob(old(Now()), h), h)
    {
      hide TableOk;
      CancelKeepsTable(Now(), h);
      End(Cleared(h));
      if store[h].kind.TimerJob? { store := store[h := store[h].(armed := false)]; }
      this.RemoveJob(h);
    }

    /** The loop of Terminate over what is left in the table. */
    method CancelAll()
      requires Inv(Now()) && terminated && auxJobs == [] && !background
      modifies this
      ensures Now() == CancelFrom(old(Now()), 0)
      ensures Inv(Now()) && AllCancelled(Now()) && jobCount == |StuckLive(old(Now()))|
    {
      hide Inv, AllCancelled, StuckLive, CancelJob, EventLoopState.RemoveJob;
      TerminateCancels(Now());
      TableOf(Now());
      var i := 0;
      while i < |jobs|
        invariant TableOk(store, jobs) && i <= |jobs|
        invariant CancelFrom(Now(), i) == CancelFrom(old(Now()), 0)
        decreases |jobs| - i
      {
        var h := jobs[i];
        if !store[h].cancelled {
          CancelKeepsTable(Now(), h);
          RemoveKeepsTable(CancelJob(Now(), h), h);
          CancelOne(h);
        } else {
          i := i + 1;
        }
      }
    }
  }

  lemma TableOf(s: Loop)
    requires Inv(s)
    ensures TableOk(s.store, s.jobs)
  {
  }
}
