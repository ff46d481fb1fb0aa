/** eventloop/eventloop.go: what the operations are for, over the operations of a run. A clear stops its job
    for good; the task of a job nobody ended runs it. */
module EventLoopEffects {
  import opened EventLoopState
  import opened EventLoopParts
  import opened EventLoopInvariant
  import opened EventLoopRuns

  /** The operation clears h: a clear from JavaScript, or the task of one from Go. */
  predicate Clears(s: Loop, op: Op, h: Handle) {
    op == OpClear(h) || (op.OpRunTask? && |s.auxJobs| > 0 && s.auxJobs[0] == Clear(h))
  }

  /** The operation takes the task that runs h. */
  predicate RunsTaskOf(s: Loop, op: Op, h: Handle) {
    op.OpRunTask? && |s.auxJobs| > 0 && s.auxJobs[0] in {DoTimeout(h), DoInterval(h), DoImmediate(h)}
  }

  /** From s to t a cancelled h was neither run nor put back. */
  ghost predicate Spares(s: Loop, t: Loop, h: Handle) {
    && h in s.store && h in t.store && t.store[h].kind == s.store[h].kind
    && s.log <= t.log
    && (s.store[h].cancelled ==>
          && t.store[h].cancelled
          && (forall i :: |s.log| <= i < |t.log| ==> t.log[i] != Ran(h))
          && (h !in s.jobs ==> h !in t.jobs))
  }

  lemma SparesTwice(s: Loop, u: Loop, t: Loop, h: Handle)
    requires Spares(s, u, h) && Spares(u, t, h)
    ensures Spares(s, t, h)
  {
    forall i | |s.log| <= i < |u.log| ensures t.log[i] == u.log[i] {}
  }

  // ---------------------------------------------------------------------------------
  // The parts of the operations
  // ---------------------------------------------------------------------------------

  lemma TableHolds(s: Loop, h: Handle)
    requires TableOk(s.store, s.jobs) && h in s.store
    ensures h in s.jobs <==> s.store[h].idx >= 0
    ensures s.store[h].idx < 0 ==> !InTable(s, h)
  {
  }

  /** Removing takes out h and no other job. */
  lemma RemoveTakesOut(s: Loop, h: Handle)
    requires TableOk(s.store, s.jobs) && h in s.store
    ensures forall g :: g in RemoveJob(s, h).jobs <==> g in s.jobs && g != h
  {
    hide TableOk;
    TableHolds(s, h);
    if s.store[h].idx >= 0 {
      RemovedFromTable(s, h);
    }
  }

  lemma RemoveSpares(s: Loop, g: Handle, h: Handle)
    requires TableOk(s.store, s.jobs) && g in s.store && h in s.store
    ensures Spares(s, RemoveJob(s, g), h) && RemoveJob(s, g).log == s.log
    ensures RemoveJob(s, g).store[h].cancelled == s.store[h].cancelled
    ensures TableOk(RemoveJob(s, g).store, RemoveJob(s, g).jobs)
  {
    hide TableOk;
    RemoveReorders(s, g);
    RemoveTakesOut(s, g);
    hide RemoveJob;
    assert g != h ==> SameButIdx(s.store[h], RemoveJob(s, g).store[h]);
  }

  lemma FinishSpares(s: Loop, e: Event, h: Handle)
    requires e.job in s.store && !s.store[e.job].cancelled && h in s.store
    ensures Spares(s, Finish(s, e), h) && Finish(s, e).log == s.log + [e]
    ensures Finish(s, e).store[h].cancelled == (s.store[h].cancelled || e.job == h)
  {
  }

  lemma FinishTable(s: Loop, e: Event)
    requires TableOk(s.store, s.jobs) && e.job in s.store
    ensures TableOk(Finish(s, e).store, Finish(s, e).jobs)
  {
    hide TableOk;
    TablePut(s.store, s.jobs, e.job, Finish(s, e).store[e.job]);
  }

  lemma DisarmTable(s: Loop, h: Handle)
    requires TableOk(s.store, s.jobs) && h in s.store
    ensures TableOk(Disarm(s, h).store, Disarm(s, h).jobs)
  {
    hide TableOk;
    TablePut(s.store, s.jobs, h, Disarm(s, h).store[h]);
  }

  lemma ClearSpares(s: Loop, g: Handle, h: Handle)
    requires TableOk(s.store, s.jobs) && g in s.store && h in s.store
    ensures Spares(s, ClearJob(s, g), h)
    ensures ClearJob(s, g).store[h].cancelled == (s.store[h].cancelled || g == h)
    ensures forall i :: |s.log| <= i < |ClearJob(s, g).log| ==> ClearJob(s, g).log[i].Cleared?
    ensures ClearJob(s, g).auxJobs == s.auxJobs
  {
    hide TableOk, RemoveJob;
    if !s.store[g].cancelled {
      FinishSpares(s, Cleared(g), h);
      FinishTable(s, Cleared(g));
      var f := Finish(s, Cleared(g));
      DisarmTable(f, g);
      var d := Disarm(f, g);
      RemoveSpares(f, g, h);
      RemoveSpares(d, g, h);
      KeptQueue(f, g);
      KeptQueue(d, g);
      SparesTwice(s, f, RemoveJob(f, g), h);
      assert Spares(s, d, h);
      SparesTwice(s, d, RemoveJob(d, g), h);
    }
  }

  lemma KeptQueue(s: Loop, h: Handle)
    ensures RemoveJob(s, h).auxJobs == s.auxJobs && RemoveJob(s, h).log == s.log
  {
  }

  /** After a clear the job does not count, and an interval is out of the table; so is a timer unless it had
      gone off already. */
  lemma ClearEnds(s: Loop, h: Handle)
    requires Inv(s) && h in s.store && s.store[h].started && !s.store[h].cancelled
    ensures var t := ClearJob(s, h);
      && h in t.store && t.store[h].cancelled && h !in Live(t.store)
      && (s.store[h].kind.IntervalJob? || s.store[h].armed ==> h !in t.jobs)
      && t.log == s.log + [Cleared(h)]
  {
    hide Inv, RemoveJob;
    JobAt(s, h);
    TableOf(s);
    hide TableOk;
    ClearSpares(s, h, h);
    var f := Finish(s, Cleared(h));
    FinishTable(s, Cleared(h));
    DisarmTable(f, h);
    RemoveTakesOut(f, h);
    RemoveTakesOut(Disarm(f, h), h);
    KeptQueue(f, h);
    KeptQueue(Disarm(f, h), h);
  }

  // ---------------------------------------------------------------------------------
  // Every operation
  // ---------------------------------------------------------------------------------

  lemma TimeoutSpares(s: Loop, g: Handle, h: Handle)
    requires TableOk(s.store, s.jobs) && g in s.store && h in s.store
    ensures Spares(s, DoTimeoutNow(s, g), h)
    ensures DoTimeoutNow(s, g).store[h].cancelled == (s.store[h].cancelled || g == h)
    ensures DoTimeoutNow(s, g).log == if s.store[g].cancelled then s.log else s.log + [Ran(g)]
    ensures DoTimeoutNow(s, g).auxJobs == s.auxJobs
  {
    hide TableOk;
    var r := RemoveJob(s, g);
    RemoveSpares(s, g, h);
    RemoveSpares(s, g, g);
    KeptQueue(s, g);
    hide RemoveJob;
    if !s.store[g].cancelled {
      FinishSpares(r, Ran(g), h);
      SparesTwice(s, r, Finish(r, Ran(g)), h);
    }
  }

  lemma PopTable(s: Loop)
    requires Inv(s) && |s.auxJobs| > 0
    ensures TableOk(Pop(s).store, Pop(s).jobs) && s.auxJobs[0].job in s.store
  {
    HeadTask(s);
  }

  /** The task at the head is taken off, and does this. */
  lemma RunTaskSpares(s: Loop, h: Handle)
    requires Inv(s) && |s.auxJobs| > 0 && h in s.store
    ensures s.auxJobs[0].job in s.store
    ensures var t := RunTask(s);
      && Spares(s, t, h) && t.auxJobs == s.auxJobs[1..]
      && t.store[h].cancelled ==
           (s.store[h].cancelled || s.auxJobs[0] in {Clear(h), DoTimeout(h), DoImmediate(h)})
  {
    HeadTask(s);
    PopTable(s);
    hide Inv, TableOk, ClearJob, DoTimeoutNow;
    var g := s.auxJobs[0].job;
    var s0 := Pop(s);
    match s.auxJobs[0] {
      case Register(_) => assert s.store[g].started == false; NotStartedNotCancelled(s, g);
      case Clear(_) => ClearSpares(s0, g, h);
      case DoTimeout(_) => TimeoutSpares(s0, g, h);
      case DoInterval(_) =>
      case DoImmediate(_) => if !s.store[g].cancelled { FinishSpares(s0, Ran(g), h); }
      case Remove(_) => RemoveSpares(s0, g, h); KeptQueue(s0, g);
    }
  }

  lemma NotStartedNotCancelled(s: Loop, h: Handle)
    requires Inv(s) && h in s.store && !s.store[h].started
    ensures !s.store[h].cancelled
  {
    JobAt(s, h);
  }

  lemma {:induction false} CancelFromOnlyClears(s: Loop, i: nat)
    requires TableOk(s.store, s.jobs)
    ensures s.log <= CancelFrom(s, i).log
    ensures forall k :: |s.log| <= k < |CancelFrom(s, i).log| ==> CancelFrom(s, i).log[k].Cleared?
    decreases |s.jobs| - i
  {
    hide RemoveJob, CancelJob;
    if i < |s.jobs| {
      var h := s.jobs[i];
      if s.store[h].cancelled {
        CancelFromOnlyClears(s, i + 1);
      } else {
        CancelKeepsTable(s, h);
        RemoveKeepsTable(CancelJob(s, h), h);
        CancelOneLog(s, h);
        CancelFromOnlyClears(RemoveJob(CancelJob(s, h), h), i);
      }
    }
  }

  lemma CancelOneLog(s: Loop, h: Handle)
    requires h in s.store
    ensures RemoveJob(CancelJob(s, h), h).log == s.log + [Cleared(h)]
  {
    KeptQueue(CancelJob(s, h), h);
  }

  /** The operation is the end of h: it clears it, takes the one task of a timeout or immediate, or is the
      cancellation in Terminate, which ends what is in the table. */
  ghost predicate Ends(s: Loop, op: Op, h: Handle) {
    || Clears(s, op, h)
    || (op.OpRunTask? && |s.auxJobs| > 0 && s.auxJobs[0] in {DoTimeout(h), DoImmediate(h)})
    || (op.OpCancelAll? && h in s.jobs)
  }

  lemma CancelAllSpares(s: Loop, h: Handle)
    requires Inv(s) && h in s.store
    ensures TableOk(s.store, s.jobs)
    ensures Spares(s, CancelFrom(s, 0), h)
    ensures CancelFrom(s, 0).store[h].cancelled == (s.store[h].cancelled || h in s.jobs)
    ensures forall g :: g in CancelFrom(s, 0).jobs <==> g in s.jobs && s.store[g].cancelled
  {
    CancelFromKeeps(s, 0);
    CancelFromOnlyClears(s, 0);
    var t := CancelFrom(s, 0);
    assert CancelView(s.store[h], t.store[h], h in Running(s));
    forall g | g in s.jobs ensures g in s.store {
      StartedInTable(s, IndexIn(s.jobs, g));
    }
  }

  function IndexIn(hs: seq<Handle>, h: Handle): (i: nat)
    requires h in hs
    ensures i < |hs| && hs[i] == h
  {
    if hs[0] == h then 0 else 1 + IndexIn(hs[1..], h)
  }

  /** No operation revives, runs or files a cancelled job, and only what ends a job cancels it. */
  lemma StepSpares(s: Loop, op: Op, h: Handle)
    requires Inv(s) && Enabled(s, op) && Defined(s, op) && h in s.store
    ensures Spares(s, Apply(s, op), h)
    ensures Apply(s, op).store[h].cancelled == (s.store[h].cancelled || Ends(s, op, h))
  {
    hide Inv, TableOk, RunTask, ClearJob, CancelFrom, Spares;
    TableOf(s);
    match op {
      case OpClear(g) => ClearSpares(s, g, h);
      case OpRunTask => RunTaskSpares(s, h);
      case OpCancelAll => CancelAllSpares(s, h);
      case _ => SimpleStepSpares(s, op, h);
    }
  }

  predicate Simple(op: Op) { !op.OpClear? && !op.OpRunTask? && !op.OpCancelAll? }

  /** The operations that end no job. */
  lemma SimpleStepSpares(s: Loop, op: Op, h: Handle)
    requires Inv(s) && Enabled(s, op) && Defined(s, op) && h in s.store && Simple(op)
    ensures Spares(s, Apply(s, op), h) && !Ends(s, op, h)
    ensures Apply(s, op).store[h].cancelled == s.store[h].cancelled
  {
    hide TableOk, CountOk, QueueOk, NothingLost, Orderly;
    JobAt(s, h);
    FreshHandle(s);
    if op.OpSchedule? {
      JobBelow(s, h);
    }
  }

  lemma JobBelow(s: Loop, h: Handle)
    requires Inv(s) && h in s.store
    ensures h != s.next
  {
  }

  lemma {:induction false} RunSpares(s: Loop, ops: seq<Op>, t: Loop, h: Handle)
    requires Inv(s) && Leads(s, ops, t) && h in s.store
    ensures Spares(s, t, h) && Inv(t)
    decreases |ops|
  {
    if ops != [] {
      hide Inv, Enabled, Defined, Ends, Spares, Apply;
      var u := Apply(s, ops[0]);
      StepKeeps(s, ops[0]);
      StepSpares(s, ops[0], h);
      SparesKnows(s, u, h);
      RunSpares(u, ops[1..], t, h);
      SparesTwice(s, u, t, h);
    }
  }

  lemma SparesKnows(s: Loop, t: Loop, h: Handle)
    requires Spares(s, t, h)
    ensures h in t.store
  {
  }

  // ---------------------------------------------------------------------------------
  // A clear is final
  // ---------------------------------------------------------------------------------

  /** A cancelled interval is out of the table. */
  ghost predicate IntervalsOut(s: Loop) {
    forall h :: h in s.store && s.store[h].kind.IntervalJob? && s.store[h].cancelled ==> h !in s.jobs
  }

  lemma NewJobs(s: Loop, op: Op, h: Handle)
    requires Inv(s) && Enabled(s, op) && Defined(s, op) && h !in s.store && h in Apply(s, op).store
    ensures !Apply(s, op).store[h].cancelled
  {
    TableOf(s);
    hide Inv, TableOk;
    match op {
      case OpClear(g) => ClearSpares(s, g, g); SameHandles(s, op);
      case OpRunTask => SameHandles(s, op);
      case OpCancelAll => SameHandles(s, op);
      case _ =>
    }
  }

  /** Clears, tasks and the cancellation make no job. */
  lemma SameHandles(s: Loop, op: Op)
    requires Inv(s) && Enabled(s, op) && Defined(s, op) && (op.OpClear? || op.OpRunTask? || op.OpCancelAll?)
    ensures Apply(s, op).store.Keys == s.store.Keys
  {
    hide Inv, ClearJob, RunTask, CancelFrom, TableOk;
    TableOf(s);
    match op {
      case OpClear(g) => ClearSameHandles(s, g);
      case OpRunTask => TaskSameHandles(s);
      case OpCancelAll => CancelFromKeeps(s, 0);
      case _ =>
    }
  }

  lemma TaskSameHandles(s: Loop)
    requires Inv(s) && |s.auxJobs| > 0
    ensures s.auxJobs[0].job in s.store && RunTask(s).store.Keys == s.store.Keys
  {
    hide Inv, ClearJob, RemoveJob, TableOk;
    PopTable(s);
    ClearSameHandles(Pop(s), s.auxJobs[0].job);
    RemoveKeepsTable(Pop(s), s.auxJobs[0].job);
  }

  lemma ClearSameHandles(s: Loop, h: Handle)
    requires TableOk(s.store, s.jobs) && h in s.store
    ensures ClearJob(s, h).store.Keys == s.store.Keys
  {
    hide TableOk, RemoveJob;
    FinishTable(s, Cleared(h));
    DisarmTable(Finish(s, Cleared(h)), h);
    RemoveKeepsTable(Finish(s, Cleared(h)), h);
    RemoveKeepsTable(Disarm(Finish(s, Cleared(h)), h), h);
  }

  lemma IntervalsOutKept(s: Loop, op: Op)
    requires Inv(s) && IntervalsOut(s) && Enabled(s, op) && Defined(s, op)
    ensures IntervalsOut(Apply(s, op))
  {
    var t := Apply(s, op);
    forall h | h in t.store && t.store[h].kind.IntervalJob? && t.store[h].cancelled ensures h !in t.jobs {
      IntervalOut(s, op, h);
    }
  }

  lemma IntervalOut(s: Loop, op: Op, h: Handle)
    requires Inv(s) && IntervalsOut(s) && Enabled(s, op) && Defined(s, op)
    requires var t := Apply(s, op); h in t.store && t.store[h].kind.IntervalJob? && t.store[h].cancelled
    ensures h !in Apply(s, op).jobs
  {
    hide Inv, Enabled, Apply;
    if h !in s.store {
      NewJobs(s, op, h);
      assert false;
    }
    StepSpares(s, op, h);
    if !s.store[h].cancelled {
      EndedIntervalIsOut(s, op, h);
    }
  }

  lemma EndedIntervalIsOut(s: Loop, op: Op, h: Handle)
    requires Inv(s) && Enabled(s, op) && Defined(s, op) && h in s.store && s.store[h].kind.IntervalJob?
    requires !s.store[h].cancelled && Ends(s, op, h)
    ensures h !in Apply(s, op).jobs && h !in Live(Apply(s, op).store)
  {
    if op.OpRunTask? {
      HeadTask(s);
      PopKeeps(s);
      hide Inv, ClearJob;
      ClearEnds(Pop(s), h);
    } else if op.OpCancelAll? {
      CancelAllSpares(s, h);
    } else {
      hide Inv, ClearJob;
      ClearEnds(s, h);
    }
  }

  lemma {:induction false} RunKeepsIntervalsOut(s: Loop, ops: seq<Op>, t: Loop)
    requires Inv(s) && IntervalsOut(s) && Leads(s, ops, t)
    ensures IntervalsOut(t) && Inv(t)
    decreases |ops|
  {
    hide Inv, IntervalsOut, Enabled, Defined, Apply;
    if ops != [] {
      StepKeeps(s, ops[0]);
      IntervalsOutKept(s, ops[0]);
      RunKeepsIntervalsOut(Apply(s, ops[0]), ops[1..], t);
    }
  }

  lemma ClearedHandle(s: Loop, op: Op, h: Handle)
    requires Inv(s) && Enabled(s, op) && Clears(s, op, h)
    ensures h in s.store && Defined(s, op)
  {
    if op.OpRunTask? { HeadTask(s); }
  }

  /** In every run: from the operation that clears h on, from JavaScript or from Go, for a timer, an interval or
      an immediate, h never runs again and does not count; and an interval is out of the table for good. */
  lemma ClearIsFinal(before: seq<Op>, s: Loop, op: Op, after: seq<Op>, t: Loop, h: Handle)
    requires Leads(Initial, before, s) && Enabled(s, op) && Defined(s, op) && Clears(s, op, h)
    requires Leads(Apply(s, op), after, t)
    ensures s.log <= t.log && forall i :: |s.log| <= i < |t.log| ==> t.log[i] != Ran(h)
    ensures h in t.store && t.store[h].cancelled && h !in Live(t.store)
    ensures t.store[h].kind.IntervalJob? ==> h !in t.jobs
  {
    InitialOk();
    RunKeepsIntervalsOut(Initial, before, s);
    hide Inv, IntervalsOut, Enabled, Defined, Apply, Leads;
    ClearedHandle(s, op, h);
    StepKeeps(s, op);
    StepSpares(s, op, h);
    IntervalsOutKept(s, op);
    var u := Apply(s, op);
    ClearAddsNoRun(s, op, h);
    RunSpares(u, after, t, h);
    RunKeepsIntervalsOut(u, after, t);
    OutOfTable(t, h);
    forall i | |s.log| <= i < |t.log| ensures t.log[i] != Ran(h) {
      assert i < |u.log| ==> t.log[i] == u.log[i];
    }
  }

  lemma OutOfTable(t: Loop, h: Handle)
    requires IntervalsOut(t) && h in t.store && t.store[h].cancelled
    ensures t.store[h].kind.IntervalJob? ==> h !in t.jobs
  {
  }

  lemma ClearAddsNoRun(s: Loop, op: Op, h: Handle)
    requires Inv(s) && Enabled(s, op) && Defined(s, op) && h in s.store && Clears(s, op, h)
    ensures forall i :: |s.log| <= i < |Apply(s, op).log| ==> Apply(s, op).log[i] != Ran(h)
  {
    TableOf(s);
    if op.OpRunTask? {
      PopTable(s);
      hide Inv, TableOk, ClearJob;
      ClearSpares(Pop(s), h, h);
    } else {
      hide Inv, TableOk, ClearJob;
      ClearSpares(s, h, h);
    }
  }

  // ---------------------------------------------------------------------------------
  // And a job nobody ended runs
  // ---------------------------------------------------------------------------------

  /** The task of a job runs it, once, unless it was ended before. */
  lemma TaskRunsItsJob(s: Loop, op: Op, h: Handle)
    requires Inv(s) && Enabled(s, op) && Defined(s, op) && RunsTaskOf(s, op, h)
    ensures h in s.store
    ensures Apply(s, op).log == if s.store[h].cancelled then s.log else s.log + [Ran(h)]
  {
    HeadTask(s);
    PopTable(s);
    hide Inv, TableOk;
    match s.auxJobs[0] {
      case DoTimeout(_) =>
        hide DoTimeoutNow;
        TimeoutSpares(Pop(s), h, h);
      case _ =>
    }
  }

  /** In the run no operation is the end of h. */
  ghost predicate NobodyEnds(s: Loop, ops: seq<Op>, h: Handle)
    decreases |ops|
  {
    ops == [] || (Enabled(s, ops[0]) && Defined(s, ops[0]) && !Ends(s, ops[0], h) && NobodyEnds(Apply(s, ops[0]), ops[1..], h))
  }

  lemma {:induction false} StaysLive(s: Loop, ops: seq<Op>, t: Loop, h: Handle)
    requires Inv(s) && Leads(s, ops, t) && h in s.store && !s.store[h].cancelled && NobodyEnds(s, ops, h)
    ensures Inv(t) && h in t.store && !t.store[h].cancelled
    decreases |ops|
  {
    if ops != [] {
      hide Inv, Enabled, Defined, Ends, Apply;
      StepKeeps(s, ops[0]);
      StepSpares(s, ops[0], h);
      StaysLive(Apply(s, ops[0]), ops[1..], t, h);
    }
  }

  /** In every run: a job that was set and that nobody cleared, ran or cancelled runs when its task is taken,
      exactly once: timeout, interval or immediate. */
  lemma LiveJobRuns(before: seq<Op>, s: Loop, ops: seq<Op>, t: Loop, op: Op, h: Handle)
    requires Leads(Initial, before, s) && h in s.store && !s.store[h].cancelled
    requires Leads(s, ops, t) && NobodyEnds(s, ops, h)
    requires Enabled(t, op) && Defined(t, op) && RunsTaskOf(t, op, h)
    ensures Apply(t, op).log == t.log + [Ran(h)]
  {
    InitialOk();
    EveryRunKeeps(Initial, before, s);
    StaysLive(s, ops, t, h);
    TaskRunsItsJob(t, op, h);
  }

  // ---------------------------------------------------------------------------------
  // What each operation is for
  // ---------------------------------------------------------------------------------

  /** The jobs that operations from JavaScript make count at once; those from Go when their task is taken. */
  lemma SettingTakesEffect(s: Loop, op: Op)
    requires Inv(s) && Enabled(s, op) && Defined(s, op)
    ensures var t := Apply(s, op);
      && (op.OpSchedule? || op.OpSetImmediate? ==>
            s.next !in s.store && s.next in t.store && !t.store[s.next].cancelled && Live(t.store) == Live(s.store) + {s.next})
      && (op.OpSchedule? ==> t.jobs == s.jobs + [s.next] && t.store[s.next].kind == op.kind && t.store[s.next].armed)
      && (op.OpSetImmediate? && !s.terminated ==> t.auxJobs == s.auxJobs + [DoImmediate(s.next)])
      && (op.OpScheduleFromGo? && !s.terminated ==>
            t.auxJobs == s.auxJobs + [Register(s.next)] && s.next in t.store && t.store[s.next].kind == op.kind)
      && (op.OpClearFromGo? && !s.terminated ==> t.auxJobs == s.auxJobs + [Clear(op.job)])
  {
    FreshHandle(s);
    hide Inv;
    var t := Apply(s, op);
    if op.OpSchedule? || op.OpSetImmediate? {
      assert t.store == s.store[s.next := t.store[s.next]];
      LiveAdds(s.store, s.next, t.store[s.next]);
    }
  }

  lemma LiveAdds(store: Store, h: Handle, j: Job)
    requires Counts(j)
    ensures Live(store[h := j]) == Live(store) + {h}
  {
  }

  lemma RegisteringTakesEffect(s: Loop)
    requires Inv(s) && |s.auxJobs| > 0 && s.auxJobs[0].Register?
    ensures var (h, t) := (s.auxJobs[0].job, RunTaskOf(s));
      h in s.store && h in t.store && t.store[h].armed && t.jobs == s.jobs + [h] && Live(t.store) == Live(s.store) + {h}
  {
    HeadTask(s);
    JobAt(s, s.auxJobs[0].job);
    hide Inv;
    var h := s.auxJobs[0].job;
    LiveAdds(s.store, h, RunTask(s).store[h]);
  }

  ghost function RunTaskOf(s: Loop): Loop
    requires Inv(s) && |s.auxJobs| > 0
  {
    HeadTask(s);
    RunTask(s)
  }

  /** ref and unref of a job that is not over make it count or not; nothing else changes that. */
  lemma RefTakesEffect(s: Loop, h: Handle, refed: bool)
    requires Inv(s) && h in s.store && s.store[h].started
    ensures var t := Apply(s, OpSetRef(h, refed));
      Live(t.store) == if s.store[h].cancelled then Live(s.store) else if refed then Live(s.store) + {h} else Live(s.store) - {h}
  {
    hide Inv;
  }

  /** A timer that goes off and an interval that ticks have their task queued, unless the loop is terminated; and
      a stopped ticker asks for its removal. */
  lemma ClocksTakeEffect(s: Loop, op: Op)
    requires Inv(s) && Enabled(s, op) && Defined(s, op)
    ensures var t := Apply(s, op);
      && (op.OpExpire? ==> t.store[op.job].firing && !t.store[op.job].armed && t.auxJobs == s.auxJobs)
      && (op.OpFire? && !s.terminated ==> t.auxJobs == s.auxJobs + [DoTimeout(op.job)])
      && (op.OpTick? && !s.terminated ==> t.auxJobs == s.auxJobs + [DoInterval(op.job)] && t.store[op.job].armed)
      && (op.OpTickerStops? && !s.terminated ==> t.auxJobs == s.auxJobs + [Remove(op.job)])
      && (op.OpRunTask? ==> t.auxJobs == s.auxJobs[1..])
  {
    if op.OpRunTask? {
      HeadTask(s);
      RunTaskSpares(s, s.auxJobs[0].job);
    }
    hide Inv, RunTask;
  }
}
