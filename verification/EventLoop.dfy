/** eventloop/eventloop.go: timers, intervals and immediates, the job table and the reference count.

    A job is a record in `store`, named by its handle. Every operation happens on the loop thread, or
    is an event off it (a timer expires, a ticker ticks, Go code calls SetTimeout) whose only effect on
    the loop is a submitted task. Running a callback is the event `Ran` in the log; what the callback
    does are the operations that follow it. */
module EventLoopState {

  type Handle = nat
  datatype Kind = TimerJob | IntervalJob | ImmediateJob

  /** `started`: start has been called; `armed`: the timer or ticker may still go off; `firing`: the
      timer went off and has not submitted its task yet. */
  datatype Job = Job(kind: Kind, idx: int, cancelled: bool, refed: bool, started: bool, armed: bool, firing: bool)

  type Store = map<Handle, Job>

  datatype Task =
    | Register(job: Handle)
    | Clear(job: Handle)
    | DoTimeout(job: Handle)
    | DoInterval(job: Handle)
    | DoImmediate(job: Handle)
    | Remove(job: Handle)

  datatype Event = Ran(job: Handle) | Cleared(job: Handle)

  /** `stuck` and `log` only observe: the immediates whose task was refused, and what happened to
      which job. */
  datatype Loop = Loop(
    next: Handle, store: Store, jobs: seq<Handle>, jobCount: int,
    auxJobs: seq<Task>, terminated: bool, background: bool,
    stuck: set<Handle>, log: seq<Event>)

  const Initial := Loop(0, map[], [], 0, [], false, false, {}, [])

  // ---------------------------------------------------------------------------------
  // The invariant
  // ---------------------------------------------------------------------------------

  /** jobs[i].idx = i, and a job outside the table has idx -1. */
  ghost predicate TableOk(store: Store, jobs: seq<Handle>) {
    && (forall i :: 0 <= i < |jobs| ==> jobs[i] in store && store[jobs[i]].idx == i)
    && (forall j :: j in store ==> store[j].idx == -1 || (0 <= store[j].idx < |jobs| && jobs[store[j].idx] == j))
  }

  predicate Counts(j: Job) { j.started && !j.cancelled && j.refed }

  /** The jobs that keep the loop alive. */
  ghost function Live(store: Store): set<Handle> {
    set h | h in store && Counts(store[h])
  }

  /** jobCount is the number of ref'd jobs still to run, plus one for a background run. */
  ghost predicate CountOk(store: Store, jobCount: int, background: bool) {
    jobCount == |Live(store)| + if background then 1 else 0
  }

  ghost predicate JobOk(j: Job) {
    && (j.kind.ImmediateJob? ==> j.idx == -1 && j.started && !j.armed && !j.firing)
    && (!j.started ==> j.idx == -1 && !j.cancelled && j.refed && !j.armed && !j.firing)
    && (j.started && !j.cancelled && !j.kind.ImmediateJob? ==> j.idx >= 0)
  }

  ghost predicate JobsOk(store: Store, next: Handle) {
    forall j :: j in store ==> j < next && JobOk(store[j])
  }

  /** A task finds its job, of the right kind, and started unless it is the task that starts it. */
  ghost predicate TaskOk(store: Store, t: Task, before: seq<Task>) {
    && t.job in store
    && (t.Register? ==> !store[t.job].started && !store[t.job].kind.ImmediateJob? && t !in before)
    && (!t.Register? && !store[t.job].started ==> Register(t.job) in before)
    && (t.Clear? ==> !store[t.job].kind.ImmediateJob?)
    && (t.DoTimeout? ==> store[t.job].kind.TimerJob? && store[t.job].started)
    && (t.DoInterval? ==> store[t.job].kind.IntervalJob? && store[t.job].started)
    && (t.DoImmediate? ==> store[t.job].kind.ImmediateJob?)
    && (t.Remove? ==> store[t.job].kind.IntervalJob? && store[t.job].started && store[t.job].cancelled)
  }

  ghost predicate QueueOk(store: Store, q: seq<Task>) {
    forall i :: 0 <= i < |q| ==> TaskOk(store, q[i], q[..i])
  }

  /** A job that should still run has something that will run it. */
  ghost predicate Pending(h: Handle, j: Job, q: seq<Task>, stuck: set<Handle>, terminated: bool) {
    && (!j.started ==> Register(h) in q)
    && (j.kind.ImmediateJob? && !j.cancelled ==> DoImmediate(h) in q || h in stuck)
    && (j.kind.TimerJob? && j.started && !j.cancelled ==> j.armed || j.firing || DoTimeout(h) in q || terminated)
  }

  ghost predicate NothingLost(store: Store, q: seq<Task>, stuck: set<Handle>, terminated: bool) {
    forall h :: h in store ==> Pending(h, store[h], q, stuck, terminated)
  }

  /** A cleared job never runs afterwards, and only intervals run more than once. */
  ghost predicate Orderly(store: Store, log: seq<Event>) {
    && (forall e :: e in log ==> e.job in store)
    && (forall i, k :: 0 <= i < k < |log| && log[k].Ran? && log[i].job == log[k].job ==>
          log[i].Ran? && store[log[i].job].kind.IntervalJob?)
    && (forall h :: h in store && !store[h].cancelled ==>
          Cleared(h) !in log && (!store[h].kind.IntervalJob? ==> Ran(h) !in log))
  }

  ghost predicate Core(s: Loop) {
    && TableOk(s.store, s.jobs)
    && CountOk(s.store, s.jobCount, s.background)
    && JobsOk(s.store, s.next)
    && QueueOk(s.store, s.auxJobs)
    && NothingLost(s.store, s.auxJobs, s.stuck, s.terminated)
  }

  ghost predicate Inv(s: Loop) { Core(s) && Orderly(s.store, s.log) }

  // ---------------------------------------------------------------------------------
  // The operations
  // ---------------------------------------------------------------------------------

  /** addAuxJob. */
  function Submit(s: Loop, t: Task): Loop {
    if s.terminated then s else s.(auxJobs := s.auxJobs + [t])
  }

  predicate InTable(s: Loop, h: Handle) {
    h in s.store && 0 <= s.store[h].idx < |s.jobs| && s.jobs[|s.jobs| - 1] in s.store
  }

  /** removeJob: the last job takes the place of the removed one. */
  function RemoveJob(s: Loop, h: Handle): Loop {
    if !InTable(s, h) then s
    else
      var idx := s.store[h].idx;
      var last := |s.jobs| - 1;
      s.(jobs := s.jobs[idx := s.jobs[last]][..last], store := Vacate(s.store, h, s.jobs[last], idx))
  }

  function Vacate(store: Store, h: Handle, moved: Handle, idx: nat): Store
    requires h in store && moved in store
  {
    var store' := store[moved := store[moved].(idx := idx)];
    store'[h := store'[h].(idx := -1)]
  }

  /** Change one job, and the count by what the change means for it. */
  function Put(s: Loop, h: Handle, j: Job): Loop
    requires h in s.store
  {
    s.(store := s.store[h := j],
       jobCount := s.jobCount + (if Counts(j) then 1 else 0) - (if Counts(s.store[h]) then 1 else 0))
  }

  /** The job is over: marked cancelled, no longer counted, and the event recorded. */
  function Finish(s: Loop, e: Event): Loop
    requires e.job in s.store
  {
    var j := s.store[e.job];
    s.(store := s.store[e.job := j.(cancelled := true)],
       jobCount := if j.refed then s.jobCount - 1 else s.jobCount,
       log := s.log + [e])
  }

  function Disarm(s: Loop, h: Handle): Loop
    requires h in s.store
  {
    s.(store := s.store[h := s.store[h].(armed := false)])
  }

  function Add(s: Loop, j: Job): Loop {
    s.(next := s.next + 1, store := s.store[s.next := j])
  }

  /** setTimeout and setInterval: a started, counted job at the end of the table. */
  function Schedule(s: Loop, kind: Kind): Loop {
    Add(s, Job(kind, |s.jobs|, false, true, true, true, false)).(jobs := s.jobs + [s.next], jobCount := s.jobCount + 1)
  }

  /** setImmediate: counted, whether or not its task is accepted. */
  function SetImmediate(s: Loop): Loop {
    var counted := Add(s, Job(ImmediateJob, -1, false, true, true, false, false))
                   .(jobCount := s.jobCount + 1, stuck := if s.terminated then s.stuck + {s.next} else s.stuck);
    Submit(counted, DoImmediate(s.next))
  }

  /** SetTimeout and SetInterval, from any thread: nothing happens on a terminated loop. */
  function ScheduleFromGo(s: Loop, kind: Kind): Loop {
    if s.terminated then s
    else Submit(Add(s, Job(kind, -1, false, true, false, false, false)), Register(s.next))
  }

  /** ClearTimeout and ClearInterval, from any thread. */
  function ClearFromGo(s: Loop, h: Handle): Loop { Submit(s, Clear(h)) }

  /** A timer that already went off stays in the table until its task takes it out. */
  function ClearTimeout(s: Loop, h: Handle): Loop
    requires h in s.store
  {
    if s.store[h].cancelled then s
    else if s.store[h].armed then RemoveJob(Disarm(Finish(s, Cleared(h)), h), h)
    else Finish(s, Cleared(h))
  }

  function ClearInterval(s: Loop, h: Handle): Loop
    requires h in s.store
  {
    if s.store[h].cancelled then s else RemoveJob(Finish(s, Cleared(h)), h)
  }

  function ClearImmediate(s: Loop, h: Handle): Loop
    requires h in s.store
  {
    if s.store[h].cancelled then s else Finish(s, Cleared(h))
  }

  function ClearJob(s: Loop, h: Handle): Loop
    requires h in s.store
  {
    match s.store[h].kind
    case TimerJob => ClearTimeout(s, h)
    case IntervalJob => ClearInterval(s, h)
    case ImmediateJob => ClearImmediate(s, h)
  }

  /** setJobRef: ref() and unref() of the object given to JavaScript. */
  function SetJobRef(s: Loop, h: Handle, refed: bool): Loop
    requires h in s.store
  {
    var j := s.store[h];
    if j.cancelled || j.refed == refed then s
    else s.(store := s.store[h := j.(refed := refed)],
            jobCount := if refed then s.jobCount + 1 else s.jobCount - 1)
  }

  /** A timer goes off; its own goroutine then submits the task. */
  function Expire(s: Loop, h: Handle): Loop
    requires h in s.store
  {
    s.(store := s.store[h := s.store[h].(armed := false, firing := true)])
  }

  function Fire(s: Loop, h: Handle): Loop
    requires h in s.store
  {
    Submit(s, DoTimeout(h)).(store := s.store[h := s.store[h].(firing := false)])
  }

  /** The ticker of an interval ticks; a refused task ends its goroutine. */
  function Tick(s: Loop, h: Handle): Loop
    requires h in s.store
  {
    if s.terminated then Disarm(s, h) else Submit(s, DoInterval(h))
  }

  /** The goroutine of an interval sees that it was stopped. */
  function TickerStops(s: Loop, h: Handle): Loop
    requires h in s.store
  {
    Submit(Disarm(s, h), Remove(h))
  }

  function DoTimeoutNow(s: Loop, h: Handle): Loop
    requires h in s.store
  {
    var removed := RemoveJob(s, h);
    if s.store[h].cancelled || h !in removed.store then removed else Finish(removed, Ran(h))
  }

  function RegisterNow(s: Loop, h: Handle): Loop
    requires h in s.store
  {
    s.(store := s.store[h := s.store[h].(started := true, armed := true, idx := |s.jobs|)],
       jobCount := s.jobCount + 1,
       jobs := s.jobs + [h])
  }

  function Pop(s: Loop): Loop
    requires |s.auxJobs| > 0
  {
    s.(auxJobs := s.auxJobs[1..])
  }

  /** The loop takes the oldest task and runs it. */
  function RunTask(s: Loop): Loop
    requires |s.auxJobs| > 0 && s.auxJobs[0].job in s.store
  {
    var s0 := Pop(s);
    var h := s.auxJobs[0].job;
    match s.auxJobs[0]
    case Register(_) => RegisterNow(s0, h)
    case Clear(_) => ClearJob(s0, h)
    case DoTimeout(_) => DoTimeoutNow(s0, h)
    case DoInterval(_) => if s.store[h].cancelled then s0 else s0.(log := s.log + [Ran(h)])
    case DoImmediate(_) => if s.store[h].cancelled then s0 else Finish(s0, Ran(h))
    case Remove(_) => RemoveJob(s0, h)
  }

  /** job.cancelled = true, job.cancel() and the count. A ticker goroutine only notices later. */
  function CancelJob(s: Loop, h: Handle): Loop
    requires h in s.store
  {
    var done := Finish(s, Cleared(h));
    if s.store[h].kind.TimerJob? then Disarm(done, h) else done
  }

  lemma RemoveKeepsTable(s: Loop, h: Handle)
    requires TableOk(s.store, s.jobs) && h in s.store
    ensures TableOk(RemoveJob(s, h).store, RemoveJob(s, h).jobs) && RemoveJob(s, h).store.Keys == s.store.Keys
    ensures s.store[h].idx >= 0 ==> |RemoveJob(s, h).jobs| == |s.jobs| - 1
  {
  }

  lemma TablePut(store: Store, jobs: seq<Handle>, h: Handle, j: Job)
    requires TableOk(store, jobs) && h in store && j.idx == store[h].idx
    ensures TableOk(store[h := j], jobs)
  {
  }

  lemma CancelKeepsTable(s: Loop, h: Handle)
    requires TableOk(s.store, s.jobs) && h in s.store
    ensures TableOk(CancelJob(s, h).store, s.jobs) && CancelJob(s, h).store.Keys == s.store.Keys
    ensures CancelJob(s, h).jobs == s.jobs && CancelJob(s, h).store[h].idx == s.store[h].idx
  {
    hide TableOk;
    var done := Finish(s, Cleared(h)).store;
    TablePut(s.store, s.jobs, h, done[h]);
    TablePut(done, s.jobs, h, CancelJob(s, h).store[h]);
  }

  /** The loop in Terminate that cancels whatever is left in the table, from position i on. */
  ghost function CancelFrom(s: Loop, i: nat): Loop
    requires TableOk(s.store, s.jobs)
    decreases |s.jobs| - i
  {
    if i >= |s.jobs| then s
    else
      var h := s.jobs[i];
      if s.store[h].cancelled then CancelFrom(s, i + 1)
      else
        CancelKeepsTable(s, h);
        RemoveKeepsTable(CancelJob(s, h), h);
        CancelFrom(RemoveJob(CancelJob(s, h), h), i)
  }

  datatype Op =
    | OpSchedule(kind: Kind)
    | OpSetImmediate
    | OpScheduleFromGo(kind: Kind)
    | OpClearFromGo(job: Handle)
    | OpClear(job: Handle)
    | OpSetRef(job: Handle, refed: bool)
    | OpExpire(job: Handle)
    | OpFire(job: Handle)
    | OpTick(job: Handle)
    | OpTickerStops(job: Handle)
    | OpRunTask
    | OpBackground(on: bool)
    | OpTerminate
    | OpCancelAll
    | OpRestart

  /** When an operation can happen. JavaScript only holds handles of started jobs; Terminate first
      refuses new tasks, then drains the queue, then cancels; only then can the loop restart. */
  ghost predicate Enabled(s: Loop, op: Op) {
    match op
    case OpSchedule(kind) => !kind.ImmediateJob?
    case OpSetImmediate => true
    case OpScheduleFromGo(kind) => !kind.ImmediateJob?
    case OpClearFromGo(h) => h in s.store && !s.store[h].kind.ImmediateJob?
    case OpClear(h) => h in s.store && s.store[h].started
    case OpSetRef(h, _) => h in s.store && s.store[h].started
    case OpExpire(h) => h in s.store && s.store[h].kind.TimerJob? && s.store[h].armed
    case OpFire(h) => h in s.store && s.store[h].kind.TimerJob? && s.store[h].firing
    case OpTick(h) => h in s.store && s.store[h].kind.IntervalJob? && s.store[h].armed
    case OpTickerStops(h) => h in s.store && s.store[h].kind.IntervalJob? && s.store[h].armed && s.store[h].cancelled
    case OpRunTask => |s.auxJobs| > 0
    case OpBackground(on) => s.background != on
    case OpTerminate => !s.terminated && !s.background
    case OpCancelAll => s.terminated && s.auxJobs == []
    case OpRestart => s.terminated && AllCancelled(s)
  }

  /** Nothing is queued and no timer or interval is left to run. */
  ghost predicate AllCancelled(s: Loop) {
    s.auxJobs == [] && forall h :: h in s.store && !s.store[h].kind.ImmediateJob? ==> s.store[h].cancelled
  }

  /** Every handle the operation follows leads to a job. */
  ghost predicate Defined(s: Loop, op: Op) {
    match op
    case OpRunTask => |s.auxJobs| > 0 && s.auxJobs[0].job in s.store
    case OpCancelAll => TableOk(s.store, s.jobs)
    case _ => true
  }

  ghost function Apply(s: Loop, op: Op): Loop
    requires Enabled(s, op) && Defined(s, op)
  {
    match op
    case OpSchedule(kind) => Schedule(s, kind)
    case OpSetImmediate => SetImmediate(s)
    case OpScheduleFromGo(kind) => ScheduleFromGo(s, kind)
    case OpClearFromGo(h) => ClearFromGo(s, h)
    case OpClear(h) => ClearJob(s, h)
    case OpSetRef(h, refed) => SetJobRef(s, h, refed)
    case OpExpire(h) => Expire(s, h)
    case OpFire(h) => Fire(s, h)
    case OpTick(h) => Tick(s, h)
    case OpTickerStops(h) => TickerStops(s, h)
    case OpRunTask => RunTask(s)
    case OpBackground(on) => s.(background := on, jobCount := if on then s.jobCount + 1 else s.jobCount - 1)
    case OpTerminate => s.(terminated := true)
    case OpCancelAll => CancelFrom(s, 0)
    case OpRestart => s.(terminated := false)
  }
}

/** What one change to the store, the table, the queue or the log keeps. */
module EventLoopParts {
  import opened EventLoopState

  lemma TableAppend(store: Store, jobs: seq<Handle>, h: Handle, j: Job)
    requires TableOk(store, jobs) && (h in store ==> store[h].idx == -1) && j.idx == |jobs|
    ensures TableOk(store[h := j], jobs + [h])
  {
  }

  lemma TableAdd(store: Store, jobs: seq<Handle>, h: Handle, j: Job)
    requires TableOk(store, jobs) && h !in store && j.idx == -1
    ensures TableOk(store[h := j], jobs)
  {
  }

  function One(b: bool): int { if b then 1 else 0 }

  lemma CountPut(store: Store, n: int, bg: bool, h: Handle, j: Job)
    requires CountOk(store, n, bg)
    ensures CountOk(store[h := j], n + One(Counts(j)) - One(h in store && Counts(store[h])), bg)
  {
    var a, b := Live(store), Live(store[h := j]);
    assert b == if Counts(j) then a + {h} else a - {h};
  }

  lemma JobsPut(store: Store, next: Handle, h: Handle, j: Job, next': Handle)
    requires JobsOk(store, next) && JobOk(j) && next <= next' && h < next'
    ensures JobsOk(store[h := j], next')
  {
  }

  ghost predicate TaskView(a: Job, b: Job) {
    a.kind == b.kind && a.started == b.started && (a.cancelled ==> b.cancelled)
  }

  lemma QueueKept(store: Store, q: seq<Task>, store': Store)
    requires QueueOk(store, q) && store.Keys <= store'.Keys
    requires forall h :: h in store ==> TaskView(store[h], store'[h])
    ensures QueueOk(store', q)
  {
    forall i | 0 <= i < |q| ensures TaskOk(store', q[i], q[..i]) {
      assert TaskOk(store, q[i], q[..i]);
    }
  }

  lemma QueueAppend(store: Store, q: seq<Task>, t: Task)
    requires QueueOk(store, q) && TaskOk(store, t, q)
    ensures QueueOk(store, q + [t])
  {
    var r := q + [t];
    forall i | 0 <= i < |r| ensures TaskOk(store, r[i], r[..i]) {
      if i < |q| {
        assert TaskOk(store, q[i], q[..i]);
        assert r[..i] == q[..i];
      } else {
        assert r[..i] == q;
      }
    }
  }

  /** Taking a task off the front; a registration starts its job. */
  lemma QueuePop(store: Store, q: seq<Task>, store': Store)
    requires |q| > 0 && QueueOk(store, q) && store.Keys == store'.Keys
    requires forall h :: h in store ==>
      store[h].kind == store'[h].kind && store[h].cancelled == store'[h].cancelled
      && store'[h].started == (store[h].started || q[0] == Register(h))
    ensures QueueOk(store', q[1..])
  {
    var r := q[1..];
    assert q == [q[0]] + r;
    forall i | 0 <= i < |r| ensures TaskOk(store', r[i], r[..i]) {
      assert TaskOk(store, q[i + 1], q[..i + 1]);
      assert q[..i + 1] == [q[0]] + r[..i];
    }
  }

  lemma NoTaskFor(store: Store, q: seq<Task>, h: Handle)
    requires QueueOk(store, q) && h !in store
    ensures forall t :: t in q ==> t.job != h
  {
    forall i | 0 <= i < |q| ensures q[i].job != h {
      assert TaskOk(store, q[i], q[..i]);
    }
  }

  lemma LostPut(store: Store, q: seq<Task>, stuck: set<Handle>, terminated: bool, h: Handle, j: Job, q': seq<Task>, stuck': set<Handle>)
    requires NothingLost(store, q, stuck, terminated) && Pending(h, j, q', stuck', terminated)
    requires stuck <= stuck' && forall t :: t in q && t.job != h ==> t in q'
    ensures NothingLost(store[h := j], q', stuck', terminated)
  {
    var store' := store[h := j];
    forall k | k in store' ensures Pending(k, store'[k], q', stuck', terminated) {
      if k != h {
        assert Pending(k, store[k], q, stuck, terminated);
      }
    }
  }

  lemma OrderPut(store: Store, log: seq<Event>, h: Handle, j: Job)
    requires Orderly(store, log)
    requires h in store ==> j.kind == store[h].kind && (store[h].cancelled ==> j.cancelled)
    ensures Orderly(store[h := j], log)
  {
    var store' := store[h := j];
    if h !in store {
      forall e | e in log ensures e.job != h {}
    }
    forall i, k | 0 <= i < k < |log| && log[k].Ran? && log[i].job == log[k].job
      ensures log[i].Ran? && store'[log[i].job].kind.IntervalJob?
    {
      assert log[i] in log;
    }
  }

  /** A live job may be cleared, and a timer or immediate may run, once. */
  lemma OrderFinish(store: Store, log: seq<Event>, e: Event)
    requires Orderly(store, log) && e.job in store && !store[e.job].cancelled
    requires e.Ran? ==> !store[e.job].kind.IntervalJob?
    ensures Orderly(store[e.job := store[e.job].(cancelled := true)], log + [e])
  {
    NoEventYet(store, log, e.job, e.Ran?);
  }

  lemma NoEventYet(store: Store, log: seq<Event>, h: Handle, ran: bool)
    requires Orderly(store, log) && h in store && !store[h].cancelled
    ensures forall i :: 0 <= i < |log| && log[i].job == h ==> log[i].Ran? && store[h].kind.IntervalJob?
  {
    forall i | 0 <= i < |log| && log[i].job == h ensures log[i].Ran? && store[h].kind.IntervalJob? {
      assert log[i] in log;
      assert log[i] == Cleared(h) || log[i] == Ran(h);
    }
  }

  lemma OrderRanAgain(store: Store, log: seq<Event>, h: Handle)
    requires Orderly(store, log) && h in store && !store[h].cancelled && store[h].kind.IntervalJob?
    ensures Orderly(store, log + [Ran(h)])
  {
    NoEventYet(store, log, h, true);
  }

  ghost predicate SameButIdx(a: Job, b: Job) {
    a.(idx := b.idx) == b && (a.idx >= 0 <==> b.idx >= 0)
  }

  /** Removing a cancelled job moves another one, and changes nothing else. */
  lemma RemoveReorders(s: Loop, h: Handle)
    requires TableOk(s.store, s.jobs) && h in s.store
    ensures var t := RemoveJob(s, h);
      && TableOk(t.store, t.jobs)
      && t == s.(store := t.store, jobs := t.jobs)
      && t.store.Keys == s.store.Keys
      && t.store[h] == s.store[h].(idx := -1)
      && (forall j :: j in s.store && j != h ==> SameButIdx(s.store[j], t.store[j]))
      && (forall j :: j in s.store ==> t.store[j].idx >= -1)
  {
    hide TableOk;
    RemoveKeepsTable(s, h);
    InTableIffIdx(s, h);
    IdxAtLeast(RemoveJob(s, h).store, RemoveJob(s, h).jobs);
  }

  lemma IdxAtLeast(store: Store, jobs: seq<Handle>)
    requires TableOk(store, jobs)
    ensures forall j :: j in store ==> store[j].idx >= -1
  {
  }

  lemma InTableIffIdx(s: Loop, h: Handle)
    requires TableOk(s.store, s.jobs) && h in s.store
    ensures InTable(s, h) <==> s.store[h].idx >= 0
    ensures !InTable(s, h) ==> s.store[h].idx == -1
    ensures InTable(s, h) ==> s.store[s.jobs[|s.jobs| - 1]].idx == |s.jobs| - 1 && s.jobs[s.store[h].idx] == h
  {
  }

  /** Two stores that differ in positions only. */
  ghost predicate Moved(a: Store, b: Store) {
    a.Keys == b.Keys && forall j :: j in a ==> a[j].(idx := b[j].idx) == b[j]
  }

  lemma CountMoved(a: Store, b: Store, n: int, bg: bool)
    requires Moved(a, b) && CountOk(a, n, bg)
    ensures CountOk(b, n, bg)
  {
    assert Live(a) == Live(b);
  }

  lemma JobsMoved(a: Store, b: Store, h: Handle, next: Handle)
    requires JobsOk(a, next) && Moved(a, b) && h in a && a[h].cancelled && b[h].idx == -1
    requires forall j :: j in a && j != h ==> SameButIdx(a[j], b[j])
    requires forall j :: j in a ==> b[j].idx >= -1
    ensures JobsOk(b, next)
  {
    forall j | j in b ensures JobOk(b[j]) {
      assert JobOk(a[j]);
    }
  }

  lemma LostMoved(a: Store, b: Store, q: seq<Task>, stuck: set<Handle>, terminated: bool)
    requires NothingLost(a, q, stuck, terminated) && Moved(a, b)
    ensures NothingLost(b, q, stuck, terminated)
  {
    forall h | h in b ensures Pending(h, b[h], q, stuck, terminated) {
      assert Pending(h, a[h], q, stuck, terminated);
    }
  }

  lemma OrderMoved(a: Store, b: Store, log: seq<Event>)
    requires Orderly(a, log) && Moved(a, b)
    ensures Orderly(b, log)
  {
    forall i, k | 0 <= i < k < |log| && log[k].Ran? && log[i].job == log[k].job
      ensures log[i].Ran? && b[log[i].job].kind.IntervalJob?
    {
      assert log[i] in log;
    }
  }
}

/** What every operation keeps. */
module EventLoopInvariant {
  import opened EventLoopState
  import opened EventLoopParts

  lemma RemoveKeeps(s: Loop, h: Handle)
    requires Inv(s) && h in s.store && s.store[h].cancelled
    ensures Inv(RemoveJob(s, h))
  {
    hide RemoveJob, TableOk, CountOk, JobsOk, QueueOk, NothingLost, Orderly;
    var t := RemoveJob(s, h);
    RemoveReorders(s, h);
    CountMoved(s.store, t.store, s.jobCount, s.background);
    JobsMoved(s.store, t.store, h, s.next);
    QueueKept(s.store, s.auxJobs, t.store);
    LostMoved(s.store, t.store, s.auxJobs, s.stuck, s.terminated);
    OrderMoved(s.store, t.store, s.log);
  }

  /** One job changes, and with it the count. */
  lemma PutKeeps(s: Loop, h: Handle, j: Job)
    requires Inv(s) && h in s.store && j.idx == s.store[h].idx && JobOk(j)
    requires TaskView(s.store[h], j)
    requires Pending(h, j, s.auxJobs, s.stuck, s.terminated)
    ensures Inv(Put(s, h, j))
  {
    hide TableOk, CountOk, QueueOk, NothingLost, Orderly;
    assert h < s.next;
    TablePut(s.store, s.jobs, h, j);
    CountPut(s.store, s.jobCount, s.background, h, j);
    JobsPut(s.store, s.next, h, j, s.next);
    QueueKept(s.store, s.auxJobs, s.store[h := j]);
    LostPut(s.store, s.auxJobs, s.stuck, s.terminated, h, j, s.auxJobs, s.stuck);
    OrderPut(s.store, s.log, h, j);
  }

  lemma JobAt(s: Loop, h: Handle)
    requires Inv(s) && h in s.store
    ensures JobOk(s.store[h]) && h < s.next
    ensures Pending(h, s.store[h], s.auxJobs, s.stuck, s.terminated)
  {
  }

  lemma FreshHandle(s: Loop)
    requires Inv(s)
    ensures s.next !in s.store
  {
  }

  lemma SubmitKeeps(s: Loop, t: Task)
    requires Inv(s) && TaskOk(s.store, t, s.auxJobs)
    ensures Inv(Submit(s, t))
  {
    hide TableOk, CountOk, JobsOk, QueueOk, NothingLost, Orderly;
    if !s.terminated {
      QueueAppend(s.store, s.auxJobs, t);
      var j := s.store[t.job];
      assert s.store[t.job := j] == s.store;
      JobAt(s, t.job);
      LostPut(s.store, s.auxJobs, s.stuck, s.terminated, t.job, j, s.auxJobs + [t], s.stuck);
    }
  }

  lemma FinishKeeps(s: Loop, e: Event)
    requires Inv(s) && e.job in s.store
    requires s.store[e.job].started && !s.store[e.job].cancelled
    requires e.Ran? ==> !s.store[e.job].kind.IntervalJob?
    ensures Inv(Finish(s, e))
  {
    hide TableOk, CountOk, JobsOk, QueueOk, NothingLost, Orderly;
    JobAt(s, e.job);
    PutKeeps(s, e.job, s.store[e.job].(cancelled := true));
    OrderFinish(s.store, s.log, e);
  }

  lemma DisarmKeeps(s: Loop, h: Handle)
    requires Inv(s) && h in s.store && s.store[h].started
    requires s.store[h].cancelled || s.store[h].kind.IntervalJob?
    ensures Inv(Disarm(s, h))
  {
    hide TableOk, CountOk, JobsOk, QueueOk, NothingLost, Orderly;
    JobAt(s, h);
    PutKeeps(s, h, s.store[h].(armed := false));
  }

  lemma ScheduleKeeps(s: Loop, kind: Kind)
    requires Inv(s) && !kind.ImmediateJob?
    ensures Inv(Schedule(s, kind))
  {
    hide TableOk, CountOk, JobsOk, QueueOk, NothingLost, Orderly;
    FreshHandle(s);
    var j := Schedule(s, kind).store[s.next];
    TableAppend(s.store, s.jobs, s.next, j);
    CountPut(s.store, s.jobCount, s.background, s.next, j);
    JobsPut(s.store, s.next, s.next, j, s.next + 1);
    QueueKept(s.store, s.auxJobs, s.store[s.next := j]);
    LostPut(s.store, s.auxJobs, s.stuck, s.terminated, s.next, j, s.auxJobs, s.stuck);
    OrderPut(s.store, s.log, s.next, j);
  }

  lemma SetImmediateKeeps(s: Loop)
    requires Inv(s)
    ensures Inv(SetImmediate(s))
  {
    hide TableOk, CountOk, JobsOk, QueueOk, NothingLost, Orderly;
    FreshHandle(s);
    var t := SetImmediate(s);
    var j := t.store[s.next];
    TableAdd(s.store, s.jobs, s.next, j);
    CountPut(s.store, s.jobCount, s.background, s.next, j);
    JobsPut(s.store, s.next, s.next, j, s.next + 1);
    QueueKept(s.store, s.auxJobs, t.store);
    if !s.terminated {
      QueueAppend(t.store, s.auxJobs, DoImmediate(s.next));
    }
    LostPut(s.store, s.auxJobs, s.stuck, s.terminated, s.next, j, t.auxJobs, t.stuck);
    OrderPut(s.store, s.log, s.next, j);
  }

  lemma ScheduleFromGoKeeps(s: Loop, kind: Kind)
    requires Inv(s) && !kind.ImmediateJob?
    ensures Inv(ScheduleFromGo(s, kind))
  {
    hide TableOk, CountOk, JobsOk, QueueOk, NothingLost, Orderly;
    FreshHandle(s);
    if !s.terminated {
      var t := ScheduleFromGo(s, kind);
      var j := t.store[s.next];
      TableAdd(s.store, s.jobs, s.next, j);
      CountPut(s.store, s.jobCount, s.background, s.next, j);
      JobsPut(s.store, s.next, s.next, j, s.next + 1);
      QueueKept(s.store, s.auxJobs, t.store);
      NoTaskFor(s.store, s.auxJobs, s.next);
      QueueAppend(t.store, s.auxJobs, Register(s.next));
      LostPut(s.store, s.auxJobs, s.stuck, s.terminated, s.next, j, t.auxJobs, t.stuck);
      OrderPut(s.store, s.log, s.next, j);
    }
  }

  lemma ClearFromGoKeeps(s: Loop, h: Handle)
    requires Inv(s) && h in s.store && !s.store[h].kind.ImmediateJob?
    ensures Inv(ClearFromGo(s, h))
  {
    JobAt(s, h);
    SubmitKeeps(s, Clear(h));
  }

  lemma ClearJobKeeps(s: Loop, h: Handle)
    requires Inv(s) && h in s.store && s.store[h].started
    ensures Inv(ClearJob(s, h))
  {
    hide Inv;
    if !s.store[h].cancelled {
      FinishKeeps(s, Cleared(h));
      var t := Finish(s, Cleared(h));
      match s.store[h].kind {
        case TimerJob =>
          if s.store[h].armed {
            DisarmKeeps(t, h);
            RemoveKeeps(Disarm(t, h), h);
          }
        case IntervalJob => RemoveKeeps(t, h);
        case ImmediateJob =>
      }
    }
  }

  lemma SetJobRefKeeps(s: Loop, h: Handle, refed: bool)
    requires Inv(s) && h in s.store && s.store[h].started
    ensures Inv(SetJobRef(s, h, refed))
  {
    hide TableOk, CountOk, JobsOk, QueueOk, NothingLost, Orderly;
    JobAt(s, h);
    PutKeeps(s, h, s.store[h].(refed := refed));
  }

  lemma ExpireKeeps(s: Loop, h: Handle)
    requires Inv(s) && h in s.store && s.store[h].kind.TimerJob? && s.store[h].armed
    ensures Inv(Expire(s, h))
  {
    hide TableOk, CountOk, JobsOk, QueueOk, NothingLost, Orderly;
    JobAt(s, h);
    PutKeeps(s, h, s.store[h].(armed := false, firing := true));
  }

  lemma FireKeeps(s: Loop, h: Handle)
    requires Inv(s) && h in s.store && s.store[h].kind.TimerJob? && s.store[h].firing
    ensures Inv(Fire(s, h))
  {
    hide TableOk, CountOk, JobsOk, QueueOk, NothingLost, Orderly;
    JobAt(s, h);
    SubmitKeeps(s, DoTimeout(h));
    var t := Submit(s, DoTimeout(h));
    JobAt(t, h);
    PutKeeps(t, h, s.store[h].(firing := false));
  }

  lemma TickKeeps(s: Loop, h: Handle)
    requires Inv(s) && h in s.store && s.store[h].kind.IntervalJob? && s.store[h].armed
    ensures Inv(Tick(s, h))
  {
    hide Inv;
    JobAt(s, h);
    if s.terminated {
      DisarmKeeps(s, h);
    } else {
      SubmitKeeps(s, DoInterval(h));
    }
  }

  lemma TickerStopsKeeps(s: Loop, h: Handle)
    requires Inv(s) && h in s.store && s.store[h].kind.IntervalJob? && s.store[h].armed && s.store[h].cancelled
    ensures Inv(TickerStops(s, h))
  {
    hide Inv;
    JobAt(s, h);
    DisarmKeeps(s, h);
    SubmitKeeps(Disarm(s, h), Remove(h));
  }

  lemma HeadTask(s: Loop)
    requires Inv(s) && |s.auxJobs| > 0
    ensures TaskOk(s.store, s.auxJobs[0], []) && s.auxJobs[0].job in s.store
    ensures !s.auxJobs[0].Register? ==> s.store[s.auxJobs[0].job].started
  {
    assert TaskOk(s.store, s.auxJobs[0], s.auxJobs[..0]);
  }

  lemma PoppedKeepsOthers(q: seq<Task>)
    requires |q| > 0
    ensures forall t :: t in q && t != q[0] ==> t in q[1..]
  {
    assert q == [q[0]] + q[1..];
  }

  /** A task no job is waiting for may be taken off the queue. */
  lemma PopKeeps(s: Loop)
    requires Inv(s) && |s.auxJobs| > 0 && !s.auxJobs[0].Register?
    requires s.auxJobs[0].DoTimeout? || s.auxJobs[0].DoImmediate? ==>
               s.auxJobs[0].job in s.store && s.store[s.auxJobs[0].job].cancelled
    ensures Inv(Pop(s))
  {
    hide TableOk, CountOk, JobsOk, QueueOk, NothingLost, Orderly;
    var h := s.auxJobs[0].job;
    HeadTask(s);
    JobAt(s, h);
    QueuePop(s.store, s.auxJobs, s.store);
    PoppedKeepsOthers(s.auxJobs);
    assert s.store[h := s.store[h]] == s.store;
    LostPut(s.store, s.auxJobs, s.stuck, s.terminated, h, s.store[h], s.auxJobs[1..], s.stuck);
  }

  lemma RegisterKeeps(s: Loop)
    requires Inv(s) && |s.auxJobs| > 0 && s.auxJobs[0].Register?
    ensures s.auxJobs[0].job in s.store && Inv(RegisterNow(Pop(s), s.auxJobs[0].job))
  {
    hide TableOk, CountOk, JobsOk, QueueOk, NothingLost, Orderly;
    HeadTask(s);
    var h := s.auxJobs[0].job;
    JobAt(s, h);
    var t := RegisterNow(Pop(s), h);
    var j := t.store[h];
    TableAppend(s.store, s.jobs, h, j);
    CountPut(s.store, s.jobCount, s.background, h, j);
    JobsPut(s.store, s.next, h, j, s.next);
    QueuePop(s.store, s.auxJobs, t.store);
    PoppedKeepsOthers(s.auxJobs);
    LostPut(s.store, s.auxJobs, s.stuck, s.terminated, h, j, t.auxJobs, s.stuck);
    OrderPut(s.store, s.log, h, j);
  }

  lemma FinishCommutes(s: Loop, h: Handle)
    requires TableOk(s.store, s.jobs) && h in s.store
    ensures h in RemoveJob(s, h).store && RemoveJob(Finish(s, Ran(h)), h) == Finish(RemoveJob(s, h), Ran(h))
  {
    if InTable(s, h) {
      VacateCommutes(s.store, h, s.jobs[|s.jobs| - 1], s.store[h].idx);
    }
    hide TableOk, Vacate;
  }

  lemma VacateCommutes(store: Store, h: Handle, moved: Handle, idx: nat)
    requires h in store && moved in store
    ensures var v := Vacate(store, h, moved, idx);
      && v.Keys == store.Keys && v[h].refed == store[h].refed
      && Vacate(store[h := store[h].(cancelled := true)], h, moved, idx) == v[h := v[h].(cancelled := true)]
  {
  }

  lemma RemoveIgnoresQueue(s: Loop, h: Handle)
    requires |s.auxJobs| > 0
    ensures RemoveJob(Pop(s), h) == RemoveJob(s, h).(auxJobs := s.auxJobs[1..])
    ensures RemoveJob(s, h).auxJobs == s.auxJobs
  {
  }

  lemma DoTimeoutKeeps(s: Loop, h: Handle)
    requires Inv(s) && |s.auxJobs| > 0 && s.auxJobs[0] == DoTimeout(h) && h in s.store && s.store[h].started
    requires s.store[h].kind.TimerJob?
    ensures Inv(DoTimeoutNow(Pop(s), h))
  {
    hide TableOk, CountOk, JobsOk, QueueOk, NothingLost, Orderly;
    var f := if s.store[h].cancelled then s else Finish(s, Ran(h));
    if !s.store[h].cancelled {
      FinishKeeps(s, Ran(h));
      FinishCommutes(s, h);
    }
    RemoveKeeps(f, h);
    RemoveReorders(f, h);
    RemoveIgnoresQueue(s, h);
    PopKeeps(RemoveJob(f, h));
    hide RemoveJob, Inv;
    assert DoTimeoutNow(Pop(s), h) == Pop(RemoveJob(f, h));
  }

  lemma RanIntervalKeeps(s: Loop, h: Handle)
    requires Inv(s) && h in s.store && s.store[h].kind.IntervalJob? && !s.store[h].cancelled
    ensures Inv(s.(log := s.log + [Ran(h)]))
  {
    hide TableOk, CountOk, JobsOk, QueueOk, NothingLost, Orderly;
    OrderRanAgain(s.store, s.log, h);
  }

  lemma RunTaskKeeps(s: Loop)
    requires Inv(s) && |s.auxJobs| > 0
    ensures s.auxJobs[0].job in s.store && Inv(RunTask(s))
  {
    hide Inv;
    HeadTask(s);
    var s0 := Pop(s);
    var h := s.auxJobs[0].job;
    match s.auxJobs[0] {
      case Register(_) => RegisterKeeps(s);
      case Clear(_) =>
        PopKeeps(s);
        ClearJobKeeps(s0, h);
      case DoTimeout(_) => DoTimeoutKeeps(s, h);
      case DoInterval(_) =>
        PopKeeps(s);
        if !s.store[h].cancelled {
          RanIntervalKeeps(s0, h);
        }
      case DoImmediate(_) =>
        if s.store[h].cancelled {
          PopKeeps(s);
        } else {
          FinishKeeps(s, Ran(h));
          PopKeeps(Finish(s, Ran(h)));
        }
      case Remove(_) =>
        PopKeeps(s);
        RemoveKeeps(s0, h);
    }
  }

  lemma CancelJobKeeps(s: Loop, h: Handle)
    requires Inv(s) && h in s.store && s.store[h].started && !s.store[h].cancelled
    ensures Inv(RemoveJob(CancelJob(s, h), h))
  {
    hide Inv;
    FinishKeeps(s, Cleared(h));
    if s.store[h].kind.TimerJob? {
      DisarmKeeps(Finish(s, Cleared(h)), h);
    }
    RemoveKeeps(CancelJob(s, h), h);
  }

  lemma StartedInTable(s: Loop, i: nat)
    requires Inv(s) && i < |s.jobs|
    ensures s.jobs[i] in s.store && s.store[s.jobs[i]].started && s.store[s.jobs[i]].idx == i
  {
    assert JobOk(s.store[s.jobs[i]]);
  }

  /** From s to t exactly the jobs in `gone` were cancelled and taken out of the table. */
  ghost predicate Cancels(s: Loop, t: Loop, gone: set<Handle>) {
    && t == s.(store := t.store, jobs := t.jobs, jobCount := t.jobCount, log := t.log)
    && t.store.Keys == s.store.Keys
    && (forall g :: g in s.store ==> CancelView(s.store[g], t.store[g], g in gone))
    && (forall g :: g in t.jobs <==> g in s.jobs && g !in gone)
  }

  ghost predicate CancelView(a: Job, b: Job, gone: bool) {
    b.kind == a.kind && b.refed == a.refed && b.started == a.started && b.cancelled == (a.cancelled || gone)
  }

  ghost predicate AllIn(store: Store, hs: seq<Handle>) {
    forall k :: 0 <= k < |hs| ==> hs[k] in store && store[hs[k]].cancelled
  }

  /** The jobs in the table that are still to run. */
  ghost function Running(s: Loop): set<Handle> {
    set h | h in s.jobs && h in s.store && !s.store[h].cancelled
  }

  lemma CancelsTwice(s: Loop, u: Loop, t: Loop, h: Handle)
    requires Cancels(s, u, {h}) && Cancels(u, t, Running(u))
    requires h in s.jobs && h in s.store && !s.store[h].cancelled
    ensures Cancels(s, t, Running(s))
  {
    forall g | g in s.store ensures g in Running(s) <==> g == h || g in Running(u) {
      assert CancelView(s.store[g], u.store[g], g == h);
    }
    forall g | g in s.store ensures CancelView(s.store[g], t.store[g], g in Running(s)) {
      assert CancelView(s.store[g], u.store[g], g == h);
      assert CancelView(u.store[g], t.store[g], g in Running(u));
    }
  }

  /** The loop in Terminate cancels, and takes out of the table, exactly the jobs still to run. */
  lemma {:induction false} CancelFromKeeps(s: Loop, i: nat)
    requires Inv(s) && i <= |s.jobs| && AllIn(s.store, s.jobs[..i])
    ensures Inv(CancelFrom(s, i)) && Cancels(s, CancelFrom(s, i), Running(s))
    decreases |s.jobs| - i
  {
    hide Cancels;
    if i < |s.jobs| {
      var h := s.jobs[i];
      StartedInTable(s, i);
      if s.store[h].cancelled {
        CancelFromKeeps(s, i + 1);
      } else {
        var u := RemoveJob(CancelJob(s, h), h);
        CancelJobKeeps(s, h);
        CancelStep(s, i);
        CancelFromKeeps(u, i);
        CancelsTwice(s, u, CancelFrom(u, i), h);
      }
    } else {
      assert s.jobs[..i] == s.jobs;
      NothingToCancel(s);
    }
  }

  lemma NothingToCancel(s: Loop)
    requires AllIn(s.store, s.jobs)
    ensures Running(s) == {} && Cancels(s, s, Running(s))
  {
  }

  lemma CancelMarks(s: Loop, h: Handle)
    requires TableOk(s.store, s.jobs) && h in s.store
    ensures var c := CancelJob(s, h);
      && TableOk(c.store, s.jobs)
      && c == s.(store := c.store, jobCount := c.jobCount, log := c.log)
      && c.store.Keys == s.store.Keys && c.store[h].idx == s.store[h].idx
      && forall g :: g in s.store ==> CancelView(s.store[g], c.store[g], g == h)
  {
    hide TableOk;
    CancelKeepsTable(s, h);
  }

  lemma RemoveKeepsView(s: Loop, c: Loop, h: Handle)
    requires TableOk(c.store, c.jobs) && h in s.store && c.store.Keys == s.store.Keys
    requires forall g :: g in s.store ==> CancelView(s.store[g], c.store[g], g == h)
    ensures RemoveJob(c, h).store.Keys == s.store.Keys
    ensures forall g :: g in s.store ==> CancelView(s.store[g], RemoveJob(c, h).store[g], g == h)
  {
    hide RemoveJob, TableOk;
    RemoveReorders(c, h);
    var u := RemoveJob(c, h);
    forall g | g in s.store ensures CancelView(s.store[g], u.store[g], g == h) {
      assert CancelView(s.store[g], c.store[g], g == h);
      assert g == h || SameButIdx(c.store[g], u.store[g]);
    }
  }

  lemma CancelStep(s: Loop, i: nat)
    requires TableOk(s.store, s.jobs) && i < |s.jobs| && AllIn(s.store, s.jobs[..i])
    ensures s.jobs[i] in s.store
    ensures var u := RemoveJob(CancelJob(s, s.jobs[i]), s.jobs[i]);
      && |u.jobs| == |s.jobs| - 1
      && Cancels(s, u, {s.jobs[i]})
      && AllIn(u.store, u.jobs[..i])
  {
    hide CancelJob, CancelView;
    var h := s.jobs[i];
    assert s.store[h].idx == i;
    CancelMarks(s, h);
    var c := CancelJob(s, h);
    RemoveReorders(c, h);
    RemovedFromTable(c, h);
    RemoveKeepsView(s, c, h);
    hide RemoveJob, TableOk;
    StillIn(s, RemoveJob(c, h), h, i);
  }

  lemma StillIn(s: Loop, u: Loop, h: Handle, i: nat)
    requires u.store.Keys == s.store.Keys && i <= |u.jobs| && i <= |s.jobs| && AllIn(s.store, s.jobs[..i])
    requires forall k :: 0 <= k < i ==> u.jobs[k] == s.jobs[k]
    requires forall g :: g in s.store ==> CancelView(s.store[g], u.store[g], g == h)
    ensures AllIn(u.store, u.jobs[..i])
  {
    assert u.jobs[..i] == s.jobs[..i];
    forall k | 0 <= k < i ensures u.jobs[k] in u.store && u.store[u.jobs[k]].cancelled {
      assert s.jobs[..i][k] in s.store;
      assert CancelView(s.store[u.jobs[k]], u.store[u.jobs[k]], u.jobs[k] == h);
    }
  }

  lemma RemovedFromTable(s: Loop, h: Handle)
    requires TableOk(s.store, s.jobs) && h in s.store && s.store[h].idx >= 0
    ensures var t := RemoveJob(s, h);
      && |t.jobs| == |s.jobs| - 1
      && (forall k :: 0 <= k < s.store[h].idx ==> t.jobs[k] == s.jobs[k])
      && (forall g :: g in t.jobs <==> g in s.jobs && g != h)
  {
    var t, idx, last := RemoveJob(s, h), s.store[h].idx, |s.jobs| - 1;
    forall g | g in s.jobs && g != h ensures g in t.jobs {
      var k :| 0 <= k < |s.jobs| && s.jobs[k] == g;
      assert t.jobs[if k == last then idx else k] == g;
    }
  }
}
