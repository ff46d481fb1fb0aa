/** fs/core.go: a file handle that is closed once, after the operation in progress.

    Any number of threads call operations, Close and closeAndWait. A step is one locked section, one wait
    or one call on the file. A thread that is inside an operation does not call the handle again. */
module FileHandle {

  type Thread(==, !new)

  datatype Option<T> = None | Some(value: T)
  datatype Err = NoErr | Failed(code: nat)

  /** What a call returned; `Ran` is the operation's own result. */
  datatype Outcome = Nothing | Ran(err: Err) | ErrClosedHandle | Closed(err: Err) | ClosedAndWaited(err: Err)

  /** withOpen, with finishOperation from Finishing on; Close and, if `wait`, closeAndWait. */
  datatype Pc =
    | Idle(last: Outcome)
    | Wanting | Checking | Running | Finishing(err: Err) | OpClosing | OpCompleting(closeErr: Err) | Leaving(closed: bool, err: Err)
    | Calling(wait: bool) | Closing(wait: bool) | Completing(wait: bool, closeErr: Err) | Waiting

  /** `opMu` is the holder of that mutex. `closer` and `closes` only observe: who is closing the file,
      and how often it was closed. */
  datatype State = State(
    opMu: Option<Thread>, active: bool, closeRequested: bool, closeStarted: bool, closeDone: bool, closeErr: Err,
    closer: Option<Thread>, closes: nat, pcs: map<Thread, Pc>)

  predicate Fresh(s: State) {
    && s == State(None, false, false, false, false, NoErr, None, 0, s.pcs)
    && forall th :: th in s.pcs ==> s.pcs[th] == Idle(Nothing)
  }

  datatype Step =
    Begin | Acquire | Check | FnReturns(err: Err) | Finish | CloseFile(err: Err) | Complete | Leave
    | CallClose(wait: bool) | CloseSection | WaitOver

  predicate Enabled(s: State, th: Thread, x: Step) {
    && th in s.pcs
    && var pc := s.pcs[th];
       match x
       case Begin => pc.Idle?
       case Acquire => pc.Wanting? && s.opMu.None?
       case Check => pc.Checking?
       case FnReturns(_) => pc.Running?
       case Finish => pc.Finishing?
       case CloseFile(_) => pc.OpClosing? || pc.Closing?
       case Complete => pc.OpCompleting? || pc.Completing?
       case Leave => pc.Leaving?
       case CallClose(_) => pc.Idle?
       case CloseSection => pc.Calling?
       case WaitOver => pc.Waiting? && s.closeDone
  }

  /** Close is over: closeAndWait goes on to wait unless there was an error. */
  function AfterClose(wait: bool, e: Err): Pc {
    if !wait then Idle(Closed(e)) else if e.NoErr? then Waiting else Idle(ClosedAndWaited(e))
  }

  function NextPc(s: State, pc: Pc, x: Step): Pc {
    match x
    case Begin => Wanting
    case Acquire => Checking
    case Check => if s.closeRequested then Idle(ErrClosedHandle) else Running
    case FnReturns(e) => Finishing(e)
    case Finish => if s.closeRequested && !s.closeStarted then OpClosing else if pc.Finishing? then Leaving(s.closeRequested, pc.err) else pc
    case CloseFile(e) => if pc.Closing? then Completing(pc.wait, e) else OpCompleting(e)
    case Complete =>
      if pc.Completing? then AfterClose(pc.wait, pc.closeErr) else Leaving(true, NoErr)
    case Leave => if pc.Leaving? then Idle(if pc.closed then ErrClosedHandle else Ran(pc.err)) else pc
    case CallClose(wait) => Calling(wait)
    case CloseSection =>
      if !pc.Calling? then pc
      else if s.closeRequested then AfterClose(pc.wait, s.closeErr)
      else if s.active then AfterClose(pc.wait, NoErr)
      else Closing(pc.wait)
    case WaitOver => Idle(ClosedAndWaited(s.closeErr))
  }

  function Next(s: State, th: Thread, x: Step): State
    requires Enabled(s, th, x)
  {
    var pc := s.pcs[th];
    var pcs := s.pcs[th := NextPc(s, pc, x)];
    match x
    case Begin => s.(pcs := pcs)
    case Acquire => s.(opMu := Some(th), pcs := pcs)
    case Check => s.(opMu := if s.closeRequested then None else s.opMu, active := s.active || !s.closeRequested, pcs := pcs)
    case FnReturns(_) => s.(pcs := pcs)
    case Finish =>
      var shouldClose := s.closeRequested && !s.closeStarted;
      s.(active := false, closeStarted := s.closeStarted || shouldClose,
         closer := if shouldClose then Some(th) else s.closer, pcs := pcs)
    case CloseFile(_) => s.(closes := s.closes + 1, pcs := pcs)
    case Complete => s.(closeErr := pc.closeErr, closeDone := true, closer := None, pcs := pcs)
    case Leave => s.(opMu := None, pcs := pcs)
    case CallClose(_) => s.(pcs := pcs)
    case CloseSection =>
      var mine := !s.closeRequested && !s.active;
      s.(closeRequested := true, closeStarted := s.closeStarted || mine,
         closer := if mine then Some(th) else s.closer, pcs := pcs)
    case WaitOver => s.(pcs := pcs)
  }

  // ---------------------------------------------------------------------------------
  // The invariant
  // ---------------------------------------------------------------------------------

  predicate InOperation(pc: Pc) {
    pc.Checking? || pc.Running? || pc.Finishing? || pc.OpClosing? || pc.OpCompleting? || pc.Leaving?
  }

  predicate Working(pc: Pc) { pc.Running? || pc.Finishing? }

  predicate BeforeClose(pc: Pc) { pc.OpClosing? || pc.Closing? }

  predicate AtClose(pc: Pc) { BeforeClose(pc) || pc.OpCompleting? || pc.Completing? }

  predicate HasWaited(pc: Pc) { pc.Idle? && pc.last.ClosedAndWaited? }

  /** One thread against the fields. */
  predicate ThreadOk(s: State, th: Thread, pc: Pc) {
    && (InOperation(pc) <==> s.opMu == Some(th))
    && (AtClose(pc) <==> s.closer == Some(th))
    && (Working(pc) <==> s.active && s.opMu == Some(th))
    && (AtClose(pc) ==> s.closes == if BeforeClose(pc) then 0 else 1)
    && (pc.Waiting? ==> s.closeRequested)
    && (HasWaited(pc) ==> s.closeDone)
  }

  predicate FieldsOk(s: State) {
    && (s.active ==> s.opMu.Some?)
    && (s.opMu.Some? ==> s.opMu.value in s.pcs)
    && (s.closer.Some? ==> s.closer.value in s.pcs)
    && (s.closeStarted ==> s.closeRequested && !s.active)
    && (s.closeRequested && !s.closeStarted ==> s.active)
    && (s.closer.Some? <==> s.closeStarted && !s.closeDone)
    && (s.closeDone ==> s.closeStarted && s.closes == 1)
    && (!s.closeStarted ==> s.closes == 0)
    && (!s.closeDone ==> s.closeErr.NoErr?)
  }

  predicate Inv(s: State) {
    FieldsOk(s) && forall th :: th in s.pcs ==> ThreadOk(s, th, s.pcs[th])
  }

  lemma FieldsKept(s: State, th: Thread, x: Step)
    requires FieldsOk(s) && Enabled(s, th, x) && ThreadOk(s, th, s.pcs[th])
    ensures FieldsOk(Next(s, th, x))
  {
  }

  lemma OwnKept(s: State, th: Thread, x: Step)
    requires FieldsOk(s) && Enabled(s, th, x) && ThreadOk(s, th, s.pcs[th])
    ensures ThreadOk(Next(s, th, x), th, NextPc(s, s.pcs[th], x))
  {
  }

  lemma OtherKept(s: State, th: Thread, x: Step, other: Thread)
    requires FieldsOk(s) && Enabled(s, th, x) && ThreadOk(s, th, s.pcs[th])
    requires other in s.pcs && other != th && ThreadOk(s, other, s.pcs[other])
    ensures ThreadOk(Next(s, th, x), other, s.pcs[other])
  {
  }

  lemma StepKeeps(s: State, th: Thread, x: Step)
    requires Inv(s) && Enabled(s, th, x)
    ensures Inv(Next(s, th, x)) && Next(s, th, x).pcs == s.pcs[th := NextPc(s, s.pcs[th], x)]
  {
    FieldsKept(s, th, x);
    OwnKept(s, th, x);
    forall other | other in s.pcs && other != th ensures ThreadOk(Next(s, th, x), other, s.pcs[other]) {
      OtherKept(s, th, x, other);
    }
    var t := Next(s, th, x);
    assert t.pcs == s.pcs[th := NextPc(s, s.pcs[th], x)];
    hide FieldsOk, ThreadOk, Next, NextPc;
  }

  datatype Event = Event(thread: Thread, step: Step)

  predicate Leads(s: State, xs: seq<Event>, t: State)
    decreases |xs|
  {
    if xs == [] then s == t
    else Enabled(s, xs[0].thread, xs[0].step) && Leads(Next(s, xs[0].thread, xs[0].step), xs[1..], t)
  }

  lemma {:induction false} EveryRunKeeps(s: State, xs: seq<Event>, t: State)
    requires Inv(s) && Leads(s, xs, t)
    ensures Inv(t) && t.pcs.Keys == s.pcs.Keys
    decreases |xs|
  {
    hide Inv;
    if xs != [] {
      StepKeeps(s, xs[0].thread, xs[0].step);
      EveryRunKeeps(Next(s, xs[0].thread, xs[0].step), xs[1..], t);
    }
  }

  lemma FreshOk(s: State)
    requires Fresh(s)
    ensures Inv(s)
  {
  }

  /** However many threads there are and however they interleave: the file is closed at most once; while
      it is being closed, and after, no operation runs on it; at most one operation runs at a time. */
  lemma ClosedOnceAndNeverInUse(s: State, xs: seq<Event>, t: State)
    requires Fresh(s) && Leads(s, xs, t)
    ensures t.closes <= 1
    ensures forall th, x :: Enabled(t, th, x) && x.CloseFile? ==> t.closes == 0
    ensures (exists th :: th in t.pcs && AtClose(t.pcs[th])) || t.closes == 1 ==> forall th :: th in t.pcs ==> !Working(t.pcs[th])
    ensures forall a, b :: a in t.pcs && b in t.pcs && Working(t.pcs[a]) && Working(t.pcs[b]) ==> a == b
  {
    FreshOk(s);
    EveryRunKeeps(s, xs, t);
  }

  // ---------------------------------------------------------------------------------
  // Operations and the close request
  // ---------------------------------------------------------------------------------

  /** The thread's last operation was over before the close was requested, or is. */
  predicate SlippedThrough(pc: Pc) {
    (pc.Leaving? && !pc.closed) || (pc.Idle? && pc.last.Ran?)
  }

  lemma RequestIsFinal(s: State, th: Thread, x: Step)
    requires Enabled(s, th, x)
    ensures s.closeRequested ==> Next(s, th, x).closeRequested
    ensures s.closeRequested && !SlippedThrough(s.pcs[th]) ==> !SlippedThrough(NextPc(s, s.pcs[th], x))
  {
  }

  /** Once a close is requested, no operation that overlaps the request or comes later reports its own
      result: it reports ErrClosedHandle. */
  lemma {:induction false} LateOperationsFail(s: State, xs: seq<Event>, t: State, th: Thread)
    requires Inv(s) && Leads(s, xs, t) && th in s.pcs && s.closeRequested && !SlippedThrough(s.pcs[th])
    ensures th in t.pcs && !SlippedThrough(t.pcs[th])
    decreases |xs|
  {
    if xs != [] {
      var e := xs[0];
      StepKeeps(s, e.thread, e.step);
      RequestIsFinal(s, e.thread, e.step);
      hide Inv, SlippedThrough, Next, NextPc;
      LateOperationsFail(Next(s, e.thread, e.step), xs[1..], t, th);
    }
  }

  /** What happened to the thread's operation since it last began: it did not come to its finishing
      section, or it came there with its result, before or after the request. */
  datatype Verdict = NotFinished | FinishedWith(requested: bool, err: Err)

  function Judged(s: State, e: Event, th: Thread, was: Verdict): Verdict {
    if e.thread != th then was
    else if e.step.Begin? then NotFinished
    else if e.step.Finish? && th in s.pcs && s.pcs[th].Finishing? then FinishedWith(s.closeRequested, s.pcs[th].err)
    else was
  }

  /** The verdict at the end of a run. */
  function VerdictOf(s: State, xs: seq<Event>, th: Thread, was: Verdict): Verdict
    decreases |xs|
  {
    if xs == [] || !Enabled(s, xs[0].thread, xs[0].step) then was
    else VerdictOf(Next(s, xs[0].thread, xs[0].step), xs[1..], th, Judged(s, xs[0], th, was))
  }

  predicate BeforeFinish(pc: Pc) { pc.Wanting? || pc.Checking? || pc.Running? || pc.Finishing? }

  /** What the thread is about to report, or did, goes with the verdict. */
  predicate VerdictOk(s: State, pc: Pc, v: Verdict) {
    && (BeforeFinish(pc) ==> v == NotFinished)
    && (pc.OpClosing? || pc.OpCompleting? ==> v.FinishedWith? && v.requested)
    && (pc.Leaving? ==> v.FinishedWith? && v.requested == pc.closed && (!pc.closed ==> v.err == pc.err))
    && (pc.Idle? && pc.last.Ran? ==> v == FinishedWith(false, pc.last.err))
    && (pc.Idle? && pc.last.ErrClosedHandle? ==> s.closeRequested && (v.NotFinished? || v.requested))
    && (v.FinishedWith? && v.requested ==> s.closeRequested)
  }

  lemma VerdictKept(s: State, e: Event, th: Thread, v: Verdict)
    requires FieldsOk(s) && Enabled(s, e.thread, e.step) && th in s.pcs && VerdictOk(s, s.pcs[th], v)
    ensures var t := Next(s, e.thread, e.step); th in t.pcs && VerdictOk(t, t.pcs[th], Judged(s, e, th, v))
  {
    RequestIsFinal(s, e.thread, e.step);
    var t := Next(s, e.thread, e.step);
    assert t.pcs == s.pcs[e.thread := NextPc(s, s.pcs[e.thread], e.step)];
    hide Next, SlippedThrough, FieldsOk;
  }

  lemma {:induction false} RunKeepsVerdict(s: State, xs: seq<Event>, t: State, th: Thread, v: Verdict)
    requires Inv(s) && Leads(s, xs, t) && th in s.pcs && VerdictOk(s, s.pcs[th], v)
    ensures th in t.pcs && VerdictOk(t, t.pcs[th], VerdictOf(s, xs, th, v))
    decreases |xs|
  {
    if xs != [] {
      var e := xs[0];
      StepKeeps(s, e.thread, e.step);
      VerdictKept(s, e, th, v);
      hide Inv, VerdictOk, Next, NextPc, Judged, Enabled;
      RunKeepsVerdict(Next(s, e.thread, e.step), xs[1..], t, th, Judged(s, e, th, v));
    }
  }

  /** In every run a finished operation reports its own result exactly if no close was requested before
      its finishing section, and then the result the operation gave; else it reports
      ErrClosedHandle, which it also does, without running, if the request came first. */
  lemma TimelyOperationsSucceed(s: State, xs: seq<Event>, t: State, th: Thread)
    requires Fresh(s) && Leads(s, xs, t) && th in s.pcs
    ensures th in t.pcs
    ensures var pc, v := t.pcs[th], VerdictOf(s, xs, th, NotFinished);
      pc.Idle? && (pc.last.Ran? || pc.last.ErrClosedHandle?) ==>
        && (pc.last.Ran? <==> v.FinishedWith? && !v.requested)
        && (pc.last.Ran? ==> pc.last.err == v.err)
        && (v.NotFinished? ==> t.closeRequested)
  {
    FreshOk(s);
    RunKeepsVerdict(s, xs, t, th, NotFinished);
  }

  /** A close is requested exactly if some thread went through the section of Close that asks for it. */
  lemma {:induction false} RequestedIffAsked(s: State, xs: seq<Event>, t: State)
    requires Leads(s, xs, t)
    ensures t.closeRequested <==> s.closeRequested || exists i :: 0 <= i < |xs| && xs[i].step.CloseSection?
    decreases |xs|
  {
    if xs != [] {
      var rest := xs[1..];
      RequestedIffAsked(Next(s, xs[0].thread, xs[0].step), rest, t);
      forall i | 0 <= i < |rest| ensures rest[i] == xs[i + 1] {}
      if i :| 0 <= i < |xs| && xs[i].step.CloseSection? {
        assert i > 0 ==> rest[i - 1].step.CloseSection?;
      }
    }
  }

  // ---------------------------------------------------------------------------------
  // The duty to close
  // ---------------------------------------------------------------------------------

  /** Who will close the file: the thread that is at it, else the operation in progress. */
  predicate HasDuty(s: State, th: Thread) {
    th in s.pcs && (AtClose(s.pcs[th]) || (Working(s.pcs[th]) && s.closeRequested))
  }

  /** While a close is requested and not done, exactly one thread has the duty, and it is not waiting
      for anybody; and closeAndWait has returned nowhere. */
  lemma ExactlyOneHasDuty(s: State, xs: seq<Event>, t: State)
    requires Fresh(s) && Leads(s, xs, t)
    ensures t.closeRequested && !t.closeDone <==> exists th :: HasDuty(t, th)
    ensures forall a, b :: HasDuty(t, a) && HasDuty(t, b) ==> a == b
    ensures forall th :: HasDuty(t, th) ==> exists x :: Enabled(t, th, x)
    ensures !t.closeDone ==> forall th :: th in t.pcs ==> !HasWaited(t.pcs[th])
  {
    FreshOk(s);
    EveryRunKeeps(s, xs, t);
    if t.closeRequested && !t.closeDone {
      var th := if t.closer.Some? then t.closer.value else t.opMu.value;
      assert ThreadOk(t, th, t.pcs[th]);
      assert HasDuty(t, th);
    }
    forall th | HasDuty(t, th) ensures exists x :: Enabled(t, th, x) {
      assert ThreadOk(t, th, t.pcs[th]);
      DutyCanMove(t, th);
    }
    forall a, b | HasDuty(t, a) && HasDuty(t, b) ensures a == b {
      assert ThreadOk(t, a, t.pcs[a]) && ThreadOk(t, b, t.pcs[b]);
    }
  }

  function DutyStep(pc: Pc): Step {
    if pc.Running? then FnReturns(NoErr)
    else if pc.Finishing? then Finish
    else if BeforeClose(pc) then CloseFile(NoErr)
    else Complete
  }

  lemma DutyCanMove(s: State, th: Thread)
    requires HasDuty(s, th)
    ensures Enabled(s, th, DutyStep(s.pcs[th]))
  {
  }

  function DutyRank(pc: Pc): nat {
    if pc.Running? then 4 else if pc.Finishing? then 3 else if BeforeClose(pc) then 2 else 1
  }

  /** Each step of the thread that has the duty brings the close nearer, and nobody else's step takes
      the duty away. */
  lemma DutyEnds(s: State, th: Thread, x: Step, duty: Thread)
    requires Inv(s) && HasDuty(s, duty) && Enabled(s, th, x)
    ensures var t := Next(s, th, x);
      if th == duty then
        (t.closeDone && DutyRank(s.pcs[duty]) == 1) || (HasDuty(t, duty) && DutyRank(t.pcs[duty]) < DutyRank(s.pcs[duty]))
      else HasDuty(t, duty) && t.pcs[duty] == s.pcs[duty]
  {
    assert ThreadOk(s, duty, s.pcs[duty]) && ThreadOk(s, th, s.pcs[th]);
  }

  /** How many of the steps of a run are the thread's. */
  function StepsOf(xs: seq<Event>, th: Thread): nat {
    if xs == [] then 0 else (if xs[0].thread == th then 1 else 0) + StepsOf(xs[1..], th)
  }

  lemma DoneIsFinal(s: State, th: Thread, x: Step)
    requires Enabled(s, th, x)
    ensures s.closeDone ==> Next(s, th, x).closeDone
  {
  }

  lemma {:induction false} RunKeepsDone(s: State, xs: seq<Event>, t: State)
    requires Leads(s, xs, t) && s.closeDone
    ensures t.closeDone
    decreases |xs|
  {
    if xs != [] {
      DoneIsFinal(s, xs[0].thread, xs[0].step);
      RunKeepsDone(Next(s, xs[0].thread, xs[0].step), xs[1..], t);
    }
  }

  /** In every run the duty is done after at most four steps of the thread that had it at the start,
      however many steps the others take. */
  lemma {:induction false} DutyEndsInRuns(s: State, xs: seq<Event>, t: State, duty: Thread)
    requires Inv(s) && Leads(s, xs, t) && HasDuty(s, duty)
    ensures t.closeDone || (HasDuty(t, duty) && StepsOf(xs, duty) + DutyRank(t.pcs[duty]) <= DutyRank(s.pcs[duty]))
    ensures StepsOf(xs, duty) >= DutyRank(s.pcs[duty]) ==> t.closeDone
    decreases |xs|
  {
    if xs != [] {
      var e := xs[0];
      var u := Next(s, e.thread, e.step);
      StepKeeps(s, e.thread, e.step);
      DutyEnds(s, e.thread, e.step, duty);
      hide Inv, Next, Enabled, HasDuty;
      if u.closeDone {
        RunKeepsDone(u, xs[1..], t);
      } else {
        DutyEndsInRuns(u, xs[1..], t, duty);
      }
    }
  }

  /** A thread that waits in closeAndWait can go on exactly when the close is done; until then some
      thread has the duty, and has at most four steps to take. So it cannot hang. */
  lemma WaitersAreServed(s: State, xs: seq<Event>, t: State, th: Thread)
    requires Fresh(s) && Leads(s, xs, t) && th in t.pcs && t.pcs[th].Waiting?
    ensures Enabled(t, th, WaitOver) <==> t.closeDone
    ensures !t.closeDone ==> exists duty :: HasDuty(t, duty) && duty != th && DutyRank(t.pcs[duty]) <= 4
  {
    FreshOk(s);
    EveryRunKeeps(s, xs, t);
    assert ThreadOk(t, th, t.pcs[th]);
    ExactlyOneHasDuty(s, xs, t);
  }

  /** The errors of the closes of the file in a run. */
  function CloseErrs(xs: seq<Event>): seq<Err> {
    if xs == [] then []
    else (if xs[0].step.CloseFile? then [xs[0].step.err] else []) + CloseErrs(xs[1..])
  }

  /** The error of the close is with the thread that closed, and then in closeErr, and with everyone who
      waited. */
  predicate ErrOk(s: State, pc: Pc, errs: seq<Err>) {
    && (pc.OpCompleting? || pc.Completing? ==> errs == [pc.closeErr])
    && (HasWaited(pc) ==> errs == [pc.last.err])
    && |errs| == s.closes
    && (s.closeDone ==> errs == [s.closeErr])
  }

  ghost predicate ErrsOk(s: State, errs: seq<Err>) {
    && |errs| == s.closes
    && (s.closeDone ==> errs == [s.closeErr])
    && forall th :: th in s.pcs ==> ErrOk(s, s.pcs[th], errs)
  }

  function More(errs: seq<Err>, x: Step): seq<Err> { if x.CloseFile? then errs + [x.err] else errs }

  lemma OwnErr(s: State, th: Thread, x: Step, errs: seq<Err>)
    requires FieldsOk(s) && Enabled(s, th, x) && ThreadOk(s, th, s.pcs[th]) && ErrOk(s, s.pcs[th], errs)
    ensures ErrOk(Next(s, th, x), NextPc(s, s.pcs[th], x), More(errs, x))
    ensures x.CloseFile? ==> errs == [] && !s.closeDone
    ensures x.Complete? ==> errs == [s.pcs[th].closeErr]
  {
  }

  lemma ErrsKept(s: State, th: Thread, x: Step, errs: seq<Err>)
    requires Inv(s) && Enabled(s, th, x) && ErrsOk(s, errs)
    ensures ErrsOk(Next(s, th, x), More(errs, x))
  {
    var t := Next(s, th, x);
    assert ErrOk(s, s.pcs[th], errs) && ThreadOk(s, th, s.pcs[th]);
    OwnErr(s, th, x, errs);
    forall other | other in t.pcs ensures ErrOk(t, t.pcs[other], More(errs, x)) {
      if other != th {
        assert ErrOk(s, s.pcs[other], errs) && ThreadOk(s, other, s.pcs[other]);
      }
    }
  }

  lemma {:induction false} RunKeepsErrs(s: State, xs: seq<Event>, t: State, errs: seq<Err>)
    requires Inv(s) && Leads(s, xs, t) && ErrsOk(s, errs)
    ensures ErrsOk(t, errs + CloseErrs(xs))
    decreases |xs|
  {
    if xs == [] {
      assert errs + [] == errs;
    } else {
      var e := xs[0];
      StepKeeps(s, e.thread, e.step);
      ErrsKept(s, e.thread, e.step, errs);
      MoreErrs(errs, xs);
      hide Inv, ErrsOk, Next, Enabled, More, CloseErrs;
      RunKeepsErrs(Next(s, e.thread, e.step), xs[1..], t, More(errs, e.step));
    }
  }

  lemma MoreErrs(errs: seq<Err>, xs: seq<Event>)
    requires xs != []
    ensures More(errs, xs[0].step) + CloseErrs(xs[1..]) == errs + CloseErrs(xs)
  {
  }

  /** In every run, whoever returned from closeAndWait returned the error of the one close of the file
      in that run. */
  lemma WaitReturnsTheError(s: State, xs: seq<Event>, t: State, th: Thread)
    requires Fresh(s) && Leads(s, xs, t) && th in t.pcs
    ensures |CloseErrs(xs)| == t.closes <= 1
    ensures HasWaited(t.pcs[th]) ==> CloseErrs(xs) == [t.pcs[th].last.err]
  {
    FreshOk(s);
    ClosedOnceAndNeverInUse(s, xs, t);
    RunKeepsErrs(s, xs, t, []);
    assert [] + CloseErrs(xs) == CloseErrs(xs);
    assert ErrOk(t, t.pcs[th], CloseErrs(xs));
  }

  /** What a plain Close is to return, once it is known: the error of its own close of the file; or, if it closes
      nothing, the error of a close that was done before, if there was one. */
  function CloseVerdict(s: State, e: Event, th: Thread, was: Option<Err>): Option<Err> {
    if e.thread != th || th !in s.pcs then was
    else if e.step.CallClose? then None
    else if e.step.CloseSection? && s.closeRequested then Some(s.closeErr)
    else if e.step.CloseSection? && s.active then Some(NoErr)
    else if e.step.CloseFile? && s.pcs[th].Closing? then Some(e.step.err)
    else was
  }

  function CloseVerdictOf(s: State, xs: seq<Event>, th: Thread, was: Option<Err>): Option<Err>
    decreases |xs|
  {
    if xs == [] || !Enabled(s, xs[0].thread, xs[0].step) then was
    else CloseVerdictOf(Next(s, xs[0].thread, xs[0].step), xs[1..], th, CloseVerdict(s, xs[0], th, was))
  }

  predicate CloseOk(pc: Pc, v: Option<Err>) {
    && (pc.Completing? ==> v == Some(pc.closeErr))
    && (pc.Idle? && pc.last.Closed? ==> v == Some(pc.last.err))
  }

  lemma CloseKept(s: State, e: Event, th: Thread, v: Option<Err>)
    requires Enabled(s, e.thread, e.step) && th in s.pcs && CloseOk(s.pcs[th], v)
    ensures th in Next(s, e.thread, e.step).pcs && CloseOk(Next(s, e.thread, e.step).pcs[th], CloseVerdict(s, e, th, v))
  {
    var t := Next(s, e.thread, e.step);
    assert t.pcs == s.pcs[e.thread := NextPc(s, s.pcs[e.thread], e.step)];
    hide Next;
  }

  lemma {:induction false} RunKeepsClose(s: State, xs: seq<Event>, t: State, th: Thread, v: Option<Err>)
    requires Leads(s, xs, t) && th in s.pcs && CloseOk(s.pcs[th], v)
    ensures th in t.pcs && CloseOk(t.pcs[th], CloseVerdictOf(s, xs, th, v))
    decreases |xs|
  {
    if xs != [] {
      hide CloseOk, Next, Enabled, CloseVerdict;
      CloseKept(s, xs[0], th, v);
      RunKeepsClose(Next(s, xs[0].thread, xs[0].step), xs[1..], t, th, CloseVerdict(s, xs[0], th, v));
    }
  }

  /** In every run a plain Close returns the error of its own close of the file if it makes one; if the operation
      in progress is to close the file, nil; and if somebody asked before, nil until the close is done and
      then its error. */
  lemma CloseReturns(s: State, xs: seq<Event>, t: State, th: Thread)
    requires Fresh(s) && Leads(s, xs, t) && th in s.pcs
    ensures th in t.pcs
    ensures t.pcs[th].Idle? && t.pcs[th].last.Closed? ==> CloseVerdictOf(s, xs, th, None) == Some(t.pcs[th].last.err)
  {
    RunKeepsClose(s, xs, t, th, None);
  }

  // ---------------------------------------------------------------------------------
  // The locked sections as code
  // ---------------------------------------------------------------------------------

  /** The fields of the handle. Each method is one section under stateMu, run by a thread that is there,
      and takes the step of that name. */
  class Handle {
    var opMu: Option<Thread>
    var active: bool
    var closeRequested: bool
    var closeStarted: bool
    var closeDone: bool
    var closeErr: Err
    ghost var closer: Option<Thread>
    ghost var closes: nat
    ghost var pcs: map<Thread, Pc>

    ghost function Now(): State
      reads this
    {
      State(opMu, active, closeRequested, closeStarted, closeDone, closeErr, closer, closes, pcs)
    }

    constructor (threads: set<Thread>)
      ensures Fresh(Now()) && pcs.Keys == threads
    {
      opMu, active, closeRequested, closeStarted, closeDone, closeErr := None, false, false, false, false, NoErr;
      closer, closes, pcs := None, 0, map th | th in threads :: Idle(Nothing);
    }

    /** beginOperation, once opMu is held; a refused operation gives it back. */
    method BeginOperation(th: Thread) returns (refused: bool)
      requires Enabled(Now(), th, Check)
      modifies this
      ensures Now() == Next(old(Now()), th, Check) && refused == old(closeRequested)
    {
      pcs := pcs[th := NextPc(Now(), pcs[th], Check)];
      if closeRequested {
        opMu := None;
        return true;
      }
      active := true;
      return false;
    }

    /** finishOperation, up to the close of the file. */
    method FinishOperation(th: Thread) returns (closedDuringOperation: bool, shouldClose: bool)
      requires Enabled(Now(), th, Finish)
      modifies this
      ensures Now() == Next(old(Now()), th, Finish)
      ensures closedDuringOperation == old(closeRequested) && (shouldClose <==> pcs[th].OpClosing?)
    {
      pcs := pcs[th := NextPc(Now(), pcs[th], Finish)];
      active := false;
      closedDuringOperation := closeRequested;
      shouldClose := closeRequested && !closeStarted;
      if shouldClose {
        closeStarted := true;
        closer := Some(th);
      }
    }

    /** completeClose; closing the channel again would panic. */
    method CompleteClose(th: Thread, err: Err)
      requires Enabled(Now(), th, Complete) && err == pcs[th].closeErr && Inv(Now())
      modifies this
      ensures Now() == Next(old(Now()), th, Complete) && !old(closeDone) && closeDone
    {
      assert ThreadOk(Now(), th, pcs[th]);
      pcs := pcs[th := NextPc(Now(), pcs[th], Complete)];
      closeErr := err;
      closeDone := true;
      closer := None;
    }

    /** Close, up to the close of the file. */
    method RequestClose(th: Thread) returns (mine: bool, err: Err)
      requires Enabled(Now(), th, CloseSection)
      modifies this
      ensures Now() == Next(old(Now()), th, CloseSection)
      ensures mine <==> pcs[th].Closing?
      ensures !mine ==> pcs[th] == AfterClose(old(pcs)[th].wait, err)
    {
      pcs := pcs[th := NextPc(Now(), pcs[th], CloseSection)];
      if closeRequested { return false, closeErr; }
      closeRequested := true;
      if active { return false, NoErr; }
      closeStarted := true;
      closer := Some(th);
      return true, NoErr;
    }
  }
}
