/** streams/reader.go: a ReadableStream over an io.ReadCloser, with a background read for every pull.

    The stream machinery pulls again only once the last pull has settled, and has started the stream, so
    there is a controller; no cancel hook is configured. A step is one locked section or one call. */
module ReaderStream {

  type Byte(==, !new)

  datatype Err = NoErr | Eof | Broken
  datatype Chunk = Chunk(data: seq<Byte>, err: Err)
  datatype Task = NoTask | Deliver(chunk: Chunk)

  /** The goroutine of readOnce, and of abandon after it. */
  datatype BgPc = NoBg | Reading | Got(chunk: Chunk) | Submitting(chunk: Chunk) | Abandoning | OffClose | OffHook

  /** The loop thread: in cancel or Error (`raise`), or in deliver, after their locked section. */
  datatype LoopPc =
    | Free
    | EndResolve(raise: bool) | EndClose(raise: bool) | EndHook(raise: bool) | EndController
    | PutHook(chunk: Chunk) | PutEnqueue(chunk: Chunk) | PutFinish(chunk: Chunk) | PutResolve

  /** The promise of the last pull: settled, its resolve function in the field `settle`, in the hands
      of the loop thread, or dropped. */
  datatype Promise = Settled | InSettle | InHand | Lost

  /** The observers: the bytes Read gave and the ones enqueued, how often the reader was closed and
      which hooks ran, whether the reader reached its end, and what the controller was told. */
  datatype State = State(
    loopAlive: bool, settled: bool, promise: Promise, closeOnce: bool, bg: BgPc, task: Task, loop: LoopPc,
    read: seq<Byte>, enqueued: seq<Byte>, closes: nat, onSettled: nat, onSettledOff: nat,
    ended: bool, closed: bool, errored: bool)

  const Start := State(true, false, Settled, false, NoBg, NoTask, Free, [], [], 0, 0, 0, false, false, false)

  datatype LoopStep = Pull | Cancel | Raise | RunDeliver | Continue
  datatype BgStep = ReadReturns(chunk: Chunk) | CloseForRead(fails: bool) | Submit | Abandon | CloseOff | HookOff
  datatype Step = Loop(l: LoopStep) | Background(b: BgStep) | LoopDies

  predicate LoopEnabled(s: State, x: LoopStep) {
    match x
    case Pull => s.loop.Free? && s.promise.Settled?
    case Cancel => s.loop.Free?
    case Raise => s.loop.Free?
    case RunDeliver => s.loop.Free? && s.task.Deliver?
    case Continue => !s.loop.Free?
  }

  predicate BgEnabled(s: State, x: BgStep) {
    match x
    case ReadReturns(_) => s.bg.Reading?
    case CloseForRead(_) => s.bg.Got?
    case Submit => s.bg.Submitting?
    case Abandon => s.bg.Abandoning?
    case CloseOff => s.bg.OffClose?
    case HookOff => s.bg.OffHook?
  }

  predicate Enabled(s: State, x: Step) {
    match x
    case Loop(l) => LoopEnabled(s, l)
    case Background(b) => BgEnabled(s, b)
    case LoopDies => s.loopAlive
  }

  /** The resolve function moves from the field to the caller. */
  function Take(p: Promise): Promise { if p.InSettle? then InHand else p }

  function Resolve(p: Promise): Promise { if p.InHand? then Settled else p }

  /** closeOnce.Do(reader.Close). */
  function CloseReader(s: State): State {
    s.(closeOnce := true, closes := if s.closeOnce then s.closes else s.closes + 1)
  }

  /** cancel: resolve, close, hook. Error: the same, then the controller. deliver: the hook if this was
      the last read, enqueue, the controller, resolve. */
  function NextCall(l: LoopPc): LoopPc {
    match l
    case Free => Free
    case EndResolve(r) => EndClose(r)
    case EndClose(r) => EndHook(r)
    case EndHook(r) => if r then EndController else Free
    case EndController => Free
    case PutHook(c) => PutEnqueue(c)
    case PutEnqueue(c) => PutFinish(c)
    case PutFinish(_) => PutResolve
    case PutResolve => Free
  }

  function Told(l: LoopPc, e: Err): bool { l.PutFinish? && l.chunk.err == e }

  /** What cancel, Error and deliver do after their locked section, one call at a time. */
  function ContinueLoop(s: State): State {
    var l := s.loop;
    s.(loop := NextCall(l),
       promise := if l.EndResolve? || l.PutResolve? then Resolve(s.promise) else s.promise,
       closeOnce := s.closeOnce || l.EndClose?,
       closes := if l.EndClose? && !s.closeOnce then s.closes + 1 else s.closes,
       onSettled := if l.EndHook? || l.PutHook? then s.onSettled + 1 else s.onSettled,
       enqueued := if l.PutEnqueue? then s.enqueued + l.chunk.data else s.enqueued,
       closed := s.closed || Told(l, Eof),
       errored := s.errored || Told(l, Broken) || l.EndController?)
  }

  function EndNow(s: State, raise: bool): State {
    s.(settled := true, promise := Take(s.promise), loop := if s.settled then Free else EndResolve(raise))
  }

  function DeliverNow(s: State, c: Chunk): State {
    s.(task := NoTask, settled := s.settled || !c.err.NoErr?, promise := Take(s.promise),
       loop := if s.settled then Free else if c.err.NoErr? then PutEnqueue(c) else PutHook(c))
  }

  function LoopNext(s: State, x: LoopStep): State
    requires LoopEnabled(s, x)
  {
    match x
    case Pull => s.(promise := if s.settled then Settled else InSettle, bg := if s.settled then s.bg else Reading)
    case Cancel => EndNow(s, false)
    case Raise => EndNow(s, true)
    case RunDeliver => DeliverNow(s, s.task.chunk)
    case Continue => ContinueLoop(s)
  }

  /** At the end of the input a failed close replaces the end-of-file error. */
  function AfterClose(s: State, c: Chunk, fails: bool): Chunk {
    if c.err.Eof? && !s.closeOnce && fails then c.(err := Broken) else c
  }

  function BgNext(s: State, x: BgStep): State
    requires BgEnabled(s, x)
  {
    match x
    case ReadReturns(c) => s.(read := s.read + c.data, ended := s.ended || c.err.Eof?, bg := Got(c))
    case CloseForRead(fails) =>
      s.(closeOnce := s.closeOnce || !s.bg.chunk.err.NoErr?,
         closes := if s.closeOnce || s.bg.chunk.err.NoErr? then s.closes else s.closes + 1,
         bg := Submitting(AfterClose(s, s.bg.chunk, fails)))
    case Submit => s.(task := if s.loopAlive then Deliver(s.bg.chunk) else s.task, bg := if s.loopAlive then NoBg else Abandoning)
    case Abandon => s.(settled := true, promise := if s.promise.InSettle? then Lost else s.promise, bg := if s.settled then NoBg else OffClose)
    case CloseOff => CloseReader(s).(bg := OffHook)
    case HookOff => s.(onSettledOff := s.onSettledOff + 1, bg := NoBg)
  }

  function Next(s: State, x: Step): State
    requires Enabled(s, x)
  {
    match x
    case Loop(l) => LoopNext(s, l)
    case Background(b) => BgNext(s, b)
    case LoopDies => s.(loopAlive := false)
  }

  // ---------------------------------------------------------------------------------
  // The invariant
  // ---------------------------------------------------------------------------------

  predicate Ending(l: LoopPc) { l.EndResolve? || l.EndClose? || l.EndHook? || l.EndController? }

  predicate Putting(l: LoopPc) { l.PutHook? || l.PutEnqueue? || l.PutFinish? || l.PutResolve? }

  predicate Off(b: BgPc) { b.OffClose? || b.OffHook? }

  /** Where the promise of the pull and the result of its read are. */
  predicate Shape(s: State) {
    && (s.bg.NoBg? || s.task.NoTask?)
    && (s.promise.InSettle? ==> !s.settled)
    && (!s.settled ==> !s.promise.Lost? && (s.promise.InHand? <==> Putting(s.loop)))
    && (!s.settled ==> (s.promise.InSettle? <==> !s.bg.NoBg? || !s.task.NoTask?))
    && (s.promise.InHand? ==> s.loop.EndResolve? || Putting(s.loop))
    && (Putting(s.loop) ==> s.bg.NoBg? && s.task.NoTask?)
    && (Ending(s.loop) || Off(s.bg) ==> s.settled)
    && (Off(s.bg) ==> !Ending(s.loop) && !Putting(s.loop))
  }

  /** A read that failed has been closed before its result is passed on. */
  predicate ClosedFirst(s: State) {
    && (s.bg.Submitting? && !s.bg.chunk.err.NoErr? ==> s.closeOnce)
    && (s.task.Deliver? && !s.task.chunk.err.NoErr? ==> s.closeOnce)
    && (Putting(s.loop) && s.settled ==> s.closeOnce)
    && (s.loop.PutHook? ==> s.settled && !s.loop.chunk.err.NoErr?)
    && (s.loop.PutEnqueue? || s.loop.PutFinish? ==> (s.settled <==> !s.loop.chunk.err.NoErr?))
  }

  function One(b: bool): nat { if b then 1 else 0 }

  /** Some thread has still to close the reader, or to run the hook. */
  predicate CloseDue(s: State) { s.loop.EndResolve? || s.loop.EndClose? || s.bg.OffClose? }

  predicate HookDue(s: State) { CloseDue(s) || s.loop.EndHook? || s.loop.PutHook? || s.bg.OffHook? }

  predicate Counted(s: State) {
    && s.closes == One(s.closeOnce)
    && (s.settled ==> s.closeOnce || CloseDue(s))
    && s.onSettled + s.onSettledOff == One(s.settled && !HookDue(s))
    && (s.promise.Lost? <==> s.onSettledOff == 1 || Off(s.bg))
    && s.onSettledOff <= 1
  }

  /** Read results on their way to the controller. */
  function InFlight(s: State): seq<Byte> {
    if s.bg.Got? || s.bg.Submitting? then s.bg.chunk.data
    else if s.task.Deliver? then s.task.chunk.data
    else if s.loop.PutHook? || s.loop.PutEnqueue? then s.loop.chunk.data
    else []
  }

  predicate InOrder(s: State) {
    && s.enqueued <= s.read
    && ((!s.settled && !s.bg.Abandoning?) || Putting(s.loop) ==> s.read == s.enqueued + InFlight(s))
  }

  /** The controller is closed at the end of the input only. */
  predicate Ends(s: State) {
    && (s.bg.Got? || s.bg.Submitting? ==> s.bg.chunk.err.Eof? ==> s.ended)
    && (s.task.Deliver? && s.task.chunk.err.Eof? ==> s.ended)
    && (s.loop.PutHook? || s.loop.PutEnqueue? || s.loop.PutFinish? ==> s.loop.chunk.err.Eof? ==> s.ended)
    && (s.closed ==> s.ended && s.settled && s.bg.NoBg? && s.task.NoTask? && s.read == s.enqueued && (s.loop.Free? || s.loop.PutResolve?))
  }

  predicate Inv(s: State) { Shape(s) && ClosedFirst(s) && Counted(s) && InOrder(s) && Ends(s) }

  lemma EnterKeepsShape(s: State, x: LoopStep)
    requires Shape(s) && ClosedFirst(s) && LoopEnabled(s, x) && !x.Continue?
    ensures Shape(LoopNext(s, x)) && ClosedFirst(LoopNext(s, x))
  {
    hide ContinueLoop;
  }

  lemma ContinueKeepsShape(s: State)
    requires Shape(s) && ClosedFirst(s)
    ensures Shape(ContinueLoop(s)) && ClosedFirst(ContinueLoop(s))
  {
  }

  lemma BgKeepsShape(s: State, x: BgStep)
    requires Shape(s) && ClosedFirst(s) && BgEnabled(s, x)
    ensures Shape(BgNext(s, x)) && ClosedFirst(BgNext(s, x))
  {
  }

  lemma EnterKeepsCounts(s: State, x: LoopStep)
    requires Shape(s) && ClosedFirst(s) && Counted(s) && LoopEnabled(s, x) && !x.Continue?
    ensures Counted(LoopNext(s, x))
  {
    hide ContinueLoop;
  }

  lemma ContinueKeepsCounts(s: State)
    requires Shape(s) && ClosedFirst(s) && Counted(s)
    ensures Counted(ContinueLoop(s))
  {
  }

  lemma BgKeepsCounts(s: State, x: BgStep)
    requires Shape(s) && ClosedFirst(s) && Counted(s) && BgEnabled(s, x)
    ensures Counted(BgNext(s, x))
  {
  }

  lemma EnterKeepsOrder(s: State, x: LoopStep)
    requires Shape(s) && InOrder(s) && LoopEnabled(s, x) && !x.Continue?
    ensures InOrder(LoopNext(s, x))
  {
    hide ContinueLoop;
  }

  lemma EnterKeepsEnds(s: State, x: LoopStep)
    requires Shape(s) && Ends(s) && LoopEnabled(s, x) && !x.Continue?
    ensures Ends(LoopNext(s, x))
  {
    hide ContinueLoop;
  }

  lemma ContinueKeepsOrder(s: State)
    requires Shape(s) && InOrder(s)
    ensures InOrder(ContinueLoop(s))
  {
  }

  lemma ContinueKeepsEnds(s: State)
    requires Shape(s) && ClosedFirst(s) && InOrder(s) && Ends(s)
    ensures Ends(ContinueLoop(s))
  {
  }

  lemma BgKeepsOrder(s: State, x: BgStep)
    requires Shape(s) && InOrder(s) && Ends(s) && BgEnabled(s, x)
    ensures InOrder(BgNext(s, x)) && Ends(BgNext(s, x))
  {
  }

  lemma StepGrows(s: State, x: Step)
    requires Enabled(s, x)
    ensures s.settled ==> Next(s, x).settled
  {
    match x {
      case Loop(l) => assert s.settled ==> LoopNext(s, l).settled;
      case Background(b) => assert s.settled ==> BgNext(s, b).settled;
      case LoopDies =>
    }
  }

  lemma StepKeeps(s: State, x: Step)
    requires Inv(s) && Enabled(s, x)
    ensures Inv(Next(s, x))
    ensures s.settled ==> Next(s, x).settled
  {
    StepGrows(s, x);
    match x {
      case Loop(l) =>
        if l.Continue? {
          ContinueKeepsShape(s);
          ContinueKeepsCounts(s);
          ContinueKeepsOrder(s);
          ContinueKeepsEnds(s);
        } else {
          EnterKeepsShape(s, l);
          EnterKeepsCounts(s, l);
          EnterKeepsOrder(s, l);
          EnterKeepsEnds(s, l);
        }
      case Background(b) =>
        BgKeepsShape(s, b);
        BgKeepsCounts(s, b);
        BgKeepsOrder(s, b);
      case LoopDies =>
    }
    hide ContinueLoop, BgNext, Shape, ClosedFirst, Counted, InOrder, Ends;
  }

  // ---------------------------------------------------------------------------------
  // Every run
  // ---------------------------------------------------------------------------------

  predicate Leads(s: State, xs: seq<Step>, t: State)
    decreases |xs|
  {
    if xs == [] then s == t else Enabled(s, xs[0]) && Leads(Next(s, xs[0]), xs[1..], t)
  }

  lemma {:induction false} EveryRunKeeps(s: State, xs: seq<Step>, t: State)
    requires Inv(s) && Leads(s, xs, t)
    ensures Inv(t) && (s.settled ==> t.settled)
    decreases |xs|
  {
    hide Inv;
    if xs != [] {
      StepKeeps(s, xs[0]);
      EveryRunKeeps(Next(s, xs[0]), xs[1..], t);
    }
  }

  lemma StartShape()
    ensures Shape(Start) && ClosedFirst(Start) && CloseExplained(Start)
  {
  }

  lemma StartOrder()
    ensures InOrder(Start) && Ends(Start)
  {
  }

  lemma StartCounts()
    ensures Counted(Start)
  {
  }

  lemma StartOk()
    ensures Inv(Start) && CloseExplained(Start)
  {
    hide Shape, ClosedFirst, CloseExplained, InOrder, Ends, Counted;
    StartShape();
    StartOrder();
    StartCounts();
  }

  lemma Reached(xs: seq<Step>, t: State)
    requires Leads(Start, xs, t)
    ensures Inv(t) && CloseExplained(t)
  {
    hide *;
    StartOk();
    EveryRunKeeps(Start, xs, t);
    NotClosedEarly(Start, xs, t);
  }

  lemma OneReadOneClose(t: State)
    requires Inv(t)
    ensures Enabled(t, Loop(Pull)) && !t.settled ==> t.bg.NoBg? && t.task.NoTask?
    ensures t.closes <= 1
    ensures t.onSettled + t.onSettledOff <= 1
  {
    hide InOrder, Ends, ClosedFirst;
    assert Enabled(t, Loop(Pull)) ==> t.loop.Free? && t.promise.Settled?;
  }

  /** In every interleaving: at most one background read, at most one close, at most one hook, and the
      bytes enqueued are the first ones read. The controller is closed only after all of them, at the
      end of the input. */
  lemma AtMostOnceInOrder(xs: seq<Step>, t: State)
    requires Leads(Start, xs, t)
    ensures Enabled(t, Loop(Pull)) && !t.settled ==> t.bg.NoBg? && t.task.NoTask?
    ensures t.closes <= 1 && t.onSettled + t.onSettledOff <= 1
    ensures t.enqueued <= t.read
    ensures t.closed ==> t.ended && t.enqueued == t.read
  {
    hide Leads;
    Reached(xs, t);
    OneReadOneClose(t);
    hide Shape, Counted, ClosedFirst, Enabled;
  }

  /** The steps that need no caller and no data from the reader. */
  predicate Internal(x: Step) {
    match x
    case Loop(l) => l.RunDeliver? || l.Continue?
    case Background(b) => !b.ReadReturns?
    case LoopDies => false
  }

  ghost predicate Quiet(s: State) { forall x :: Internal(x) ==> !Enabled(s, x) }

  lemma QuietShape(s: State)
    requires Quiet(s)
    ensures s.loop.Free? && s.task.NoTask? && (s.bg.NoBg? || s.bg.Reading?)
  {
    assert !Enabled(s, Loop(RunDeliver)) && !Enabled(s, Loop(Continue));
    assert !Enabled(s, Background(CloseForRead(false))) && !Enabled(s, Background(Submit)) && !Enabled(s, Background(Abandon));
    assert !Enabled(s, Background(CloseOff)) && !Enabled(s, Background(HookOff));
  }

  /** Once nothing is left to do: the reader has been closed, and one hook has run, exactly if the
      stream settled, and exactly once; it was the off-loop hook exactly if a pull was abandoned. All
      that was read has been enqueued unless the stream settled, and a pull waits only for a read. */
  lemma SettledExactlyOnce(xs: seq<Step>, t: State)
    requires Leads(Start, xs, t) && Quiet(t)
    ensures t.closes == One(t.settled)
    ensures t.onSettled + t.onSettledOff == One(t.settled)
    ensures t.onSettledOff == 1 <==> t.promise.Lost?
    ensures !t.settled ==> t.read == t.enqueued
    ensures t.promise.Settled? || t.promise.Lost? || (t.promise.InSettle? && t.bg.Reading?)
  {
    hide Leads;
    Reached(xs, t);
    QuietShape(t);
    hide Quiet;
    QuietCounts(t);
  }

  lemma QuietCounts(t: State)
    requires Inv(t) && CloseExplained(t) && t.loop.Free? && t.task.NoTask? && (t.bg.NoBg? || t.bg.Reading?)
    ensures t.closes == One(t.settled)
    ensures t.onSettled + t.onSettledOff == One(t.settled)
    ensures t.onSettledOff == 1 <==> t.promise.Lost?
    ensures !t.settled ==> t.read == t.enqueued
    ensures t.promise.Settled? || t.promise.Lost? || (t.promise.InSettle? && t.bg.Reading?)
  {
    hide ClosedFirst, Ends, Shape;
    assert t.enqueued + [] == t.enqueued;
    QuietPromise(t);
  }

  lemma QuietPromise(t: State)
    requires Shape(t) && t.loop.Free? && t.task.NoTask? && (t.bg.NoBg? || t.bg.Reading?)
    ensures t.promise.Settled? || t.promise.Lost? || (t.promise.InSettle? && t.bg.Reading?)
  {
  }

  /** The reader is only closed before the stream settles to deliver a failed read. */
  predicate CloseExplained(s: State) {
    s.closeOnce ==>
      s.settled || s.bg.Abandoning? || (s.bg.Submitting? && !s.bg.chunk.err.NoErr?)
      || (s.task.Deliver? && !s.task.chunk.err.NoErr?)
  }

  lemma StepExplains(s: State, x: Step)
    requires Shape(s) && CloseExplained(s) && Enabled(s, x)
    ensures CloseExplained(Next(s, x))
  {
    match x {
      case Loop(l) => LoopExplains(s, l);
      case Background(b) => BgExplains(s, b);
      case LoopDies =>
    }
    hide LoopNext, BgNext;
  }

  lemma LoopExplains(s: State, x: LoopStep)
    requires Shape(s) && CloseExplained(s) && LoopEnabled(s, x)
    ensures CloseExplained(LoopNext(s, x))
  {
  }

  lemma BgExplains(s: State, x: BgStep)
    requires Shape(s) && CloseExplained(s) && BgEnabled(s, x)
    ensures CloseExplained(BgNext(s, x))
  {
  }

  lemma {:induction false} NotClosedEarly(s: State, xs: seq<Step>, t: State)
    requires Inv(s) && CloseExplained(s) && Leads(s, xs, t)
    ensures CloseExplained(t)
    decreases |xs|
  {
    if xs != [] {
      StepKeeps(s, xs[0]);
      StepExplains(s, xs[0]);
      hide Inv, CloseExplained;
      NotClosedEarly(Next(s, xs[0]), xs[1..], t);
    }
  }

  // ---------------------------------------------------------------------------------
  // What the controller is told, by what was read
  // ---------------------------------------------------------------------------------

  /** A run, told by its steps: what the reader gave last and in all, whether closing it then failed, and
      whether the stream settled by delivering the end, by delivering a failure, by Error, by cancel, or by
      being abandoned. */
  datatype History = History(last: Chunk, given: seq<Byte>, closeFailed: bool,
                             endDelivered: bool, failureDelivered: bool, raised: bool, cancelled: bool, abandoned: bool)

  const NoHistory := History(Chunk([], NoErr), [], false, false, false, false, false, false)

  /** The error the last read is to be delivered with: a failed close replaces the end of the input. */
  function Outcome(h: History): Err { if h.last.err.Eof? && h.closeFailed then Broken else h.last.err }

  function Record(s: State, h: History, x: Step): History {
    match x
    case Background(ReadReturns(c)) => h.(last := c, given := h.given + c.data, closeFailed := false)
    case Background(CloseForRead(fails)) => h.(closeFailed := fails && !s.closeOnce)
    case Loop(RunDeliver) =>
      h.(endDelivered := h.endDelivered || (!s.settled && Outcome(h).Eof?),
         failureDelivered := h.failureDelivered || (!s.settled && Outcome(h).Broken?))
    case Loop(Raise) => h.(raised := h.raised || !s.settled)
    case Loop(Cancel) => h.(cancelled := h.cancelled || !s.settled)
    case Background(Abandon) => h.(abandoned := h.abandoned || !s.settled)
    case _ => h
  }

  function HistoryOf(s: State, h: History, xs: seq<Step>): History
    decreases |xs|
  {
    if xs == [] || !Enabled(s, xs[0]) then h else HistoryOf(Next(s, xs[0]), Record(s, h, xs[0]), xs[1..])
  }

  /** The result of the last read, on its way to the controller. */
  predicate OnItsWay(s: State, h: History) {
    && (s.bg.Got? ==> s.bg.chunk == h.last && !h.closeFailed)
    && (s.bg.Submitting? ==> s.bg.chunk == Chunk(h.last.data, Outcome(h)))
    && (s.task.Deliver? ==> s.task.chunk == Chunk(h.last.data, Outcome(h)))
  }

  predicate PutDue(l: LoopPc, e: Err) { (l.PutHook? || l.PutEnqueue? || l.PutFinish?) && l.chunk.err == e }

  predicate RaiseDue(l: LoopPc) {
    l.EndController? || (l.EndResolve? && l.raise) || (l.EndClose? && l.raise) || (l.EndHook? && l.raise)
  }

  predicate ToldRightly(s: State, h: History) {
    && (s.closed || PutDue(s.loop, Eof) <==> h.endDelivered)
    && (s.errored || PutDue(s.loop, Broken) || RaiseDue(s.loop) <==> h.failureDelivered || h.raised)
    && s.read == h.given
    && (s.settled <==> h.endDelivered || h.failureDelivered || h.raised || h.cancelled || h.abandoned)
    && (s.onSettledOff == 1 || Off(s.bg) <==> h.abandoned)
    && (s.bg.Abandoning? || h.abandoned ==> !s.loopAlive)
  }

  lemma EnterTells(s: State, x: LoopStep, h: History)
    requires Shape(s) && LoopEnabled(s, x) && OnItsWay(s, h) && ToldRightly(s, h) && !x.Continue?
    ensures OnItsWay(LoopNext(s, x), Record(s, h, Loop(x))) && ToldRightly(LoopNext(s, x), Record(s, h, Loop(x)))
  {
    hide ContinueLoop;
    match x
    case Pull =>
    case Cancel =>
    case Raise =>
    case RunDeliver =>
    case Continue =>
  }

  lemma ContinueTells(s: State, h: History)
    requires Shape(s) && OnItsWay(s, h) && ToldRightly(s, h)
    ensures OnItsWay(ContinueLoop(s), h) && ToldRightly(ContinueLoop(s), h)
  {
  }

  lemma BgTells(s: State, x: BgStep, h: History)
    requires Shape(s) && s.onSettledOff <= 1 && BgEnabled(s, x) && OnItsWay(s, h) && ToldRightly(s, h)
    requires Off(s.bg) ==> s.onSettledOff == 0
    ensures OnItsWay(BgNext(s, x), Record(s, h, Background(x))) && ToldRightly(BgNext(s, x), Record(s, h, Background(x)))
  {
    match x
    case ReadReturns(_) =>
    case CloseForRead(_) =>
    case Submit =>
    case Abandon =>
    case CloseOff =>
    case HookOff =>
  }

  lemma StepTells(s: State, x: Step, h: History)
    requires Shape(s) && Counted(s) && Enabled(s, x) && OnItsWay(s, h) && ToldRightly(s, h)
    ensures OnItsWay(Next(s, x), Record(s, h, x)) && ToldRightly(Next(s, x), Record(s, h, x))
  {
    match x {
      case Loop(l) => if l.Continue? { ContinueTells(s, h); } else { EnterTells(s, l, h); }
      case Background(b) => BgTells(s, b, h);
      case LoopDies =>
    }
    hide OnItsWay, ToldRightly, ContinueLoop, BgNext;
  }

  lemma {:induction false} RunTells(s: State, xs: seq<Step>, t: State, h: History)
    requires Inv(s) && Leads(s, xs, t) && OnItsWay(s, h) && ToldRightly(s, h)
    ensures ToldRightly(t, HistoryOf(s, h, xs))
    decreases |xs|
  {
    hide Next, Enabled, OnItsWay, ToldRightly, Record, ClosedFirst, Counted, InOrder, Ends;
    if xs != [] {
      StepKeeps(s, xs[0]);
      StepTells(s, xs[0], h);
      RunTells(Next(s, xs[0]), xs[1..], t, Record(s, h, xs[0]));
    }
  }

  lemma StartTold()
    ensures OnItsWay(Start, NoHistory) && ToldRightly(Start, NoHistory)
  {
  }

  /** Once nothing is left to do, in every run: the controller was closed exactly if a read that met the end was
      delivered and its close did not fail, and put in error exactly if a failed read, or a failed close at
      the end, was delivered, or Error was called, before the stream settled otherwise. It settled exactly if
      one of these happened, or it was cancelled, or abandoned because the loop was dead; only then the
      off-loop hook ran. And the bytes that count as read are those the reader gave. */
  lemma ControllerIsToldRightly(xs: seq<Step>, t: State)
    requires Leads(Start, xs, t) && Quiet(t)
    ensures var h := HistoryOf(Start, NoHistory, xs);
      && (t.closed <==> h.endDelivered)
      && (t.errored <==> h.failureDelivered || h.raised)
      && t.read == h.given
      && (t.settled <==> h.endDelivered || h.failureDelivered || h.raised || h.cancelled || h.abandoned)
      && (t.onSettledOff == 1 <==> h.abandoned) && (h.abandoned ==> !t.loopAlive)
  {
    hide *;
    StartOk();
    StartTold();
    RunTells(Start, xs, t, NoHistory);
    QuietShape(t);
    ToldWhenFree(t, HistoryOf(Start, NoHistory, xs));
  }

  lemma ToldWhenFree(t: State, h: History)
    requires ToldRightly(t, h) && t.loop.Free? && (t.bg.NoBg? || t.bg.Reading?)
    ensures (t.closed <==> h.endDelivered) && (t.errored <==> h.failureDelivered || h.raised) && t.read == h.given
    ensures t.settled <==> h.endDelivered || h.failureDelivered || h.raised || h.cancelled || h.abandoned
    ensures (t.onSettledOff == 1 <==> h.abandoned) && (h.abandoned ==> !t.loopAlive)
  {
  }

  function LoopRank(l: LoopPc): nat {
    match l
    case Free => 0
    case EndResolve(_) => 4
    case EndClose(_) => 3
    case EndHook(_) => 2
    case EndController => 1
    case PutHook(_) => 4
    case PutEnqueue(_) => 3
    case PutFinish(_) => 2
    case PutResolve => 1
  }

  function BgRank(b: BgPc): nat {
    match b
    case NoBg => 0
    case Reading => 0
    case Got(_) => 9
    case Submitting(_) => 8
    case Abandoning => 3
    case OffClose => 2
    case OffHook => 1
  }

  function Rank(s: State): nat { LoopRank(s.loop) + BgRank(s.bg) + if s.task.Deliver? then 5 else 0 }

  /** The internal steps left are counted down. */
  lemma InternalStepsEnd(s: State, x: Step)
    requires Shape(s) && Enabled(s, x) && Internal(x)
    ensures Rank(Next(s, x)) < Rank(s)
  {
    match x {
      case Loop(l) => LoopRanked(s, l);
      case Background(b) => BgRanked(s, b);
    }
    hide Rank, LoopNext, BgNext;
  }

  /** A run of internal steps is never longer than the rank at its start. */
  lemma {:induction false} InternalRunsAreShort(s: State, xs: seq<Step>, t: State)
    requires Inv(s) && Leads(s, xs, t) && forall x :: x in xs ==> Internal(x)
    ensures |xs| + Rank(t) <= Rank(s)
    decreases |xs|
  {
    if xs != [] {
      StepKeeps(s, xs[0]);
      InternalStepsEnd(s, xs[0]);
      hide Inv, Rank, Next, Enabled, Internal;
      InternalRunsAreShort(Next(s, xs[0]), xs[1..], t);
    }
  }

  /** So internal steps, taken while there are any, lead to a state without any. */
  lemma {:induction false} QuietIsReached(s: State) returns (xs: seq<Step>, t: State)
    requires Inv(s)
    ensures Leads(s, xs, t) && (forall x :: x in xs ==> Internal(x)) && Quiet(t)
    decreases Rank(s)
  {
    if Quiet(s) {
      return [], s;
    }
    var x :| Internal(x) && Enabled(s, x);
    StepKeeps(s, x);
    InternalStepsEnd(s, x);
    hide Inv, Rank, Next, Enabled, Internal;
    var rest;
    rest, t := QuietIsReached(Next(s, x));
    xs := [x] + rest;
    assert xs[1..] == rest;
  }

  lemma LoopRanked(s: State, x: LoopStep)
    requires Shape(s) && LoopEnabled(s, x) && (x.RunDeliver? || x.Continue?)
    ensures Rank(LoopNext(s, x)) < Rank(s)
  {
  }

  lemma BgRanked(s: State, x: BgStep)
    requires Shape(s) && BgEnabled(s, x) && !x.ReadReturns?
    ensures Rank(BgNext(s, x)) < Rank(s)
  {
  }

  // ---------------------------------------------------------------------------------
  // The locked sections as code
  // ---------------------------------------------------------------------------------

  /** The fields of the stream: `settle` is set while the promise of a pull is InSettle. Each method is
      one section under the mutex, or one use of closeOnce. */
  class Stream {
    var settled: bool
    var settle: bool
    var closeOnce: bool
    /** Everything else: the other threads, the program counters and the observers. */
    ghost var rest: State

    ghost function Now(): State
      reads this
    {
      rest.(settled := settled, closeOnce := closeOnce)
    }

    ghost predicate Valid()
      reads this
    {
      Inv(Now()) && (settle <==> rest.promise.InSettle?)
    }

    constructor ()
      ensures Valid() && Now() == Start
    {
      hide Inv;
      StartOk();
      settled, settle, closeOnce, rest := false, false, false, Start;
    }

    /** pull: whether to start a read. */
    method Pull() returns (start: bool)
      requires Valid() && Enabled(Now(), Loop(LoopStep.Pull))
      modifies this
      ensures Valid() && Now() == LoopNext(old(Now()), LoopStep.Pull) && start == !old(settled)
    {
      hide Inv;
      StepKeeps(Now(), Loop(LoopStep.Pull));
      rest := LoopNext(Now(), LoopStep.Pull);
      if settled { return false; }
      settle := true;
      return true;
    }

    /** cancel and Error: whether to go on, and whether there is a promise to settle. */
    method End(raise: bool) returns (goOn: bool, taken: bool)
      requires Valid() && Idle()
      modifies this
      ensures Valid() && Now() == EndNow(old(Now()), raise)
      ensures goOn == !old(settled) && (goOn ==> taken == old(settle))
    {
      hide Inv;
      StepKeeps(Now(), Loop(if raise then Raise else Cancel));
      SettleIsOpen(Now());
      rest := EndNow(Now(), raise);
      if settled { return false, false; }
      settled := true;
      taken := settle;
      settle := false;
      return true, taken;
    }

    ghost predicate Idle()
      reads this
    {
      rest.loop.Free?
    }

    /** deliver. */
    method Deliver(c: Chunk) returns (goOn: bool, taken: bool)
      requires Valid() && Idle() && rest.task == Task.Deliver(c)
      modifies this
      ensures Valid() && Now() == DeliverNow(old(Now()), c)
      ensures goOn == !old(settled) && (goOn ==> taken == old(settle))
    {
      hide Inv;
      StepKeeps(Now(), Loop(RunDeliver));
      SettleIsOpen(Now());
      rest := DeliverNow(Now(), c);
      if settled { return false, false; }
      if !c.err.NoErr? { settled := true; }
      taken := settle;
      settle := false;
      return true, taken;
    }

    /** abandon, up to the close. */
    method Abandon() returns (goOn: bool)
      requires Valid() && rest.bg.Abandoning?
      modifies this
      ensures Valid() && Now() == BgNext(old(Now()), BgStep.Abandon) && goOn == !old(settled)
    {
      hide Inv;
      StepKeeps(Now(), Background(BgStep.Abandon));
      SettleIsOpen(Now());
      rest := BgNext(Now(), BgStep.Abandon);
      if settled { return false; }
      settled := true;
      settle := false;
      return true;
    }
  }

  lemma SettleIsOpen(s: State)
    requires Inv(s)
    ensures s.promise.InSettle? ==> !s.settled
  {
  }
}
