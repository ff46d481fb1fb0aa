/** fetch/upload.go: a request body read by the HTTP client from a JavaScript stream.

    The loop thread reads the stream and puts items in a channel with one slot; the HTTP thread takes
    them in Read; any thread may call Close or abort. A step is one locked section, channel operation or
    call. What moves between the threads is one permission: who may touch the stream next. */
module UploadBody {

  type Byte(==, !new)

  /** What an item slot holds. */
  datatype Item = Absent | Data(bytes: seq<Byte>) | Fail | Eof
  datatype Answer = Chunk(bytes: seq<Byte>) | BadChunk | Done | Rejected

  /** The loop thread: in readNextOnLoop, in a callback of the read promise, or idle. */
  datatype LoopPc = Idle | NextRead | CallRead | Handle(answer: Answer) | Finish(item: Item) | Put(item: Item)

  /** The thread in Read. `again`: it goes round the loop rather than return. */
  datatype ReadPc = Outside | Look | Wait | Use | Clear(again: bool) | Schedule(again: bool) | Terminate(again: bool)

  datatype Caller = Aborter | Closer | Reader

  /** abortOnce: unused, in its body before and after `finished` is set, and used. */
  datatype Once = Fresh | Held(who: Caller) | Closing | Used

  datatype Result = Nothing | Bytes | EndOfFile | Failed | ClosedPipe

  /** Where the permission to touch the stream is. */
  datatype Place = Nowhere | OnLoop | InStream | InTask | InChannel | InCurrent | InRead

  /** The last five only observe. `killed`: finished was set in the body of abortOnce; `chunks`: the bytes the stream gave;
      `returned`: the bytes Read returned; `ended`: the stream said it is done. */
  datatype State = State(
    loopAlive: bool, loop: LoopPc, outstanding: bool, scheduled: bool,
    items: Item, current: Item, finished: bool, aborted: bool, once: Once, closers: nat,
    read: ReadPc, want: nat, last: Result,
    permit: Place, killed: bool, chunks: seq<Byte>, returned: seq<Byte>, ended: bool)

  /** newUploadBody starts the first read. */
  const Start := State(true, NextRead, false, false, Absent, Absent, false, false, Fresh, 0,
                       Outside, 0, Nothing, OnLoop, false, [], [], false)

  /** The loop thread, with the JavaScript stream's answers. */
  datatype LoopStep =
    RunScheduled | CheckNext | CallReader(ok: bool) | StreamAnswers(answer: Answer)
    | HandleAnswer | FinishUp | PutItem | DropItem

  /** Abort, Close and terminateOffLoop. */
  datatype AbortStep = Abort | CallClose | CloseEnters | ReaderEnters | SetFinished | CloseAborted

  /** The thread in Read. */
  datatype ReadStep =
    BeginRead(n: nat) | LookAtCurrent | Receive | SeeAborted | UseCurrent | ClearCurrent | ScheduleNext | Terminated

  datatype Step = Loop(l: LoopStep) | Abortion(a: AbortStep) | Reading(r: ReadStep) | LoopDies

  predicate LoopEnabled(s: State, x: LoopStep) {
    match x
    case RunScheduled => s.scheduled && s.loop.Idle?
    case CheckNext => s.loop.NextRead?
    case CallReader(_) => s.loop.CallRead?
    case StreamAnswers(_) => s.outstanding && s.loop.Idle?
    case HandleAnswer => s.loop.Handle?
    case FinishUp => s.loop.Finish?
    case PutItem => s.loop.Put? && s.items.Absent?
    case DropItem => s.loop.Put? && s.aborted
  }

  predicate AbortEnabled(s: State, x: AbortStep) {
    match x
    case Abort => s.once.Fresh?
    case CallClose => true
    case CloseEnters => s.closers > 0 && s.once.Fresh?
    case ReaderEnters => s.read.Terminate? && s.once.Fresh?
    case SetFinished => s.once.Held?
    case CloseAborted => s.once.Closing?
  }

  predicate ReadEnabled(s: State, x: ReadStep) {
    match x
    case BeginRead(n) => s.read.Outside?
    case LookAtCurrent => s.read.Look?
    case Receive => s.read.Wait? && !s.items.Absent?
    case SeeAborted => s.read.Wait? && s.aborted
    case UseCurrent => s.read.Use? && !s.current.Absent?
    case ClearCurrent => s.read.Clear?
    case ScheduleNext => s.read.Schedule?
    case Terminated => s.read.Terminate? && s.once.Used?
  }

  predicate Enabled(s: State, x: Step) {
    match x
    case Loop(l) => LoopEnabled(s, l)
    case Abortion(a) => AbortEnabled(s, a)
    case Reading(r) => ReadEnabled(s, r)
    case LoopDies => s.loopAlive
  }

  function AfterAnswer(a: Answer): LoopPc {
    match a
    case Chunk(b) => Put(Data(b))
    case Done => Finish(Eof)
    case BadChunk => Finish(Fail)
    case Rejected => Finish(Fail)
  }

  function LoopNext(s: State, x: LoopStep): State
    requires LoopEnabled(s, x)
  {
    match x
    case RunScheduled => s.(scheduled := false, loop := NextRead, permit := OnLoop)
    case CheckNext =>
      s.(loop := if s.finished then Idle else CallRead, permit := if s.finished then Nowhere else OnLoop)
    case CallReader(ok) =>
      s.(outstanding := ok, loop := if ok then Idle else Finish(Fail), permit := if ok then InStream else OnLoop)
    case StreamAnswers(a) =>
      s.(outstanding := false, loop := Handle(a), permit := OnLoop, ended := s.ended || a.Done?,
         chunks := if a.Chunk? then s.chunks + a.bytes else s.chunks)
    case HandleAnswer =>
      s.(loop := if s.finished then Idle else AfterAnswer(s.loop.answer), permit := if s.finished then Nowhere else OnLoop)
    case FinishUp =>
      s.(finished := true, loop := if s.finished then Idle else Put(s.loop.item), permit := if s.finished then Nowhere else OnLoop)
    case PutItem => s.(items := s.loop.item, loop := Idle, permit := InChannel)
    case DropItem => s.(loop := Idle, permit := Nowhere)
  }

  function AbortNext(s: State, x: AbortStep): State
    requires AbortEnabled(s, x)
  {
    match x
    case Abort => s.(once := Held(Aborter))
    case CallClose => s.(closers := if s.finished then s.closers else s.closers + 1)
    case CloseEnters => s.(once := Held(Closer))
    case ReaderEnters => s.(once := Held(Reader))
    case SetFinished =>
      var late := s.once.who.Aborter? && s.finished;
      s.(finished := true, killed := s.killed || !late, once := if late then Used else Closing)
    case CloseAborted => s.(aborted := true, once := Used)
  }

  function Back(again: bool): ReadPc { if again then Look else Outside }

  /** The body of Read's loop once there is a current item. */
  function UseItem(s: State, i: Item): State {
    match i
    case Absent => s
    case Fail => s.(read := Outside, last := Failed)
    case Eof => s.(read := Outside, last := EndOfFile)
    case Data(b) =>
      if |b| == 0 then s.(read := Clear(true))
      else
        var n := if s.want < |b| then s.want else |b|;
        s.(returned := s.returned + b[..n], current := Data(b[n..]), last := Bytes,
           read := if n == |b| then Clear(false) else Outside)
  }

  function ReadNext(s: State, x: ReadStep): State
    requires ReadEnabled(s, x)
  {
    match x
    case BeginRead(n) => if n == 0 then s else s.(read := Look, want := n, last := Nothing)
    case LookAtCurrent => s.(read := if !s.current.Absent? then Use else Wait)
    case Receive => s.(items := Absent, current := s.items, read := Use, permit := InCurrent)
    case SeeAborted => s.(read := Outside, last := ClosedPipe)
    case UseCurrent => UseItem(s, s.current)
    case ClearCurrent =>
      if s.finished then s.(current := Absent, read := Back(s.read.again), permit := Nowhere)
      else s.(current := Absent, read := Schedule(s.read.again), permit := InRead)
    case ScheduleNext =>
      if s.loopAlive then s.(scheduled := true, read := Back(s.read.again), permit := InTask)
      else s.(read := Terminate(s.read.again))
    case Terminated => s.(read := Back(s.read.again), permit := Nowhere)
  }

  function Next(s: State, x: Step): State
    requires Enabled(s, x)
  {
    match x
    case Loop(l) => LoopNext(s, l)
    case Abortion(a) => AbortNext(s, a)
    case Reading(r) => ReadNext(s, r)
    case LoopDies => s.(loopAlive := false)
  }

  // ---------------------------------------------------------------------------------
  // The invariant
  // ---------------------------------------------------------------------------------

  function One(b: bool): nat { if b then 1 else 0 }

  /** The permission is where the observer says, and nowhere else. */
  predicate Placed(s: State) {
    && (s.loop.Idle? <==> !s.permit.OnLoop?)
    && (s.outstanding <==> s.permit.InStream?)
    && (s.scheduled <==> s.permit.InTask?)
    && (!s.items.Absent? <==> s.permit.InChannel?)
    && (!s.current.Absent? <==> s.permit.InCurrent?)
    && (s.read.Schedule? || s.read.Terminate? <==> s.permit.InRead?)
    && (s.permit.Nowhere? ==> s.killed)
  }

  predicate Final(i: Item) { i.Fail? || i.Eof? }

  /** The error or the end of the stream is on its way. */
  predicate FinalComing(s: State) {
    match s.permit
    case OnLoop => s.loop.Put? && Final(s.loop.item)
    case InChannel => Final(s.items)
    case InCurrent => Final(s.current)
    case _ => false
  }

  predicate Ends(s: State) {
    && (s.finished <==> s.killed || FinalComing(s))
    && (s.killed ==> s.once.Closing? || s.once.Used?)
    && (s.once.Closing? ==> s.killed && !s.aborted)
    && (s.once.Used? ==> s.aborted || (s.finished && !s.killed))
    && (s.aborted ==> s.once.Used? && s.killed)
    && (s.loop.Finish? ==> Final(s.loop.item))
    && (s.loop.Put? ==> !s.loop.item.Absent?)
  }

  predicate Empty(i: Item) { i.Data? && |i.bytes| == 0 }

  predicate InsideRead(s: State) {
    && (s.read.Outside? || s.want > 0)
    && (s.read.Use? ==> !s.current.Absent?)
    && (s.read.Wait? ==> s.current.Absent?)
    && (s.read.Clear? ==> Empty(s.current))
    && (s.read.Outside? ==> !Empty(s.current))
  }

  function Payload(i: Item): seq<Byte> { if i.Data? then i.bytes else [] }

  /** The bytes on their way from the stream to Read. */
  function Carried(s: State): seq<Byte> {
    match s.permit
    case OnLoop =>
      if s.loop.Handle? && s.loop.answer.Chunk? then s.loop.answer.bytes
      else if s.loop.Put? then Payload(s.loop.item)
      else []
    case InChannel => Payload(s.items)
    case InCurrent => Payload(s.current)
    case _ => []
  }

  predicate InOrder(s: State) {
    s.returned <= s.chunks && (s.permit.Nowhere? || s.chunks == s.returned + Carried(s))
  }

  predicate LoopAtEnd(l: LoopPc) {
    (l.Put? && l.item.Eof?) || (l.Finish? && l.item.Eof?) || (l.Handle? && l.answer.Done?)
  }

  predicate EndSeen(s: State) {
    && (s.items.Eof? || s.current.Eof? || LoopAtEnd(s.loop) ==> s.ended)
    && (s.read.Outside? || !s.last.EndOfFile?)
    && (s.last.EndOfFile? ==> s.current.Eof?)
  }

  predicate Inv(s: State) { Placed(s) && Ends(s) && InsideRead(s) && InOrder(s) && EndSeen(s) }

  lemma LoopKeepsEnds(s: State, x: LoopStep)
    requires Placed(s) && Ends(s) && LoopEnabled(s, x)
    ensures Placed(LoopNext(s, x)) && Ends(LoopNext(s, x))
  {
    match x
    case RunScheduled =>
    case CheckNext =>
    case CallReader(_) =>
    case StreamAnswers(_) =>
    case HandleAnswer =>
    case FinishUp =>
    case PutItem =>
    case DropItem =>
  }

  lemma LoopKeepsOrder(s: State, x: LoopStep)
    requires Placed(s) && InOrder(s) && LoopEnabled(s, x)
    requires s.loop.Finish? ==> Final(s.loop.item)
    ensures InOrder(LoopNext(s, x))
  {
    assert s.returned + [] == s.returned;
    match x
    case RunScheduled =>
    case CheckNext =>
    case CallReader(_) =>
    case StreamAnswers(_) =>
    case HandleAnswer =>
    case FinishUp =>
    case PutItem =>
    case DropItem =>
  }

  lemma LoopKeepsEndSeen(s: State, x: LoopStep)
    requires Placed(s) && InsideRead(s) && EndSeen(s) && LoopEnabled(s, x)
    ensures InsideRead(LoopNext(s, x)) && EndSeen(LoopNext(s, x))
  {
    match x
    case RunScheduled =>
    case CheckNext =>
    case CallReader(_) =>
    case StreamAnswers(_) =>
    case HandleAnswer =>
    case FinishUp =>
    case PutItem =>
    case DropItem =>
  }

  lemma AbortKeepsEnds(s: State, x: AbortStep)
    requires Placed(s) && Ends(s) && InsideRead(s) && AbortEnabled(s, x)
    ensures Placed(AbortNext(s, x)) && Ends(AbortNext(s, x)) && InsideRead(AbortNext(s, x))
  {
    match x
    case Abort =>
    case CallClose =>
    case CloseEnters =>
    case ReaderEnters =>
    case SetFinished =>
    case CloseAborted =>
  }

  lemma AbortKeepsOrder(s: State, x: AbortStep)
    requires Placed(s) && InOrder(s) && EndSeen(s) && AbortEnabled(s, x)
    ensures InOrder(AbortNext(s, x)) && EndSeen(AbortNext(s, x))
  {
    match x
    case Abort =>
    case CallClose =>
    case CloseEnters =>
    case ReaderEnters =>
    case SetFinished =>
    case CloseAborted =>
  }

  lemma ReadKeepsEnds(s: State, x: ReadStep)
    requires Placed(s) && Ends(s) && InsideRead(s) && ReadEnabled(s, x) && !x.UseCurrent?
    ensures Placed(ReadNext(s, x)) && Ends(ReadNext(s, x)) && InsideRead(ReadNext(s, x))
  {
    hide UseItem;
  }

  lemma UseKeepsEnds(s: State, i: Item)
    requires Placed(s) && Ends(s) && InsideRead(s) && s.read.Use? && s.current == i && !i.Absent?
    ensures Placed(UseItem(s, i)) && Ends(UseItem(s, i)) && InsideRead(UseItem(s, i))
  {
    match i
    case Absent =>
    case Data(_) =>
    case Fail =>
    case Eof =>
  }

  lemma ReadKeepsOrder(s: State, x: ReadStep)
    requires Placed(s) && InOrder(s) && InsideRead(s) && ReadEnabled(s, x) && !x.UseCurrent?
    ensures InOrder(ReadNext(s, x))
  {
    hide UseItem;
  }

  lemma ReadKeepsEndSeen(s: State, x: ReadStep)
    requires Placed(s) && EndSeen(s) && InsideRead(s) && ReadEnabled(s, x) && !x.UseCurrent?
    ensures EndSeen(ReadNext(s, x))
  {
    hide UseItem;
  }

  lemma UseKeepsOrder(s: State, i: Item)
    requires Placed(s) && InOrder(s) && s.read.Use? && s.current == i && !i.Absent?
    ensures InOrder(UseItem(s, i))
  {
    if i.Data? {
      var n := if s.want < |i.bytes| then s.want else |i.bytes|;
      assert s.returned + i.bytes == s.returned + i.bytes[..n] + i.bytes[n..];
    }
  }

  lemma UseKeepsEndSeen(s: State, i: Item)
    requires EndSeen(s) && s.current == i && !i.Absent?
    ensures EndSeen(UseItem(s, i))
  {
    match i
    case Absent =>
    case Data(_) =>
    case Fail =>
    case Eof =>
  }

  lemma StepKeeps(s: State, x: Step)
    requires Inv(s) && Enabled(s, x)
    ensures Inv(Next(s, x))
  {
    match x {
      case Loop(l) =>
        LoopKeepsEnds(s, l);
        LoopKeepsOrder(s, l);
        LoopKeepsEndSeen(s, l);
      case Abortion(a) =>
        AbortKeepsEnds(s, a);
        AbortKeepsOrder(s, a);
      case Reading(r) =>
        if r.UseCurrent? {
          UseKeepsEnds(s, s.current);
          UseKeepsOrder(s, s.current);
          UseKeepsEndSeen(s, s.current);
        } else {
          ReadKeepsEnds(s, r);
          ReadKeepsOrder(s, r);
          ReadKeepsEndSeen(s, r);
        }
      case LoopDies =>
    }
    hide Placed, Ends, InsideRead, InOrder, EndSeen, UseItem, LoopNext;
  }

  // ---------------------------------------------------------------------------------
  // Every run
  // ---------------------------------------------------------------------------------

  predicate Leads(s: State, xs: seq<Step>, t: State)
    decreases |xs|
  {
    if xs == [] then s == t else Enabled(s, xs[0]) && Leads(Next(s, xs[0]), xs[1..], t)
  }

  lemma {:induction false} EveryRunKeeps(s: State, xs: seq<Step>, t: State)
    requires Inv(s) && Leads(s, xs, t)
    ensures Inv(t)
    decreases |xs|
  {
    hide Inv;
    if xs != [] {
      StepKeeps(s, xs[0]);
      EveryRunKeeps(Next(s, xs[0]), xs[1..], t);
    }
  }

  /** How many of these hold: a read is outstanding, one is scheduled, an item is in the channel, one is
      current, the loop thread is at work, Read is about to schedule. */
  function Holders(s: State): nat {
    One(s.outstanding) + One(s.scheduled) + One(!s.items.Absent?) + One(!s.current.Absent?) + One(!s.loop.Idle?)
    + One(s.read.Schedule? || s.read.Terminate?)
  }

  /** In every interleaving the permission is in one place, or gone because the body was aborted; so the
      loop thread always finds the channel empty and does not block. */
  lemma OnePermission(xs: seq<Step>, t: State)
    requires Leads(Start, xs, t)
    ensures Holders(t) <= 1 && (Holders(t) == 0 ==> t.killed)
    ensures t.loop.Put? ==> Enabled(t, Loop(PutItem))
  {
    EveryRunKeeps(Start, xs, t);
  }

  /** In every interleaving Read returns the bytes of the stream in order, loses none unless the body is
      aborted, and reports the end only after all of them. */
  lemma ReadReturnsTheStream(xs: seq<Step>, t: State)
    requires Leads(Start, xs, t)
    ensures t.returned <= t.chunks
    ensures !t.killed ==> t.chunks == t.returned + Carried(t)
    ensures t.last.EndOfFile? ==> t.ended && t.returned == t.chunks
  {
    EveryRunKeeps(Start, xs, t);
    assert t.last.EndOfFile? ==> t.chunks == t.returned + [];
  }

  // ---------------------------------------------------------------------------------
  // What Read reports, by what the stream did
  // ---------------------------------------------------------------------------------

  predicate IsDone(x: Step) { x == Loop(StreamAnswers(Done)) }

  /** A bad chunk, a rejected read, or a call of the reader that failed. */
  predicate IsFailure(x: Step) {
    x == Loop(StreamAnswers(BadChunk)) || x == Loop(StreamAnswers(Rejected)) || x == Loop(CallReader(false))
  }

  predicate DoneIn(xs: seq<Step>) { exists i :: 0 <= i < |xs| && IsDone(xs[i]) }

  predicate FailureIn(xs: seq<Step>) { exists i :: 0 <= i < |xs| && IsFailure(xs[i]) }

  function BytesOf(x: Step): seq<Byte> {
    if x.Loop? && x.l.StreamAnswers? && x.l.answer.Chunk? then x.l.answer.bytes else []
  }

  /** The bytes of all chunks the stream gave in a run. */
  function ChunksOf(xs: seq<Step>): seq<Byte> {
    if xs == [] then [] else BytesOf(xs[0]) + ChunksOf(xs[1..])
  }

  /** The end, or the error, of the stream is on its way to Read. */
  predicate EofAt(s: State) {
    match s.permit
    case OnLoop => LoopAtEnd(s.loop)
    case InChannel => s.items.Eof?
    case InCurrent => s.current.Eof?
    case _ => false
  }

  predicate LoopFailing(l: LoopPc) {
    (l.Put? && l.item.Fail?) || (l.Finish? && l.item.Fail?) || (l.Handle? && (l.answer.BadChunk? || l.answer.Rejected?))
  }

  predicate FailAt(s: State) {
    match s.permit
    case OnLoop => LoopFailing(s.loop)
    case InChannel => s.items.Fail?
    case InCurrent => s.current.Fail?
    case _ => false
  }

  /** The stream ended or failed exactly if that is on its way, or the body was aborted; and Read reported
      only what happened. */
  predicate Tagged(s: State, done: bool, failed: bool) {
    && !(done && failed)
    && (s.permit.Nowhere? || (done == EofAt(s) && failed == FailAt(s)))
    && (s.last.EndOfFile? ==> done) && (s.last.Failed? ==> failed) && (s.last.ClosedPipe? ==> s.aborted)
  }

  lemma LoopKeepsTagged(s: State, x: LoopStep, done: bool, failed: bool)
    requires Placed(s) && Ends(s) && Tagged(s, done, failed) && LoopEnabled(s, x)
    ensures Tagged(LoopNext(s, x), done || IsDone(Loop(x)), failed || IsFailure(Loop(x)))
  {
  }

  lemma AbortKeepsTagged(s: State, x: AbortStep, done: bool, failed: bool)
    requires Tagged(s, done, failed) && AbortEnabled(s, x)
    ensures Tagged(AbortNext(s, x), done, failed)
  {
  }

  lemma ReadKeepsTagged(s: State, x: ReadStep, done: bool, failed: bool)
    requires Placed(s) && InsideRead(s) && Tagged(s, done, failed) && ReadEnabled(s, x) && !x.UseCurrent?
    requires Ends(s)
    ensures Tagged(ReadNext(s, x), done, failed)
  {
    hide UseItem;
  }

  /** What Read makes of a current item, by what the stream did. */
  lemma UseKeepsTagged(s: State, i: Item, done: bool, failed: bool)
    requires Placed(s) && Tagged(s, done, failed) && s.read.Use? && s.current == i && !i.Absent? && !s.last.EndOfFile? && !s.last.Failed?
    ensures var t := UseItem(s, i);
      && Tagged(t, done, failed)
      && (t.last.EndOfFile? <==> done) && (t.last.Failed? <==> failed)
      && (done || failed ==> t.read.Outside? && t.returned == s.returned)
  {
  }

  lemma StepKeepsTagged(s: State, x: Step, done: bool, failed: bool)
    requires Inv(s) && Tagged(s, done, failed) && Enabled(s, x) && NothingReported(s)
    ensures Tagged(Next(s, x), done || IsDone(x), failed || IsFailure(x)) && NothingReported(Next(s, x))
  {
    match x {
      case Loop(l) =>
        LoopKeepsTagged(s, l, done, failed);
        LoopReportsNothing(s, l);
      case Abortion(a) => AbortKeepsTagged(s, a, done, failed);
      case Reading(r) =>
        if r.UseCurrent? {
          UseKeepsTagged(s, s.current, done, failed);
          UseReports(s, s.current);
        } else {
          ReadKeepsTagged(s, r, done, failed);
          ReadReportsNothing(s, r);
        }
      case LoopDies =>
    }
    hide Tagged, UseItem, LoopNext, ReadNext, NothingReported;
  }

  /** Inside Read no outcome is left from the last call. */
  predicate NothingReported(s: State) { s.read.Outside? || (!s.last.EndOfFile? && !s.last.Failed?) }

  lemma LoopReportsNothing(s: State, x: LoopStep)
    requires LoopEnabled(s, x)
    ensures LoopNext(s, x).last == s.last && LoopNext(s, x).read == s.read
  {
    match x
    case RunScheduled =>
    case CheckNext =>
    case CallReader(_) =>
    case StreamAnswers(_) =>
    case HandleAnswer =>
    case FinishUp =>
    case PutItem =>
    case DropItem =>
  }

  lemma ReadReportsNothing(s: State, x: ReadStep)
    requires NothingReported(s) && ReadEnabled(s, x) && !x.UseCurrent?
    ensures NothingReported(ReadNext(s, x))
  {
    hide UseItem;
  }

  lemma UseReports(s: State, i: Item)
    requires s.read.Use? && NothingReported(s)
    ensures NothingReported(UseItem(s, i))
  {
    match i
    case Absent =>
    case Data(_) =>
    case Fail =>
    case Eof =>
  }

  lemma {:induction false} RunKeepsTagged(s: State, xs: seq<Step>, t: State, done: bool, failed: bool)
    requires Inv(s) && Tagged(s, done, failed) && NothingReported(s) && Leads(s, xs, t)
    ensures Inv(t) && NothingReported(t) && Tagged(t, done || DoneIn(xs), failed || FailureIn(xs))
    decreases |xs|
  {
    hide Inv, Tagged, NothingReported, Next, Enabled, IsDone, IsFailure;
    if xs != [] {
      StepKeeps(s, xs[0]);
      StepKeepsTagged(s, xs[0], done, failed);
      RunKeepsTagged(Next(s, xs[0]), xs[1..], t, done || IsDone(xs[0]), failed || IsFailure(xs[0]));
      HappensIn(xs);
    }
  }

  lemma HappensIn(xs: seq<Step>)
    requires xs != []
    ensures DoneIn(xs) <==> IsDone(xs[0]) || DoneIn(xs[1..])
    ensures FailureIn(xs) <==> IsFailure(xs[0]) || FailureIn(xs[1..])
  {
    hide IsDone, IsFailure;
    forall i | 0 <= i < |xs[1..]| ensures xs[1..][i] == xs[i + 1] {}
    if i :| 0 <= i < |xs| && IsDone(xs[i]) { assert i > 0 ==> IsDone(xs[1..][i - 1]); }
    if i :| 0 <= i < |xs| && IsFailure(xs[i]) { assert i > 0 ==> IsFailure(xs[1..][i - 1]); }
  }

  lemma StartTagged()
    ensures Tagged(Start, false, false) && NothingReported(Start)
  {
  }

  /** In every run Read reports the end only if the stream said it is done, an error only if it failed, and a
      closed pipe only if the body was aborted; it never did both of the first two. */
  lemma ReadReportsWhatHappened(xs: seq<Step>, t: State)
    requires Leads(Start, xs, t)
    ensures t.last.EndOfFile? ==> DoneIn(xs)
    ensures t.last.Failed? ==> FailureIn(xs)
    ensures t.last.ClosedPipe? ==> t.aborted
    ensures !(DoneIn(xs) && FailureIn(xs))
  {
    StartOk();
    StartTagged();
    RunKeepsTagged(Start, xs, t, false, false);
  }

  /** And a Read that has an item reports the end if the stream said it is done, the error if it failed, and
      else hands out the next bytes of the stream, as many as are there and fit; an empty chunk it skips. */
  lemma ReadReportsItsItem(xs: seq<Step>, s: State)
    requires Leads(Start, xs, s) && s.read.Use?
    ensures Enabled(s, Reading(UseCurrent))
    ensures var (t, had) := (Next(s, Reading(UseCurrent)), Carried(s));
      && (t.last.EndOfFile? <==> DoneIn(xs)) && (t.last.Failed? <==> FailureIn(xs))
      && (DoneIn(xs) || FailureIn(xs) ==> t.read.Outside? && t.returned == s.returned)
      && (!DoneIn(xs) && !FailureIn(xs) ==>
            && s.chunks == s.returned + had
            && t.returned == s.returned + had[..if s.want < |had| then s.want else |had|]
            && (had != [] ==> t.last.Bytes?) && (had == [] <==> t.read == Clear(true)))
  {
    StartOk();
    StartTagged();
    RunKeepsTagged(Start, xs, s, false, false);
    hide Leads, DoneIn, FailureIn;
    AtUse(s);
    UseKeepsTagged(s, s.current, DoneIn(xs), FailureIn(xs));
    UseHandsOut(s, DoneIn(xs), FailureIn(xs));
  }

  lemma AtUse(s: State)
    requires Inv(s) && NothingReported(s) && s.read.Use?
    ensures Placed(s) && !s.current.Absent? && s.permit.InCurrent? && !s.last.EndOfFile? && !s.last.Failed?
    ensures s.chunks == s.returned + Carried(s)
  {
  }

  lemma UseHandsOut(s: State, done: bool, failed: bool)
    requires Tagged(s, done, failed) && s.read.Use? && s.permit.InCurrent? && !s.current.Absent?
    ensures var (t, had) := (UseItem(s, s.current), Carried(s));
      !done && !failed ==>
        && t.returned == s.returned + had[..if s.want < |had| then s.want else |had|]
        && (had != [] ==> t.last.Bytes?) && (had == [] <==> t.read == Clear(true))
  {
    if s.current.Data? {
      DataHandedOut(s, s.current.bytes);
    }
    hide UseItem;
  }

  lemma DataHandedOut(s: State, b: seq<Byte>)
    ensures var t := UseItem(s, Data(b));
      && t.returned == s.returned + b[..if s.want < |b| then s.want else |b|]
      && (b != [] ==> t.last.Bytes?) && (b == [] <==> t.read == Clear(true))
  {
    assert b == [] ==> s.returned + b[..0] == s.returned;
  }

  /** An abort that finds the body finished only uses itself up: nothing it was to do happens, now or later. */
  lemma LateAbortDoesNothing(s: State)
    requires Inv(s) && s.once == Held(Aborter) && s.finished && !s.killed
    ensures Enabled(s, Abortion(SetFinished))
    ensures var t := Next(s, Abortion(SetFinished));
      !t.aborted && !t.killed && !Enabled(t, Abortion(CloseAborted)) && forall x: AbortStep :: x.Abort? || x.CloseEnters? || x.ReaderEnters? ==> !AbortEnabled(t, x)
  {
  }

  /** The observer of the stream's bytes is right: it is what the stream's answers say. */
  lemma {:induction false} ChunksAreTheAnswers(s: State, xs: seq<Step>, t: State)
    requires Leads(s, xs, t)
    ensures t.chunks == s.chunks + ChunksOf(xs)
    decreases |xs|
  {
    if xs == [] {
      assert s.chunks + ChunksOf([]) == s.chunks;
    } else {
      hide Next, Enabled, BytesOf, ChunksOf;
      StepAddsChunks(s, xs[0]);
      ChunksAreTheAnswers(Next(s, xs[0]), xs[1..], t);
      MoreChunks(s.chunks, xs);
    }
  }

  lemma MoreChunks(so: seq<Byte>, xs: seq<Step>)
    requires xs != []
    ensures so + BytesOf(xs[0]) + ChunksOf(xs[1..]) == so + ChunksOf(xs)
  {
    hide BytesOf;
  }

  lemma StepAddsChunks(s: State, x: Step)
    requires Enabled(s, x)
    ensures Next(s, x).chunks == s.chunks + BytesOf(x)
  {
    hide UseItem, AfterAnswer;
    assert s.chunks + [] == s.chunks;
    match x {
      case Loop(l) => LoopAddsChunks(s, l);
      case Abortion(a) => AbortAddsNoChunks(s, a);
      case Reading(r) => ReadAddsNoChunks(s, r);
      case LoopDies =>
    }
    hide LoopNext, AbortNext, ReadNext;
  }

  lemma LoopAddsChunks(s: State, x: LoopStep)
    requires LoopEnabled(s, x)
    ensures LoopNext(s, x).chunks == s.chunks + BytesOf(Loop(x))
  {
    assert s.chunks + [] == s.chunks;
    match x
    case RunScheduled =>
    case CheckNext =>
    case CallReader(_) =>
    case StreamAnswers(_) =>
    case HandleAnswer =>
    case FinishUp =>
    case PutItem =>
    case DropItem =>
  }

  lemma AbortAddsNoChunks(s: State, x: AbortStep)
    requires AbortEnabled(s, x)
    ensures AbortNext(s, x).chunks == s.chunks
  {
    match x
    case Abort =>
    case CallClose =>
    case CloseEnters =>
    case ReaderEnters =>
    case SetFinished =>
    case CloseAborted =>
  }

  lemma ReadAddsNoChunks(s: State, x: ReadStep)
    requires ReadEnabled(s, x)
    ensures ReadNext(s, x).chunks == s.chunks
  {
    hide UseItem;
    UseAddsNoChunks(s, s.current);
    match x
    case BeginRead(_) =>
    case LookAtCurrent =>
    case Receive =>
    case SeeAborted =>
    case UseCurrent =>
    case ClearCurrent =>
    case ScheduleNext =>
    case Terminated =>
  }

  lemma UseAddsNoChunks(s: State, i: Item)
    ensures UseItem(s, i).chunks == s.chunks
  {
    match i
    case Absent =>
    case Data(_) =>
    case Fail =>
    case Eof =>
  }

  /** The steps some thread is about to take, other than callers coming in and the stream answering. */
  predicate Internal(x: Step) {
    match x
    case Loop(l) => !l.StreamAnswers?
    case Abortion(a) => !a.Abort? && !a.CallClose?
    case Reading(r) => !r.BeginRead?
    case LoopDies => false
  }

  /** A stream's answer only arrives on a live loop. */
  predicate Coming(s: State, x: Step) {
    Internal(x) || (s.loopAlive && x.Loop? && x.l.StreamAnswers?)
  }

  ghost predicate Still(s: State) { forall x :: Coming(s, x) ==> !Enabled(s, x) }

  /** A Read that waits has something coming, except exactly when the loop died while the JavaScript
      stream owed an answer and nobody has closed or aborted the body. */
  lemma WaitingReadIsServed(xs: seq<Step>, t: State)
    requires Leads(Start, xs, t) && t.read.Wait?
    ensures Still(t) <==> t.outstanding && !t.loopAlive && t.once.Fresh? && t.closers == 0
  {
    EveryRunKeeps(Start, xs, t);
    if Still(t) {
      LoopIsStill(t);
      assert !Enabled(t, Reading(Receive)) && !Enabled(t, Reading(SeeAborted));
      assert !Enabled(t, Abortion(SetFinished)) && !Enabled(t, Abortion(CloseAborted)) && !Enabled(t, Abortion(CloseEnters));
      assert t.loopAlive ==> !Enabled(t, Loop(StreamAnswers(Done)));
    }
  }

  lemma LoopIsStill(t: State)
    requires Placed(t) && Still(t)
    ensures t.loop.Idle? && !t.scheduled
  {
    assert !Enabled(t, Loop(RunScheduled)) && !Enabled(t, Loop(CheckNext)) && !Enabled(t, Loop(CallReader(true)));
    assert !Enabled(t, Loop(HandleAnswer)) && !Enabled(t, Loop(FinishUp)) && !Enabled(t, Loop(PutItem));
  }

  const CloseSteps := [Abortion(CallClose), Abortion(CloseEnters), Abortion(SetFinished), Abortion(CloseAborted), Reading(SeeAborted)]

  /** Closing the body ends such a wait. */
  lemma CloseEndsTheWait(xs: seq<Step>, s: State)
    requires Leads(Start, xs, s) && s.read.Wait? && Still(s)
    ensures exists t :: Leads(s, CloseSteps, t) && t.read.Outside? && t.last.ClosedPipe? && t.aborted
  {
    EveryRunKeeps(Start, xs, s);
    WaitingReadIsServed(xs, s);
    StillOpen(s);
    hide Still, Inv, Leads;
    CloseFromFresh(s);
  }

  lemma StillOpen(s: State)
    requires Inv(s) && s.once.Fresh? && s.outstanding
    ensures !s.finished
  {
  }

  lemma LeadsNowhere(t: State)
    ensures Leads(t, [], t)
  {
  }

  lemma LeadsOn(s: State, x: Step, xs: seq<Step>, t: State)
    requires Enabled(s, x) && Leads(Next(s, x), xs, t)
    ensures Leads(s, [x] + xs, t)
  {
    assert ([x] + xs)[1..] == xs;
  }

  lemma CloseFromFresh(s: State)
    requires s.read.Wait? && s.once.Fresh? && !s.finished
    ensures exists t :: Leads(s, CloseSteps, t) && t.read.Outside? && t.last.ClosedPipe? && t.aborted
  {
    var s1 := s.(closers := s.closers + 1);
    var s2 := s1.(once := Held(Closer));
    var s3 := s2.(finished := true, killed := true, once := Closing);
    var s4 := s3.(aborted := true, once := Used);
    var t := s4.(read := Outside, last := ClosedPipe);
    hide Leads;
    LeadsNowhere(t);
    LeadsOn(s4, Reading(SeeAborted), [], t);
    LeadsOn(s3, Abortion(CloseAborted), [Reading(SeeAborted)], t);
    LeadsOn(s2, Abortion(SetFinished), [Abortion(CloseAborted), Reading(SeeAborted)], t);
    LeadsOn(s1, Abortion(CloseEnters), [Abortion(SetFinished), Abortion(CloseAborted), Reading(SeeAborted)], t);
    LeadsOn(s, Abortion(CallClose), CloseSteps[1..], t);
    assert Leads(s, CloseSteps, t);
  }

  /** The wait can happen. */
  lemma LoopDiesUnderRead()
    ensures exists t :: Leads(Start, [Loop(CheckNext), Loop(CallReader(true)), Reading(BeginRead(1)), Reading(LookAtCurrent), LoopDies], t)
                        && t.read.Wait? && Still(t)
  {
    var s1 := Next(Start, Loop(CheckNext));
    var s2 := Next(s1, Loop(CallReader(true)));
    var s3 := Next(s2, Reading(BeginRead(1)));
    var s4 := Next(s3, Reading(LookAtCurrent));
    var t := Next(s4, LoopDies);
    var all := [Loop(CheckNext), Loop(CallReader(true)), Reading(BeginRead(1)), Reading(LookAtCurrent), LoopDies];
    assert Leads(s4, all[4..], t);
    assert all[3..][1..] == all[4..] && Leads(s3, all[3..], t);
    assert all[2..][1..] == all[3..] && Leads(s2, all[2..], t);
    assert all[1..][1..] == all[2..] && Leads(s1, all[1..], t);
    assert all == all[0..] && Leads(Start, all, t);
    WaitingReadIsServed(all, t);
  }

  function PermitRank(s: State): nat {
    match s.permit
    case Nowhere => 0
    case InStream => 1
    case InTask => 13
    case InRead => if s.read.Schedule? then 16 else 14
    case InChannel => if Final(s.items) then 8 else 18
    case InCurrent => if Final(s.current) then 7 else 17
    case OnLoop =>
      match s.loop
      case Idle => 0
      case NextRead => 12
      case CallRead => 11
      case Handle(_) => 20
      case Finish(_) => 10
      case Put(i) => if Final(i) then 9 else 19
  }

  function ReadRank(r: ReadPc): nat {
    if r.Look? then 2 else if r.Wait? || r.Use? then 1 else 0
  }

  function OnceRank(o: Once): nat {
    match o
    case Fresh => 3
    case Held(_) => 2
    case Closing => 1
    case Used => 0
  }

  /** An upper bound on the internal steps to come. */
  function Rank(s: State): nat { PermitRank(s) + ReadRank(s.read) + OnceRank(s.once) }

  lemma InternalStepsEnd(s: State, x: Step)
    requires Inv(s) && Enabled(s, x) && Internal(x)
    ensures Rank(Next(s, x)) < Rank(s)
  {
    hide InOrder, EndSeen;
    match x {
      case Loop(l) => LoopRank(s, l);
      case Abortion(_) =>
      case Reading(r) => ReadStepRank(s, r);
    }
  }

  /** Between calls and answers every run is short: no longer than the rank at its start. */
  lemma {:induction false} InternalRunsAreShort(s: State, xs: seq<Step>, t: State)
    requires Inv(s) && Leads(s, xs, t) && forall x :: x in xs ==> Internal(x)
    ensures |xs| + Rank(t) <= Rank(s) <= 25
    decreases |xs|
  {
    RankIsSmall(s);
    if xs != [] {
      StepKeeps(s, xs[0]);
      InternalStepsEnd(s, xs[0]);
      hide Inv, Rank, Next, Enabled, Internal;
      InternalRunsAreShort(Next(s, xs[0]), xs[1..], t);
    }
  }

  lemma RankIsSmall(s: State)
    ensures Rank(s) <= 25
  {
  }

  lemma LoopRank(s: State, x: LoopStep)
    requires Placed(s) && Ends(s) && LoopEnabled(s, x) && !x.StreamAnswers?
    ensures Rank(LoopNext(s, x)) < Rank(s)
  {
  }

  lemma ReadStepRank(s: State, x: ReadStep)
    requires Placed(s) && InsideRead(s) && ReadEnabled(s, x) && !x.BeginRead?
    ensures Rank(ReadNext(s, x)) < Rank(s)
  {
    if x.UseCurrent? { UseRank(s, s.current); }
    hide UseItem;
  }

  lemma UseRank(s: State, i: Item)
    requires Placed(s) && s.read.Use? && s.current == i && !i.Absent?
    ensures Rank(UseItem(s, i)) < Rank(s)
  {
  }

  // ---------------------------------------------------------------------------------
  // The steps as code
  // ---------------------------------------------------------------------------------

  /** The fields of the body and its two channels. Each method is one locked section or one use of a
      channel, and takes the step of that name. */
  class Body {
    var items: Item
    var current: Item
    var finished: bool
    var aborted: bool
    /** Everything else: the other threads, the program counters and the observers. */
    ghost var rest: State

    ghost function Now(): State
      reads this
    {
      rest.(items := items, current := current, finished := finished, aborted := aborted)
    }

    constructor ()
      ensures Inv(Now()) && Now() == Start
    {
      hide Inv;
      StartOk();
      items, current, finished, aborted, rest := Absent, Absent, false, false, Start;
    }

    /** finishOnLoop and failChunkOnLoop, up to the enqueue. */
    method FinishOnLoop() returns (goOn: bool)
      requires Inv(Now()) && rest.loop.Finish?
      modifies this
      ensures Inv(Now()) && Now() == LoopNext(old(Now()), FinishUp) && goOn == !old(finished)
    {
      hide Inv;
      StepKeeps(Now(), Loop(FinishUp));
      rest := LoopNext(Now(), FinishUp);
      if finished { return false; }
      finished := true;
      return true;
    }

    /** enqueue: the channel has room, so there is no wait; an aborted body may drop the item. */
    method Enqueue(item: Item) returns (dropped: bool)
      requires Inv(Now()) && rest.loop == Put(item)
      modifies this
      ensures Inv(Now()) && old(items).Absent? && (dropped ==> old(aborted))
      ensures dropped ==> Now() == LoopNext(old(Now()), DropItem)
      ensures !dropped ==> Now() == LoopNext(old(Now()), PutItem)
    {
      RoomInChannel(Now());
      dropped := *;
      dropped := dropped && aborted;
      ghost var x := if dropped then DropItem else PutItem;
      StepKeeps(Now(), Loop(x));
      hide Inv;
      rest := LoopNext(Now(), x);
      if !dropped { items := item; }
    }

    /** Read, from a current item on. */
    method UseCurrent(want: nat) returns (r: Result, data: seq<Byte>, clear: bool)
      requires Inv(Now()) && rest.read.Use? && want == rest.want
      modifies this
      ensures Inv(Now()) && Now() == ReadNext(old(Now()), ReadStep.UseCurrent)
      ensures clear <==> Now().read.Clear?
      ensures r.Nothing? || r == Now().last
      ensures Now().returned == old(Now().returned) + data && |data| <= want
    {
      HasCurrent(Now());
      StepKeeps(Now(), Reading(ReadStep.UseCurrent));
      hide Inv;
      rest := ReadNext(Now(), ReadStep.UseCurrent);
      data, clear := [], false;
      match current {
        case Fail => r := Failed;
        case Eof => r := EndOfFile;
        case Data(bytes) =>
          if |bytes| == 0 {
            return Nothing, [], true;
          }
          var n := if want < |bytes| then want else |bytes|;
          data := bytes[..n];
          current := Data(bytes[n..]);
          clear := n == |bytes|;
          r := Bytes;
      }
    }

    /** clearCurrentAndReadNext, up to the scheduling. */
    method ClearCurrent() returns (schedule: bool)
      requires Inv(Now()) && rest.read.Clear?
      modifies this
      ensures Inv(Now()) && Now() == ReadNext(old(Now()), ReadStep.ClearCurrent) && schedule == !finished
    {
      hide Inv;
      StepKeeps(Now(), Reading(ReadStep.ClearCurrent));
      rest := ReadNext(Now(), ReadStep.ClearCurrent);
      current := Absent;
      schedule := !finished;
    }

    /** The locked section in the bodies of abortOnce: whether to close the channel. */
    method SetFinished(who: Caller) returns (goOn: bool)
      requires Inv(Now()) && rest.once == Held(who)
      modifies this
      ensures Inv(Now()) && Now() == AbortNext(old(Now()), AbortStep.SetFinished)
      ensures goOn <==> rest.once.Closing?
    {
      hide Inv;
      StepKeeps(Now(), Abortion(AbortStep.SetFinished));
      rest := AbortNext(Now(), AbortStep.SetFinished);
      if who.Aborter? && finished { return false; }
      finished := true;
      return true;
    }

    /** close(b.aborted): it is not closed yet. */
    method CloseAborted()
      requires Inv(Now()) && rest.once.Closing?
      modifies this
      ensures Inv(Now()) && !old(aborted) && Now() == AbortNext(old(Now()), AbortStep.CloseAborted)
    {
      hide Inv;
      StepKeeps(Now(), Abortion(AbortStep.CloseAborted));
      NotAborted(Now());
      rest := AbortNext(Now(), AbortStep.CloseAborted);
      aborted := true;
    }
  }

  lemma StartOk()
    ensures Inv(Start)
  {
  }

  lemma RoomInChannel(s: State)
    requires Inv(s) && s.loop.Put?
    ensures s.items.Absent?
  {
  }

  lemma HasCurrent(s: State)
    requires Inv(s) && s.read.Use?
    ensures !s.current.Absent?
  {
  }

  lemma NotAborted(s: State)
    requires Inv(s) && s.once.Closing?
    ensures !s.aborted
  {
  }
}
