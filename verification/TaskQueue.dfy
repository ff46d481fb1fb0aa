/** eventloop/eventloop.go, addAuxJob and runAux: the task queue with its two buffers.

    The loop swaps the buffers, runs the batch, and gives the batch's array back as the spare one. The
    ghost sequences record which tasks were accepted and which were run. */
module TaskQueue {

  datatype Task = Nil | Job(id: nat)

  /** What a batch adds to the queue: what each task adds, in order. */
  function Spawned(spawn: Task -> seq<Task>, batch: seq<Task>): (r: seq<Task>) {
    if batch == [] then [] else Spawned(spawn, batch[..|batch| - 1]) + spawn(batch[|batch| - 1])
  }

  lemma SpawnedNext(spawn: Task -> seq<Task>, batch: seq<Task>, i: nat)
    requires i < |batch|
    ensures Spawned(spawn, batch[..i + 1]) == Spawned(spawn, batch[..i]) + spawn(batch[i])
    ensures batch[..i + 1] == batch[..i] + [batch[i]]
  {
    assert batch[..i + 1][..i] == batch[..i];
  }

  lemma SpawnedNothing(spawn: Task -> seq<Task>)
    ensures Spawned(spawn, []) == []
  {
  }

  /** The queue after n rounds, as a plain queue would be: the whole batch out, its offspring in. */
  function After(spawn: Task -> seq<Task>, q: seq<Task>, rounds: nat): seq<Task>
    decreases rounds
  {
    if rounds == 0 then q else After(spawn, Spawned(spawn, q), rounds - 1)
  }

  class Queue {
    /** What a task adds to the queue while it runs, whether or not it then panics. */
    const spawn: Task -> seq<Task>
    var auxJobs: array<Task>
    var len: nat
    var auxJobsSpare: array<Task>
    var terminated: bool
    /** The wake-up channel holds its token. */
    var wakeupChan: bool
    ghost var accepted: seq<Task>
    ghost var executed: seq<Task>

    /** The buffers are distinct, hold no task outside the queue, and the queue is what was accepted
        and not run yet. */
    ghost predicate Valid()
      reads this, auxJobs, auxJobsSpare
    {
      && auxJobs != auxJobsSpare
      && Tidy()
      && (forall k :: 0 <= k < auxJobsSpare.Length ==> auxJobsSpare[k] == Nil)
      && accepted == executed + Contents()
    }

    /** The array in use holds the queue and nothing else. */
    ghost predicate Tidy()
      reads this, auxJobs
    {
      len <= auxJobs.Length && forall k :: len <= k < auxJobs.Length ==> auxJobs[k] == Nil
    }

    ghost function Contents(): seq<Task>
      reads this, auxJobs
      requires Tidy()
    {
      auxJobs[..len]
    }

    constructor (spawn: Task -> seq<Task>)
      ensures Valid() && Contents() == [] && executed == [] && !terminated
    {
      this.spawn := spawn;
      auxJobs, len, auxJobsSpare, terminated := new Task[0], 0, new Task[0], false;
      accepted, executed, wakeupChan := [], [], false;
    }

    /** The append to a slice: in place while there is room, else into a larger array. */
    method Append(t: Task)
      requires Tidy()
      modifies this`auxJobs, this`len, auxJobs
      ensures Tidy()
      ensures auxJobs == old(auxJobs) || fresh(auxJobs)
      ensures Contents() == old(Contents()) + [t]
    {
      if len == auxJobs.Length {
        var bigger := new Task[2 * len + 1] (i requires 0 <= i reads this, auxJobs => if i < auxJobs.Length then auxJobs[i] else Nil);
        assert bigger[..len] == auxJobs[..len];
        auxJobs := bigger;
      }
      auxJobs[len] := t;
      len := len + 1;
    }

    method AddAuxJob(t: Task) returns (ok: bool)
      requires Tidy()
      modifies this`auxJobs, this`len, this`accepted, this`wakeupChan, auxJobs
      ensures Tidy() && ok == !terminated && wakeupChan == (ok || old(wakeupChan))
      ensures auxJobs == old(auxJobs) || fresh(auxJobs)
      ensures Contents() == old(Contents()) + if ok then [t] else []
      ensures accepted == old(accepted) + if ok then [t] else []
    {
      if terminated { return false; }
      Append(t);
      accepted := accepted + [t];
      Wakeup();
      return true;
    }

    /** A full channel is left as it is. */
    method Wakeup()
      modifies this`wakeupChan
      ensures wakeupChan
    {
      wakeupChan := true;
    }

    /** Running a task: it adds its offspring one by one. */
    method Execute(t: Task)
      requires Tidy()
      modifies this`auxJobs, this`len, this`accepted, this`wakeupChan, this`executed, auxJobs
      ensures Tidy()
      ensures auxJobs == old(auxJobs) || fresh(auxJobs)
      ensures Contents() == old(Contents()) + if terminated then [] else spawn(t)
      ensures accepted == old(accepted) + if terminated then [] else spawn(t)
      ensures executed == old(executed) + [t]
    {
      executed := executed + [t];
      var added := spawn(t);
      for i := 0 to |added|
        invariant Tidy()
        invariant auxJobs == old(auxJobs) || fresh(auxJobs)
        invariant Contents() == old(Contents()) + if terminated then [] else added[..i]
        invariant accepted == old(accepted) + if terminated then [] else added[..i]
        invariant executed == old(executed) + [t]
      {
        var _ := AddAuxJob(added[i]);
        assert added[..i + 1] == added[..i] + [added[i]];
      }
      assert added[..|added|] == added;
    }

    /** One round: everything accepted before runs, once and in that order, and nothing else runs. */
    method RunAux()
      requires Valid()
      modifies this`auxJobs, this`len, this`auxJobsSpare, this`accepted, this`wakeupChan, this`executed, auxJobs, auxJobsSpare
      ensures Valid()
      ensures auxJobsSpare == old(auxJobs) && (auxJobs == old(auxJobsSpare) || fresh(auxJobs))
      ensures executed == old(accepted)
      ensures Contents() == if terminated then [] else Spawned(spawn, old(Contents()))
      ensures accepted == old(accepted) + Contents()
    {
      hide Spawned;
      var jobs, n := auxJobs, len;
      ghost var batch := jobs[..n];
      auxJobs, len := auxJobsSpare, 0;
      RunBatch(jobs, n);
      assert batch[..n] == batch;
      auxJobsSpare := jobs;
    }

    method RunBatch(jobs: array<Task>, n: nat)
      requires Tidy() && Contents() == [] && jobs != auxJobs && n <= jobs.Length
      requires accepted == executed + jobs[..n] && forall k :: n <= k < jobs.Length ==> jobs[k] == Nil
      modifies this`auxJobs, this`len, this`accepted, this`wakeupChan, this`executed, auxJobs, jobs
      ensures Tidy() && jobs != auxJobs && (auxJobs == old(auxJobs) || fresh(auxJobs))
      ensures forall k :: 0 <= k < jobs.Length ==> jobs[k] == Nil
      ensures executed == old(accepted)
      ensures Contents() == if terminated then [] else Spawned(spawn, old(jobs[..n]))
      ensures accepted == old(accepted) + Contents()
    {
      hide *;
      ghost var batch := jobs[..n];
      SpawnedNothing(spawn);
      assert batch[..0] == [];
      for i := 0 to n
        invariant Tidy() && jobs != auxJobs && (auxJobs == old(auxJobs) || fresh(auxJobs))
        invariant forall k :: i <= k < n ==> jobs[k] == batch[k]
        invariant forall k :: (0 <= k < i || n <= k < jobs.Length) ==> jobs[k] == Nil
        invariant executed == old(executed) + batch[..i]
        invariant Contents() == if terminated then [] else Spawned(spawn, batch[..i])
        invariant accepted == old(accepted) + Contents()
      {
        SpawnedNext(spawn, batch, i);
        RunJob(jobs, i);
      }
      assert batch[..n] == batch;
    }

    /** One turn of the loop over the batch. */
    method RunJob(jobs: array<Task>, i: nat)
      requires Tidy() && jobs != auxJobs && i < jobs.Length
      modifies this`auxJobs, this`len, this`accepted, this`wakeupChan, this`executed, auxJobs, jobs
      ensures Tidy() && jobs != auxJobs && (auxJobs == old(auxJobs) || fresh(auxJobs))
      ensures jobs[i] == Nil && forall k :: 0 <= k < jobs.Length && k != i ==> jobs[k] == old(jobs[k])
      ensures executed == old(executed) + [old(jobs[i])]
      ensures Contents() == old(Contents()) + if terminated then [] else spawn(old(jobs[i]))
      ensures accepted == old(accepted) + if terminated then [] else spawn(old(jobs[i]))
    {
      Execute(jobs[i]);
      ghost var c := Contents();
      jobs[i] := Nil;
      assert Contents() == c;
    }

    /** Any number of rounds on a loop that accepts tasks is that many rounds of the plain queue. */
    method RunRounds(rounds: nat)
      requires Valid() && !terminated
      modifies this`auxJobs, this`len, this`auxJobsSpare, this`accepted, this`wakeupChan, this`executed, auxJobs, auxJobsSpare
      ensures Valid() && Contents() == After(spawn, old(Contents()), rounds)
      ensures old(accepted) <= accepted && (rounds > 0 ==> old(accepted) <= executed <= accepted)
    {
      for r := 0 to rounds
        invariant Valid() && old(accepted) <= accepted && (r > 0 ==> old(accepted) <= executed <= accepted)
        invariant auxJobs == old(auxJobs) || auxJobs == old(auxJobsSpare) || fresh(auxJobs)
        invariant auxJobsSpare == old(auxJobs) || auxJobsSpare == old(auxJobsSpare) || fresh(auxJobsSpare)
        invariant After(spawn, Contents(), rounds - r) == After(spawn, old(Contents()), rounds)
      {
        RunAux();
      }
    }
  }
}

/** The same queue among threads: producers that append and then signal, requests to stop, and the
    loop that waits for the one-slot wake-up channel. */
module WakeUp {

  type Thread(==, !new)
  type Task(==, !new)

  /** Where the loop is. `first`: the round at the start of run, after which canRun is not looked at. */
  datatype Pc = Off | Swap(first: bool) | Execute(first: bool) | Check | Select

  datatype State = State(
    auxJobs: seq<Task>, batch: seq<Task>, terminated: bool, token: bool, canRun: bool, pc: Pc,
    signalling: multiset<Thread>, accepted: seq<Task>, executed: seq<Task>)

  const Start := State([], [], false, false, false, Off, multiset{}, [], [])

  datatype Step =
    | Add(thread: Thread, task: Task)
    | Refuse(task: Task)
    | AskStop(thread: Thread)
    | Wake(thread: Thread)
    | Signal(thread: Thread)
    | Run
    | Terminate
    | SwapBuffers
    | RunOne
    | EndBatch(more: bool)
    | LookAtCanRun(more: bool)
    | TakeToken
    | OtherJob(more: bool)
    | Cancelled

  predicate Enabled(s: State, x: Step) {
    match x
    case Add(_, _) => !s.terminated
    case Refuse(_) => s.terminated
    case AskStop(_) => s.pc != Off
    case Wake(_) => true
    case Signal(th) => th in s.signalling
    case Run => s.pc == Off
    case Terminate => s.pc == Off && !s.terminated
    case SwapBuffers => s.pc.Swap?
    case RunOne => s.pc.Execute? && |s.batch| > 0
    case EndBatch(_) => s.pc.Execute? && s.batch == []
    case LookAtCanRun(_) => s.pc == Check
    case TakeToken => s.pc == Select && s.token
    case OtherJob(_) => s.pc == Select
    case Cancelled => s.pc == Select
  }

  /** One step. `more`: whether jobCount is still positive at the head of run's loop. */
  function Next(s: State, x: Step): State
    requires Enabled(s, x)
  {
    match x
    case Add(th, t) => s.(auxJobs := s.auxJobs + [t], accepted := s.accepted + [t], signalling := s.signalling + multiset{th})
    case Refuse(_) => s
    case AskStop(th) => s.(canRun := false, signalling := s.signalling + multiset{th})
    case Wake(th) => s.(signalling := s.signalling + multiset{th})
    case Signal(th) => s.(token := true, signalling := s.signalling - multiset{th})
    case Run => s.(terminated := false, canRun := true, pc := Swap(true))
    case Terminate => s.(terminated := true, pc := Swap(true))
    case SwapBuffers => s.(batch := s.auxJobs, auxJobs := [], pc := Execute(s.pc.first))
    case RunOne => s.(batch := s.batch[1..], executed := s.executed + [s.batch[0]])
    case EndBatch(more) => s.(pc := if !s.pc.first then Check else if more && !s.terminated then Select else Off)
    case LookAtCanRun(more) => s.(pc := if s.canRun && more then Select else Off)
    case TakeToken => s.(token := false, pc := Swap(false))
    case OtherJob(more) => s.(pc := if more then Select else Off)
    case Cancelled => s.(pc := Off)
  }

  /** No task is lost, doubled or reordered. */
  predicate Fifo(s: State) {
    && s.accepted == s.executed + s.batch + s.auxJobs
    && (!s.pc.Execute? ==> s.batch == [])
  }

  /** A running loop will look at a queue that is not empty. */
  predicate Heard(s: State) {
    s.auxJobs != [] && s.pc != Off ==> s.token || s.signalling != multiset{} || s.pc.Swap?
  }

  /** A running loop will see a request to stop. */
  predicate StopHeard(s: State) {
    !s.canRun && !s.terminated && s.pc != Off ==>
      s.token || s.signalling != multiset{} || s.pc == Swap(false) || s.pc == Execute(false) || s.pc == Check
  }

  /** A terminated loop is only ever in its last round, which takes all there is. */
  predicate Last(s: State) {
    s.terminated ==> s.pc == Swap(true) || (s.auxJobs == [] && (s.pc == Off || s.pc == Execute(true)))
  }

  predicate Inv(s: State) { Fifo(s) && Heard(s) && StopHeard(s) && Last(s) }

  lemma StepKeeps(s: State, x: Step)
    requires Inv(s) && Enabled(s, x)
    ensures Inv(Next(s, x))
    ensures s.accepted <= Next(s, x).accepted && s.executed <= Next(s, x).executed
  {
    hide Fifo;
    FifoKept(s, x);
  }

  lemma FifoKept(s: State, x: Step)
    requires Fifo(s) && Enabled(s, x)
    ensures Fifo(Next(s, x))
    ensures s.accepted <= Next(s, x).accepted && s.executed <= Next(s, x).executed
  {
    if x.RunOne? {
      assert s.batch == [s.batch[0]] + s.batch[1..];
    }
  }

  predicate Leads(s: State, xs: seq<Step>, t: State)
    decreases |xs|
  {
    if xs == [] then s == t else Enabled(s, xs[0]) && Leads(Next(s, xs[0]), xs[1..], t)
  }

  lemma {:induction false} RunKeeps(s: State, xs: seq<Step>, t: State)
    requires Inv(s) && Leads(s, xs, t)
    ensures Inv(t) && s.accepted <= t.accepted && s.executed <= t.executed
    decreases |xs|
  {
    if xs != [] {
      StepKeeps(s, xs[0]);
      RunKeeps(Next(s, xs[0]), xs[1..], t);
    }
  }

  /** The tasks added in a run, in order. */
  function AddedIn(xs: seq<Step>): seq<Task> {
    if xs == [] then [] else (if xs[0].Add? then [xs[0].task] else []) + AddedIn(xs[1..])
  }

  /** What counts as accepted is what was added, all of it: an addition is only refused when terminated. */
  lemma {:induction false} AcceptedIsAdded(s: State, xs: seq<Step>, t: State)
    requires Leads(s, xs, t)
    ensures t.accepted == s.accepted + AddedIn(xs)
    decreases |xs|
  {
    if xs == [] {
      assert s.accepted + [] == s.accepted;
    } else {
      AcceptedIsAdded(Next(s, xs[0]), xs[1..], t);
      MoreAdded(s.accepted, xs);
    }
  }

  lemma MoreAdded(so: seq<Task>, xs: seq<Step>)
    requires xs != []
    ensures (if xs[0].Add? then so + [xs[0].task] else so) + AddedIn(xs[1..]) == so + AddedIn(xs)
  {
  }

  /** In every run: the tasks run so far are the first ones accepted, in that order, and the rest are
      in the batch and the queue; a queue a running loop does not yet know of has a signal coming; and
      Terminate returns with all of them run. */
  lemma EveryRunIsFifo(xs: seq<Step>, t: State)
    requires Leads(Start, xs, t)
    ensures t.executed <= t.accepted && t.accepted[|t.executed|..] == t.batch + t.auxJobs
    ensures t.auxJobs != [] && t.pc != Off ==> t.token || t.signalling != multiset{} || t.pc.Swap?
    ensures t.terminated && t.pc == Off ==> t.executed == t.accepted
  {
    RunKeeps(Start, xs, t);
  }

  /** The steps that nobody has to ask for: threads that signal, and the loop itself. */
  predicate Internal(x: Step) {
    x.Signal? || x.SwapBuffers? || x.RunOne? || x.EndBatch? || x.LookAtCanRun? || x.TakeToken?
  }

  function PcRank(pc: Pc): nat {
    match pc
    case Off => 0
    case Select => 1
    case Check => 2
    case Execute(_) => 3
    case Swap(_) => 4
  }

  /** An upper bound on the internal steps to come. */
  function Rank(s: State): nat {
    5 * |s.signalling| + (if s.token then 4 else 0) + PcRank(s.pc) + |s.auxJobs| + |s.batch|
  }

  lemma InternalStepsEnd(s: State, x: Step)
    requires Inv(s) && Enabled(s, x) && Internal(x)
    ensures Rank(Next(s, x)) < Rank(s)
  {
  }

  ghost predicate Quiet(s: State) { forall x :: Internal(x) ==> !Enabled(s, x) }

  /** However the internal steps are interleaved, they end; and then every accepted task has run, or
      the loop is off and keeps them for its next run. A loop asked to stop is then off. */
  lemma QuietMeansDone(s: State)
    requires Inv(s) && Quiet(s)
    ensures s.pc == Off || (s.pc == Select && s.executed == s.accepted)
    ensures !s.canRun || s.terminated ==> s.pc == Off
    ensures s.accepted == s.executed + s.auxJobs
  {
    assert !Enabled(s, SwapBuffers) && !Enabled(s, RunOne) && !Enabled(s, EndBatch(true));
    assert !Enabled(s, LookAtCanRun(true)) && !Enabled(s, TakeToken);
    forall th ensures th !in s.signalling {
      assert Enabled(s, Signal(th)) == (th in s.signalling);
    }
    assert s.signalling == multiset{};
  }

  /** A run of internal steps only is never longer than the rank. */
  lemma {:induction false} InternalRunsAreShort(s: State, xs: seq<Step>, t: State)
    requires Inv(s) && Leads(s, xs, t) && forall x :: x in xs ==> Internal(x)
    ensures |xs| + Rank(t) <= Rank(s)
    decreases |xs|
  {
    if xs != [] {
      StepKeeps(s, xs[0]);
      InternalStepsEnd(s, xs[0]);
      InternalRunsAreShort(Next(s, xs[0]), xs[1..], t);
    }
  }
}
