/** cloudflarekv/bulk.go, getManyFromStore: a producer hands keys over an unbuffered channel to a few
    workers. A step is one hand-over, one call of the store, or one locked section. */
module BulkGet {

  type Record(==, !new)

  const MaxWorkers := 8

  /** A worker: at the channel, with the key at a position, with its record, about to report an error. */
  datatype Worker = Receiving | Getting(at: nat) | Storing(at: nat) | Failing(at: nat) | Exited

  /** What became of a key that was handed over. */
  datatype Fate = WithWorker(w: nat) | Finished | Failed

  /** `parent`: the caller's context was cancelled; `fates` observes the keys handed over so far. */
  datatype State = State(
    next: nat, closed: bool, cancelled: bool, parent: bool, failed: bool,
    result: map<string, Record>, workers: seq<Worker>, fates: seq<Fate>)

  function Start(keys: seq<string>): State {
    State(0, false, false, false, false, map[], seq(if |keys| < MaxWorkers then |keys| else MaxWorkers, _ => Receiving), [])
  }

  datatype Step =
    | Hand(w: nat) | StopSending | AllSent
    | Got(w: nat) | GetFails(w: nat) | Store(w: nat) | Report(w: nat) | Leave(w: nat)
    | ParentCancels

  predicate Enabled(keys: seq<string>, s: State, x: Step) {
    match x
    case Hand(w) => !s.closed && s.next < |keys| && w < |s.workers| && s.workers[w].Receiving?
    case StopSending => !s.closed && s.next < |keys| && s.cancelled
    case AllSent => !s.closed && s.next >= |keys|
    case Got(w) => w < |s.workers| && s.workers[w].Getting?
    case GetFails(w) => w < |s.workers| && s.workers[w].Getting?
    case Store(w) => w < |s.workers| && s.workers[w].Storing?
    case Report(w) => w < |s.workers| && s.workers[w].Failing?
    case Leave(w) => w < |s.workers| && s.workers[w].Receiving? && s.closed
    case ParentCancels => !s.parent
  }

  function SetFate(s: State, at: nat, f: Fate): seq<Fate> {
    if at < |s.fates| then s.fates[at := f] else s.fates
  }

  function Next(keys: seq<string>, store: map<string, Record>, s: State, x: Step): State
    requires Enabled(keys, s, x)
  {
    match x
    case Hand(w) => s.(next := s.next + 1, workers := s.workers[w := Getting(s.next)], fates := s.fates + [WithWorker(w)])
    case StopSending => s.(closed := true)
    case AllSent => s.(closed := true)
    case Got(w) =>
      var at := s.workers[w].at;
      var found := at < |keys| && keys[at] in store;
      s.(workers := s.workers[w := if found then Storing(at) else Receiving],
         fates := if found then s.fates else SetFate(s, at, Finished))
    case GetFails(w) => s.(workers := s.workers[w := Failing(s.workers[w].at)])
    case Store(w) =>
      var at := s.workers[w].at;
      s.(result := if at < |keys| && keys[at] in store then s.result[keys[at] := store[keys[at]]] else s.result,
         workers := s.workers[w := Receiving], fates := SetFate(s, at, Finished))
    case Report(w) =>
      s.(failed := true, cancelled := true, workers := s.workers[w := Exited], fates := SetFate(s, s.workers[w].at, Failed))
    case Leave(w) => s.(workers := s.workers[w := Exited])
    case ParentCancels => s.(parent := true, cancelled := true)
  }

  /** workers.Wait() is over. */
  predicate Over(s: State) { s.closed && forall w :: 0 <= w < |s.workers| ==> s.workers[w].Exited? }

  // ---------------------------------------------------------------------------------
  // The invariant
  // ---------------------------------------------------------------------------------

  predicate Holds(p: Worker, at: nat) { Busy(p) && p.at == at }

  predicate Busy(p: Worker) { p.Getting? || p.Storing? || p.Failing? }

  /** A key is with the worker its fate names, and a worker holds a key whose fate names it. */
  predicate Handed(keys: seq<string>, s: State) {
    |s.fates| == s.next <= |keys| && FatesOk(s.fates, s.workers) && HeldOk(s.fates, s.workers)
  }

  predicate FatesOk(fates: seq<Fate>, workers: seq<Worker>) {
    forall j :: 0 <= j < |fates| && fates[j].WithWorker? ==> fates[j].w < |workers| && Holds(workers[fates[j].w], j)
  }

  predicate HeldOk(fates: seq<Fate>, workers: seq<Worker>) {
    forall w :: 0 <= w < |workers| && Busy(workers[w]) ==>
      workers[w].at < |fates| && fates[workers[w].at] == WithWorker(w)
  }

  /** The records of the finished keys that the store has, and only records of keys handed over. */
  predicate ResultOk(keys: seq<string>, store: map<string, Record>, s: State) {
    && |s.fates| <= |keys|
    && (forall j :: 0 <= j < |s.fates| && s.fates[j].Finished? && keys[j] in store ==> keys[j] in s.result)
    && (forall k :: k in s.result ==> k in store && s.result[k] == store[k] && k in keys[..|s.fates|])
    && (forall w :: 0 <= w < |s.workers| && s.workers[w].Storing? && s.workers[w].at < |keys| ==> keys[s.workers[w].at] in store)
  }

  predicate Signals(keys: seq<string>, s: State) {
    && (s.failed ==> s.cancelled)
    && (s.cancelled ==> s.failed || s.parent)
    && (forall j :: 0 <= j < |s.fates| && s.fates[j].Failed? ==> s.failed)
    && (forall w :: 0 <= w < |s.workers| && s.workers[w].Exited? ==> s.closed || s.cancelled)
    && (s.closed ==> s.next == |keys| || s.cancelled)
    && (|keys| > 0 ==> |s.workers| > 0)
  }

  predicate Inv(keys: seq<string>, store: map<string, Record>, s: State) {
    Handed(keys, s) && ResultOk(keys, store, s) && Signals(keys, s)
  }

  lemma HandedKept(keys: seq<string>, store: map<string, Record>, s: State, x: Step)
    requires Handed(keys, s) && Enabled(keys, s, x)
    ensures Handed(keys, Next(keys, store, s, x))
  {
    hide FatesOk, HeldOk;
    FatesKept(keys, store, s, x);
    HeldKept(keys, store, s, x);
  }

  lemma FatesKept(keys: seq<string>, store: map<string, Record>, s: State, x: Step)
    requires Handed(keys, s) && Enabled(keys, s, x)
    ensures var t := Next(keys, store, s, x); FatesOk(t.fates, t.workers)
  {
  }

  lemma HeldKept(keys: seq<string>, store: map<string, Record>, s: State, x: Step)
    requires Handed(keys, s) && Enabled(keys, s, x)
    ensures var t := Next(keys, store, s, x); HeldOk(t.fates, t.workers)
  {
  }

  lemma SignalsKept(keys: seq<string>, store: map<string, Record>, s: State, x: Step)
    requires Handed(keys, s) && Signals(keys, s) && Enabled(keys, s, x)
    ensures Signals(keys, Next(keys, store, s, x))
  {
  }

  lemma ResultKept(keys: seq<string>, store: map<string, Record>, s: State, x: Step)
    requires Handed(keys, s) && ResultOk(keys, store, s) && Enabled(keys, s, x)
    ensures ResultOk(keys, store, Next(keys, store, s, x))
  {
    var t := Next(keys, store, s, x);
    assert x.Hand? ==> keys[..|t.fates|] == keys[..|s.fates|] + [keys[s.next]];
    assert x.Store? ==> keys[s.workers[x.w].at] in keys[..|s.fates|];
  }

  lemma StepKeeps(keys: seq<string>, store: map<string, Record>, s: State, x: Step)
    requires Inv(keys, store, s) && Enabled(keys, s, x)
    ensures Inv(keys, store, Next(keys, store, s, x))
  {
    hide Handed, Signals, ResultOk, Next;
    HandedKept(keys, store, s, x);
    SignalsKept(keys, store, s, x);
    ResultKept(keys, store, s, x);
  }

  predicate Leads(keys: seq<string>, store: map<string, Record>, s: State, xs: seq<Step>, t: State)
    decreases |xs|
  {
    if xs == [] then s == t
    else Enabled(keys, s, xs[0]) && Leads(keys, store, Next(keys, store, s, xs[0]), xs[1..], t)
  }

  lemma {:induction false} EveryRunKeeps(keys: seq<string>, store: map<string, Record>, s: State, xs: seq<Step>, t: State)
    requires Inv(keys, store, s) && Leads(keys, store, s, xs, t)
    ensures Inv(keys, store, t)
    decreases |xs|
  {
    if xs != [] {
      StepKeeps(keys, store, s, xs[0]);
      hide Inv;
      EveryRunKeeps(keys, store, Next(keys, store, s, xs[0]), xs[1..], t);
    }
  }

  lemma StartOk(keys: seq<string>, store: map<string, Record>)
    ensures Inv(keys, store, Start(keys))
  {
  }

  // ---------------------------------------------------------------------------------
  // What a run does
  // ---------------------------------------------------------------------------------

  /** The workers of the hand-overs of a run, in order. */
  function Handovers(xs: seq<Step>): seq<nat> {
    if xs == [] then [] else (if xs[0].Hand? then [xs[0].w] else []) + Handovers(xs[1..])
  }

  /** One hand-over for each position so far, and a key is only with the worker it was handed to. */
  predicate LogOk(s: State, log: seq<nat>) {
    |log| == |s.fates| && forall j :: 0 <= j < |log| && s.fates[j].WithWorker? ==> s.fates[j].w == log[j]
  }

  lemma StepKeepsLog(keys: seq<string>, store: map<string, Record>, s: State, x: Step, log: seq<nat>)
    requires LogOk(s, log) && Enabled(keys, s, x)
    ensures LogOk(Next(keys, store, s, x), if x.Hand? then log + [x.w] else log)
  {
  }

  lemma {:induction false} RunKeepsLog(keys: seq<string>, store: map<string, Record>, s: State, xs: seq<Step>, t: State, log: seq<nat>)
    requires LogOk(s, log) && Leads(keys, store, s, xs, t)
    ensures LogOk(t, log + Handovers(xs))
    decreases |xs|
  {
    if xs == [] {
      assert log + [] == log;
    } else {
      var more := if xs[0].Hand? then log + [xs[0].w] else log;
      StepKeepsLog(keys, store, s, xs[0], log);
      MoreHandovers(xs, log);
      hide LogOk, Next, Enabled, Handovers;
      RunKeepsLog(keys, store, Next(keys, store, s, xs[0]), xs[1..], t, more);
    }
  }

  lemma MoreHandovers(xs: seq<Step>, log: seq<nat>)
    requires xs != []
    ensures (if xs[0].Hand? then log + [xs[0].w] else log) + Handovers(xs[1..]) == log + Handovers(xs)
  {
  }

  /** However the workers are scheduled: in a whole run every position up to `next` is handed over
      exactly once, to the worker the run names for it, and no other worker ever has it; by the end it
      is finished or failed. */
  lemma OneWorkerPerKey(keys: seq<string>, store: map<string, Record>, xs: seq<Step>, t: State, w: nat, at: nat)
    requires Leads(keys, store, Start(keys), xs, t)
    ensures |Handovers(xs)| == t.next <= |keys|
    ensures w < |t.workers| && Holds(t.workers[w], at) ==> at < t.next && Handovers(xs)[at] == w
    ensures Over(t) && at < t.next ==> at < |t.fates| && !t.fates[at].WithWorker?
  {
    StartOk(keys, store);
    EveryRunKeeps(keys, store, Start(keys), xs, t);
    RunKeepsLog(keys, store, Start(keys), xs, t, []);
    assert [] + Handovers(xs) == Handovers(xs);
  }

  /** The found ones among some keys. */
  function Found(keys: seq<string>, store: map<string, Record>): map<string, Record> {
    map k | k in keys && k in store :: store[k]
  }

  /** A run that ends without an error returns exactly the found ones among the keys handed over; these
      are all keys unless the caller's context was cancelled. A run in which no get failed ends without
      an error. */
  lemma ResultIsTheFoundKeys(keys: seq<string>, store: map<string, Record>, xs: seq<Step>, t: State)
    requires Leads(keys, store, Start(keys), xs, t) && Over(t) && !t.failed
    ensures t.next <= |keys| && t.result == Found(keys[..t.next], store)
    ensures t.next == |keys| || t.parent
    ensures t.next == |keys| ==> t.result == Found(keys, store)
  {
    StartOk(keys, store);
    EveryRunKeeps(keys, store, Start(keys), xs, t);
    AllFinished(keys, t);
    forall k | k in keys[..t.next] && k in store ensures k in t.result {
      var j :| 0 <= j < t.next && keys[..t.next][j] == k;
      assert t.fates[j].Finished? && keys[j] == k;
    }
    assert t.next == |keys| ==> keys[..t.next] == keys;
  }

  lemma AllFinished(keys: seq<string>, t: State)
    requires Handed(keys, t) && Signals(keys, t) && Over(t) && !t.failed
    ensures forall j :: 0 <= j < |t.fates| ==> t.fates[j].Finished?
  {
  }

  lemma {:induction false} NoFailureNoError(keys: seq<string>, store: map<string, Record>, s: State, xs: seq<Step>, t: State)
    requires Leads(keys, store, s, xs, t) && !s.failed && forall w :: 0 <= w < |s.workers| ==> !s.workers[w].Failing?
    requires forall x :: x in xs ==> !x.GetFails?
    ensures !t.failed
    decreases |xs|
  {
    if xs != [] {
      assert !xs[0].GetFails?;
      NoFailureNoError(keys, store, Next(keys, store, s, xs[0]), xs[1..], t);
    }
  }

  lemma {:induction false} NotCancelled(keys: seq<string>, store: map<string, Record>, s: State, xs: seq<Step>, t: State)
    requires Leads(keys, store, s, xs, t) && !s.parent && forall x :: x in xs ==> !x.ParentCancels?
    ensures !t.parent
    decreases |xs|
  {
    if xs != [] {
      assert !xs[0].ParentCancels?;
      NotCancelled(keys, store, Next(keys, store, s, xs[0]), xs[1..], t);
    }
  }

  /** A run without an error in which the caller's context is not cancelled returns exactly the found
      keys. */
  lemma UncancelledIsComplete(keys: seq<string>, store: map<string, Record>, xs: seq<Step>, t: State)
    requires Leads(keys, store, Start(keys), xs, t) && Over(t) && !t.failed
    requires forall x :: x in xs ==> !x.ParentCancels?
    ensures t.result == Found(keys, store)
  {
    NotCancelled(keys, store, Start(keys), xs, t);
    ResultIsTheFoundKeys(keys, store, xs, t);
  }

  /** The workers from position k on leave, and the pool is done. */
  lemma {:induction false} WorkersLeave(keys: seq<string>, store: map<string, Record>, s: State, k: nat) returns (xs: seq<Step>, t: State)
    requires s.closed && k <= |s.workers|
    requires forall w :: 0 <= w < |s.workers| ==> s.workers[w] == if w < k then Exited else Receiving
    ensures Leads(keys, store, s, xs, t) && Over(t) && t.failed == s.failed && t.result == s.result
    decreases |s.workers| - k
  {
    if k == |s.workers| {
      return [], s;
    }
    var rest;
    rest, t := WorkersLeave(keys, store, Next(keys, store, s, Leave(k)), k + 1);
    xs := [Leave(k)] + rest;
    assert xs[1..] == rest;
  }

  lemma NothingToFind(keys: seq<string>, store: map<string, Record>, n: nat)
    requires n <= |keys| && Found(keys, store) == map[]
    ensures Found(keys[..n], store) == map[]
  {
    forall k | k in keys[..n] ensures k !in store {
      assert k in Found(keys, store) <==> k in store;
    }
  }

  /** A run without an error that does not return the found keys. */
  ghost predicate Partial(keys: seq<string>, store: map<string, Record>, xs: seq<Step>, t: State) {
    Leads(keys, store, Start(keys), xs, t) && Over(t) && !t.failed && t.result != Found(keys, store)
  }

  lemma CancelledRun(keys: seq<string>, store: map<string, Record>) returns (xs: seq<Step>, t: State)
    requires Found(keys, store) != map[]
    ensures Partial(keys, store, xs, t) && t.result == map[]
  {
    var s0 := Start(keys);
    assert keys != [];
    var s1 := Next(keys, store, s0, ParentCancels);
    var s2 := Next(keys, store, s1, StopSending);
    var rest;
    rest, t := WorkersLeave(keys, store, s2, 0);
    xs := [ParentCancels, StopSending] + rest;
    assert xs[1..][1..] == rest && Leads(keys, store, s1, xs[1..], t);
  }

  /** If the context can be cancelled, whatever the keys and the store: some run without an error
      returns something else than the found keys, exactly if any key is found at all. */
  lemma CancelledIsPartial(keys: seq<string>, store: map<string, Record>)
    ensures (exists xs, t :: Partial(keys, store, xs, t)) <==> Found(keys, store) != map[]
  {
    if Found(keys, store) != map[] {
      var xs, t := CancelledRun(keys, store);
    } else if xs, t :| Partial(keys, store, xs, t) {
      ResultIsTheFoundKeys(keys, store, xs, t);
      NothingToFind(keys, store, t.next);
    }
  }

  /** Nobody is ever stuck: unless the pool is done, the producer or a worker can go on. */
  lemma NeverStuck(keys: seq<string>, store: map<string, Record>, xs: seq<Step>, t: State)
    requires Leads(keys, store, Start(keys), xs, t) && !Over(t)
    ensures exists x :: Enabled(keys, t, x) && !x.ParentCancels?
  {
    StartOk(keys, store);
    EveryRunKeeps(keys, store, Start(keys), xs, t);
    if w :| 0 <= w < |t.workers| && !t.workers[w].Exited? && (!t.workers[w].Receiving? || t.closed) {
      assert Enabled(keys, t, Leave(w)) || Enabled(keys, t, Got(w)) || Enabled(keys, t, Store(w)) || Enabled(keys, t, Report(w));
    } else if t.next >= |keys| {
      assert Enabled(keys, t, AllSent);
    } else if w :| 0 <= w < |t.workers| && t.workers[w].Receiving? {
      assert Enabled(keys, t, Hand(w));
    } else {
      assert t.workers[0].Exited?;
      assert Enabled(keys, t, StopSending);
    }
  }

  function WorkerRank(p: Worker): nat {
    match p
    case Getting(_) => 3
    case Storing(_) => 2
    case Failing(_) => 2
    case Receiving => 1
    case Exited => 0
  }

  function Sum(ws: seq<Worker>): nat {
    if ws == [] then 0 else WorkerRank(ws[0]) + Sum(ws[1..])
  }

  lemma {:induction false} SumUpdate(ws: seq<Worker>, w: nat, p: Worker)
    requires w < |ws|
    ensures Sum(ws[w := p]) == Sum(ws) - WorkerRank(ws[w]) + WorkerRank(p)
  {
    if w == 0 {
      assert ws[w := p][1..] == ws[1..];
    } else {
      assert ws[w := p][1..] == ws[1..][w - 1 := p];
      SumUpdate(ws[1..], w - 1, p);
    }
  }

  function Rank(keys: seq<string>, s: State): int {
    4 * (|keys| - s.next) + Sum(s.workers) + (if s.closed then 0 else 1) + (if s.parent then 0 else 1)
  }

  function StepWorker(x: Step): nat {
    match x
    case Hand(w) => w
    case Got(w) => w
    case GetFails(w) => w
    case Store(w) => w
    case Report(w) => w
    case Leave(w) => w
    case _ => 0
  }

  /** Every step brings the end nearer: producer and workers all finish, whatever fails. */
  lemma StepsRunOut(keys: seq<string>, store: map<string, Record>, s: State, x: Step)
    requires Handed(keys, s) && Enabled(keys, s, x)
    ensures 0 <= Rank(keys, Next(keys, store, s, x)) < Rank(keys, s)
  {
    HandedKept(keys, store, s, x);
    var t := Next(keys, store, s, x);
    var w := StepWorker(x);
    if w < |s.workers| && !x.StopSending? && !x.AllSent? && !x.ParentCancels? {
      SumUpdate(s.workers, w, t.workers[w]);
    }
  }
}
