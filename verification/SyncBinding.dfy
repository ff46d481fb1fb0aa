/** cloudflarekv/bridge.go, the synchronous binding: get, put and delete over a store that is changed only
    through it, with the cache in front. A failed write leaves the store as it was. */
module SyncBinding {
  import opened CacheModel

  /** What the store itself answers at an instant. `inclusive`: a record is still there at the very
      instant of its expiration. */
  function Visible(store: map<string, Record>, key: string, now: int, inclusive: bool): Option<Record> {
    if key !in store then None
    else
      match store[key].expiration
      case None => Some(store[key])
      case Some(x) => if now < x || (inclusive && now == x) then Some(store[key]) else None
  }

  const NoRecord := Record([], [], None)

  function OrNone(v: Option<Record>): Record { if v.Some? then v.value else NoRecord }

  /** `fails`: the call to the store fails, if it is made. */
  datatype Op =
    | Get(key: string, ttl: int, fails: bool)
    | Put(key: string, record: Record, fails: bool)
    | Delete(key: string, fails: bool)

  datatype Timed = Timed(op: Op, now: int)

  datatype Response = Value(record: Option<Record>) | Done | StoreFailed

  /** `capacity` at most 0: no cache. */
  datatype Binding = Binding(capacity: int, order: seq<Entry>, store: map<string, Record>, inclusive: bool)

  function Look(b: Binding, key: string, now: int): (Binding, Lookup) {
    if b.capacity <= 0 then (b, Miss) else (b.(order := GetQ(b.order, key, now)), GetA(b.order, key, now))
  }

  function Keep(b: Binding, key: string, v: Option<Record>, ttl: int, until: int, now: int): Binding {
    if b.capacity <= 0 then b
    else b.(order := PutQ(b.order, b.capacity, key, OrNone(v), v.Some?, ttl, until, now))
  }

  function Forget(b: Binding, key: string): Binding {
    if b.capacity <= 0 then b else b.(order := Without(b.order, key))
  }

  /** One call, at one reading of the clock. */
  function Step(b: Binding, op: Op, now: int): (Binding, Response) {
    match op
    case Get(key, ttl, fails) =>
      var (b1, a) := Look(b, key, now);
      if a.Hit? then (b1, Value(if a.found then Some(a.record) else None))
      else if fails then (b1, StoreFailed)
      else
        var v := Visible(b.store, key, now, b.inclusive);
        (Keep(b1, key, v, ttl, now, now), Value(v))
    case Put(key, record, fails) =>
      if fails then (b, StoreFailed) else (Forget(b.(store := b.store[key := record]), key), Done)
    case Delete(key, fails) =>
      if fails then (b, StoreFailed) else (Forget(b.(store := b.store - {key}), key), Done)
  }

  // ---------------------------------------------------------------------------------
  // The cache agrees with the store
  // ---------------------------------------------------------------------------------

  /** From the instant on, an entry says what the store says for as long as it is served. */
  ghost predicate EntryOk(e: Entry, store: map<string, Record>, now: int, inclusive: bool) {
    if e.found then
      && e.key in store && store[e.key] == e.record
      && (e.record.expiration.Some? ==> e.expiresAt <= e.record.expiration.value)
    else Visible(store, e.key, now, inclusive) == None
  }

  ghost predicate Coherent(b: Binding, now: int) {
    && Distinct(b.order)
    && (0 < b.capacity ==> Total(b.order) <= b.capacity)
    && forall e :: e in b.order ==> EntryOk(e, b.store, now, b.inclusive)
  }

  lemma TimePasses(b: Binding, clock: int, now: int)
    requires Coherent(b, clock) && clock <= now
    ensures Coherent(b, now)
  {
    forall e | e in b.order ensures EntryOk(e, b.store, now, b.inclusive) {
      assert EntryOk(e, b.store, clock, b.inclusive);
    }
  }

  lemma HitIsVisible(b: Binding, key: string, now: int)
    requires Coherent(b, now) && 0 < b.capacity && GetA(b.order, key, now).Hit?
    ensures var a := GetA(b.order, key, now);
      Visible(b.store, key, now, b.inclusive) == if a.found then Some(a.record) else None
  {
    var e := Find(b.order, key).value;
    assert EntryOk(e, b.store, now, b.inclusive);
  }

  lemma LookKeeps(b: Binding, key: string, now: int)
    requires Coherent(b, now)
    ensures Coherent(Look(b, key, now).0, now)
  {
    hide Distinct, Total, EntryOk, GetQ;
    GetKeepsEntries(b.order, key, now);
  }

  lemma AdmittedOk(b: Binding, key: string, v: Option<Record>, ttl: int, now: int)
    requires Visible(b.store, key, now, b.inclusive) == v
    requires Admit(b.capacity, key, OrNone(v), v.Some?, ttl, now, now).Some?
    ensures EntryOk(Admit(b.capacity, key, OrNone(v), v.Some?, ttl, now, now).value, b.store, now, b.inclusive)
  {
  }

  lemma KeepKeeps(b: Binding, key: string, v: Option<Record>, ttl: int, now: int)
    requires Coherent(b, now) && Visible(b.store, key, now, b.inclusive) == v
    ensures Coherent(Keep(b, key, v, ttl, now, now), now)
  {
    var a := Admit(b.capacity, key, OrNone(v), v.Some?, ttl, now, now);
    if 0 < b.capacity && a.Some? {
      PutKeepsTheNewest(b.order, b.capacity, key, OrNone(v), v.Some?, ttl, now, now);
      AdmittedOk(b, key, v, ttl, now);
      var t := PutQ(b.order, b.capacity, key, OrNone(v), v.Some?, ttl, now, now);
      hide Admit, PutQ, EntryOk, Distinct, Total, Visible;
      forall e | e in t ensures EntryOk(e, b.store, now, b.inclusive) {
        if e != t[0] {
          assert e in t[1..];
          assert e in Without(b.order, key);
        }
      }
    }
  }

  lemma ForgetKeeps(b: Binding, key: string, store: map<string, Record>, now: int)
    requires Coherent(b, now) && (forall k :: k != key ==> (k in store <==> k in b.store) && (k in store ==> store[k] == b.store[k]))
    requires b.capacity <= 0 ==> b.order == []
    ensures Coherent(Forget(b.(store := store), key), now)
  {
    WithoutDistinct(b.order, key);
    WithoutTotal(b.order, key);
    forall e | e in Without(b.order, key) ensures EntryOk(e, store, now, b.inclusive) {
      assert EntryOk(e, b.store, now, b.inclusive) && e.key != key;
    }
  }

  /** What a plain store would answer. */
  function Plain(store: map<string, Record>, op: Op, now: int, inclusive: bool): Response {
    if op.fails then StoreFailed
    else if op.Get? then Value(Visible(store, op.key, now, inclusive))
    else Done
  }

  function PlainStore(store: map<string, Record>, op: Op): map<string, Record> {
    if op.fails || op.Get? then store
    else if op.Put? then store[op.key := op.record]
    else store - {op.key}
  }

  ghost predicate Ready(b: Binding, now: int) {
    Coherent(b, now) && (b.capacity <= 0 ==> b.order == [])
  }

  /** One call keeps the cache coherent and within its bound, does to the store what the plain call
      does, and answers what the plain call answers; only a get that the cache answers hides a failure
      of the store. */
  lemma StepAgrees(b: Binding, clock: int, op: Op, now: int)
    requires Ready(b, clock) && clock <= now
    ensures var (t, r) := Step(b, op, now);
      && Ready(t, now) && t.capacity == b.capacity && t.inclusive == b.inclusive
      && t.store == PlainStore(b.store, op)
      && (r == Plain(b.store, op, now, b.inclusive)
          || (op.Get? && op.fails && r == Value(Visible(b.store, op.key, now, b.inclusive))))
  {
    TimePasses(b, clock, now);
    match op {
      case Get(key, ttl, fails) =>
        LookKeeps(b, key, now);
        var (b1, a) := Look(b, key, now);
        if a.Hit? {
          HitIsVisible(b, key, now);
        } else if !fails {
          KeepKeeps(b1, key, Visible(b.store, key, now, b.inclusive), ttl, now);
        }
        hide Coherent, Visible, PutQ, GetQ, GetA;
      case Put(key, record, fails) => ForgetKeeps(b, key, b.store[key := record], now);
      case Delete(key, fails) => ForgetKeeps(b, key, b.store - {key}, now);
    }
  }

  function Answers(b: Binding, ops: seq<Timed>): seq<Response>
    decreases |ops|
  {
    if ops == [] then []
    else
      var (t, r) := Step(b, ops[0].op, ops[0].now);
      [r] + Answers(t, ops[1..])
  }

  function PlainAnswers(store: map<string, Record>, ops: seq<Timed>, inclusive: bool): seq<Response>
    decreases |ops|
  {
    if ops == [] then []
    else [Plain(store, ops[0].op, ops[0].now, inclusive)] + PlainAnswers(PlainStore(store, ops[0].op), ops[1..], inclusive)
  }

  /** The clock never goes back. */
  predicate InTime(clock: int, ops: seq<Timed>)
    decreases |ops|
  {
    ops == [] || (clock <= ops[0].now && InTime(ops[0].now, ops[1..]))
  }

  /** For every sequence of calls the binding answers exactly what the store would answer without a
      cache: every found record, every miss, every expiration. (Writes may fail; a failing get is the
      subject of StepAgrees.) */
  lemma {:induction false} CacheIsInvisible(b: Binding, clock: int, ops: seq<Timed>)
    requires Ready(b, clock) && InTime(clock, ops)
    requires forall x :: x in ops && x.op.Get? ==> !x.op.fails
    ensures Answers(b, ops) == PlainAnswers(b.store, ops, b.inclusive)
    decreases |ops|
  {
    if ops != [] {
      var (op, now) := (ops[0].op, ops[0].now);
      StepAgrees(b, clock, op, now);
      hide Ready, Step, Plain, PlainStore;
      CacheIsInvisible(Step(b, op, now).0, now, ops[1..]);
    }
  }

  /** And the cache is there for something: when a get has asked the store, the next get of the key is answered
      without it exactly while the ttl lasts and the record lives, if there is a cache and the answer fits. */
  lemma SecondGetNeedsNoStore(b: Binding, key: string, ttl: int, now: int, again: int)
    requires Ready(b, now) && now <= again && Look(b, key, now).1.Miss?
    ensures var v := Visible(b.store, key, now, b.inclusive);
      var t := Step(b, Get(key, ttl, false), now).0;
      Step(t, Get(key, ttl, true), again).1 ==
        if 0 < b.capacity && SizeOf(key, OrNone(v)) <= b.capacity && again < now + ttl
           && (v.Some? && v.value.expiration.Some? ==> again < v.value.expiration.value)
        then Value(v) else StoreFailed
  {
    var v := Visible(b.store, key, now, b.inclusive);
    var q := Look(b, key, now).0.order;
    if 0 < b.capacity {
      LookKeeps(b, key, now);
      PutIsServed(q, b.capacity, key, OrNone(v), v.Some?, ttl, now, again);
      GetKeepsEntries(b.order, key, now);
      MissLeavesNone(b.order, key, now);
    }
  }

  lemma MissLeavesNone(q: seq<Entry>, key: string, now: int)
    requires Distinct(q) && GetA(q, key, now).Miss?
    ensures forall t :: GetA(GetQ(q, key, now), key, t).Miss?
  {
    WithoutDistinct(q, key);
  }

  // ---------------------------------------------------------------------------------
  // Where agreement ends
  // ---------------------------------------------------------------------------------

  /** put reads the clock at `until` and again at `now`. The entry it makes for a record the store has is
      good whenever it is served, exactly if the record does not expire, the readings agree, or the
      ttl ends before the record does; else it is served late by less than the time between them. */
  lemma SlackOfTwoReadings(capacity: int, key: string, record: Record, ttl: int, until: int, now: int)
    requires until <= now && Admit(capacity, key, record, true, ttl, until, now).Some?
    ensures var e := Admit(capacity, key, record, true, ttl, until, now).value;
      && ((forall t: int :: t < e.expiresAt ==> Visible(map[key := record], key, t, false) == Some(record))
          <==> record.expiration.None? || until == now || now + ttl <= record.expiration.value)
      && (record.expiration.Some? ==> e.expiresAt <= record.expiration.value + (now - until))
  {
    var e := Admit(capacity, key, record, true, ttl, until, now).value;
    assert e.expiresAt - 1 < e.expiresAt;
    if forall t: int :: t < e.expiresAt ==> Visible(map[key := record], key, t, false) == Some(record) {
      assert Visible(map[key := record], key, e.expiresAt - 1, false) == Some(record);
    }
  }

  /** The asynchronous get reads the store, and fills the cache later. A refill with what was read before
      leaves the cache coherent exactly if it makes no entry, or the store still says the same. */
  lemma LateRefill(b: Binding, key: string, v: Option<Record>, ttl: int, now: int)
    requires Ready(b, now) && 0 < b.capacity
    ensures Coherent(Keep(b, key, v, ttl, now, now), now) <==>
      Admit(b.capacity, key, OrNone(v), v.Some?, ttl, now, now).None? || Visible(b.store, key, now, b.inclusive) == v
  {
    var a := Admit(b.capacity, key, OrNone(v), v.Some?, ttl, now, now);
    if Visible(b.store, key, now, b.inclusive) == v {
      KeepKeeps(b, key, v, ttl, now);
    } else if a.Some? {
      PutKeepsTheNewest(b.order, b.capacity, key, OrNone(v), v.Some?, ttl, now, now);
      var t := Keep(b, key, v, ttl, now, now);
      assert t.order[0] in t.order && !EntryOk(a.value, b.store, now, b.inclusive);
    }
  }

  // ---------------------------------------------------------------------------------
  // The binding
  // ---------------------------------------------------------------------------------

  class Binder {
    const cache: LruCache?
    const inclusive: bool
    var store: map<string, Record>

    ghost predicate Valid()
      reads this, cache
    {
      cache != null ==> cache.Valid()
    }

    ghost function Now(): Binding
      reads this, cache
    {
      Binding(if cache == null then 0 else cache.capacity, if cache == null then [] else cache.order, store, inclusive)
    }

    constructor (capacity: int, store: map<string, Record>, inclusive: bool)
      ensures Valid() && Now() == Binding(if capacity > 0 then capacity else 0, [], store, inclusive)
    {
      if capacity <= 0 { cache := null; } else { cache := new LruCache(capacity); }
      this.store, this.inclusive := store, inclusive;
    }

    /** getRecordCached, under get. */
    method Get(key: string, ttl: int, fails: bool, now: int) returns (r: Response)
      requires Valid()
      modifies this, cache
      ensures Valid() && (Now(), r) == Step(old(Now()), Op.Get(key, ttl, fails), now)
    {
      hide GetQ, GetA, PutQ, LruCache.Valid;
      if cache != null {
        PositiveCapacity(cache);
        var a := cache.Get(key, now);
        if a.Hit? { return Value(if a.found then Some(a.record) else None); }
      }
      if fails { return StoreFailed; }
      var v := Visible(store, key, now, inclusive);
      if cache != null {
        cache.Put(key, OrNone(v), v.Some?, ttl, now, now);
      }
      return Value(v);
    }

    method Put(key: string, record: Record, fails: bool, now: int) returns (r: Response)
      requires Valid()
      modifies this, cache
      ensures Valid() && (Now(), r) == Step(old(Now()), Op.Put(key, record, fails), now)
    {
      hide Without, LruCache.Valid;
      if fails { return StoreFailed; }
      store := store[key := record];
      if cache != null {
        PositiveCapacity(cache);
        cache.Delete(key);
      }
      return Done;
    }

    method Delete(key: string, fails: bool, now: int) returns (r: Response)
      requires Valid()
      modifies this, cache
      ensures Valid() && (Now(), r) == Step(old(Now()), Op.Delete(key, fails), now)
    {
      hide Without, LruCache.Valid;
      if fails { return StoreFailed; }
      store := store - {key};
      if cache != null {
        PositiveCapacity(cache);
        cache.Delete(key);
      }
      return Done;
    }
  }

  lemma PositiveCapacity(c: LruCache)
    requires c.Valid()
    ensures c.capacity > 0
  {
  }

  // ---------------------------------------------------------------------------------
  // Many keys at once (cloudflarekv/bulk.go)
  // ---------------------------------------------------------------------------------

  /** Looking one key up does not change what another look-up at that instant finds. */
  lemma LookIsStable(b: Binding, key: string, other: string, now: int)
    requires Distinct(b.order)
    ensures Look(Look(b, key, now).0, other, now).1 == Look(b, other, now).1
  {
    hide GetQ, Without, Distinct, Find;
    GetKeepsEntries(b.order, key, now);
    var q, t := b.order, GetQ(b.order, key, now);
    var before, after := Find(q, other), Find(t, other);
    if before.Some? && before.value in t {
      FindInDistinct(t, before.value);
    }
    if after.Some? {
      FindInDistinct(q, after.value);
    }
  }

  /** The keys a bulk get has to ask the store for. */
  predicate Missed(b: Binding, key: string, now: int) { Look(b, key, now).1.Miss? }

  /** `records` says what the store says about the keys in `known`, and nothing else. */
  ghost predicate Tells(records: map<string, Record>, known: set<string>, b: Binding, now: int) {
    && records.Keys <= known
    && forall k :: k in known ==>
         Visible(b.store, k, now, b.inclusive) == if k in records then Some(records[k]) else None
  }

  lemma TellsMore(records: map<string, Record>, known: set<string>, key: string, v: Option<Record>, b: Binding, now: int)
    requires Tells(records, known, b, now) && Visible(b.store, key, now, b.inclusive) == v
    ensures Tells(if v.Some? then records[key := v.value] else records, known + {key}, b, now)
  {
    hide Visible;
  }

  ghost predicate SameAnswers(b: Binding, start: Binding, now: int) {
    b == start.(order := b.order) && forall k :: Look(b, k, now).1 == Look(start, k, now).1
  }

  /** The split of the keys looked at so far. */
  ghost predicate SplitOk(seen: seq<string>, misses: seq<string>, records: map<string, Record>, start: Binding, now: int) {
    && (forall i, k :: 0 <= i < k < |misses| ==> misses[i] != misses[k])
    && (forall k :: k in misses <==> k in seen && Missed(start, k, now))
    && Tells(records, (set k | k in seen && k !in misses), start, now)
  }

  lemma SplitStep(seen: seq<string>, misses: seq<string>, records: map<string, Record>, start: Binding, now: int, key: string)
    requires SplitOk(seen, misses, records, start, now)
    requires var a := Look(start, key, now).1;
      a.Hit? ==> Visible(start.store, key, now, start.inclusive) == if a.found then Some(a.record) else None
    ensures var a := Look(start, key, now).1;
      SplitOk(seen + [key], if a.Hit? || key in misses then misses else misses + [key],
              if a.Hit? && a.found then records[key := a.record] else records, start, now)
  {
    hide Visible, Look;
    var a := Look(start, key, now).1;
    var known := set k | k in seen && k !in misses;
    if a.Hit? {
      TellsMore(records, known, key, if a.found then Some(a.record) else None, start, now);
      hide Tells;
      assert (set k | k in seen + [key] && k !in misses) == known + {key};
    } else {
      var misses' := if key in misses then misses else misses + [key];
      hide Tells;
      assert key !in known;
      assert (set k | k in seen + [key] && k !in misses') == known;
    }
  }

  function KeySet(keys: seq<string>): set<string> { set k | k in keys }

  lemma KeySetAdds(keys: seq<string>, key: string)
    ensures KeySet(keys + [key]) == KeySet(keys) + {key} && (key in KeySet(keys) <==> key in keys) && KeySet([]) == {}
  {
  }

  lemma SameStore(b: Binding, start: Binding, now: int)
    requires SameAnswers(b, start, now)
    ensures b == start.(order := b.order)
  {
  }

  /** What the store answered about one key. */
  function Answer(fetched: map<string, Record>, key: string): Option<Record> {
    if key in fetched then Some(fetched[key]) else None
  }

  /** Filling the cache with the store's answers, in the order of the misses. */
  function FillAll(b: Binding, misses: seq<string>, fetched: map<string, Record>, ttl: int, now: int): Binding
    decreases |misses|
  {
    if misses == [] then b
    else FillAll(Keep(b, misses[0], Answer(fetched, misses[0]), ttl, now, now), misses[1..], fetched, ttl, now)
  }

  function Merged(cached: map<string, Record>, misses: seq<string>, fetched: map<string, Record>): map<string, Record> {
    cached + map k | k in misses && k in fetched :: fetched[k]
  }

  lemma NothingMerged(cached: map<string, Record>, misses: seq<string>, fetched: map<string, Record>)
    ensures Merged(cached, misses[..0], fetched) == cached && misses[0..] == misses
  {
    assert (map k | k in misses[..0] && k in fetched :: fetched[k]) == map[];
  }

  lemma MergedNext(cached: map<string, Record>, misses: seq<string>, i: nat, fetched: map<string, Record>)
    requires i < |misses|
    ensures var (so, v) := (Merged(cached, misses[..i], fetched), Answer(fetched, misses[i]));
      Merged(cached, misses[..i + 1], fetched) == if v.Some? then so[misses[i] := v.value] else so
  {
    assert misses[..i + 1] == misses[..i] + [misses[i]];
  }

  lemma FillNext(b: Binding, misses: seq<string>, i: nat, fetched: map<string, Record>, ttl: int, now: int)
    requires i < |misses|
    ensures FillAll(b, misses[i..], fetched, ttl, now)
      == FillAll(Keep(b, misses[i], Answer(fetched, misses[i]), ttl, now, now), misses[i + 1..], fetched, ttl, now)
  {
    assert misses[i..][1..] == misses[i + 1..];
  }

  lemma FillDone(b: Binding, misses: seq<string>, fetched: map<string, Record>, ttl: int, now: int)
    ensures FillAll(b, misses[|misses|..], fetched, ttl, now) == b
  {
  }

  class BulkBinder {
    const binder: Binder

    constructor (binder: Binder)
      ensures this.binder == binder
    {
      this.binder := binder;
    }

    method LookUp(key: string, now: int) returns (a: Lookup)
      requires binder.Valid()
      modifies binder.cache
      ensures binder.Valid() && (binder.Now(), a) == Look(old(binder.Now()), key, now)
    {
      hide GetQ, GetA, LruCache.Valid;
      if binder.cache == null { return Miss; }
      PositiveCapacity(binder.cache);
      a := binder.cache.Get(key, now);
    }

    /** A further look-up at the same instant. */
    method LookUpAgain(key: string, now: int, ghost start: Binding) returns (a: Lookup)
      requires binder.Valid() && Ready(binder.Now(), now) && SameAnswers(binder.Now(), start, now)
      modifies binder.cache
      ensures binder.Valid() && Ready(binder.Now(), now) && SameAnswers(binder.Now(), start, now)
      ensures a == Look(start, key, now).1
      ensures a.Hit? ==> Visible(start.store, key, now, start.inclusive) == if a.found then Some(a.record) else None
    {
      hide *;
      LookOnce(binder.Now(), start, key, now);
      a := LookUp(key, now);
    }

    /** The cache/miss split: each missed key once, in order of first occurrence. */
    method Split(keys: seq<string>, now: int) returns (records: map<string, Record>, misses: seq<string>)
      requires binder.Valid() && Ready(binder.Now(), now)
      modifies binder.cache
      ensures binder.Valid() && Ready(binder.Now(), now) && binder.Now() == old(binder.Now()).(order := binder.Now().order)
      ensures SplitOk(keys, misses, records, old(binder.Now()), now)
    {
      hide *;
      records, misses := map[], [];
      var seenMiss: set<string> := {};
      KeySetAdds([], "");
      ghost var start := binder.Now();
      NothingSplit(start, now);
      assert keys[..0] == [];
      for i := 0 to |keys|
        invariant binder.Valid() && Ready(binder.Now(), now) && SameAnswers(binder.Now(), start, now)
        invariant seenMiss == KeySet(misses)
        invariant SplitOk(keys[..i], misses, records, start, now)
      {
        var key := keys[i];
        assert keys[..i + 1] == keys[..i] + [key];
        var a := LookUpAgain(key, now, start);
        SplitStep(keys[..i], misses, records, start, now, key);
        KeySetAdds(misses, key);
        if a.Hit? {
          if a.found { records := records[key := a.record]; }
        } else if key !in seenMiss {
          seenMiss := seenMiss + {key};
          misses := misses + [key];
        }
      }
      assert keys[..|keys|] == keys;
      SameStore(binder.Now(), start, now);
    }

    method Fill(key: string, v: Option<Record>, ttl: int, now: int)
      requires binder.Valid()
      modifies binder.cache
      ensures binder.Valid() && binder.Now() == Keep(old(binder.Now()), key, v, ttl, now, now)
    {
      hide PutQ, LruCache.Valid;
      if binder.cache != null {
        PositiveCapacity(binder.cache);
        binder.cache.Put(key, OrNone(v), v.Some?, ttl, now, now);
      }
    }

    /** The loop over the misses once the store has answered: the cache is filled and the answers are
        added to the cached ones. */
    method FillMisses(misses: seq<string>, fetched: map<string, Record>, cached: map<string, Record>, ttl: int, now: int)
      returns (records: map<string, Record>)
      requires binder.Valid()
      modifies binder.cache
      ensures binder.Valid() && binder.Now() == FillAll(old(binder.Now()), misses, fetched, ttl, now)
      ensures records == Merged(cached, misses, fetched)
    {
      hide *;
      records := cached;
      NothingMerged(cached, misses, fetched);
      for i := 0 to |misses|
        invariant binder.Valid()
        invariant FillAll(binder.Now(), misses[i..], fetched, ttl, now) == FillAll(old(binder.Now()), misses, fetched, ttl, now)
        invariant records == Merged(cached, misses[..i], fetched)
      {
        var key := misses[i];
        var v := Answer(fetched, key);
        FillNext(binder.Now(), misses, i, fetched, ttl, now);
        MergedNext(cached, misses, i, fetched);
        Fill(key, v, ttl, now);
        if v.Some? { records := records[key := v.value]; }
      }
      assert misses[..|misses|] == misses;
      FillDone(binder.Now(), misses, fetched, ttl, now);
    }
  }

  lemma NothingSplit(start: Binding, now: int)
    ensures SplitOk([], [], map[], start, now)
    ensures SameAnswers(start, start, now)
  {
  }

  lemma LookOnce(b: Binding, start: Binding, key: string, now: int)
    requires Ready(b, now) && SameAnswers(b, start, now)
    ensures var (t, a) := Look(b, key, now);
      && Ready(t, now) && SameAnswers(t, start, now) && a == Look(start, key, now).1
      && (a.Hit? ==> Visible(start.store, key, now, start.inclusive) == if a.found then Some(a.record) else None)
  {
    LookKeeps(b, key, now);
    if Look(b, key, now).1.Hit? {
      HitIsVisible(b, key, now);
    }
    forall k ensures Look(Look(b, key, now).0, k, now).1 == Look(b, k, now).1 {
      LookIsStable(b, key, k, now);
    }
  }

  // ---------------------------------------------------------------------------------
  // A bulk get among other calls
  // ---------------------------------------------------------------------------------

  /** The binding after some calls. */
  function After(b: Binding, ops: seq<Timed>): Binding
    decreases |ops|
  {
    if ops == [] then b else After(Step(b, ops[0].op, ops[0].now).0, ops[1..])
  }

  function ClockAfter(clock: int, ops: seq<Timed>): int { if ops == [] then clock else ops[|ops| - 1].now }

  function StoreAfter(store: map<string, Record>, ops: seq<Timed>): map<string, Record>
    decreases |ops|
  {
    if ops == [] then store else StoreAfter(PlainStore(store, ops[0].op), ops[1..])
  }

  lemma {:induction false} AfterReady(b: Binding, clock: int, ops: seq<Timed>)
    requires Ready(b, clock) && InTime(clock, ops)
    ensures var t := After(b, ops);
      && Ready(t, ClockAfter(clock, ops)) && clock <= ClockAfter(clock, ops)
      && t == b.(order := t.order, store := StoreAfter(b.store, ops))
    decreases |ops|
  {
    if ops != [] {
      hide Ready, Step, PlainStore;
      StepAgrees(b, clock, ops[0].op, ops[0].now);
      AfterReady(Step(b, ops[0].op, ops[0].now).0, ops[0].now, ops[1..]);
    }
  }

  /** The answer of a bulk get: a key the cache knew is answered as the store stood when it was looked
      up, at `now`; a key it did not know as the store stood when it was asked, at `asked`. */
  lemma BulkAnswers(start: Binding, now: int, keys: seq<string>, misses: seq<string>, cached: map<string, Record>,
                    later: Binding, asked: int, fetched: map<string, Record>, key: string)
    requires SplitOk(keys, misses, cached, start, now)
    requires forall k :: k in misses ==> Visible(later.store, k, asked, later.inclusive) == Answer(fetched, k)
    ensures var r := Merged(cached, misses, fetched);
      && r.Keys <= KeySet(keys)
      && (key in keys && key in misses ==> Answer(r, key) == Visible(later.store, key, asked, later.inclusive))
      && (key in keys && key !in misses ==> Answer(r, key) == Visible(start.store, key, now, start.inclusive))
  {
    hide Visible, Missed;
    assert key in keys && key !in misses ==> key in (set k | k in keys && k !in misses);
  }

  /** An entry the fill made. */
  predicate Filled(e: Entry, capacity: int, misses: seq<string>, fetched: map<string, Record>, ttl: int, now: int) {
    var v := Answer(fetched, e.key);
    e.key in misses && Admit(capacity, e.key, OrNone(v), v.Some?, ttl, now, now) == Some(e)
  }

  ghost predicate Bounded(b: Binding) {
    && Distinct(b.order)
    && (0 < b.capacity ==> Total(b.order) <= b.capacity)
    && (b.capacity <= 0 ==> b.order == [])
  }

  lemma KeepEntries(b: Binding, key: string, v: Option<Record>, ttl: int, now: int)
    requires Bounded(b)
    ensures var t := Keep(b, key, v, ttl, now, now);
      && Bounded(t) && t == b.(order := t.order)
      && forall e :: e in t.order ==>
           e in b.order || (e.key == key && Admit(b.capacity, key, OrNone(v), v.Some?, ttl, now, now) == Some(e))
  {
    var a := Admit(b.capacity, key, OrNone(v), v.Some?, ttl, now, now);
    if 0 < b.capacity && a.Some? {
      PutKeepsTheNewest(b.order, b.capacity, key, OrNone(v), v.Some?, ttl, now, now);
      AdmittedFits(b.capacity, key, OrNone(v), v.Some?, ttl, now, now);
      var t := PutQ(b.order, b.capacity, key, OrNone(v), v.Some?, ttl, now, now);
      hide Admit, PutQ, Distinct, Total;
      forall e | e in t ensures e == t[0] || e in b.order {
        if e != t[0] {
          assert e in t[1..];
          assert e in Without(b.order, key);
        }
      }
    }
  }

  lemma {:induction false} FillEntries(b: Binding, misses: seq<string>, fetched: map<string, Record>, ttl: int, now: int)
    requires Bounded(b)
    ensures var t := FillAll(b, misses, fetched, ttl, now);
      && Bounded(t) && t == b.(order := t.order)
      && forall e :: e in t.order ==> e in b.order || Filled(e, b.capacity, misses, fetched, ttl, now)
    decreases |misses|
  {
    hide Bounded, Keep, Admit;
    if misses != [] {
      var b1 := Keep(b, misses[0], Answer(fetched, misses[0]), ttl, now, now);
      KeepEntries(b, misses[0], Answer(fetched, misses[0]), ttl, now);
      FillEntries(b1, misses[1..], fetched, ttl, now);
    }
  }

  lemma FilledOk(e: Entry, b: Binding, misses: seq<string>, fetched: map<string, Record>, ttl: int, now: int)
    requires Filled(e, b.capacity, misses, fetched, ttl, now)
    ensures EntryOk(e, b.store, now, b.inclusive) <==> Visible(b.store, e.key, now, b.inclusive) == Answer(fetched, e.key)
  {
  }

  /** Whatever happened in between, filling leaves the cache coherent exactly if every entry it made that
      is still there says what the store says by then. */
  lemma FillExact(b: Binding, misses: seq<string>, fetched: map<string, Record>, ttl: int, now: int)
    requires Ready(b, now)
    ensures var t := FillAll(b, misses, fetched, ttl, now);
      Ready(t, now) <==>
        forall e :: e in t.order && Filled(e, b.capacity, misses, fetched, ttl, now) ==>
          Visible(b.store, e.key, now, b.inclusive) == Answer(fetched, e.key)
  {
    hide EntryOk, Visible, Filled, FillAll, Distinct, Total;
    FillEntries(b, misses, fetched, ttl, now);
    var t := FillAll(b, misses, fetched, ttl, now);
    forall e | e in t.order && Filled(e, b.capacity, misses, fetched, ttl, now)
      ensures EntryOk(e, b.store, now, b.inclusive) <==> Visible(b.store, e.key, now, b.inclusive) == Answer(fetched, e.key)
    {
      FilledOk(e, b, misses, fetched, ttl, now);
    }
  }

  /** The calls write no missed key. */
  predicate Untouched(ops: seq<Timed>, misses: seq<string>) {
    forall x :: x in ops && !x.op.Get? && !x.op.fails ==> x.op.key !in misses
  }

  lemma {:induction false} UntouchedStays(store: map<string, Record>, ops: seq<Timed>, misses: seq<string>, key: string)
    requires Untouched(ops, misses) && key in misses
    ensures var t := StoreAfter(store, ops); (key in t <==> key in store) && (key in t ==> t[key] == store[key])
    decreases |ops|
  {
    if ops != [] {
      assert ops[0] in ops;
      UntouchedStays(PlainStore(store, ops[0].op), ops[1..], misses, key);
    }
  }

  /** The cache stays coherent through a bulk get when no missed key is written between the store's answer
      and the fill, whatever other calls there are. */
  lemma BulkGetKeepsCoherence(b: Binding, asked: int, misses: seq<string>, fetched: map<string, Record>, ops: seq<Timed>, ttl: int, now: int)
    requires Ready(b, asked) && InTime(asked, ops) && ClockAfter(asked, ops) <= now && Untouched(ops, misses)
    requires forall k :: k in misses ==> Visible(b.store, k, asked, b.inclusive) == Answer(fetched, k)
    ensures Ready(FillAll(After(b, ops), misses, fetched, ttl, now), now)
  {
    hide FillAll, StoreAfter;
    AfterReady(b, asked, ops);
    var b1 := After(b, ops);
    TimePasses(b1, ClockAfter(asked, ops), now);
    FillExact(b1, misses, fetched, ttl, now);
    var t := FillAll(b1, misses, fetched, ttl, now);
    forall e | e in t.order && Filled(e, b1.capacity, misses, fetched, ttl, now)
      ensures Visible(b1.store, e.key, now, b1.inclusive) == Answer(fetched, e.key)
    {
      UntouchedStays(b.store, ops, misses, e.key);
      StillVisible(b.store, b1.store, e, asked, now, b.capacity, b.inclusive, misses, fetched, ttl);
    }
  }

  lemma StillVisible(store: map<string, Record>, store': map<string, Record>, e: Entry, asked: int, now: int,
                     capacity: int, inclusive: bool, misses: seq<string>, fetched: map<string, Record>, ttl: int)
    requires asked <= now && (e.key in store' <==> e.key in store) && (e.key in store ==> store'[e.key] == store[e.key])
    requires Filled(e, capacity, misses, fetched, ttl, now)
    requires Visible(store, e.key, asked, inclusive) == Answer(fetched, e.key)
    ensures Visible(store', e.key, now, inclusive) == Answer(fetched, e.key)
  {
  }

  /** A late refill at work: get reads the old record, put writes a new one and invalidates, the refill
      lands, and the next get answers with the old record. */
  lemma StaleAfterRefill(key: string, r0: Record, r1: Record, ttl: int)
    requires r0 != r1 && r0.expiration == None && r1.expiration == None && ttl > 1
    ensures var b := Binding(SizeOf(key, r0) + 1, [], map[key := r0], false);
      var read := Visible(b.store, key, 0, false);
      var written := Step(b, Put(key, r1, false), 0).0;
      var refilled := Keep(written, key, read, ttl, 0, 0);
      && Ready(b, 0)
      && Step(refilled, Get(key, ttl, false), 1).1 == Value(Some(r0))
      && Plain(refilled.store, Get(key, ttl, false), 1, false) == Value(Some(r1))
  {
    var e := Entry(key, r0, true, ttl, SizeOf(key, r0));
    assert Without([], key) == [];
    assert [e][1..] == [] && Total([e]) == e.size;
    assert Trim([e] + [], SizeOf(key, r0) + 1) == [e];
  }

  /** Two readings of the clock at work: a record that expires at 10 is put with readings 0 and 5, and is
      served from the cache at 12, when the store has it no more. */
  lemma StaleHit(key: string, value: seq<Byte>)
    ensures var record := Record(value, [], Some(10));
      var q := PutQ([], SizeOf(key, record), key, record, true, 60, 0, 5);
      && GetA(q, key, 12) == Hit(record, true)
      && Visible(map[key := record], key, 12, true) == None
  {
    var record := Record(value, [], Some(10));
    var e := Entry(key, record, true, 15, SizeOf(key, record));
    assert Without([], key) == [];
    assert [e][1..] == [] && Total([e]) == e.size;
    assert Trim([e] + [], SizeOf(key, record)) == [e];
  }
}

/** cloudflarekv/cache.go, cachingReadCloser: a body on its way to the reader fills the cache, but only
    when all of it came through and fits. */
module CachingReader {
  import opened CacheModel

  datatype Err = NoErr | Eof | Broken

  /** What one call of Read on the body gave. */
  datatype Chunk = Chunk(data: seq<Byte>, err: Err)

  function Bytes(calls: seq<Chunk>): seq<Byte> {
    if calls == [] then [] else Bytes(calls[..|calls| - 1]) + calls[|calls| - 1].data
  }

  /** The number of the first read that reported the end, or of all reads. */
  function FirstEof(calls: seq<Chunk>): nat {
    if calls == [] || calls[0].err.Eof? then 0 else 1 + FirstEof(calls[1..])
  }

  predicate Fits(overhead: nat, maximum: int, body: seq<Byte>) {
    body == [] || overhead + |body| <= maximum
  }

  /** The bodies to be cached: the one read up to the end, if it fits. */
  function Complete(overhead: nat, maximum: int, calls: seq<Chunk>): seq<seq<Byte>> {
    var n := FirstEof(calls);
    if n < |calls| && Fits(overhead, maximum, Bytes(calls[..n + 1])) then [Bytes(calls[..n + 1])] else []
  }

  class Reader {
    const overhead: nat
    const maximum: int
    /** Whether the body may be cached by its declared size, if it has one. */
    const wanted: bool
    var buffer: seq<Byte>
    var cacheable: bool
    var once: bool
    /** The bodies handed to cache.put. */
    var put: seq<seq<Byte>>
    ghost var calls: seq<Chunk>

    /** `overhead` is the length of key and metadata; `maximum` the room for an entry; a negative
        `declared` size is unknown. */
    constructor (overhead: nat, maximum: int, declared: int)
      ensures Valid() && calls == [] && this.overhead == overhead && this.maximum == maximum
      ensures wanted <==> declared < 0 || declared + overhead <= maximum
    {
      this.overhead, this.maximum := overhead, maximum;
      wanted := declared < 0 || declared + overhead <= maximum;
      buffer, cacheable, once, put, calls := [], declared < 0 || declared + overhead <= maximum, false, [], [];
    }

    /** The buffer is all that was read as long as that fits, and the cache got exactly the complete
        body, once; a body declared too large is never kept. */
    ghost predicate Valid()
      reads this
    {
      && (cacheable <==> wanted && Fits(overhead, maximum, Bytes(calls)))
      && (cacheable ==> buffer == Bytes(calls))
      && (if wanted then put == Complete(overhead, maximum, calls) else put == [])
      && (once <==> put != [])
    }

    method Read(c: Chunk)
      requires Valid()
      modifies this
      ensures Valid() && calls == old(calls) + [c]
    {
      hide Bytes, Complete;
      BytesGrow(calls, c);
      CompleteGrows(overhead, maximum, calls, c);
      if |c.data| > 0 && cacheable {
        if overhead + |buffer| + |c.data| <= maximum {
          buffer := buffer + c.data;
        } else {
          cacheable := false;
          buffer := [];
        }
      }
      calls := calls + [c];
      if c.err.Eof? && cacheable && !once {
        once := true;
        put := put + [buffer];
      }
    }
  }

  lemma BytesGrow(calls: seq<Chunk>, c: Chunk)
    ensures Bytes(calls + [c]) == Bytes(calls) + c.data
  {
    assert (calls + [c])[..|calls|] == calls;
  }

  lemma {:induction false} BytesOfPrefix(calls: seq<Chunk>, n: nat)
    requires n <= |calls|
    ensures |Bytes(calls[..n])| <= |Bytes(calls)|
    decreases |calls|
  {
    if n < |calls| {
      var init := calls[..|calls| - 1];
      BytesOfPrefix(init, n);
      assert init[..n] == calls[..n];
    } else {
      assert calls[..n] == calls;
    }
  }

  /** A body is complete with this read exactly if it ends here, fits, and was not complete before. */
  lemma CompleteGrows(overhead: nat, maximum: int, calls: seq<Chunk>, c: Chunk)
    ensures var all := calls + [c];
      Complete(overhead, maximum, all) ==
        if c.err.Eof? && Fits(overhead, maximum, Bytes(all)) && Complete(overhead, maximum, calls) == [] then [Bytes(all)]
        else Complete(overhead, maximum, calls)
  {
    var all, n := calls + [c], FirstEof(calls);
    FirstEofGrows(calls, c);
    if n < |calls| {
      BytesOfPrefix(all, n + 1);
    } else {
      assert all[..|all|] == all;
    }
  }

  lemma {:induction false} FirstEofGrows(calls: seq<Chunk>, c: Chunk)
    ensures FirstEof(calls) <= |calls|
    ensures var all, n := calls + [c], FirstEof(calls);
      if n < |calls| then FirstEof(all) == n && all[..n + 1] == calls[..n + 1]
      else FirstEof(all) == n + if c.err.Eof? then 0 else 1
  {
    if calls == [] {
      assert (calls + [c])[1..] == [];
    } else {
      assert (calls + [c])[1..] == calls[1..] + [c];
      FirstEofGrows(calls[1..], c);
    }
  }
}
