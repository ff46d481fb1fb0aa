/** cloudflarekv/cache.go: the byte-bounded cache, as a sequence ordered by recency, front first.

    Records are values here: cloneRecord is the identity on them. The clock is an integer. */
module CacheModel {

  type Byte(==, !new)
  datatype Option<T> = None | Some(value: T)
  datatype Record = Record(value: seq<Byte>, metadata: seq<Byte>, expiration: Option<int>)

  /** cacheEntry; `found` false remembers that the store has no such key. */
  datatype Entry = Entry(key: string, record: Record, found: bool, expiresAt: int, size: nat)

  datatype Lookup = Miss | Hit(record: Record, found: bool)

  function Find(q: seq<Entry>, key: string): (r: Option<Entry>)
    ensures r.Some? ==> r.value in q && r.value.key == key
    ensures r.None? ==> forall e :: e in q ==> e.key != key
  {
    if q == [] then None else if q[0].key == key then Some(q[0]) else Find(q[1..], key)
  }

  function Without(q: seq<Entry>, key: string): (r: seq<Entry>)
    ensures |r| <= |q|
    ensures forall e :: e in r ==> e in q
    ensures forall e :: e in q && e.key != key ==> e in r
  {
    if q == [] then [] else if q[0].key == key then q[1..] else [q[0]] + Without(q[1..], key)
  }

  function Total(q: seq<Entry>): nat {
    if q == [] then 0 else q[0].size + Total(q[1..])
  }

  predicate Distinct(q: seq<Entry>) {
    forall i, k :: 0 <= i < k < |q| ==> q[i].key != q[k].key
  }

  /** Drop entries from the back until the rest fits. */
  function Trim(q: seq<Entry>, capacity: int): seq<Entry>
    decreases |q|
  {
    if q == [] || Total(q) <= capacity then q else Trim(q[..|q| - 1], capacity)
  }

  function GetQ(q: seq<Entry>, key: string, now: int): seq<Entry> {
    match Find(q, key)
    case None => q
    case Some(e) => if now < e.expiresAt then [e] + Without(q, key) else Without(q, key)
  }

  function GetA(q: seq<Entry>, key: string, now: int): Lookup {
    match Find(q, key)
    case None => Miss
    case Some(e) => if now < e.expiresAt then Hit(e.record, e.found) else Miss
  }

  function SizeOf(key: string, record: Record): nat { |key| + |record.value| + |record.metadata| }

  /** The entry that put makes, if it makes one. put reads the clock twice: `until` to see how long the
      record still lives, `now` to date the entry. */
  function Admit(capacity: int, key: string, record: Record, found: bool, ttl: int, until: int, now: int): Option<Entry> {
    var remaining := if record.expiration.Some? then record.expiration.value - until else ttl;
    if ttl <= 0 || remaining <= 0 || SizeOf(key, record) > capacity then None
    else Some(Entry(key, record, found, now + (if remaining < ttl then remaining else ttl), SizeOf(key, record)))
  }

  function PutQ(q: seq<Entry>, capacity: int, key: string, record: Record, found: bool, ttl: int, until: int, now: int): seq<Entry> {
    match Admit(capacity, key, record, found, ttl, until, now)
    case None => q
    case Some(e) => Trim([e] + Without(q, key), capacity)
  }

  // ---------------------------------------------------------------------------------
  // Facts about sequences of entries
  // ---------------------------------------------------------------------------------

  lemma {:induction false} TotalAppend(a: seq<Entry>, b: seq<Entry>)
    ensures Total(a + b) == Total(a) + Total(b)
  {
    if a == [] {
      assert a + b == b;
    } else {
      assert (a + b)[1..] == a[1..] + b;
      TotalAppend(a[1..], b);
    }
  }

  lemma {:induction false} WithoutDistinct(q: seq<Entry>, key: string)
    requires Distinct(q)
    ensures Distinct(Without(q, key)) && forall e :: e in Without(q, key) ==> e.key != key
  {
    if q != [] {
      if q[0].key == key {
        forall e | e in q[1..] ensures e.key != key {
          var i :| 0 <= i < |q[1..]| && q[1..][i] == e;
          assert q[i + 1] == e;
        }
      } else {
        WithoutDistinct(q[1..], key);
        var r := Without(q[1..], key);
        forall i | 0 <= i < |r| ensures q[0].key != r[i].key {
          assert r[i] in q[1..];
        }
      }
    }
  }

  lemma {:induction false} WithoutTotal(q: seq<Entry>, key: string)
    ensures Total(Without(q, key)) == Total(q) - if Find(q, key).Some? then Find(q, key).value.size else 0
  {
    if q != [] && q[0].key != key {
      WithoutTotal(q[1..], key);
    }
  }

  lemma {:induction false} WithoutLast(q: seq<Entry>)
    requires q != [] && Distinct(q)
    ensures Without(q, q[|q| - 1].key) == q[..|q| - 1]
  {
    if |q| > 1 {
      WithoutLast(q[1..]);
      assert q[..|q| - 1] == [q[0]] + q[1..][..|q| - 2];
    }
  }

  lemma {:induction false} FindInDistinct(q: seq<Entry>, e: Entry)
    requires Distinct(q) && e in q
    ensures Find(q, e.key) == Some(e)
  {
    if q[0] != e {
      FindInDistinct(q[1..], e);
      var i :| 0 < i < |q| && q[i] == e;
    }
  }

  lemma PushedDistinct(e: Entry, q: seq<Entry>)
    requires Distinct(q) && forall x :: x in q ==> x.key != e.key
    ensures Distinct([e] + q) && Total([e] + q) == e.size + Total(q)
  {
    assert ([e] + q)[1..] == q;
    forall i | 0 <= i < |q| ensures q[i].key != e.key {
      assert q[i] in q;
    }
  }

  /** Trim keeps the longest front part that fits. */
  lemma {:induction false} TrimIsLongestFit(q: seq<Entry>, capacity: nat)
    ensures var t := Trim(q, capacity);
      && t <= q && Total(t) <= capacity
      && (|t| < |q| ==> Total(q[..|t| + 1]) > capacity)
    decreases |q|
  {
    if q != [] && Total(q) > capacity {
      var r := q[..|q| - 1];
      TrimIsLongestFit(r, capacity);
      var t := Trim(q, capacity);
      if |t| < |r| {
        assert r[..|t| + 1] == q[..|t| + 1];
      } else {
        assert q[..|t| + 1] == q;
      }
    }
  }

  /** What a put that makes an entry leaves: the new entry in front, then the most recently used others
      as far as they fit. The entry just put is never evicted. */
  lemma PutKeepsTheNewest(q: seq<Entry>, capacity: nat, key: string, record: Record, found: bool, ttl: int, until: int, now: int)
    requires Distinct(q) && Admit(capacity, key, record, found, ttl, until, now).Some?
    ensures var t := PutQ(q, capacity, key, record, found, ttl, until, now);
      && t != [] && t[0] == Admit(capacity, key, record, found, ttl, until, now).value
      && Distinct(t) && Total(t) <= capacity
      && t[1..] <= Without(q, key)
      && (|t| <= |Without(q, key)| ==> Total(t) + Without(q, key)[|t| - 1].size > capacity)
  {
    var e := Admit(capacity, key, record, found, ttl, until, now).value;
    hide Admit;
    WithoutDistinct(q, key);
    InsertKeepsTheNewest(Without(q, key), capacity, e);
  }

  lemma InsertKeepsTheNewest(w: seq<Entry>, capacity: nat, e: Entry)
    requires Distinct(w) && e.size <= capacity && forall x :: x in w ==> x.key != e.key
    ensures var t := Trim([e] + w, capacity);
      && t != [] && t[0] == e && Distinct(t) && Total(t) <= capacity
      && t[1..] <= w
      && (|t| <= |w| ==> Total(t) + w[|t| - 1].size > capacity)
  {
    hide Distinct;
    var all := [e] + w;
    PushedDistinct(e, w);
    TrimIsLongestFit(all, capacity);
    var t := Trim(all, capacity);
    assert all[..1] == [e] && [e][1..] == [];
    assert Total([e]) == e.size;
    assert t[1..] == w[..|t| - 1];
    if |t| < |all| {
      var next := all[|t|];
      assert all[..|t| + 1] == t + [next];
      TotalAppend(t, [next]);
      assert [next][1..] == [] && Total([next]) == next.size;
    }
    PrefixDistinct(t, all);
  }

  lemma PrefixDistinct(t: seq<Entry>, all: seq<Entry>)
    requires t <= all && Distinct(all)
    ensures Distinct(t)
  {
  }

  lemma GetKeepsEntries(q: seq<Entry>, key: string, now: int)
    requires Distinct(q)
    ensures Distinct(GetQ(q, key, now)) && Total(GetQ(q, key, now)) <= Total(q)
    ensures forall e :: e in GetQ(q, key, now) ==> e in q
    ensures forall e :: e in q && (e.key != key || now < e.expiresAt) ==> e in GetQ(q, key, now)
    ensures GetA(q, key, now).Hit? ==> GetQ(q, key, now)[0].key == key && Total(GetQ(q, key, now)) == Total(q)
  {
    WithoutDistinct(q, key);
    WithoutTotal(q, key);
    if Find(q, key).Some? {
      PushedDistinct(Find(q, key).value, Without(q, key));
    }
    forall e | e in q && e.key == key ensures Find(q, key) == Some(e) {
      FindInDistinct(q, e);
    }
  }

  /** The cache answers from an entry exactly while there is one that has not expired. */
  lemma HitsWhatIsThere(q: seq<Entry>, key: string, now: int)
    requires Distinct(q)
    ensures GetA(q, key, now).Hit? <==> exists e :: e in q && e.key == key && now < e.expiresAt
    ensures forall e :: e in q && e.key == key && now < e.expiresAt ==> GetA(q, key, now) == Hit(e.record, e.found)
  {
    forall e | e in q && e.key == key ensures Find(q, key) == Some(e) {
      FindInDistinct(q, e);
    }
  }

  /** What is put is served: a record that fits and has not expired, put for a positive ttl, is what a get finds
      exactly as long as neither the ttl nor the record has run out. A put that does not meet this leaves
      the cache as it was. */
  lemma PutIsServed(q: seq<Entry>, capacity: nat, key: string, record: Record, found: bool, ttl: int, at: int, now: int)
    requires Distinct(q) && at <= now
    ensures var t := PutQ(q, capacity, key, record, found, ttl, at, at);
      if ttl > 0 && SizeOf(key, record) <= capacity && (record.expiration.Some? ==> at < record.expiration.value) then
        GetA(t, key, now) ==
          if now < at + ttl && (record.expiration.Some? ==> now < record.expiration.value) then Hit(record, found) else Miss
      else t == q
  {
    var a := Admit(capacity, key, record, found, ttl, at, at);
    if a.Some? {
      PutKeepsTheNewest(q, capacity, key, record, found, ttl, at, at);
      var t := PutQ(q, capacity, key, record, found, ttl, at, at);
      assert t[0] in t && t[0].key == key;
      FindInDistinct(t, t[0]);
    }
  }

  /** What is deleted is not served, and nothing else is touched; a put touches others only to evict them. */
  lemma OthersAreServed(q: seq<Entry>, capacity: nat, key: string, record: Record, found: bool, ttl: int, at: int, other: string, now: int)
    requires Distinct(q)
    ensures GetA(Without(q, key), key, now) == Miss
    ensures other != key ==> GetA(Without(q, key), other, now) == GetA(q, other, now)
    ensures other != key ==>
      var a := GetA(PutQ(q, capacity, key, record, found, ttl, at, at), other, now);
      a == GetA(q, other, now) || a == Miss
  {
    WithoutDistinct(q, key);
    OthersStay(q, key, other);
    var a := Admit(capacity, key, record, found, ttl, at, at);
    if a.Some? && other != key {
      PutKeepsTheNewest(q, capacity, key, record, found, ttl, at, at);
      AdmittedFits(capacity, key, record, found, ttl, at, at);
      var t := PutQ(q, capacity, key, record, found, ttl, at, at);
      hide Admit, PutQ, Without;
      if Find(t, other).Some? {
        var e := Find(t, other).value;
        assert e in t[1..];
        assert e in Without(q, key);
        FindInDistinct(q, e);
      }
    }
  }

  lemma {:induction false} OthersStay(q: seq<Entry>, key: string, other: string)
    requires Distinct(q)
    ensures Find(Without(q, key), key) == None
    ensures other != key ==> Find(Without(q, key), other) == Find(q, other)
  {
    WithoutDistinct(q, key);
    if Find(q, other).Some? && other != key {
      FindInDistinct(Without(q, key), Find(q, other).value);
    }
  }

  // ---------------------------------------------------------------------------------
  // The order is the order of last use
  // ---------------------------------------------------------------------------------

  /** `used` says at which call, before call n, a key was last put or hit. */
  ghost predicate ByRecency(q: seq<Entry>, used: map<string, nat>, n: nat) {
    && (forall e :: e in q ==> e.key in used && used[e.key] < n)
    && forall i, k :: 0 <= i < k < |q| ==> used[q[i].key] > used[q[k].key]
  }

  lemma {:induction false} WithoutByRecency(q: seq<Entry>, key: string, used: map<string, nat>, n: nat)
    requires ByRecency(q, used, n)
    ensures ByRecency(Without(q, key), used, n)
  {
    if q != [] {
      assert ByRecency(q[1..], used, n) by {
        forall i, k | 0 <= i < k < |q[1..]| ensures used[q[1..][i].key] > used[q[1..][k].key] {
          assert used[q[i + 1].key] > used[q[k + 1].key];
        }
      }
      if q[0].key != key {
        WithoutByRecency(q[1..], key, used, n);
        var r := Without(q[1..], key);
        forall k | 0 <= k < |r| ensures used[q[0].key] > used[r[k].key] {
          assert r[k] in q[1..];
          var i :| 0 <= i < |q[1..]| && q[1..][i] == r[k];
          assert q[i + 1] == r[k];
        }
      }
    }
  }

  lemma FrontByRecency(e: Entry, q: seq<Entry>, used: map<string, nat>, n: nat)
    requires ByRecency(q, used, n) && forall x :: x in q ==> x.key != e.key
    ensures ByRecency([e] + q, used[e.key := n], n + 1)
  {
    var all, used' := [e] + q, used[e.key := n];
    forall i, k | 0 <= i < k < |all| ensures used'[all[i].key] > used'[all[k].key] {
      assert q[k - 1] in q;
      assert i > 0 ==> q[i - 1] in q && used[q[i - 1].key] > used[q[k - 1].key];
    }
  }

  /** A hit makes its key the latest; a miss changes no order. */
  lemma GetByRecency(q: seq<Entry>, key: string, now: int, used: map<string, nat>, n: nat)
    requires Distinct(q) && ByRecency(q, used, n)
    ensures ByRecency(GetQ(q, key, now), if GetA(q, key, now).Hit? then used[key := n] else used, n + 1)
  {
    WithoutByRecency(q, key, used, n);
    WithoutDistinct(q, key);
    if GetA(q, key, now).Hit? {
      FrontByRecency(Find(q, key).value, Without(q, key), used, n);
    }
  }

  /** A put that makes an entry makes its key the latest; eviction, which takes from the back, takes the
      least recently used. */
  lemma PutByRecency(q: seq<Entry>, capacity: nat, key: string, record: Record, found: bool, ttl: int, until: int, now: int,
                     used: map<string, nat>, n: nat)
    requires Distinct(q) && ByRecency(q, used, n)
    ensures ByRecency(PutQ(q, capacity, key, record, found, ttl, until, now),
                      if Admit(capacity, key, record, found, ttl, until, now).Some? then used[key := n] else used, n + 1)
  {
    var a := Admit(capacity, key, record, found, ttl, until, now);
    if a.Some? {
      var all := [a.value] + Without(q, key);
      WithoutByRecency(q, key, used, n);
      WithoutDistinct(q, key);
      FrontByRecency(a.value, Without(q, key), used, n);
      TrimIsLongestFit(all, capacity);
      PrefixByRecency(Trim(all, capacity), all, used[key := n], n + 1);
    }
  }

  lemma AdmittedFits(capacity: int, key: string, record: Record, found: bool, ttl: int, until: int, now: int)
    ensures var a := Admit(capacity, key, record, found, ttl, until, now);
      a.Some? ==> a.value.key == key && a.value.size <= capacity
  {
  }

  lemma PutIs(q: seq<Entry>, capacity: int, key: string, record: Record, found: bool, ttl: int, until: int, now: int)
    ensures var a := Admit(capacity, key, record, found, ttl, until, now);
      PutQ(q, capacity, key, record, found, ttl, until, now) ==
        if a.Some? then Trim([a.value] + Without(q, key), capacity) else q
  {
  }

  lemma LaterByRecency(q: seq<Entry>, used: map<string, nat>, n: nat)
    requires ByRecency(q, used, n)
    ensures ByRecency(q, used, n + 1)
  {
  }

  lemma PrefixByRecency(t: seq<Entry>, all: seq<Entry>, used: map<string, nat>, n: nat)
    requires t <= all && ByRecency(all, used, n)
    ensures ByRecency(t, used, n)
  {
    forall e | e in t ensures e in all {}
  }

  // ---------------------------------------------------------------------------------
  // The cache
  // ---------------------------------------------------------------------------------

  /** The map and the list hold the same entries. */
  ghost predicate Indexes(entries: map<string, Entry>, order: seq<Entry>) {
    && (forall e :: e in order ==> e.key in entries && entries[e.key] == e)
    && (forall k :: k in entries ==> entries[k] in order && entries[k].key == k)
  }

  /** The list has no key twice, the map finds its entries, and size is their sum. */
  ghost predicate Consistent(entries: map<string, Entry>, order: seq<Entry>, size: int) {
    Distinct(order) && Indexes(entries, order) && size == Total(order)
  }

  lemma NoKeyTwice(entries: map<string, Entry>, order: seq<Entry>, size: int)
    requires Consistent(entries, order, size)
    ensures Distinct(order)
  {
  }

  lemma PushedIndexes(entries: map<string, Entry>, order: seq<Entry>, e: Entry)
    requires Indexes(entries, order) && forall x :: x in order ==> x.key != e.key
    ensures Indexes(entries[e.key := e], [e] + order)
  {
  }

  class LruCache {
    const capacity: int
    var size: int
    var entries: map<string, Entry>
    var order: seq<Entry>
    /** The number of calls so far, and at which of them a key was last put or hit. */
    ghost var calls: nat
    ghost var used: map<string, nat>

    ghost predicate Linked()
      reads this
    {
      Consistent(entries, order, size)
    }

    /** Map and list agree and fit, and the list runs from the most to the least recently used key. */
    ghost predicate Valid()
      reads this
    {
      Linked() && 0 < capacity && size <= capacity && ByRecency(order, used, calls)
    }

    constructor (capacity: int)
      requires capacity > 0
      ensures Valid() && order == [] && calls == 0 && this.capacity == capacity
    {
      this.capacity, size, entries, order := capacity, 0, map[], [];
      calls, used := 0, map[];
    }

    method Remove(e: Entry)
      requires Linked() && e in order
      modifies this`size, this`entries, this`order
      ensures Linked() && order == Without(old(order), e.key) && size <= old(size)
    {
      WithoutDistinct(order, e.key);
      WithoutTotal(order, e.key);
      FindInDistinct(order, e);
      entries := entries - {e.key};
      order := Without(order, e.key);
      size := size - e.size;
    }

    /** get, at one reading of the clock. */
    method Get(key: string, now: int) returns (r: Lookup)
      requires Valid()
      modifies this
      ensures Valid() && order == GetQ(old(order), key, now) && r == GetA(old(order), key, now)
      ensures calls == old(calls) + 1 && used == if r.Hit? then old(used)[key := old(calls)] else old(used)
    {
      hide Consistent, ByRecency, GetQ, GetA, Distinct;
      NoKeyTwice(entries, order, size);
      GetByRecency(order, key, now, used, calls);
      used := if GetA(order, key, now).Hit? then used[key := calls] else used;
      calls := calls + 1;
      r := LookUp(key, now);
    }

    method LookUp(key: string, now: int) returns (r: Lookup)
      requires Linked() && size <= capacity
      modifies this`size, this`entries, this`order
      ensures Linked() && size <= capacity && order == GetQ(old(order), key, now) && r == GetA(old(order), key, now)
    {
      GetKeepsEntries(order, key, now);
      if key !in entries { return Miss; }
      var e := entries[key];
      FindInDistinct(order, e);
      if now >= e.expiresAt {
        Remove(e);
        return Miss;
      }
      order := [e] + Without(order, key);
      return Hit(e.record, e.found);
    }

    method Put(key: string, record: Record, found: bool, ttl: int, until: int, now: int)
      requires Valid()
      modifies this
      ensures Valid() && order == PutQ(old(order), capacity, key, record, found, ttl, until, now)
      ensures calls == old(calls) + 1
      ensures used == if Admit(capacity, key, record, found, ttl, until, now).Some? then old(used)[key := old(calls)] else old(used)
    {
      hide Consistent, ByRecency, PutQ, Admit, Trim, Without, Distinct;
      NoKeyTwice(entries, order, size);
      PutByRecency(order, capacity, key, record, found, ttl, until, now, used, calls);
      AdmittedFits(capacity, key, record, found, ttl, until, now);
      PutIs(order, capacity, key, record, found, ttl, until, now);
      var e := MakeEntry(capacity, key, record, found, ttl, until, now);
      used := if e.Some? then used[key := calls] else used;
      calls := calls + 1;
      if e.Some? {
        Insert(e.value);
      }
    }

    /** The part of put before the lock. */
    static method MakeEntry(capacity: int, key: string, record: Record, found: bool, ttl: int, until: int, now: int) returns (e: Option<Entry>)
      ensures e == Admit(capacity, key, record, found, ttl, until, now)
    {
      if ttl <= 0 { return None; }
      var left := ttl;
      if record.expiration.Some? {
        var remaining := record.expiration.value - until;
        if remaining <= 0 { return None; }
        if remaining < left { left := remaining; }
      }
      var size := SizeOf(key, record);
      if size > capacity { return None; }
      return Some(Entry(key, record, found, now + left, size));
    }

    /** The locked part of put. */
    method Insert(e: Entry)
      requires Linked() && size <= capacity && e.size <= capacity
      modifies this`size, this`entries, this`order
      ensures Linked() && size <= capacity && order == Trim([e] + Without(old(order), e.key), capacity)
    {
      hide Trim;
      DropKey(e.key);
      PushFront(e);
      Evict(e);
    }

    method PushFront(e: Entry)
      requires Linked() && forall x :: x in order ==> x.key != e.key
      modifies this`size, this`entries, this`order
      ensures Linked() && order == [e] + old(order)
    {
      hide Distinct, Total, Indexes;
      PushedDistinct(e, order);
      PushedIndexes(entries, order, e);
      entries := entries[e.key := e];
      order := [e] + order;
      size := size + e.size;
    }

    method DropKey(key: string)
      requires Linked()
      modifies this`size, this`entries, this`order
      ensures Linked() && order == Without(old(order), key) && size <= old(size)
      ensures forall x :: x in order ==> x.key != key
    {
      WithoutDistinct(order, key);
      if key in entries {
        Remove(entries[key]);
      } else {
        AbsentUnchanged(order, key);
      }
    }

    /** The eviction loop: it ends without reaching the entry in front. */
    method Evict(e: Entry)
      requires Linked() && order != [] && order[0] == e && e.size <= capacity
      modifies this`size, this`entries, this`order
      ensures Linked() && order == Trim(old(order), capacity) && size <= capacity && order != [] && order[0] == e
    {
      while size > capacity
        invariant Linked() && order != [] && order[0] == e
        invariant Trim(order, capacity) == Trim(old(order), capacity)
        decreases |order|
      {
        var last := order[|order| - 1];
        assert |order| == 1 ==> Total(order) == e.size + Total([]);
        WithoutLast(order);
        Remove(last);
      }
    }

    method Delete(key: string)
      requires Valid()
      modifies this
      ensures Valid() && order == Without(old(order), key) && calls == old(calls) + 1 && used == old(used)
    {
      hide Consistent, ByRecency, Without;
      WithoutByRecency(order, key, used, calls);
      LaterByRecency(Without(order, key), used, calls);
      DropKey(key);
      calls := calls + 1;
    }
  }

  lemma {:induction false} AbsentUnchanged(q: seq<Entry>, key: string)
    requires forall e :: e in q ==> e.key != key
    ensures Without(q, key) == q
  {
    if q != [] {
      AbsentUnchanged(q[1..], key);
    }
  }
}
