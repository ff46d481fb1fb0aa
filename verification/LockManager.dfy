/** sqlite/vfs.go: the lock table of the SQLite VFS.

    aferoFile and memoryFile lock in the same way and are one class here. A lock state is a record in
    the manager's map. */
module LockTable {

  const NONE: nat := 0
  const SHARED: nat := 1
  const RESERVED: nat := 2
  const PENDING: nat := 3
  const EXCLUSIVE: nat := 4

  datatype Outcome = Ok | Busy | IoErr

  datatype LockState = LockState(shared: set<File>, reserved: File?, pending: File?, exclusive: File?)

  const Empty := LockState({}, null, null, null)

  /** The table, and the field `lock` of every open file. */
  datatype Locks = Locks(states: map<string, LockState>, level: map<File, nat>)

  function StateOf(s: Locks, name: string): LockState {
    if name in s.states then s.states[name] else Empty
  }

  /** lockManager.lock on one state: the outcome and the new state. */
  function Request(st: LockState, f: File, level: nat): (LockState, Outcome) {
    var others := (owner: File?) => owner != null && owner != f;
    if level == SHARED then
      if others(st.exclusive) || others(st.pending) then (st, Busy)
      else (st.(shared := st.shared + {f}), Ok)
    else if level == RESERVED then
      if others(st.exclusive) || others(st.reserved) then (st, Busy)
      else (st.(shared := st.shared + {f}, reserved := f), Ok)
    else if level == PENDING then
      if others(st.exclusive) || others(st.pending) then (st, Busy)
      else (st.(shared := st.shared + {f}, pending := f), Ok)
    else if level == EXCLUSIVE then
      if others(st.exclusive) || st.shared - {f} != {} || others(st.reserved) || others(st.pending) then (st, Busy)
      else (st.(exclusive := f, shared := st.shared - {f}), Ok)
    else (st, IoErr)
  }

  /** lockManager.unlock on one state. */
  function Release(st: LockState, f: File, level: nat): LockState {
    LockState(
      if level < SHARED then st.shared - {f} else st.shared + {f},
      if level < RESERVED && st.reserved == f then null else st.reserved,
      if level < PENDING && st.pending == f then null else st.pending,
      if level < EXCLUSIVE && st.exclusive == f then null else st.exclusive)
  }

  predicate NoOwner(st: LockState) {
    st.exclusive == null && st.pending == null && st.reserved == null && st.shared == {}
  }

  /** File.Lock, on an open file. */
  function Locked(s: Locks, f: File, level: nat): (Locks, Outcome)
    requires f in s.level
  {
    var st := StateOf(s, f.name);
    if level <= s.level[f] then (Locks(s.states[f.name := st], s.level[f := level]), Ok)
    else
      var (st', r) := Request(st, f, level);
      (Locks(s.states[f.name := st'], if r == Ok then s.level[f := level] else s.level), r)
  }

  /** File.Unlock, on an open file. */
  function Unlocked(s: Locks, f: File, level: nat): Locks
    requires f in s.level
  {
    var st := StateOf(s, f.name);
    if level >= s.level[f] then Locks(s.states[f.name := st], s.level[f := level])
    else
      var st' := Release(st, f, level);
      Locks(if NoOwner(st') then s.states - {f.name} else s.states[f.name := st'], s.level[f := level])
  }

  /** lockManager.reserved. */
  function Reserved(s: Locks, name: string): bool {
    name in s.states && s.states[name].reserved != null
  }

  /** The level a state gives a file. */
  function LevelIn(st: LockState, f: File): nat {
    if st.exclusive == f then EXCLUSIVE
    else if st.pending == f then PENDING
    else if st.reserved == f then RESERVED
    else if f in st.shared then SHARED
    else NONE
  }

  ghost predicate Opened(level: map<File, nat>, name: string, f: File?) {
    f != null ==> f in level && f.name == name
  }

  /** The owners of a name's locks are open files of that name, and the owner fields fit together. */
  ghost predicate StateOk(st: LockState, level: map<File, nat>, name: string) {
    && (forall f :: f in st.shared ==> Opened(level, name, f))
    && Opened(level, name, st.reserved) && Opened(level, name, st.exclusive)
    && st.pending == null
    && (st.exclusive != null ==> st.shared == {} && (st.reserved == null || st.reserved == st.exclusive))
    && (st.exclusive == null && st.reserved != null ==> st.reserved in st.shared)
    && (forall f :: f in level && f.name == name ==> level[f] == LevelIn(st, f))
  }

  ghost predicate Inv(s: Locks) {
    forall name: string :: StateOk(StateOf(s, name), s.level, name)
  }

  /** The levels that go with a reserved owner. */
  lemma ReservedByLevels(s: Locks, name: string)
    requires Inv(s)
    ensures Reserved(s, name) ==>
      exists f :: f in s.level && f.name == name && (s.level[f] == RESERVED || s.level[f] == EXCLUSIVE)
    ensures (exists f :: f in s.level && f.name == name && s.level[f] == RESERVED) ==> Reserved(s, name)
  {
    var st := StateOf(s, name);
    assert StateOk(st, s.level, name);
    if Reserved(s, name) {
      var f: File := st.reserved;
      assert s.level[f] == LevelIn(st, f);
    }
    if f :| f in s.level && f.name == name && s.level[f] == RESERVED {
      assert s.level[f] == LevelIn(st, f);
    }
  }

  class File {
    const name: string
    const manager: LockManager
    var lock: nat

    constructor (manager: LockManager, name: string)
      ensures this.name == name && this.manager == manager && lock == NONE
    {
      this.name, this.manager, lock := name, manager, NONE;
    }

    method Lock(level: nat, ghost files: set<File>) returns (r: Outcome)
      requires this in files && forall f :: f in files ==> f.manager == manager
      modifies this, manager
      ensures (manager.Now(files), r) == Locked(old(manager.Now(files)), this, level)
    {
      r := manager.LockFile(this, level);
      if r == Ok { lock := level; }
      assert manager.Now(files).level == Locked(old(manager.Now(files)), this, level).0.level;
    }

    method Unlock(level: nat, ghost files: set<File>)
      requires this in files && forall f :: f in files ==> f.manager == manager
      modifies this, manager
      ensures manager.Now(files) == Unlocked(old(manager.Now(files)), this, level)
    {
      manager.UnlockFile(this, level);
      lock := level;
    }

    method CheckReservedLock(ghost files: set<File>) returns (r: bool)
      ensures r == Reserved(manager.Now(files), name)
      ensures Inv(manager.Now(files)) && r ==>
        exists f :: f in files && f.name == name && (f.lock == RESERVED || f.lock == EXCLUSIVE)
      ensures Inv(manager.Now(files)) && (exists f :: f in files && f.name == name && f.lock == RESERVED) ==> r
    {
      if Inv(manager.Now(files)) {
        ReservedByLevels(manager.Now(files), name);
      }
      r := name in manager.states && manager.states[name].reserved != null;
    }

    /** Close gives up every lock. */
    method Close(ghost files: set<File>)
      requires this in files && forall f :: f in files ==> f.manager == manager
      modifies this, manager
      ensures manager.Now(files) == Unlocked(old(manager.Now(files)), this, NONE)
    {
      Unlock(NONE, files);
    }
  }

  class LockManager {
    var states: map<string, LockState>

    constructor ()
      ensures states == map[]
    {
      states := map[];
    }

    ghost function Now(files: set<File>): Locks
      reads this, files
    {
      Locks(states, map f | f in files :: f.lock)
    }

    /** The method state: a state is made for a name that has none. */
    method State(name: string) returns (st: LockState)
      modifies this
      ensures st == (if name in old(states) then old(states)[name] else Empty)
      ensures states == old(states)[name := st]
    {
      if name !in states { states := states[name := Empty]; }
      st := states[name];
    }

    /** The loop over the shared owners: is there one that is not f? */
    static method SharedByOther(shared: set<File>, f: File) returns (found: bool)
      ensures found <==> shared - {f} != {}
    {
      var owners := shared;
      while owners != {}
        invariant shared - {f} == owners - {f} && owners <= shared
        decreases |owners|
      {
        var owner :| owner in owners;
        if owner != f {
          assert owner in shared - {f};
          return true;
        }
        owners := owners - {owner};
      }
      return false;
    }

    /** The switch of lock. */
    static method RequestState(st: LockState, f: File, level: nat) returns (st': LockState, r: Outcome)
      ensures (st', r) == Request(st, f, level)
    {
      if level == SHARED {
        if (st.exclusive != null && st.exclusive != f) || (st.pending != null && st.pending != f) { return st, Busy; }
        return st.(shared := st.shared + {f}), Ok;
      } else if level == RESERVED {
        if (st.exclusive != null && st.exclusive != f) || (st.reserved != null && st.reserved != f) { return st, Busy; }
        return st.(shared := st.shared + {f}, reserved := f), Ok;
      } else if level == PENDING {
        if (st.exclusive != null && st.exclusive != f) || (st.pending != null && st.pending != f) { return st, Busy; }
        return st.(shared := st.shared + {f}, pending := f), Ok;
      } else if level == EXCLUSIVE {
        if st.exclusive != null && st.exclusive != f { return st, Busy; }
        var shared := SharedByOther(st.shared, f);
        if shared { return st, Busy; }
        if (st.reserved != null && st.reserved != f) || (st.pending != null && st.pending != f) { return st, Busy; }
        return st.(exclusive := f, shared := st.shared - {f}), Ok;
      }
      return st, IoErr;
    }

    method LockFile(f: File, level: nat) returns (r: Outcome)
      modifies this
      ensures var st := if f.name in old(states) then old(states)[f.name] else Empty;
        if level <= f.lock then states == old(states)[f.name := st] && r == Ok
        else states == old(states)[f.name := Request(st, f, level).0] && r == Request(st, f, level).1
    {
      hide Request;
      var st := State(f.name);
      if level <= f.lock { return Ok; }
      st, r := RequestState(st, f, level);
      states := states[f.name := st];
    }

    /** The assignments of unlock. */
    static method ReleaseState(st0: LockState, f: File, level: nat) returns (st: LockState)
      ensures st == Release(st0, f, level)
    {
      st := st0;
      if level < EXCLUSIVE && st.exclusive == f { st := st.(exclusive := null); }
      if level < PENDING && st.pending == f { st := st.(pending := null); }
      if level < RESERVED && st.reserved == f { st := st.(reserved := null); }
      if level < SHARED {
        st := st.(shared := st.shared - {f});
      } else {
        st := st.(shared := st.shared + {f});
      }
    }

    method UnlockFile(f: File, level: nat)
      modifies this
      ensures var st := if f.name in old(states) then old(states)[f.name] else Empty;
        states == if level >= f.lock then old(states)[f.name := st]
                  else if NoOwner(Release(st, f, level)) then old(states) - {f.name}
                  else old(states)[f.name := Release(st, f, level)]
    {
      hide Release;
      var st := State(f.name);
      if level >= f.lock { return; }
      st := ReleaseState(st, f, level);
      if st.exclusive == null && st.pending == null && st.reserved == null && |st.shared| == 0 {
        states := states - {f.name};
      } else {
        states := states[f.name := st];
      }
    }
  }
}

/** What SQLite relies on. */
module LockSafety {
  import opened LockTable

  /** SQLite's discipline: Lock raises, RESERVED is asked for with SHARED held, PENDING never. */
  predicate MayLock(s: Locks, f: File, level: nat) {
    f in s.level && s.level[f] < level <= EXCLUSIVE && level != PENDING && (level == RESERVED ==> s.level[f] == SHARED)
  }

  predicate MayUnlock(s: Locks, f: File, level: nat) {
    f in s.level && level <= SHARED && level <= s.level[f]
  }

  lemma RequestKeepsState(st: LockState, levels: map<File, nat>, f: File, level: nat)
    requires f in levels && StateOk(st, levels, f.name) && MayLock(Locks(map[], levels), f, level)
    ensures var (st', r) := Request(st, f, level);
      if r == Ok then StateOk(st', levels[f := level], f.name) else st' == st
  {
  }

  lemma ReleaseKeepsState(st: LockState, levels: map<File, nat>, f: File, level: nat)
    requires f in levels && StateOk(st, levels, f.name) && level <= SHARED && level <= levels[f]
    ensures StateOk(if level < levels[f] then Release(st, f, level) else st, levels[f := level], f.name)
  {
  }

  lemma OtherStateKept(st: LockState, levels: map<File, nat>, f: File, level: nat, name: string)
    requires StateOk(st, levels, name) && f in levels && f.name != name
    ensures StateOk(st, levels[f := level], name)
  {
  }

  lemma LockKeeps(s: Locks, f: File, level: nat)
    requires Inv(s) && MayLock(s, f, level)
    ensures Inv(Locked(s, f, level).0)
    ensures Locked(s, f, level).1 == Busy ==> Locked(s, f, level).0.level == s.level
    ensures Locked(s, f, level).1 != IoErr
  {
    var (t, r) := Locked(s, f, level);
    RequestKeepsState(StateOf(s, f.name), s.level, f, level);
    forall name: string ensures StateOk(StateOf(t, name), t.level, name) {
      assert StateOk(StateOf(s, name), s.level, name);
      if name != f.name {
        OtherStateKept(StateOf(s, name), s.level, f, level, name);
      }
    }
  }

  lemma UnlockKeeps(s: Locks, f: File, level: nat)
    requires Inv(s) && MayUnlock(s, f, level)
    ensures Inv(Unlocked(s, f, level))
  {
    var t := Unlocked(s, f, level);
    ReleaseKeepsState(StateOf(s, f.name), s.level, f, level);
    forall name: string ensures StateOk(StateOf(t, name), t.level, name) {
      assert StateOk(StateOf(s, name), s.level, name);
      if name != f.name {
        OtherStateKept(StateOf(s, name), s.level, f, level, name);
      }
    }
  }

  /** The levels of different connections to one database that SQLite allows side by side. */
  predicate Compatible(a: nat, b: nat) {
    || a == NONE || b == NONE
    || (a <= RESERVED && b <= RESERVED && (a == SHARED || b == SHARED))
  }

  ghost predicate Fits(s: Locks, f: File, level: nat) {
    forall g :: g in s.level && g != f && g.name == f.name ==> Compatible(level, s.level[g])
  }

  /** A request succeeds exactly when the levels of all other files on the database are compatible with
      it; a refused one changes nothing. */
  lemma GrantedIffCompatible(s: Locks, f: File, level: nat)
    requires Inv(s) && MayLock(s, f, level)
    ensures Locked(s, f, level).1 == Ok <==> Fits(s, f, level)
    ensures Locked(s, f, level).1 != Ok ==> Locked(s, f, level).0 == s
    ensures level == EXCLUSIVE ==>
      (Locked(s, f, level).1 == Ok <==> forall g :: g in s.level && g != f && g.name == f.name ==> s.level[g] == NONE)
  {
    var st := StateOf(s, f.name);
    var (st', r) := Request(st, f, level);
    assert StateOk(st, s.level, f.name);
    if r == Ok {
      forall g | g in s.level && g != f && g.name == f.name ensures Compatible(level, s.level[g]) {
        assert s.level[g] == LevelIn(st, g);
        assert level == EXCLUSIVE ==> g !in st.shared - {f};
      }
    } else {
      BusyHasOwner(st, s.level, f, level);
      assert st != Empty;
      assert f.name in s.states && s.states[f.name := st] == s.states;
    }
  }

  /** A refusal names a file in the way. */
  lemma BusyHasOwner(st: LockState, levels: map<File, nat>, f: File, level: nat)
    requires f in levels && StateOk(st, levels, f.name) && MayLock(Locks(map[], levels), f, level)
    requires Request(st, f, level).1 != Ok
    ensures st != Empty
    ensures exists g :: g in levels && g != f && g.name == f.name && !Compatible(level, levels[g])
  {
    var g: File? :=
      if st.exclusive != null && st.exclusive != f then st.exclusive
      else if st.reserved != null && st.reserved != f then st.reserved
      else if st.shared - {f} != {} then var g :| g in st.shared - {f}; g
      else null;
    assert g != null && g in levels && g.name == f.name;
    assert levels[g] == LevelIn(st, g);
  }

  datatype Op = OpLock(f: File, level: nat) | OpUnlock(f: File, level: nat) | OpOpen(f: File) | OpClose(f: File)

  predicate Enabled(s: Locks, op: Op) {
    match op
    case OpLock(f, level) => MayLock(s, f, level)
    case OpUnlock(f, level) => MayUnlock(s, f, level)
    case OpOpen(f) => f !in s.level
    case OpClose(f) => f in s.level
  }

  /** Closing a file unlocks it, and it is not used again. */
  function Apply(s: Locks, op: Op): Locks
    requires Enabled(s, op)
  {
    match op
    case OpLock(f, level) => Locked(s, f, level).0
    case OpUnlock(f, level) => Unlocked(s, f, level)
    case OpOpen(f) => s.(level := s.level[f := NONE])
    case OpClose(f) => var t := Unlocked(s, f, NONE); t.(level := t.level - {f})
  }

  lemma OpenKeeps(s: Locks, f: File)
    requires Inv(s) && f !in s.level
    ensures Inv(s.(level := s.level[f := NONE]))
  {
    var t := s.(level := s.level[f := NONE]);
    forall name: string ensures StateOk(StateOf(t, name), t.level, name) {
      assert StateOk(StateOf(s, name), s.level, name);
    }
  }

  lemma ForgetKeeps(s: Locks, f: File)
    requires Inv(s) && f in s.level && s.level[f] == NONE
    ensures Inv(s.(level := s.level - {f}))
  {
    var t := s.(level := s.level - {f});
    forall name: string ensures StateOk(StateOf(t, name), t.level, name) {
      assert StateOk(StateOf(s, name), s.level, name);
    }
  }

  lemma StepKeeps(s: Locks, op: Op)
    requires Inv(s) && Enabled(s, op)
    ensures Inv(Apply(s, op))
  {
    match op {
      case OpLock(f, level) => LockKeeps(s, f, level);
      case OpUnlock(f, level) => UnlockKeeps(s, f, level);
      case OpOpen(f) => OpenKeeps(s, f);
      case OpClose(f) =>
        UnlockKeeps(s, f, NONE);
        ForgetKeeps(Unlocked(s, f, NONE), f);
    }
  }

  predicate Leads(s: Locks, ops: seq<Op>, t: Locks)
    decreases |ops|
  {
    if ops == [] then s == t else Enabled(s, ops[0]) && Leads(Apply(s, ops[0]), ops[1..], t)
  }

  lemma {:induction false} EveryRunKeeps(s: Locks, ops: seq<Op>, t: Locks)
    requires Inv(s) && Leads(s, ops, t)
    ensures Inv(t)
    decreases |ops|
  {
    if ops != [] {
      StepKeeps(s, ops[0]);
      EveryRunKeeps(Apply(s, ops[0]), ops[1..], t);
    }
  }

  /** In every run that keeps the discipline, any two files open on one database hold compatible levels:
      an EXCLUSIVE holder excludes every other holder, and at most one holds RESERVED or more. */
  lemma HoldersAreCompatible(ops: seq<Op>, t: Locks, f: File, g: File)
    requires Leads(Locks(map[], map[]), ops, t)
    requires f in t.level && g in t.level && f != g && f.name == g.name
    ensures Compatible(t.level[f], t.level[g])
    ensures t.level[f] == EXCLUSIVE ==> t.level[g] == NONE
    ensures t.level[f] >= RESERVED ==> t.level[g] < RESERVED
  {
    EveryRunKeeps(Locks(map[], map[]), ops, t);
    var st := StateOf(t, f.name);
    assert StateOk(st, t.level, f.name);
    assert t.level[f] == LevelIn(st, f) && t.level[g] == LevelIn(st, g);
  }

  /** In every run, each file's level is the one the owner fields give it, and every owner is open. */
  lemma LevelsAgree(ops: seq<Op>, t: Locks, f: File)
    requires Leads(Locks(map[], map[]), ops, t) && f in t.level
    ensures t.level[f] == LevelIn(StateOf(t, f.name), f) && t.level[f] != PENDING
  {
    EveryRunKeeps(Locks(map[], map[]), ops, t);
    assert StateOk(StateOf(t, f.name), t.level, f.name);
  }

  /** A lock on one database leaves every other database as it was. */
  lemma NamesAreIndependent(s: Locks, f: File, level: nat, name: string)
    requires f in s.level && name != f.name
    ensures StateOf(Locked(s, f, level).0, name) == StateOf(s, name)
    ensures StateOf(Unlocked(s, f, level), name) == StateOf(s, name)
  {
  }

  /** Unlocking keeps the name in the table exactly if a lock on it is still held, or the call was idle:
      a file that holds nothing leaves an entry behind when it is closed. */
  lemma UnlockKeepsEntry(s: Locks, f: File, level: nat)
    requires Inv(s) && MayUnlock(s, f, level)
    ensures var t := Unlocked(s, f, level);
      f.name in t.states <==>
        level == s.level[f] || exists g :: g in t.level && g.name == f.name && t.level[g] != NONE
  {
    var t := Unlocked(s, f, level);
    UnlockKeeps(s, f, level);
    var st := StateOf(t, f.name);
    assert StateOk(st, t.level, f.name);
    if f.name in t.states && level < s.level[f] {
      assert !NoOwner(st);
      var g: File := if st.exclusive != null then st.exclusive else if st.reserved != null then st.reserved
                     else var g :| g in st.shared; g;
      assert g in t.level && t.level[g] == LevelIn(st, g);
    }
    if g :| g in t.level && g.name == f.name && t.level[g] != NONE {
      assert t.level[g] == LevelIn(st, g);
    }
  }

  /** A file that is granted EXCLUSIVE is seen by reserved() exactly if it held RESERVED before. */
  lemma ExclusiveSeenIffReserved(s: Locks, f: File)
    requires Inv(s) && MayLock(s, f, EXCLUSIVE) && Locked(s, f, EXCLUSIVE).1 == Ok
    ensures Reserved(Locked(s, f, EXCLUSIVE).0, f.name) <==> s.level[f] == RESERVED
    ensures StateOf(Locked(s, f, EXCLUSIVE).0, f.name).reserved == f <==> s.level[f] == RESERVED
  {
    var st := StateOf(s, f.name);
    assert StateOk(st, s.level, f.name);
    assert s.level[f] == LevelIn(st, f);
  }

  /** Nothing that others do changes what reserved() says while f holds EXCLUSIVE. */
  lemma ExclusiveIsUndisturbed(s: Locks, f: File, op: Op)
    requires Inv(s) && f in s.level && s.level[f] == EXCLUSIVE && Enabled(s, op)
    requires op != OpClose(f) && (op.OpUnlock? ==> op.f != f)
    ensures var t := Apply(s, op); f in t.level && t.level[f] == EXCLUSIVE && StateOf(t, f.name) == StateOf(s, f.name)
  {
    var st := StateOf(s, f.name);
    assert StateOk(st, s.level, f.name);
    assert LevelIn(st, f) == EXCLUSIVE;
    var g := op.f;
    if g != f && g.name == f.name && g in s.level {
      assert s.level[g] == LevelIn(st, g) == NONE;
      if op.OpLock? {
        GrantedIffCompatible(s, g, op.level);
        assert !Compatible(op.level, s.level[f]);
      }
    }
  }

  /** The level f held when it was last granted EXCLUSIVE in a run, or what it was before the run. */
  function RaisedFrom(s: Locks, ops: seq<Op>, f: File, was: nat): nat
    decreases |ops|
  {
    if ops == [] || !Enabled(s, ops[0]) then was
    else
      var op := ops[0];
      RaisedFrom(Apply(s, op), ops[1..], f,
                 if op == OpLock(f, EXCLUSIVE) && Locked(s, f, EXCLUSIVE).1 == Ok then s.level[f] else was)
  }

  /** An EXCLUSIVE holder owns the reserved field exactly if it was raised from RESERVED. */
  ghost predicate RaisedOk(s: Locks, f: File, was: nat) {
    f in s.level && s.level[f] == EXCLUSIVE ==> (StateOf(s, f.name).reserved == f <==> was == RESERVED)
  }

  lemma StepKeepsRaised(s: Locks, f: File, was: nat, op: Op)
    requires Inv(s) && RaisedOk(s, f, was) && Enabled(s, op)
    ensures RaisedOk(Apply(s, op), f,
                     if op == OpLock(f, EXCLUSIVE) && Locked(s, f, EXCLUSIVE).1 == Ok then s.level[f] else was)
  {
    if f in s.level && s.level[f] == EXCLUSIVE && op != OpClose(f) && (op.OpUnlock? ==> op.f != f) {
      ExclusiveIsUndisturbed(s, f, op);
    } else if op == OpLock(f, EXCLUSIVE) && Locked(s, f, EXCLUSIVE).1 == Ok {
      ExclusiveSeenIffReserved(s, f);
    }
  }

  lemma {:induction false} RunKeepsRaised(s: Locks, ops: seq<Op>, t: Locks, f: File, was: nat)
    requires Inv(s) && RaisedOk(s, f, was) && Leads(s, ops, t)
    ensures RaisedOk(t, f, RaisedFrom(s, ops, f, was))
    decreases |ops|
  {
    if ops != [] {
      var op := ops[0];
      StepKeeps(s, op);
      StepKeepsRaised(s, f, was, op);
      hide Inv, RaisedOk, Apply, Locked;
      assert Leads(Apply(s, op), ops[1..], t);
      RunKeepsRaised(Apply(s, op), ops[1..], t, f,
                     if op == OpLock(f, EXCLUSIVE) && Locked(s, f, EXCLUSIVE).1 == Ok then s.level[f] else was);
    }
  }

  /** In every run that keeps the discipline, reserved() is true exactly if a file holds RESERVED, or
      holds EXCLUSIVE that it was granted while it held RESERVED: it misses a file that went from
      SHARED, or from NONE, straight to EXCLUSIVE. */
  lemma ReservedSees(ops: seq<Op>, t: Locks, name: string)
    requires Leads(Locks(map[], map[]), ops, t)
    ensures Reserved(t, name) <==>
      exists f :: f in t.level && f.name == name
        && (t.level[f] == RESERVED
            || (t.level[f] == EXCLUSIVE && RaisedFrom(Locks(map[], map[]), ops, f, NONE) == RESERVED))
  {
    var s0 := Locks(map[], map[]);
    EveryRunKeeps(s0, ops, t);
    var st := StateOf(t, name);
    assert StateOk(st, t.level, name);
    forall f: File | f in t.level && f.name == name
      ensures t.level[f] == LevelIn(st, f) && RaisedOk(t, f, RaisedFrom(s0, ops, f, NONE))
    {
      RunKeepsRaised(s0, ops, t, f, NONE);
    }
    if Reserved(t, name) {
      var f: File := st.reserved;
      assert t.level[f] == LevelIn(st, f);
    }
  }

  /** EXCLUSIVE straight from SHARED: nobody else can lock, and reserved() is false. */
  lemma ExclusiveUnreserved(f: File)
    ensures var s1 := Locked(Locks(map[], map[f := NONE]), f, SHARED).0;
      var s2 := Locked(s1, f, EXCLUSIVE).0;
      s2.level[f] == EXCLUSIVE && !Reserved(s2, f.name)
  {
  }

  /** Closing a file that holds nothing makes an entry that stays. */
  lemma IdleCloseLeavesEntry(f: File)
    ensures Unlocked(Locks(map[], map[f := NONE]), f, NONE).states == map[f.name := Empty]
  {
  }

  /** Unlock undoes Lock: back at NONE the others' levels and owner fields are as if f had never come. */
  lemma UnlockUndoesLock(s: Locks, f: File, level: nat)
    requires Inv(s) && s.level.Keys >= {f} && s.level[f] == NONE && MayLock(s, f, level)
    ensures var (t, r) := Locked(s, f, level);
      r == Ok ==> Unlocked(t, f, NONE).level == s.level && StateOf(Unlocked(t, f, NONE), f.name) == StateOf(s, f.name)
  {
    var st := StateOf(s, f.name);
    assert StateOk(st, s.level, f.name);
    assert LevelIn(st, f) == NONE;
    var (st', r) := Request(st, f, level);
    if r == Ok {
      assert Release(st', f, NONE) == st;
    }
  }
}
