/** Per-repository locks whose entries are counted, removed when nobody uses them, and made
    anew: every interleaving of callers, one step per mutex hold. */
module LinkLockProtocol {
  type Key = string
  type Caller = nat
  type Id = nat

  /** Where a caller is between `Acquire` and the end of its release; a caller that is in
      neither is not listed. */
  datatype Phase =
    | Waiting(key: Key, entry: Id)    // counted, not yet through the entry's mutex
    | Holding(key: Key, entry: Id)
    | Leaving(key: Key, entry: Id)    // unlocked, still counted

  datatype Entry = Entry(refs: nat, locked: bool)

  datatype State = State(locks: map<Key, Id>, entries: map<Id, Entry>, callers: map<Caller, Phase>)

  const INITIAL := State(map[], map[], map[])

  datatype Step =
    | Enter(c: Caller, key: Key, newEntry: Id)
    | Lock(c: Caller)
    | Unlock(c: Caller)
    | Leave(c: Caller)

  predicate Enabled(s: State, step: Step) {
    match step
    case Enter(c, key, id) => c !in s.callers && id !in s.entries && (key in s.locks ==> s.locks[key] in s.entries)
    case Lock(c) =>
      && c in s.callers && s.callers[c].Waiting?
      && s.callers[c].entry in s.entries && !s.entries[s.callers[c].entry].locked
    case Unlock(c) => c in s.callers && s.callers[c].Holding? && s.callers[c].entry in s.entries
    case Leave(c) =>
      && c in s.callers && s.callers[c].Leaving?
      && s.callers[c].entry in s.entries && s.entries[s.callers[c].entry].refs > 0
  }

  function Next(s: State, step: Step): State
    requires Enabled(s, step)
  {
    match step
    case Enter(c, key, newEntry) =>
      // a missing entry is made; either way it is counted under the guard
      var id := if key in s.locks then s.locks[key] else newEntry;
      var e := if key in s.locks then s.entries[id] else Entry(0, false);
      State(s.locks[key := id], s.entries[id := e.(refs := e.refs + 1)], s.callers[c := Waiting(key, id)])
    case Lock(c) =>
      var p := s.callers[c];
      s.(entries := s.entries[p.entry := s.entries[p.entry].(locked := true)],
          callers := s.callers[c := Holding(p.key, p.entry)])
    case Unlock(c) =>
      var p := s.callers[c];
      s.(entries := s.entries[p.entry := s.entries[p.entry].(locked := false)],
          callers := s.callers[c := Leaving(p.key, p.entry)])
    case Leave(c) =>
      // the entry is removed by its key, whichever entry the key leads to
      var p := s.callers[c];
      var e := s.entries[p.entry].(refs := s.entries[p.entry].refs - 1);
      State(if e.refs == 0 then s.locks - {p.key} else s.locks, s.entries[p.entry := e], s.callers - {c})
  }

  // ------------------------------------------------------------- invariant

  function Using(callers: map<Caller, Phase>, key: Key): set<Caller> {
    set c | c in callers && callers[c].key == key
  }

  /** The map leads every caller to the entry it counted itself in. */
  predicate Led(locks: map<Key, Id>, callers: map<Caller, Phase>) {
    forall c :: c in callers ==> callers[c].key in locks && locks[callers[c].key] == callers[c].entry
  }

  predicate Distinct(locks: map<Key, Id>, entries: map<Id, Entry>) {
    && (forall k :: k in locks ==> locks[k] in entries)
    && forall j, k :: j in locks && k in locks && locks[j] == locks[k] ==> j == k
  }

  predicate Counted(locks: map<Key, Id>, entries: map<Id, Entry>, callers: map<Caller, Phase>) {
    forall k :: k in locks && locks[k] in entries ==> entries[locks[k]].refs == |Using(callers, k)| > 0
  }

  ghost predicate LockedByHolder(locks: map<Key, Id>, entries: map<Id, Entry>, callers: map<Caller, Phase>) {
    forall k :: k in locks && locks[k] in entries ==> (entries[locks[k]].locked <==> HasHolder(callers, k))
  }

  ghost predicate HasHolder(callers: map<Caller, Phase>, key: Key) {
    exists c :: c in callers && callers[c].Holding? && callers[c].key == key
  }

  predicate OneHolder(callers: map<Caller, Phase>) {
    forall c, d ::
      c in callers && d in callers && callers[c].Holding? && callers[d].Holding? && callers[c].key == callers[d].key
      ==> c == d
  }

  ghost predicate Inv(s: State) {
    && Led(s.locks, s.callers) && Distinct(s.locks, s.entries) && Counted(s.locks, s.entries, s.callers)
    && LockedByHolder(s.locks, s.entries, s.callers) && OneHolder(s.callers)
  }

  lemma EnterCounts(s: State, c: Caller, key: Key, newEntry: Id)
    requires Inv(s) && Enabled(s, Enter(c, key, newEntry))
    ensures var t := Next(s, Enter(c, key, newEntry)); Counted(t.locks, t.entries, t.callers)
  {
    var t := Next(s, Enter(c, key, newEntry));
    if key !in s.locks { NoneUsing(s, key); }
    forall k | k in t.locks ensures t.entries[t.locks[k]].refs == |Using(t.callers, k)| > 0 {
      OneMoreUser(s.callers, c, t.callers[c], k);
      if k != key { assert s.locks[k] != t.locks[key]; }
    }
  }

  lemma OneMoreUser(callers: map<Caller, Phase>, c: Caller, p: Phase, k: Key)
    requires c !in callers
    ensures |Using(callers[c := p], k)| == |Using(callers, k)| + if k == p.key then 1 else 0
  {
    assert Using(callers[c := p], k) == if k == p.key then Using(callers, k) + {c} else Using(callers, k);
  }

  lemma EnterLocks(s: State, c: Caller, key: Key, newEntry: Id)
    requires Inv(s) && Enabled(s, Enter(c, key, newEntry))
    ensures var t := Next(s, Enter(c, key, newEntry)); LockedByHolder(t.locks, t.entries, t.callers)
  {
    var t := Next(s, Enter(c, key, newEntry));
    if key !in s.locks { NoneUsing(s, key); }
    forall k | k in t.locks ensures t.entries[t.locks[k]].locked <==> HasHolder(t.callers, k) {
      SameHolders(s.callers, t.callers, k);
    }
  }

  lemma EnterKeeps(s: State, c: Caller, key: Key, newEntry: Id)
    requires Inv(s) && Enabled(s, Enter(c, key, newEntry))
    ensures Inv(Next(s, Enter(c, key, newEntry)))
  {
    EnterCounts(s, c, key, newEntry);
    EnterLocks(s, c, key, newEntry);
  }

  lemma NoneUsing(s: State, key: Key)
    requires Inv(s) && key !in s.locks
    ensures Using(s.callers, key) == {} && !HasHolder(s.callers, key)
  {
  }

  lemma SameHolders(was: map<Caller, Phase>, now: map<Caller, Phase>, key: Key)
    requires forall c :: c in was && was[c].Holding? && was[c].key == key ==> c in now && now[c] == was[c]
    requires forall c :: c in now && now[c].Holding? && now[c].key == key ==> c in was && was[c] == now[c]
    ensures HasHolder(now, key) == HasHolder(was, key)
  {
    if HasHolder(was, key) {
      var c :| c in was && was[c].Holding? && was[c].key == key;
      assert c in now;
    }
  }

  lemma SameUsers(was: map<Caller, Phase>, now: map<Caller, Phase>)
    requires was.Keys == now.Keys && forall c :: c in was ==> was[c].key == now[c].key
    ensures forall k :: Using(now, k) == Using(was, k)
  {
  }

  lemma LockKeeps(s: State, c: Caller)
    requires Inv(s) && Enabled(s, Lock(c))
    ensures Inv(Next(s, Lock(c)))
  {
    var t, key := Next(s, Lock(c)), s.callers[c].key;
    SameUsers(s.callers, t.callers);
    assert !HasHolder(s.callers, key);
    forall k | k in t.locks ensures t.entries[t.locks[k]].locked <==> HasHolder(t.callers, k) {
      if k == key { assert t.callers[c].Holding?; } else { SameHolders(s.callers, t.callers, k); }
    }
  }

  lemma UnlockKeeps(s: State, c: Caller)
    requires Inv(s) && Enabled(s, Unlock(c))
    ensures Inv(Next(s, Unlock(c)))
  {
    var t, key := Next(s, Unlock(c)), s.callers[c].key;
    SameUsers(s.callers, t.callers);
    forall k | k in t.locks ensures t.entries[t.locks[k]].locked <==> HasHolder(t.callers, k) {
      if k != key { SameHolders(s.callers, t.callers, k); }
    }
  }

  lemma OneUserLess(callers: map<Caller, Phase>, c: Caller, k: Key)
    requires c in callers
    ensures |Using(callers - {c}, k)| == |Using(callers, k)| - if k == callers[c].key then 1 else 0
  {
    assert Using(callers - {c}, k) == Using(callers, k) - {c};
    assert c in Using(callers, k) <==> k == callers[c].key;
  }

  lemma LeaveCounts(s: State, c: Caller)
    requires Inv(s) && Enabled(s, Leave(c))
    ensures var t := Next(s, Leave(c)); Counted(t.locks, t.entries, t.callers)
  {
    var t := Next(s, Leave(c));
    forall k | k in t.locks ensures t.entries[t.locks[k]].refs == |Using(t.callers, k)| > 0 {
      OneUserLess(s.callers, c, k);
    }
  }

  lemma LeaveLeads(s: State, c: Caller)
    requires Inv(s) && Enabled(s, Leave(c))
    ensures var t := Next(s, Leave(c)); Led(t.locks, t.callers)
  {
    var t, key := Next(s, Leave(c)), s.callers[c].key;
    OneUserLess(s.callers, c, key);
    forall d | d in t.callers ensures t.callers[d].key in t.locks {
      assert t.callers[d].key == key ==> d in Using(t.callers, key);
    }
  }

  lemma LeaveLocks(s: State, c: Caller)
    requires Inv(s) && Enabled(s, Leave(c))
    ensures var t := Next(s, Leave(c)); LockedByHolder(t.locks, t.entries, t.callers)
  {
    var t := Next(s, Leave(c));
    forall k | k in t.locks ensures t.entries[t.locks[k]].locked <==> HasHolder(t.callers, k) {
      SameHolders(s.callers, t.callers, k);
    }
  }

  lemma LeaveKeeps(s: State, c: Caller)
    requires Inv(s) && Enabled(s, Leave(c))
    ensures Inv(Next(s, Leave(c)))
  {
    LeaveCounts(s, c);
    LeaveLeads(s, c);
    LeaveLocks(s, c);
  }

  lemma StepKeeps(s: State, step: Step)
    requires Inv(s) && Enabled(s, step)
    ensures Inv(Next(s, step))
  {
    match step
    case Enter(c, key, id) => EnterKeeps(s, c, key, id);
    case Lock(c) => LockKeeps(s, c);
    case Unlock(c) => UnlockKeeps(s, c);
    case Leave(c) => LeaveKeeps(s, c);
  }

  // ------------------------------------------------------------------ runs

  ghost predicate Run(states: seq<State>, steps: seq<Step>) {
    && |states| == |steps| + 1 && states[0] == INITIAL
    && forall i {:trigger steps[i]} ::
      0 <= i < |steps| ==> Enabled(states[i], steps[i]) && states[i + 1] == Next(states[i], steps[i])
  }

  lemma {:induction false} RunKeeps(states: seq<State>, steps: seq<Step>, n: nat)
    requires Run(states, steps) && n <= |steps|
    ensures Inv(states[n])
  {
    if n > 0 {
      RunKeeps(states, steps, n - 1);
      assert Enabled(states[n - 1], steps[n - 1]);
      StepKeeps(states[n - 1], steps[n - 1]);
    }
  }

  /** In every interleaving: one holder a key at most; the map holds exactly the keys in use,
      and counts their users; and nobody waits for nothing. */
  lemma LocksAreSafe(states: seq<State>, steps: seq<Step>, n: nat)
    requires Run(states, steps) && n <= |steps|
    ensures var s := states[n];
      && OneHolder(s.callers)
      && (forall k :: k in s.locks <==> Using(s.callers, k) != {})
      && (forall k :: k in s.locks ==> s.locks[k] in s.entries && s.entries[s.locks[k]].refs == |Using(s.callers, k)|)
      && (forall c ::
        c in s.callers && s.callers[c].Waiting? ==> Enabled(s, Lock(c)) || HasHolder(s.callers, s.callers[c].key))
      && (forall c :: c in s.callers && s.callers[c].Holding? ==> Enabled(s, Unlock(c)))
      && (forall c :: c in s.callers && s.callers[c].Leaving? ==> Enabled(s, Leave(c)))
      && (forall c, k, id {:trigger Enter(c, k, id)} ::
        c !in s.callers && id !in s.entries ==> Enabled(s, Enter(c, k, id)))
  {
    RunKeeps(states, steps, n);
    var s := states[n];
    forall k ensures k in s.locks <==> Using(s.callers, k) != {} {
      if k !in s.locks { NoneUsing(s, k); }
    }
    forall c | c in s.callers ensures s.callers[c].entry in s.entries && s.entries[s.callers[c].entry].refs > 0 {
      assert s.callers[c].key in s.locks;
    }
  }

  // -------------------------------------------------------------- draining

  function Inside(callers: map<Caller, Phase>): set<Caller> {
    set c | c in callers && !callers[c].Leaving?
  }

  function Queue(callers: map<Caller, Phase>): set<Caller> {
    set c | c in callers && callers[c].Waiting?
  }

  /** Steps the listed callers still have to take. */
  function Work(callers: map<Caller, Phase>): nat {
    |callers.Keys| + |Inside(callers)| + |Queue(callers)|
  }

  lemma LockShrinks(callers: map<Caller, Phase>, c: Caller, p: Phase)
    requires c in callers && callers[c].Waiting? && p.Holding?
    ensures Work(callers[c := p]) == Work(callers) - 1
  {
    var next := callers[c := p];
    assert next.Keys == callers.Keys && Inside(next) == Inside(callers);
    assert Queue(next) == Queue(callers) - {c} && c in Queue(callers);
  }

  lemma UnlockShrinks(callers: map<Caller, Phase>, c: Caller, p: Phase)
    requires c in callers && callers[c].Holding? && p.Leaving?
    ensures Work(callers[c := p]) == Work(callers) - 1
  {
    var next := callers[c := p];
    assert next.Keys == callers.Keys && Queue(next) == Queue(callers);
    assert Inside(next) == Inside(callers) - {c} && c in Inside(callers);
  }

  lemma LeaveShrinks(callers: map<Caller, Phase>, c: Caller)
    requires c in callers && callers[c].Leaving?
    ensures Work(callers - {c}) == Work(callers) - 1
  {
    var next := callers - {c};
    assert next.Keys == callers.Keys - {c} && Queue(next) == Queue(callers) && Inside(next) == Inside(callers);
  }

  lemma StepShrinks(s: State, step: Step)
    requires Enabled(s, step) && !step.Enter?
    ensures Work(Next(s, step).callers) == Work(s.callers) - 1
  {
    match step
    case Lock(c) => LockShrinks(s.callers, c, Next(s, step).callers[c]);
    case Unlock(c) => UnlockShrinks(s.callers, c, Next(s, step).callers[c]);
    case Leave(c) => LeaveShrinks(s.callers, c);
  }

  /** With no new arrivals everybody gets through, and leaves an empty map behind: while a
      caller is listed some step of a caller is possible, each takes one off the work left,
      and with no caller listed the map is empty. */
  lemma DrainsToEmpty(s: State)
    requires Inv(s)
    ensures s.callers != map[] ==> exists step: Step ::
      !step.Enter? && Enabled(s, step) && Work(Next(s, step).callers) < Work(s.callers)
    ensures s.callers == map[] ==> s.locks == map[]
  {
    if s.callers != map[] {
      var c :| c in s.callers;
      assert s.callers[c].key in s.locks;
      var step := MoveOf(s, c);
      StepShrinks(s, step);
    } else {
      forall k ensures k !in s.locks { assert Using(s.callers, k) == {}; }
    }
  }

  /** A step that is possible on behalf of `c`: its own, or its key's holder's. */
  lemma MoveOf(s: State, c: Caller) returns (step: Step)
    requires Inv(s) && c in s.callers
    ensures !step.Enter? && Enabled(s, step)
  {
    assert s.callers[c].key in s.locks;
    match s.callers[c]
    case Holding(_, _) => step := Unlock(c);
    case Leaving(_, _) => step := Leave(c);
    case Waiting(key, id) =>
      if s.entries[id].locked {
        var d :| d in s.callers && s.callers[d].Holding? && s.callers[d].key == key;
        step := Unlock(d);
      } else {
        step := Lock(c);
      }
  }

  // --------------------------------------------------------------- the object

  class RefLock {
    var refs: nat
    constructor ()
      ensures refs == 0
    { refs := 0; }
  }

  /** How many callers each key has, in a state of the protocol. */
  function CountsOf(s: State): map<Key, nat> {
    RefsOf(s.locks, s.entries)
  }

  function RefsOf(locks: map<Key, Id>, entries: map<Id, Entry>): map<Key, nat> {
    map k | k in locks && locks[k] in entries :: entries[locks[k]].refs
  }

  function Entered(counts: map<Key, nat>, key: Key): map<Key, nat> {
    counts[key := 1 + if key in counts then counts[key] else 0]
  }

  function Left(counts: map<Key, nat>, key: Key): map<Key, nat>
    requires key in counts && counts[key] > 0
  {
    if counts[key] == 1 then counts - {key} else counts[key := counts[key] - 1]
  }

  lemma OneCountChanges(locks: map<Key, Id>, entries: map<Id, Entry>, key: Key, id: Id, e: Entry)
    requires forall k :: k in locks && k != key ==> locks[k] != id
    ensures RefsOf(locks[key := id], entries[id := e]) == RefsOf(locks, entries)[key := e.refs]
  {
  }

  lemma OneCountGoes(locks: map<Key, Id>, entries: map<Id, Entry>, key: Key, id: Id, e: Entry)
    requires forall k :: k in locks && k != key ==> locks[k] != id
    ensures RefsOf(locks - {key}, entries[id := e]) == RefsOf(locks, entries) - {key}
  {
  }

  lemma Apart(locks: map<Key, Id>, entries: map<Id, Entry>, key: Key, id: Id)
    requires Distinct(locks, entries) && (if key in locks then locks[key] == id else id !in entries)
    ensures forall k :: k in locks && k != key ==> locks[k] != id
  {
  }

  /** The guarded steps change the counts as the methods of `LinkLocks` do ... */
  lemma EnterIsEntered(s: State, c: Caller, key: Key, newEntry: Id)
    requires Distinct(s.locks, s.entries) && Enabled(s, Enter(c, key, newEntry))
    ensures CountsOf(Next(s, Enter(c, key, newEntry))) == Entered(CountsOf(s), key)
  {
    var id := if key in s.locks then s.locks[key] else newEntry;
    var e := if key in s.locks then s.entries[id] else Entry(0, false);
    Apart(s.locks, s.entries, key, id);
    OneCountChanges(s.locks, s.entries, key, id, e.(refs := e.refs + 1));
  }

  lemma LeaveIsLeft(s: State, c: Caller)
    requires Led(s.locks, s.callers) && Distinct(s.locks, s.entries) && Enabled(s, Leave(c))
    ensures var key := s.callers[c].key;
      key in CountsOf(s) && CountsOf(s)[key] > 0 && CountsOf(Next(s, Leave(c))) == Left(CountsOf(s), key)
  {
    var p := s.callers[c];
    var e := s.entries[p.entry].(refs := s.entries[p.entry].refs - 1);
    assert s.locks[p.key] == p.entry;
    Apart(s.locks, s.entries, p.key, p.entry);
    if e.refs == 0 {
      OneCountGoes(s.locks, s.entries, p.key, p.entry, e);
    } else {
      OneCountChanges(s.locks, s.entries, p.key, p.entry, e);
      assert s.locks[p.key := p.entry] == s.locks;
    }
  }

  /** ... and the others do not change them. */
  lemma LockingKeepsCounts(s: State, step: Step)
    requires Enabled(s, step) && (step.Lock? || step.Unlock?)
    ensures CountsOf(Next(s, step)) == CountsOf(s)
  {
  }

  /** The map and the counts, as `Acquire` and its release function update them under the
      guard.  The entry's own mutex is the protocol's `locked`. */
  class LinkLocks {
    var locks: map<Key, RefLock>

    constructor ()
      ensures Valid() && Counts() == map[]
    { locks := map[]; }

    ghost predicate Valid()
      reads this, locks.Values
    {
      && (forall j, k :: j in locks && k in locks && locks[j] == locks[k] ==> j == k)
      && forall k :: k in locks ==> locks[k].refs > 0
    }

    /** How many callers each key has. */
    ghost function Counts(): map<Key, nat>
      reads this, locks.Values
    {
      map k | k in locks :: locks[k].refs
    }

    method Enter(key: Key) returns (rl: RefLock)
      requires Valid()
      modifies this, locks.Values
      ensures Valid() && key in locks && rl == locks[key]
      ensures fresh(rl) <==> key !in old(locks)
      ensures Counts() == Entered(old(Counts()), key)
      ensures forall k :: k in old(locks) ==> k in locks && locks[k] == old(locks)[k]
    {
      if key in locks {
        rl := locks[key];
      } else {
        rl := new RefLock();
        locks := locks[key := rl];
      }
      rl.refs := rl.refs + 1;
    }

    /** The caller counted itself in under `key` and got `rl`, as the protocol keeps for
        every caller. */
    method Leave(key: Key, rl: RefLock)
      requires Valid() && key in locks && locks[key] == rl
      modifies this, locks.Values
      ensures Valid()
      ensures Counts() == Left(old(Counts()), key)
      ensures forall k :: k in locks ==> k in old(locks) && locks[k] == old(locks)[k]
    {
      rl.refs := rl.refs - 1;
      if rl.refs == 0 { locks := locks - {key}; }
    }
  }
}
