/** The session liveness protocol: run registries, slots, goroutines and the wake path,
    as a transition system with one step for each hold of a mutex.

    `RunRegistry.RemoveIfEmpty` is two steps, since it looks into the registry and deletes
    it under the run-registry mutex but not under the registry's own; the steps that need
    the run-registry mutex wait in between.  Launching is one step (`Launch`, `Respawn`)
    or, as the source's two lock holds, `Capture` and then `Claim`. */
module Liveness {
  import opened Text

  type Inst = nat    // one `session.Registry` object
  type Pid = nat     // one flow of control; also names the handle it registers

  datatype Proc =
    | Captured(run: string, sid: string, inst: Inst)             // holds a registry, has no slot yet
    | Owner(run: string, sid: string, inst: Inst, since: nat)    // owns a slot: launching or running
    | Leaving(run: string)                                       // slot released, cleanup to do
    | Removing(run: string, inst: Inst)                          // found the registry empty, deletes next
    | Waking(run: string, sid: string, at: nat, held: Option<Inst>)
    | Found(run: string, sid: string, at: nat, handle: Pid)
    | Missed(run: string, sid: string, at: nat)

  datatype World = World(
    published: map<string, Inst>,            // RunRegistry.runs
    insts: map<Inst, map<string, Pid>>,      // every Registry object's sessions
    procs: map<Pid, Proc>,
    bumps: map<Pid, nat>,                    // waiter counters
    now: nat)                                // names of new processes and registries

  datatype Step =
    | Touch(run: string)                         // GetOrCreate for its own sake
    | Launch(run: string, sid: string)           // GetOrCreate and RegisterAndContext together
    | Capture(run: string, sid: string)          // GetOrCreate alone
    | Claim(p: Pid)                              // RegisterAndContext alone
    | Spawn(parent: Pid, sid: string)            // a child registers in its parent's registry
    | Release(p: Pid)                            // cancel and Unregister
    | CheckEmpty(p: Pid)                         // first half of RemoveIfEmpty
    | Delete(p: Pid)                             // second half
    | Quit(p: Pid)                               // a spawned child leaves without cleanup
    | Commit(run: string, sid: string)           // the notifier's Get
    | Lookup(p: Pid)                             // Notify's map read
    | Wake(p: Pid)                               // Notify's waiter bump
    | Ignore(p: Pid)                             // cold, and the event does not revive
    | Respawn(p: Pid)                            // cold, and the event revives: a paired launch

  // ------------------------------------------------------------------ registries

  /** `Registry.RegisterAndContext` for a free slot. */
  function Register<H>(sessions: map<string, H>, sid: string, h: H): map<string, H>
    requires sid !in sessions
  {
    sessions[sid := h]
  }

  /** `Registry.Unregister`. */
  function Unregister<H>(sessions: map<string, H>, sid: string): map<string, H> {
    sessions - {sid}
  }

  /** `RunRegistry.GetOrCreate`: the published registry, or `empty` newly published. */
  function Publish<R>(runs: map<string, R>, run: string, empty: R): map<string, R> {
    if run in runs then runs else runs[run := empty]
  }

  // ----------------------------------------------------------------------- steps

  /** The run-registry mutex is free: nobody is between the halves of a removal. */
  predicate Unlocked(w: World) {
    forall p :: p in w.procs ==> !w.procs[p].Removing?
  }

  predicate Enabled(w: World, s: Step) {
    match s
    case Touch(_) => Unlocked(w)
    case Launch(_, _) => Unlocked(w)
    case Capture(_, _) => Unlocked(w)
    case Claim(p) => p in w.procs && w.procs[p].Captured? && w.procs[p].inst in w.insts
    case Spawn(q, _) => q in w.procs && w.procs[q].Owner? && w.procs[q].inst in w.insts
    case Release(p) => p in w.procs && w.procs[p].Owner? && w.procs[p].inst in w.insts
    case CheckEmpty(p) => p in w.procs && w.procs[p].Leaving? && Unlocked(w)
    case Delete(p) => p in w.procs && w.procs[p].Removing?
    case Quit(p) => p in w.procs && w.procs[p].Leaving?
    case Commit(_, _) => Unlocked(w)
    case Lookup(p) => p in w.procs && w.procs[p].Waking?
    case Wake(p) => p in w.procs && w.procs[p].Found?
    case Ignore(p) => p in w.procs && w.procs[p].Missed?
    case Respawn(p) => p in w.procs && w.procs[p].Missed? && Unlocked(w)
  }

  /** After `GetOrCreate(run)`; `n` names the registry if it has to be made. */
  function WithRegistry(w: World, run: string, n: nat): World {
    if run in w.published then w
    else w.(published := Publish(w.published, run, n), insts := w.insts[n := map[]])
  }

  /** `p` tries to register `sid` in registry `i` at time `n`; without a slot it has
      nothing more to do. */
  function TrySlot(w: World, p: Pid, run: string, sid: string, i: Inst, n: nat): World
    requires i in w.insts
  {
    if sid in w.insts[i] then Drop(w, p)
    else w.(insts := w.insts[i := Register(w.insts[i], sid, p)], procs := w.procs[p := Owner(run, sid, i, n)])
  }

  /** `GetOrCreate` and `RegisterAndContext` with nothing in between. */
  function LaunchAs(w: World, p: Pid, run: string, sid: string, n: nat): World
    requires WellTyped(w)
  {
    var v := WithRegistry(w, run, n);
    TrySlot(v, p, run, sid, v.published[run], n)
  }

  function Drop(w: World, p: Pid): World {
    w.(procs := w.procs - {p})
  }

  function Put(w: World, p: Pid, k: Proc): World {
    w.(procs := w.procs[p := k])
  }

  function ReleaseSlot(w: World, p: Pid): World
    requires p in w.procs && w.procs[p].Owner? && w.procs[p].inst in w.insts
  {
    var o := w.procs[p];
    w.(insts := w.insts[o.inst := Unregister(w.insts[o.inst], o.sid)], procs := w.procs[p := Leaving(o.run)])
  }

  function Bump(w: World, h: Pid): World {
    w.(bumps := w.bumps[h := 1 + (if h in w.bumps then w.bumps[h] else 0)])
  }

  /** What `Notify` reads in the registry the notifier holds. */
  function LookedUp(w: World, k: Proc): Proc
    requires k.Waking?
  {
    if k.held.Some? && k.held.value in w.insts && k.sid in w.insts[k.held.value] then
      Found(k.run, k.sid, k.at, w.insts[k.held.value][k.sid])
    else Missed(k.run, k.sid, k.at)
  }

  function Tick(w: World): World {
    w.(now := w.now + 1)
  }

  predicate WellTyped(w: World) {
    forall run :: run in w.published ==> w.published[run] in w.insts
  }

  /** What a step does, in a world whose clock has just gone past `n`. */
  function Act(w: World, s: Step, n: nat): World
    requires WellTyped(w) && Enabled(w, s)
  {
    match s
    case Touch(run) => WithRegistry(w, run, n)
    case Launch(run, sid) => LaunchAs(w, n, run, sid, n)
    case Capture(run, sid) =>
      var v := WithRegistry(w, run, n);
      Put(v, n, Captured(run, sid, v.published[run]))
    case Claim(p) => TrySlot(w, p, w.procs[p].run, w.procs[p].sid, w.procs[p].inst, n)
    case Spawn(q, sid) => TrySlot(w, n, w.procs[q].run, sid, w.procs[q].inst, n)
    case Release(p) => ReleaseSlot(w, p)
    case CheckEmpty(p) =>
      var run := w.procs[p].run;
      if run in w.published && w.insts[w.published[run]] == map[] then Put(w, p, Removing(run, w.published[run]))
      else Drop(w, p)
    case Delete(p) => Drop(w.(published := w.published - {w.procs[p].run}), p)
    case Quit(p) => Drop(w, p)
    case Commit(run, sid) =>
      Put(w, n, Waking(run, sid, n, if run in w.published then Some(w.published[run]) else None))
    case Lookup(p) => Put(w, p, LookedUp(w, w.procs[p]))
    case Wake(p) => Drop(Bump(w, w.procs[p].handle), p)
    case Ignore(p) => Drop(w, p)
    case Respawn(p) => LaunchAs(w, p, w.procs[p].run, w.procs[p].sid, n)
  }

  function Apply(w: World, s: Step): World
    requires WellTyped(w) && Enabled(w, s)
  {
    Act(Tick(w), s, w.now)
  }

  // ------------------------------------------------------------------- invariant

  type Runs = map<string, Inst>
  type Insts = map<Inst, map<string, Pid>>
  type Procs = map<Pid, Proc>

  predicate IsOwner(procs: Procs, p: Pid) {
    p in procs && procs[p].Owner?
  }

  /** The central property: the slot of a live session is the one in the published registry. */
  predicate InPublished(runs: Runs, insts: Insts, p: Pid, o: Proc)
    requires o.Owner?
  {
    && o.run in runs && runs[o.run] == o.inst
    && o.inst in insts && o.sid in insts[o.inst] && insts[o.inst][o.sid] == p
  }

  ghost predicate AllReachable(runs: Runs, insts: Insts, procs: Procs) {
    forall p :: IsOwner(procs, p) ==> InPublished(runs, insts, p, procs[p])
  }

  /** Every taken slot belongs to a live owner. */
  ghost predicate SlotsOwned(insts: Insts, procs: Procs) {
    forall i, sid :: i in insts && sid in insts[i] ==> OwnsSlot(procs, insts[i][sid], i, sid)
  }

  predicate OwnsSlot(procs: Procs, p: Pid, i: Inst, sid: string) {
    IsOwner(procs, p) && procs[p].inst == i && procs[p].sid == sid
  }

  /** Each published registry belongs to one run. */
  ghost predicate OneRunEach(runs: Runs) {
    forall r, q :: r in runs && q in runs && runs[r] == runs[q] ==> r == q
  }

  /** What a removal in progress is about to delete is published and empty ... */
  ghost predicate RemovalSafe(runs: Runs, insts: Insts, procs: Procs) {
    forall p :: p in procs && procs[p].Removing? ==>
      var k := procs[p];
      k.run in runs && runs[k.run] == k.inst && k.inst in insts && insts[k.inst] == map[]
  }

  /** ... and no other removal is in progress. */
  ghost predicate OneRemoval(procs: Procs) {
    forall p, q :: p in procs && q in procs && procs[p].Removing? && procs[q].Removing? ==> p == q
  }

  /** `o` was live when the notifier read the run registry at time `at`, and still is. */
  predicate LiveSince(procs: Procs, o: Pid, run: string, sid: string, at: nat) {
    IsOwner(procs, o) && procs[o].run == run && procs[o].sid == sid && procs[o].since < at
  }

  /** A notifier holds the registry of the session that was live when it looked, and one
      that found nothing is right that there was none. */
  ghost predicate NotifiersSound(procs: Procs) {
    forall p, o :: p in procs && IsOwner(procs, o) ==> NotifierSound(procs, procs[p], o)
  }

  predicate NotifierSound(procs: Procs, k: Proc, o: Pid)
    requires IsOwner(procs, o)
  {
    match k
    case Waking(run, sid, at, held) => LiveSince(procs, o, run, sid, at) ==> held == Some(procs[o].inst)
    case Found(run, sid, at, handle) => LiveSince(procs, o, run, sid, at) ==> handle == o
    case Missed(run, sid, at) => !LiveSince(procs, o, run, sid, at)
    case _ => true
  }

  /** Every name and time in use is in the past. */
  ghost predicate Past(insts: Insts, procs: Procs, now: nat) {
    && (forall i :: i in insts ==> i < now)
    && (forall p :: p in procs ==> p < now && ProcPast(insts, procs[p], now))
  }

  predicate ProcPast(insts: Insts, k: Proc, now: nat) {
    match k
    case Captured(_, _, i) => i in insts
    case Owner(_, _, _, since) => since < now
    case Waking(_, _, at, _) => at < now
    case Found(_, _, at, _) => at < now
    case Missed(_, _, at) => at < now
    case _ => true
  }

  ghost predicate Inv(w: World) {
    && WellTyped(w) && Past(w.insts, w.procs, w.now)
    && AllReachable(w.published, w.insts, w.procs) && SlotsOwned(w.insts, w.procs)
    && OneRunEach(w.published) && RemovalSafe(w.published, w.insts, w.procs) && OneRemoval(w.procs)
    && NotifiersSound(w.procs)
  }

  ghost predicate Init(w: World) {
    w.published == map[] && w.insts == map[] && w.procs == map[] && w.bumps == map[]
  }

  lemma InitInv(w: World)
    requires Init(w)
    ensures Inv(w)
  {
  }

  // ---------------------------------------------------------- pieces of the proof

  /** The clock stands just past `n`, which has not been used for a name. */
  ghost predicate Fresh(w: World, n: nat) {
    w.now == n + 1 && Past(w.insts, w.procs, n)
  }

  /** The same for processes and times alone: a registry named `n` may have been made. */
  ghost predicate NewTime(w: World, n: nat) {
    w.now == n + 1 && forall p :: p in w.procs ==> p < n && ProcPast(w.insts, w.procs[p], n)
  }

  lemma TickKeeps(w: World)
    requires Inv(w)
    ensures Inv(Tick(w)) && Fresh(Tick(w), w.now)
  {
    assert forall p :: p in w.procs ==> ProcPast(w.insts, w.procs[p], w.now + 1);
  }

  lemma NewRegistryReachable(w: World, run: string, n: nat)
    requires Inv(w) && Fresh(w, n) && run !in w.published
    ensures var v := WithRegistry(w, run, n);
            AllReachable(v.published, v.insts, v.procs) && RemovalSafe(v.published, v.insts, v.procs)
  {
    var v := WithRegistry(w, run, n);
    assert n !in w.insts;
    forall p | IsOwner(v.procs, p) ensures InPublished(v.published, v.insts, p, v.procs[p]) {
      assert InPublished(w.published, w.insts, p, w.procs[p]);
    }
  }

  lemma NewRegistrySlots(w: World, run: string, n: nat)
    requires Inv(w) && Fresh(w, n) && run !in w.published
    ensures var v := WithRegistry(w, run, n);
            WellTyped(v) && SlotsOwned(v.insts, v.procs) && OneRunEach(v.published) && Past(v.insts, v.procs, v.now)
  {
    var v := WithRegistry(w, run, n);
    assert n !in w.insts;
    forall i, sid | i in v.insts && sid in v.insts[i] ensures OwnsSlot(v.procs, v.insts[i][sid], i, sid) {
      assert i in w.insts && sid in w.insts[i];
    }
    forall p | p in v.procs ensures ProcPast(v.insts, v.procs[p], v.now) {
      assert ProcPast(w.insts, w.procs[p], w.now);
    }
  }

  lemma WithRegistryKeeps(w: World, run: string, n: nat)
    requires Inv(w) && Fresh(w, n)
    ensures var v := WithRegistry(w, run, n);
            Inv(v) && NewTime(v, n) && v.procs == w.procs && run in v.published
  {
    if run !in w.published {
      NewRegistryReachable(w, run, n);
      NewRegistrySlots(w, run, n);
    }
    var v := WithRegistry(w, run, n);
    forall p | p in v.procs ensures p < n && ProcPast(v.insts, v.procs[p], n) {
      assert ProcPast(w.insts, w.procs[p], n);
    }
  }

  lemma DropKeeps(w: World, p: Pid)
    requires Inv(w) && !IsOwner(w.procs, p)
    ensures Inv(Drop(w, p))
  {
    var v := Drop(w, p);
    assert forall q :: IsOwner(v.procs, q) <==> IsOwner(w.procs, q);
    assert forall q :: q in v.procs ==> q in w.procs && v.procs[q] == w.procs[q];
    SlotsKeep(w.insts, w.procs, v.procs);
    NotifiersKeep(w.procs, v.procs);
  }

  /** Ownership of slots depends on the owners only. */
  lemma SlotsKeep(insts: Insts, procs: Procs, next: Procs)
    requires SlotsOwned(insts, procs)
    requires forall q :: IsOwner(procs, q) ==> IsOwner(next, q) && next[q] == procs[q]
    ensures SlotsOwned(insts, next)
  {
    forall i, sid | i in insts && sid in insts[i] ensures OwnsSlot(next, insts[i][sid], i, sid) {
      assert OwnsSlot(procs, insts[i][sid], i, sid);
    }
  }

  /** Fewer owners and fewer notifiers: what they know stays true. */
  lemma NotifiersKeep(procs: Procs, next: Procs)
    requires NotifiersSound(procs)
    requires forall q :: q in next && (IsOwner(next, q) || IsNotifier(next[q])) ==> q in procs && next[q] == procs[q]
    ensures NotifiersSound(next)
  {
    forall p, o | p in next && IsOwner(next, o) ensures NotifierSound(next, next[p], o) {
      if IsNotifier(next[p]) { assert NotifierSound(procs, procs[p], o); }
    }
  }

  predicate IsNotifier(k: Proc) {
    k.Waking? || k.Found? || k.Missed?
  }

  /** Recording a process that is neither an owner nor a removal. */
  lemma PutKeeps(w: World, p: Pid, k: Proc)
    requires Inv(w) && !IsOwner(w.procs, p) && !k.Owner? && !k.Removing?
    requires p < w.now && ProcPast(w.insts, k, w.now)
    requires forall o :: IsOwner(w.procs, o) ==> NotifierSound(w.procs, k, o)
    ensures Inv(Put(w, p, k))
  {
    var v := Put(w, p, k);
    assert forall q :: IsOwner(v.procs, q) <==> IsOwner(w.procs, q);
    SlotsKeep(w.insts, w.procs, v.procs);
    forall q, o | q in v.procs && IsOwner(v.procs, o) ensures NotifierSound(v.procs, v.procs[q], o) {
      if q != p { assert NotifierSound(w.procs, w.procs[q], o); }
    }
  }

  /** The notifier's `Get`: the live session's registry is the published one. */
  lemma CommitKeeps(w: World, run: string, sid: string, n: nat)
    requires Inv(w) && Fresh(w, n)
    ensures Inv(Put(w, n, Waking(run, sid, n, if run in w.published then Some(w.published[run]) else None)))
  {
    var k := Waking(run, sid, n, if run in w.published then Some(w.published[run]) else None);
    forall o | IsOwner(w.procs, o) ensures NotifierSound(w.procs, k, o) {
      assert InPublished(w.published, w.insts, o, w.procs[o]);
    }
    PutKeeps(w, n, k);
  }

  /** `Notify`'s map read finds exactly the session that has been live since. */
  lemma LookupKeeps(w: World, p: Pid)
    requires Inv(w) && p in w.procs && w.procs[p].Waking?
    ensures Inv(Put(w, p, LookedUp(w, w.procs[p])))
  {
    var k := LookedUp(w, w.procs[p]);
    forall o | IsOwner(w.procs, o) ensures NotifierSound(w.procs, k, o) {
      assert NotifierSound(w.procs, w.procs[p], o);
      assert InPublished(w.published, w.insts, o, w.procs[o]);
    }
    assert ProcPast(w.insts, w.procs[p], w.now);
    PutKeeps(w, p, k);
  }

  // ------------------------------------------------------------- taking a slot

  /** The slot would go into a registry that is published and not about to be deleted. */
  predicate Lands(runs: Runs, procs: Procs, run: string, i: Inst) {
    run in runs && runs[run] == i && forall p :: p in procs && procs[p].Removing? ==> procs[p].inst != i
  }

  lemma SlotReachable(w: World, p: Pid, run: string, sid: string, i: Inst, n: nat)
    requires Inv(w) && i in w.insts && sid !in w.insts[i] && !IsOwner(w.procs, p)
    ensures var v := TrySlot(w, p, run, sid, i, n);
            AllReachable(v.published, v.insts, v.procs) <==> run in w.published && w.published[run] == i
  {
    var v := TrySlot(w, p, run, sid, i, n);
    assert IsOwner(v.procs, p);
    forall q | q != p && IsOwner(v.procs, q) ensures InPublished(v.published, v.insts, q, v.procs[q]) {
      assert InPublished(w.published, w.insts, q, w.procs[q]);
    }
    assert InPublished(v.published, v.insts, p, v.procs[p]) <==> run in w.published && w.published[run] == i;
  }

  lemma SlotRemoval(w: World, p: Pid, run: string, sid: string, i: Inst, n: nat)
    requires Inv(w) && i in w.insts && sid !in w.insts[i]
    requires p in w.procs ==> !w.procs[p].Removing?
    ensures var v := TrySlot(w, p, run, sid, i, n);
            RemovalSafe(v.published, v.insts, v.procs) <==>
            forall q :: q in w.procs && w.procs[q].Removing? ==> w.procs[q].inst != i
  {
    var v := TrySlot(w, p, run, sid, i, n);
    assert sid in v.insts[i];
    forall q | q in w.procs && w.procs[q].Removing? ensures q in v.procs && v.procs[q] == w.procs[q] { }
    assert forall q :: q in v.procs && v.procs[q].Removing? ==> q in w.procs && v.procs[q] == w.procs[q];
  }

  lemma SlotOwned(w: World, p: Pid, run: string, sid: string, i: Inst, n: nat)
    requires Inv(w) && NewTime(w, n) && i in w.insts && sid !in w.insts[i] && p <= n && !IsOwner(w.procs, p)
    ensures var v := TrySlot(w, p, run, sid, i, n);
            WellTyped(v) && SlotsOwned(v.insts, v.procs) && Past(v.insts, v.procs, v.now)
  {
    var v := TrySlot(w, p, run, sid, i, n);
    forall j, s | j in v.insts && s in v.insts[j] ensures OwnsSlot(v.procs, v.insts[j][s], j, s) {
      if j != i || s != sid { assert OwnsSlot(w.procs, w.insts[j][s], j, s); }
    }
    forall q | q in v.procs ensures ProcPast(v.insts, v.procs[q], v.now) {
      if q != p { assert ProcPast(w.insts, w.procs[q], w.now); }
    }
  }

  /** A session that registers now was not live when an earlier commit looked for it. */
  lemma SlotNotifiers(w: World, p: Pid, run: string, sid: string, i: Inst, n: nat)
    requires Inv(w) && NewTime(w, n) && i in w.insts && sid !in w.insts[i] && !IsOwner(w.procs, p)
    ensures NotifiersSound(TrySlot(w, p, run, sid, i, n).procs)
  {
    var v := TrySlot(w, p, run, sid, i, n);
    forall q, o | q in v.procs && IsOwner(v.procs, o) ensures NotifierSound(v.procs, v.procs[q], o) {
      if q != p {
        assert ProcPast(w.insts, w.procs[q], n);
        if o != p { assert NotifierSound(w.procs, w.procs[q], o); }
      }
    }
  }

  /** Taking a free slot keeps the invariant exactly when the slot lands in a registry that
      is published and not under removal. */
  lemma TakeSlotIff(w: World, p: Pid, run: string, sid: string, i: Inst, n: nat)
    requires Inv(w) && NewTime(w, n) && i in w.insts && sid !in w.insts[i]
    requires p <= n && (p in w.procs ==> !w.procs[p].Owner? && !w.procs[p].Removing?)
    ensures Inv(TrySlot(w, p, run, sid, i, n)) <==> Lands(w.published, w.procs, run, i)
  {
    SlotReachable(w, p, run, sid, i, n);
    SlotRemoval(w, p, run, sid, i, n);
    SlotOwned(w, p, run, sid, i, n);
    SlotNotifiers(w, p, run, sid, i, n);
  }

  lemma TrySlotKeeps(w: World, p: Pid, run: string, sid: string, i: Inst, n: nat)
    requires Inv(w) && NewTime(w, n) && i in w.insts
    requires p <= n && (p in w.procs ==> !w.procs[p].Owner? && !w.procs[p].Removing?)
    requires sid in w.insts[i] || Lands(w.published, w.procs, run, i)
    ensures Inv(TrySlot(w, p, run, sid, i, n))
  {
    if sid in w.insts[i] { DropKeeps(w, p); } else { TakeSlotIff(w, p, run, sid, i, n); }
  }

  /** Getting the registry and registering in one step always lands. */
  lemma LaunchKeeps(w: World, p: Pid, run: string, sid: string, n: nat)
    requires Inv(w) && Fresh(w, n) && Unlocked(w)
    requires p <= n && (p in w.procs ==> !w.procs[p].Owner?)
    ensures Inv(LaunchAs(w, p, run, sid, n))
  {
    var v := WithRegistry(w, run, n);
    WithRegistryKeeps(w, run, n);
    assert Lands(v.published, v.procs, run, v.published[run]);
    TrySlotKeeps(v, p, run, sid, v.published[run], n);
  }

  // ------------------------------------------------------------ giving one back

  lemma ReleaseReachable(w: World, p: Pid)
    requires Inv(w) && IsOwner(w.procs, p) && w.procs[p].inst in w.insts
    ensures var v := ReleaseSlot(w, p);
            AllReachable(v.published, v.insts, v.procs) && SlotsOwned(v.insts, v.procs)
  {
    var o, v := w.procs[p], ReleaseSlot(w, p);
    assert InPublished(w.published, w.insts, p, o);
    forall q | IsOwner(v.procs, q) ensures InPublished(v.published, v.insts, q, v.procs[q]) {
      assert InPublished(w.published, w.insts, q, w.procs[q]);
    }
    forall j, s | j in v.insts && s in v.insts[j] ensures OwnsSlot(v.procs, v.insts[j][s], j, s) {
      assert OwnsSlot(w.procs, w.insts[j][s], j, s);
    }
  }

  lemma ReleaseKeeps(w: World, p: Pid)
    requires Inv(w) && IsOwner(w.procs, p) && w.procs[p].inst in w.insts
    ensures Inv(ReleaseSlot(w, p))
  {
    var v := ReleaseSlot(w, p);
    ReleaseReachable(w, p);
    NotifiersKeep(w.procs, v.procs);
    ReleasePast(w, p);
  }

  lemma ReleasePast(w: World, p: Pid)
    requires Inv(w) && IsOwner(w.procs, p) && w.procs[p].inst in w.insts
    ensures var v := ReleaseSlot(w, p); Past(v.insts, v.procs, v.now)
  {
    var v := ReleaseSlot(w, p);
    forall q | q in v.procs ensures ProcPast(v.insts, v.procs[q], v.now) {
      assert ProcPast(w.insts, w.procs[q], w.now);
    }
  }

  /** Only an empty registry that is published is put down for removal. */
  lemma CheckEmptyKeeps(w: World, p: Pid)
    requires Inv(w) && Unlocked(w) && p in w.procs && w.procs[p].Leaving?
    requires w.procs[p].run in w.published && w.insts[w.published[w.procs[p].run]] == map[]
    ensures Inv(Put(w, p, Removing(w.procs[p].run, w.published[w.procs[p].run])))
  {
    var v := Put(w, p, Removing(w.procs[p].run, w.published[w.procs[p].run]));
    assert forall q :: IsOwner(v.procs, q) <==> IsOwner(w.procs, q);
    SlotsKeep(w.insts, w.procs, v.procs);
    NotifiersKeep(w.procs, v.procs);
  }

  /** Deleting leaves every live session reachable, since the registry is still empty. */
  lemma DeleteKeeps(w: World, p: Pid)
    requires Inv(w) && p in w.procs && w.procs[p].Removing?
    ensures Inv(Drop(w.(published := w.published - {w.procs[p].run}), p))
  {
    var v := Drop(w.(published := w.published - {w.procs[p].run}), p);
    assert forall q :: IsOwner(v.procs, q) <==> IsOwner(w.procs, q);
    SlotsKeep(w.insts, w.procs, v.procs);
    NotifiersKeep(w.procs, v.procs);
    forall q | IsOwner(v.procs, q) ensures InPublished(v.published, v.insts, q, v.procs[q]) {
      assert InPublished(w.published, w.insts, q, w.procs[q]);
    }
  }

  // ------------------------------------------------------------------- one step

  /** The condition a launcher would have to check between its two lock holds: the slot it
      is about to take is in the published registry, and nobody is removing that registry. */
  predicate GoodStep(w: World, s: Step) {
    s.Claim? && Enabled(w, s) ==>
      var k := w.procs[s.p];
      k.sid in w.insts[k.inst] || Lands(w.published, w.procs, k.run, k.inst)
  }

  lemma SpawnLands(w: World, q: Pid)
    requires Inv(w) && IsOwner(w.procs, q)
    ensures w.procs[q].inst in w.insts && Lands(w.published, w.procs, w.procs[q].run, w.procs[q].inst)
  {
    assert InPublished(w.published, w.insts, q, w.procs[q]);
  }

  lemma LauncherKeeps(w: World, s: Step, n: nat)
    requires Inv(w) && Fresh(w, n) && Enabled(w, s)
    requires s.Touch? || s.Launch? || s.Capture? || s.Spawn? || s.Respawn?
    ensures Inv(Act(w, s, n))
  {
    match s
    case Touch(run) => WithRegistryKeeps(w, run, n);
    case Launch(run, sid) => LaunchKeeps(w, n, run, sid, n);
    case Capture(run, sid) =>
      WithRegistryKeeps(w, run, n);
      PutKeeps(WithRegistry(w, run, n), n, Captured(run, sid, WithRegistry(w, run, n).published[run]));
    case Spawn(q, sid) =>
      SpawnLands(w, q);
      TrySlotKeeps(w, n, w.procs[q].run, sid, w.procs[q].inst, n);
    case Respawn(p) => LaunchKeeps(w, p, w.procs[p].run, w.procs[p].sid, n);
  }

  lemma BumpKeeps(w: World, h: Pid)
    requires Inv(w)
    ensures Inv(Bump(w, h))
  {
  }

  lemma OtherKeeps(w: World, s: Step, n: nat)
    requires Inv(w) && Fresh(w, n) && Enabled(w, s)
    requires !s.Touch? && !s.Launch? && !s.Capture? && !s.Spawn? && !s.Respawn? && !s.Claim?
    ensures Inv(Act(w, s, n))
  {
    match s
    case Release(p) => ReleaseKeeps(w, p);
    case CheckEmpty(p) =>
      var run := w.procs[p].run;
      if run in w.published && w.insts[w.published[run]] == map[] { CheckEmptyKeeps(w, p); } else { DropKeeps(w, p); }
    case Delete(p) => DeleteKeeps(w, p);
    case Quit(p) => DropKeeps(w, p);
    case Commit(run, sid) => CommitKeeps(w, run, sid, n);
    case Lookup(p) => LookupKeeps(w, p);
    case Wake(p) =>
      BumpKeeps(w, w.procs[p].handle);
      DropKeeps(Bump(w, w.procs[p].handle), p);
    case Ignore(p) => DropKeeps(w, p);
  }

  /** Every step keeps the invariant, except a registration that does not land; that one
      always breaks it. */
  lemma StepIff(w: World, s: Step)
    requires Inv(w) && Enabled(w, s)
    ensures Inv(Apply(w, s)) <==> GoodStep(w, s)
  {
    var v, n := Tick(w), w.now;
    TickKeeps(w);
    if s.Claim? {
      var k := v.procs[s.p];
      assert ProcPast(v.insts, k, n);
      if k.sid in v.insts[k.inst] {
        DropKeeps(v, s.p);
      } else {
        TakeSlotIff(v, s.p, k.run, k.sid, k.inst, n);
      }
    } else if s.Touch? || s.Launch? || s.Capture? || s.Spawn? || s.Respawn? {
      LauncherKeeps(v, s, n);
    } else {
      OtherKeeps(v, s, n);
    }
  }
}
