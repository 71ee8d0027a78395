/** Waiters, session registries and the run registry as the objects they are. */
module Registry {
  import opened Text
  import opened Events
  import Liveness
  import WaiterProtocol

  /** A broadcast channel: only ever closed. */
  class Channel {
    var closed: bool

    constructor ()
      ensures !closed
    {
      closed := false;
    }
  }

  class Waiter {
    var counter: nat
    var ch: Channel

    ghost predicate Valid()
      reads this, ch
    {
      counter < WaiterProtocol.WRAP && !ch.closed
    }

    constructor ()
      ensures Valid() && fresh(ch) && counter == 0
    {
      counter := 0;
      ch := new Channel();
    }

    /** `notify`: everyone waiting on the old channel is released. */
    method Notify()
      requires Valid()
      modifies this, ch
      ensures Valid() && fresh(ch) && old(ch).closed
      ensures counter == (old(counter) + 1) % WaiterProtocol.WRAP
    {
      counter := (counter + 1) % WaiterProtocol.WRAP;
      ch.closed := true;
      ch := new Channel();
    }
  }

  /** A registered session's waiter and its cancel flag. */
  class Handle {
    const waiter: Waiter
    var cancelled: bool

    constructor ()
      ensures fresh(waiter) && fresh(waiter.ch) && waiter.Valid() && waiter.counter == 0 && !cancelled
    {
      waiter := new Waiter();
      cancelled := false;
    }
  }

  class SessionRegistry {
    var sessions: map<string, Handle>

    constructor ()
      ensures sessions == map[]
    {
      sessions := map[];
    }

    predicate IsRegistered(sid: string)
      reads this
    {
      sid in sessions
    }

    predicate IsEmpty()
      reads this
    {
      sessions == map[]
    }

    /** Claims a slot for a new handle; without `ok` nothing changes. */
    method RegisterAndContext(sid: string) returns (h: Handle?, ok: bool)
      modifies this
      ensures ok <==> old(sid !in sessions)
      ensures ok ==> h != null && fresh(h) && fresh(h.waiter) && h.waiter.Valid() && !h.cancelled
                     && sessions == Liveness.Register(old(sessions), sid, h) && sessions[sid] == h
      ensures !ok ==> h == null && sessions == old(sessions)
    {
      if sid in sessions {
        return null, false;
      }
      h := new Handle();
      sessions := sessions[sid := h];
      ok := true;
    }

    method Unregister(sid: string)
      modifies this
      ensures sessions == Liveness.Unregister(old(sessions), sid)
    {
      sessions := sessions - {sid};
    }

    /** The closure `release`: cancels the handle it was made for and frees the slot. */
    method Release(sid: string, h: Handle)
      modifies this, h`cancelled
      ensures h.cancelled && sessions == Liveness.Unregister(old(sessions), sid)
    {
      h.cancelled := true;
      Unregister(sid);
    }

    /** Bumps the waiter of a registered session; reports whether there was one. */
    method Notify(sid: string) returns (live: bool)
      requires sid in sessions ==> sessions[sid].waiter.Valid()
      modifies if sid in sessions then {sessions[sid].waiter, sessions[sid].waiter.ch} else {}
      ensures live <==> sid in sessions
      ensures live ==> var w := sessions[sid].waiter;
                       w.Valid() && w.counter == (old(w.counter) + 1) % WaiterProtocol.WRAP && old(w.ch).closed
    {
      if sid !in sessions { return false; }
      sessions[sid].waiter.Notify();
      return true;
    }

    method Interrupt(sid: string)
      modifies if sid in sessions then {sessions[sid]} else {}
      ensures sid in sessions ==> sessions[sid].cancelled
    {
      if sid in sessions { sessions[sid].cancelled := true; }
    }

    /** Cancels every handle: first a snapshot of the map, then one by one. */
    method CancelAll()
      modifies sessions.Values
      ensures forall sid :: sid in sessions ==> sessions[sid].cancelled
    {
      var todo := sessions.Values;
      while todo != {}
        invariant todo <= sessions.Values
        invariant forall h :: h in sessions.Values && h !in todo ==> h.cancelled
        decreases todo
      {
        var h :| h in todo;
        h.cancelled := true;
        todo := todo - {h};
      }
      forall sid | sid in sessions ensures sessions[sid].cancelled { assert sessions[sid] in sessions.Values; }
    }
  }

  class RunRegistry {
    var runs: map<string, SessionRegistry>

    constructor ()
      ensures runs == map[]
    {
      runs := map[];
    }

    /** The published registry of a run, published empty if there was none. */
    method GetOrCreate(run: string) returns (reg: SessionRegistry)
      modifies this
      ensures run in runs && runs[run] == reg
      ensures runs == Liveness.Publish(old(runs), run, reg)
      ensures old(run !in runs) ==> fresh(reg) && reg.sessions == map[]
    {
      if run in runs { return runs[run]; }
      reg := new SessionRegistry();
      runs := runs[run := reg];
    }

    function Get(run: string): (r: Option<SessionRegistry>)
      reads this
      ensures r.Some? <==> run in runs
    {
      if run in runs then Some(runs[run]) else None
    }

    predicate IsRunActive(run: string)
      reads this, if run in runs then {runs[run]} else {}
    {
      run in runs && !runs[run].IsEmpty()
    }

    /** Unpublishes a run whose registry has no session, and no other; so no run becomes active
        or inactive by it. */
    method RemoveIfEmpty(run: string) returns (removed: bool)
      modifies this
      ensures removed <==> old(run in runs && runs[run].IsEmpty())
      ensures runs == if removed then old(runs) - {run} else old(runs)
      ensures forall q :: IsRunActive(q) == old(IsRunActive(q))
    {
      if run !in runs { return false; }
      if !runs[run].IsEmpty() { return false; }
      runs := runs - {run};
      return true;
    }

    /** Whether a run has a live session of this name. */
    predicate Live(run: string, sid: string)
      reads this, if run in runs then {runs[run]} else {}
    {
      run in runs && runs[run].IsRegistered(sid)
    }
  }

  /** What became of a committed event. */
  datatype Outcome = Woke | Persisted | Respawn

  /** The listener `NewCommitNotifier` returns, for a store that calls it with the session's
      status: a live session is woken by anything but its own tool results, a cold one is
      respawned by what revives it. */
  method OnCommit(reg: RunRegistry, run: string, sid: string, e: Event, hasRespawn: bool, status: Option<Status>)
    returns (outcome: Outcome)
    requires reg.Live(run, sid) ==> reg.runs[run].sessions[sid].waiter.Valid()
    modifies if reg.Live(run, sid) && !e.ToolResultEvent?
             then {reg.runs[run].sessions[sid].waiter, reg.runs[run].sessions[sid].waiter.ch} else {}
    ensures outcome == Woke <==> !e.ToolResultEvent? && reg.Live(run, sid)
    ensures outcome == Respawn <==> !reg.Live(run, sid) && hasRespawn && Revives(e, status)
    ensures hasRespawn && !reg.Live(run, sid) ==>
              match e
              case UserEvent => outcome == Respawn
              case RecoverEvent => outcome == Respawn
              case MessageEvent(fromEnvironment) =>
                var finished := status in {Some(Concluded), Some(Crashed), Some(Cancelled)};
                outcome == Respawn <==> !(fromEnvironment && finished)
              case ChildResultEvent(_, verdict) => outcome == Respawn <==> verdict == Concluded
              case ToolResultEvent => outcome == Persisted
              case SystemEvent => outcome == Persisted
              case AssistantEvent(_) => outcome == Persisted
    ensures outcome == Woke ==>
              var w := reg.runs[run].sessions[sid].waiter;
              w.counter == (old(w.counter) + 1) % WaiterProtocol.WRAP && old(w.ch).closed
  {
    if e.ToolResultEvent? { return Persisted; }
    var r := reg.Get(run);
    if r.Some? {
      var live := r.value.Notify(sid);
      if live { return Woke; }
    }
    if !hasRespawn || !IsInput(e) { return Persisted; }
    if e.MessageEvent? && e.fromEnvironment && status.Some? && Terminal(status.value) { return Persisted; }
    return Respawn;
  }
}
