/** Respawning a session and recovering a run's active spine. */
module Recover {
  import opened Text
  import opened Events
  import opened Registry

  datatype Row = Row(id: string, status: Status, parent: string, agentType: string)

  /** What is fixed while a run is recovered. */
  datatype Setting = Setting(
    run: string,
    rows: seq<Row>,              // ListSessions
    knownTypes: set<string>,     // agent.Get succeeds
    launchable: set<string>,     // provider, workspace and factory succeed
    storeFails: set<string>)     // reading or appending to the stream fails

  predicate DistinctIds(rows: seq<Row>) {
    forall i, j :: 0 <= i < j < |rows| ==> rows[i].id != rows[j].id
  }

  predicate HasRow(s: Setting, sid: string) {
    exists r :: r in s.rows && r.id == sid
  }

  predicate Known(s: Setting, sid: string) {
    exists r :: r in s.rows && r.id == sid && r.agentType in s.knownTypes
  }

  /** What recovery acts on, given the sessions that had a goroutine at the start. */
  predicate Wanted(s: Setting, live: set<string>, r: Row) {
    r.id !in live && IsSpine(r.status, r.parent) && r.agentType in s.knownTypes
  }

  predicate Starts(s: Setting, live: set<string>, r: Row) {
    Wanted(s, live, r) && r.id in s.launchable
  }

  /** The ids of the wanted rows, in order, that `p` accepts. */
  function Ids(rows: seq<Row>, p: Row -> bool): seq<string> {
    if rows == [] then []
    else Ids(rows[..|rows| - 1], p) + if p(rows[|rows| - 1]) then [rows[|rows| - 1].id] else []
  }

  lemma {:induction false} IdsMember(rows: seq<Row>, p: Row -> bool, x: string)
    ensures x in Ids(rows, p) <==> exists r :: r in rows && p(r) && r.id == x
  {
    if rows != [] {
      var front, last := rows[..|rows| - 1], rows[|rows| - 1];
      IdsMember(front, p, x);
      assert rows == front + [last];
    }
  }

  /** The stream's tail is a reply without tool calls. */
  predicate AtRest(events: seq<Event>) {
    events != [] && IsNoToolAssistant(events[|events| - 1])
  }

  function StreamOf(streams: map<string, seq<Event>>, sid: string): seq<Event> {
    if sid in streams then streams[sid] else []
  }

  /** The stream of `x` after the first rows have been recovered. */
  function StreamAfter(s: Setting, live: set<string>, rows: seq<Row>, was: seq<Event>, x: string): seq<Event> {
    if x in Ids(rows, r => Wanted(s, live, r)) && !AtRest(was) then was + [RecoverEvent] else was
  }

  datatype View = View(live: set<string>, streams: map<string, seq<Event>>, started: seq<string>)

  /** How one row changes the view, and whether it counts as revived. */
  function RecoveredRow(s: Setting, was: View, r: Row, revived: bool): View {
    var starts := revived && r.id in s.launchable;
    View(
      was.live + if starts then {r.id} else {},
      if revived && !AtRest(StreamOf(was.streams, r.id))
        then was.streams[r.id := StreamOf(was.streams, r.id) + [RecoverEvent]] else was.streams,
      was.started + if starts then [r.id] else [])
  }

  /** The first `n` rows are recovered: started in order are the wanted ones that can be
      launched, a RecoverEvent is appended to the wanted ones not at rest, nothing else. */
  ghost predicate Recovered(s: Setting, was: View, now: View, n: nat, revived: nat)
    requires n <= |s.rows|
  {
    var done := s.rows[..n];
    && now.started == was.started + Ids(done, r => Starts(s, was.live, r))
    && (forall x :: x in now.live <==> x in was.live || x in Ids(done, r => Starts(s, was.live, r)))
    && (forall x :: StreamOf(now.streams, x) == StreamAfter(s, was.live, done, StreamOf(was.streams, x), x))
    && revived == |Ids(done, r => Wanted(s, was.live, r))|
  }

  /** `at` lists, from first to last, the positions of the rows that `p` accepts, and `ids` are
      the ids found there. */
  ghost predicate Picks(rows: seq<Row>, p: Row -> bool, ids: seq<string>, at: seq<nat>) {
    && |at| == |ids| && (forall k :: 0 <= k < |at| ==> at[k] < |rows| && rows[at[k]].id == ids[k])
    && (forall j, k :: 0 <= j < k < |at| ==> at[j] < at[k])
    && (forall i :: 0 <= i < |rows| ==> (i in at <==> p(rows[i])))
  }

  lemma PicksOneMore(rows: seq<Row>, p: Row -> bool, ids: seq<string>, at: seq<nat>)
    requires rows != [] && Picks(rows[..|rows| - 1], p, ids, at)
    ensures var last := |rows| - 1;
            if p(rows[last]) then Picks(rows, p, ids + [rows[last].id], at + [last]) else Picks(rows, p, ids, at)
  {
    var front, last := rows[..|rows| - 1], |rows| - 1;
    assert forall i :: 0 <= i < last ==> front[i] == rows[i];
    assert forall k :: 0 <= k < |at| ==> at[k] < last;
  }

  lemma {:induction false} IdsAt(rows: seq<Row>, p: Row -> bool) returns (at: seq<nat>)
    ensures Picks(rows, p, Ids(rows, p), at)
  {
    at := [];
    if rows != [] {
      at := IdsAt(rows[..|rows| - 1], p);
      PicksOneMore(rows, p, Ids(rows[..|rows| - 1], p), at);
      if p(rows[|rows| - 1]) { at := at + [|rows| - 1]; }
    }
  }

  /** What recovery did to the session of row `k` and to its stream, said outright: an
      unregistered session of a known type that was working, waiting, or is a crashed root, is
      revived; it is started if it can be launched, and its stream gets a RecoverEvent unless
      it ends with a reply without tool calls. */
  lemma RecoveredSays(s: Setting, was: View, now: View, n: nat, revived: nat, k: nat)
    requires DistinctIds(s.rows) && k < n <= |s.rows| && Recovered(s, was, now, n, revived)
    ensures var r := s.rows[k];
            var stream := if r.id in was.streams then was.streams[r.id] else [];
            var spine := r.status == Ongoing || r.status == Awaiting || (r.status == Crashed && r.parent == "");
            var wanted := r.id !in was.live && r.agentType in s.knownTypes && spine;
            var atRest := stream != [] && stream[|stream| - 1] == AssistantEvent(0);
            && (r.id in now.live <==> r.id in was.live || (wanted && r.id in s.launchable))
            && (if r.id in now.streams then now.streams[r.id] else [])
               == if wanted && !atRest then stream + [RecoverEvent] else stream
  {
    var r, done := s.rows[k], s.rows[..n];
    assert done[k] == r;
    IdsMember(done, x => Wanted(s, was.live, x), r.id);
    IdsMember(done, x => Starts(s, was.live, x), r.id);
    assert StreamOf(now.streams, r.id) == StreamAfter(s, was.live, done, StreamOf(was.streams, r.id), r.id);
  }

  /** Nobody else is started, and no other stream is written. */
  lemma OthersStay(s: Setting, was: View, now: View, n: nat, revived: nat, x: string)
    requires n <= |s.rows| && Recovered(s, was, now, n, revived)
    requires forall k :: 0 <= k < n ==> s.rows[k].id != x
    ensures x in now.live <==> x in was.live
    ensures (if x in now.streams then now.streams[x] else []) == if x in was.streams then was.streams[x] else []
  {
    var done := s.rows[..n];
    IdsMember(done, r => Wanted(s, was.live, r), x);
    IdsMember(done, r => Starts(s, was.live, r), x);
    assert StreamOf(now.streams, x) == StreamAfter(s, was.live, done, StreamOf(was.streams, x), x);
  }

  /** The goroutines start in the order of the rows, one for each row that is wanted and can be
      launched; `revived` is the number of the wanted rows. */
  lemma StartedInOrder(s: Setting, was: View, now: View, n: nat, revived: nat)
    returns (at: seq<nat>, counted: seq<nat>)
    requires n <= |s.rows| && Recovered(s, was, now, n, revived)
    ensures |now.started| == |was.started| + |at| && was.started <= now.started
    ensures forall k :: 0 <= k < |at| ==> at[k] < n && s.rows[at[k]].id == now.started[|was.started|..][k]
    ensures forall j, k :: 0 <= j < k < |at| ==> at[j] < at[k]
    ensures forall i :: 0 <= i < n ==> (i in at <==> Starts(s, was.live, s.rows[i]))
    ensures |counted| == revived && forall j, k :: 0 <= j < k < |counted| ==> counted[j] < counted[k] < n
    ensures forall i :: 0 <= i < n ==> (i in counted <==> Wanted(s, was.live, s.rows[i]))
  {
    var done := s.rows[..n];
    at := IdsAt(done, r => Starts(s, was.live, r));
    counted := IdsAt(done, r => Wanted(s, was.live, r));
    assert forall i :: 0 <= i < n ==> done[i] == s.rows[i];
    assert now.started[|was.started|..] == Ids(done, r => Starts(s, was.live, r));
  }

  lemma NothingRecovered(s: Setting, was: View)
    ensures Recovered(s, was, was, 0, 0)
  {
  }

  lemma RecoveredStep(s: Setting, was: View, now: View, n: nat, revived: nat)
    requires DistinctIds(s.rows) && n < |s.rows| && Recovered(s, was, now, n, revived)
    ensures var r := s.rows[n];
            var wanted := Wanted(s, was.live, r);
            && (wanted <==> Wanted(s, now.live, r)) && (r.id in now.live <==> r.id in was.live)
            && Recovered(s, was, RecoveredRow(s, now, r, wanted), n + 1, revived + if wanted then 1 else 0)
  {
    NotYet(s.rows, n, r => Starts(s, was.live, r));
    NotYet(s.rows, n, r => Wanted(s, was.live, r));
  }

  class RunManager {
    const runReg: RunRegistry
    const setting: Setting
    var streams: map<string, seq<Event>>
    var started: seq<string>     // goroutines launched, in order

    constructor (runReg: RunRegistry, setting: Setting, streams: map<string, seq<Event>>)
      ensures this.runReg == runReg && this.setting == setting && this.streams == streams && started == []
    {
      this.runReg, this.setting, this.streams, started := runReg, setting, streams, [];
    }

    /** The run's published registry, if there is one. */
    ghost function Published(): set<SessionRegistry>
      reads this, runReg
    {
      if setting.run in runReg.runs then {runReg.runs[setting.run]} else {}
    }

    /** The run's sessions with a goroutine, as the published registry knows them. */
    ghost function Live(): set<string>
      reads this, runReg, Published()
    {
      if setting.run in runReg.runs then runReg.runs[setting.run].sessions.Keys else {}
    }

    /** A registry some caller holds: still the published one, or removed when it was empty. */
    ghost predicate Holds(reg: SessionRegistry)
      reads this, runReg, Published(), reg
    {
      if reg in Published() then reg.sessions.Keys == Live() else reg.sessions.Keys == {}
    }

    /** Gets the published registry and claims a slot in it. */
    method ClaimSlot(sid: string) returns (reg: SessionRegistry, h: Handle?, ok: bool)
      modifies runReg, Published()
      ensures Published() == {reg}
      ensures old(Published()) == {} ==> fresh(reg)
      ensures old(Published()) != {} ==> old(Published()) == {reg}
      ensures ok <==> sid !in old(Live())
      ensures ok ==> h != null && fresh(h)
      ensures reg.sessions.Keys == Live() == old(Live()) + {sid}
    {
      reg := runReg.GetOrCreate(setting.run);
      h, ok := reg.RegisterAndContext(sid);
    }

    /** The bail-out of a launch: the slot is freed and an empty registry removed. */
    method GiveBack(reg: SessionRegistry, sid: string, h: Handle)
      requires Published() == {reg}
      modifies runReg, reg, h
      ensures Live() == old(Live()) - {sid}
      ensures Published() == {reg} || (Published() == {} && reg.sessions == map[])
      ensures reg.sessions.Keys == Live()
    {
      reg.Release(sid, h);
      var _ := runReg.RemoveIfEmpty(setting.run);
    }

    /** `RespawnSession`: claims the slot first, gives it back if the launch fails. */
    method RespawnSession(sid: string)
      modifies this, runReg, Published()
      ensures streams == old(streams)
      ensures var starts := sid !in old(Live()) && Known(setting, sid) && sid in setting.launchable;
              && Live() == old(Live()) + (if starts then {sid} else {})
              && started == old(started) + (if starts then [sid] else [])
      ensures fresh(Published() - old(Published()))
      ensures forall reg :: reg in old(Published()) ==> Holds(reg) && Published() <= {reg}
    {
      if !HasRow(setting, sid) { return; }
      var reg, h, ok := ClaimSlot(sid);
      if !ok { return; }
      if Known(setting, sid) && sid in setting.launchable {
        started := started + [sid];
      } else {
        GiveBack(reg, sid, h);
      }
    }

    /** `AppendEvent` for a session without a goroutine: the event is written, then the
        commit listener runs. */
    method AppendEvent(sid: string, e: Event, status: Status)
      requires sid !in Live()
      modifies this, runReg, Published()
      ensures streams == old(streams)[sid := (if sid in old(streams) then old(streams)[sid] else []) + [e]]
      ensures var starts := Revives(e, Some(status)) && Known(setting, sid) && sid in setting.launchable;
              && Live() == old(Live()) + (if starts then {sid} else {})
              && started == old(started) + (if starts then [sid] else [])
      ensures fresh(Published() - old(Published()))
      ensures forall reg :: reg in old(Published()) ==> Holds(reg) && Published() <= {reg}
    {
      streams := streams[sid := StreamOf(streams, sid) + [e]];
      var outcome := OnCommit(runReg, setting.run, sid, e, true, Some(status));
      if outcome == Respawn { RespawnSession(sid); }
    }

    /** One turn of the loop in `RecoverRun`, for a session that the registry `reg`, held
        since the start, knows as live exactly when it is. */
    method RecoverRow(reg: SessionRegistry, r: Row) returns (revived: bool, ok: bool)
      requires r in setting.rows && Holds(reg) && (r.id in reg.sessions <==> r.id in Live())
      modifies this, runReg, Published()
      ensures Holds(reg) && fresh(Published() - old(Published()))
      ensures reg in old(Published()) ==> Published() <= {reg}
      ensures ok <==> !Wanted(setting, old(Live()), r) || r.id !in setting.storeFails
      ensures revived <==> Wanted(setting, old(Live()), r) && ok
      ensures Now() == RecoveredRow(setting, old(Now()), r, revived)
    {
      if reg.IsRegistered(r.id) || !IsSpine(r.status, r.parent) { return false, true; }
      if r.agentType !in setting.knownTypes { return false, true; }
      if r.id in setting.storeFails { return false, false; }
      if AtRest(StreamOf(streams, r.id)) {
        RespawnSession(r.id);
      } else {
        AppendEvent(r.id, RecoverEvent, r.status);
      }
      return true, true;
    }

    /** The manager's state in values. */
    ghost function Now(): View
      reads this, runReg, Published()
    {
      View(Live(), streams, started)
    }

    /** The same turn, seen from the start of the recovery. */
    method Turn(reg: SessionRegistry, i: nat, ghost was: View, count: nat) returns (revived: nat, ok: bool)
      requires DistinctIds(setting.rows) && i < |setting.rows|
      requires Holds(reg) && was.live <= reg.sessions.Keys && Recovered(setting, was, Now(), i, count)
      modifies this, runReg, Published()
      ensures fresh(Published() - old(Published()))
      ensures ok ==> Holds(reg) && was.live <= reg.sessions.Keys && Recovered(setting, was, Now(), i + 1, revived)
      ensures !ok ==> Recovered(setting, was, Now(), i, revived)
                      && Wanted(setting, was.live, setting.rows[i]) && setting.rows[i].id in setting.storeFails
    {
      RecoveredStep(setting, was, Now(), i, count);
      ghost var held := reg in Published();
      var again, fine := RecoverRow(reg, setting.rows[i]);
      assert held && reg !in Published() ==> Live() == {};
      return if again then count + 1 else count, fine;
    }

    /** `RecoverRun`: `n` rows are handled before the first store failure, or all of them. */
    method RecoverRun() returns (revived: nat, ok: bool, ghost n: nat)
      requires DistinctIds(setting.rows)
      modifies this, runReg, Published()
      ensures n <= |setting.rows|
      ensures ok <==> n == |setting.rows|
      ensures !ok ==> Wanted(setting, old(Live()), setting.rows[n]) && setting.rows[n].id in setting.storeFails
      ensures Recovered(setting, old(Now()), Now(), n, revived)
      ensures fresh(Published() - old(Published()))
    {
      var reg := runReg.GetOrCreate(setting.run);
      ghost var was := old(Now());
      revived, n := 0, 0;
      NothingRecovered(setting, was);
      for i := 0 to |setting.rows|
        invariant n == i && was.live <= reg.sessions.Keys && Holds(reg)
        invariant fresh(Published() - old(Published()))
        invariant Recovered(setting, was, Now(), i, revived)
      {
        revived, ok := Turn(reg, i, was, revived);
        if !ok { return; }
        n := n + 1;
      }
      ok := true;
    }

    /** Recovering again while the first recovery's goroutines are registered revives nothing. */
    method RecoverTwice() returns (first: nat, second: nat)
      requires DistinctIds(setting.rows)
      requires forall r :: r in setting.rows ==> r.id in setting.launchable && r.id !in setting.storeFails
      modifies this, runReg, Published()
      ensures first == |Ids(setting.rows, r => Wanted(setting, old(Live()), r))|
      ensures started == old(started) + Ids(setting.rows, r => Wanted(setting, old(Live()), r))
      ensures second == 0
    {
      ghost var was := Now();
      var ok := false;
      ghost var n: nat := 0;
      first, ok, n := RecoverRun();
      ghost var mid := Now();
      AllRecovered(setting, was, mid, first);
      second, ok, n := RecoverRun();
      NothingLeft(setting, mid, Now(), second);
    }
  }

  lemma AllRecovered(s: Setting, was: View, now: View, revived: nat)
    requires Recovered(s, was, now, |s.rows|, revived)
    requires forall r :: r in s.rows ==> r.id in s.launchable
    ensures revived == |Ids(s.rows, r => Wanted(s, was.live, r))|
    ensures now.started == was.started + Ids(s.rows, r => Wanted(s, was.live, r))
    ensures forall r :: r in s.rows ==> !Wanted(s, now.live, r)
  {
    assert s.rows[..|s.rows|] == s.rows;
    SameIds(s.rows, r => Starts(s, was.live, r), r => Wanted(s, was.live, r));
    forall r | r in s.rows ensures !Wanted(s, now.live, r) {
      IdsMember(s.rows, x => Starts(s, was.live, x), r.id);
    }
  }

  lemma NothingLeft(s: Setting, was: View, now: View, revived: nat)
    requires Recovered(s, was, now, |s.rows|, revived)
    requires forall r :: r in s.rows ==> !Wanted(s, was.live, r)
    ensures revived == 0 && now.started == was.started
  {
    assert s.rows[..|s.rows|] == s.rows;
    NoIds(s.rows, r => Wanted(s, was.live, r));
    NoIds(s.rows, r => Starts(s, was.live, r));
  }

  /** A row's id is not among the ids of the rows before it. */
  lemma NotYet(rows: seq<Row>, i: nat, p: Row -> bool)
    requires DistinctIds(rows) && i < |rows|
    ensures rows[i].id !in Ids(rows[..i], p)
    ensures Ids(rows[..i + 1], p) == Ids(rows[..i], p) + if p(rows[i]) then [rows[i].id] else []
  {
    IdsMember(rows[..i], p, rows[i].id);
    assert rows[..i + 1][..i] == rows[..i];
  }

  lemma {:induction false} SameIds(rows: seq<Row>, p: Row -> bool, q: Row -> bool)
    requires forall r :: r in rows ==> (p(r) <==> q(r))
    ensures Ids(rows, p) == Ids(rows, q)
  {
    if rows != [] { SameIds(rows[..|rows| - 1], p, q); }
  }

  lemma {:induction false} NoIds(rows: seq<Row>, p: Row -> bool)
    requires forall r :: r in rows ==> !p(r)
    ensures Ids(rows, p) == []
  {
    if rows != [] { NoIds(rows[..|rows| - 1], p); }
  }
}
