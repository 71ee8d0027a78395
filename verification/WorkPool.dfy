/** The observer's worker pool: a set of sessions that want processing, a set of those in
    progress, a condition variable, and the drain in `Stop`. */
module WorkPool {
  import opened Text

  type Key = nat       // one session
  type Worker = nat

  // ---------------------------------------------------------------- the protocol

  datatype Pc = Ready | Asleep | Busy(key: Key, since: nat) | Gone

  datatype Stopper = Idle | Checking | Waiting | Closing(drained: bool) | Returned(drained: bool)

  datatype State = State(
    pending: set<Key>, active: set<Key>, closed: bool,
    cancelled: bool,                  // the workers' context is over ...
    due: bool,                        // ... and its watcher has yet to broadcast
    stopCancelled: bool,              // the context given to Stop
    workers: map<Worker, Pc>,
    stopper: Stopper,
    accepted: set<(Key, nat)>,        // every accepted enqueue with its time
    passes: set<(Key, nat)>,          // every process pass completed under a live context, with its start
    now: nat)

  datatype Step =
    | Enqueue(k: Key)
    | Take(w: Worker, k: Key)     // locks and takes a key
    | Rest(w: Worker)             // locks, finds none: sleeps, or leaves
    | Done(w: Worker)             // processing over: releases the key
    | Cancel                      // the workers' context ends
    | Watch                       // its watcher broadcasts
    | CancelStop
    | Stop                        // Stop has swept and goes to its loop
    | Check                       // one turn of Stop's loop
    | Return                      // every worker has left

  function Takeable(s: State): set<Key> {
    s.pending - s.active
  }

  predicate Enabled(s: State, step: Step) {
    match step
    case Enqueue(_) => true
    case Take(w, k) => w in s.workers && s.workers[w].Ready? && k in Takeable(s)
    case Rest(w) => w in s.workers && s.workers[w].Ready? && Takeable(s) == {}
    case Done(w) => w in s.workers && s.workers[w].Busy?
    case Cancel => !s.cancelled
    case Watch => s.due
    case CancelStop => true
    case Stop => s.stopper.Idle?
    case Check => s.stopper.Checking?
    case Return => s.stopper.Closing? && forall w :: w in s.workers ==> s.workers[w].Gone?
  }

  /** `cond.Broadcast`: every sleeper tries again. */
  function Woken(workers: map<Worker, Pc>): map<Worker, Pc> {
    map w | w in workers :: if workers[w].Asleep? then Ready else workers[w]
  }

  function WokenStopper(p: Stopper): Stopper {
    if p.Waiting? then Checking else p
  }

  function Broadcast(s: State): State {
    s.(workers := Woken(s.workers), stopper := WokenStopper(s.stopper))
  }

  /** What a step does at time `n`. */
  function Act(s: State, step: Step, n: nat): State
    requires Enabled(s, step)
  {
    match step
    case Enqueue(k) =>
      if s.closed then s
      else Broadcast(s.(pending := s.pending + {k}, accepted := s.accepted + {(k, n)}))
    case Take(w, k) =>
      s.(pending := s.pending - {k}, active := s.active + {k}, workers := s.workers[w := Busy(k, n)])
    case Rest(w) =>
      s.(workers := s.workers[w := if s.closed || s.cancelled then Gone else Asleep])
    case Done(w) =>
      var b := s.workers[w];
      Broadcast(s.(active := s.active - {b.key}, workers := s.workers[w := Ready],
                   passes := if s.cancelled then s.passes else s.passes + {(b.key, b.since)}))
    case Cancel => s.(cancelled := true, due := true)
    case Watch => Broadcast(s.(due := false))
    case CancelStop => s.(stopCancelled := true)
    case Stop => s.(stopper := Checking)
    case Check =>
      var work := s.pending != {} || s.active != {};
      if work && !s.stopCancelled then s.(stopper := Waiting)
      else Broadcast(s.(closed := true, stopper := Closing(!work)))
    case Return => s.(stopper := Returned(s.stopper.drained))
  }

  function Next(s: State, step: Step): State
    requires Enabled(s, step)
  {
    Act(s.(now := s.now + 1), step, s.now)
  }

  // ------------------------------------------------------------------ the object

  /** The fields the mutex guards.  Each method is one hold of the mutex and does to the fields
      what its step of the protocol does to the state. */
  class WorkSet {
    var pending: set<Key>
    var active: set<Key>
    var closed: bool

    constructor ()
      ensures pending == {} && active == {} && !closed
    {
      pending, active, closed := {}, {}, false;
    }

    /** The fields are those of the protocol's state `s`. */
    predicate Shows(s: State)
      reads this
    {
      s.pending == pending && s.active == active && s.closed == closed
    }

    /** Accepted unless the set is closed; a broadcast goes with it. */
    method Enqueue(k: Key) returns (broadcast: bool)
      modifies this
      ensures broadcast <==> !closed
      ensures pending == (if closed then old(pending) else old(pending) + {k})
      ensures active == old(active) && closed == old(closed)
      ensures forall s: State :: old(Shows(s)) ==> Shows(Next(s, Step.Enqueue(k)))
    {
      broadcast := !closed;
      if !closed { pending := pending + {k}; }
    }

    /** `takePending`: looks through the pending keys for one that nobody is processing. */
    method TakePending() returns (k: Option<Key>)
      modifies this
      ensures k == None ==> pending == old(pending) && pending <= active
      ensures k.Some? ==> k.value in old(pending) && k.value !in active && pending == old(pending) - {k.value}
      ensures active == old(active) && closed == old(closed)
    {
      var rest := pending;
      while rest != {}
        invariant rest <= pending && pending - rest <= active
        invariant pending == old(pending) && active == old(active) && closed == old(closed)
        decreases rest
      {
        var x :| x in rest;
        rest := rest - {x};
        if x in active { continue; }
        pending := pending - {x};
        return Some(x);
      }
      return None;
    }

    /** The worker's hold before a pass: a key is taken and becomes active, or there is none. */
    method Take() returns (k: Option<Key>)
      modifies this
      ensures k == None ==> forall s: State :: old(Shows(s)) ==> Shows(s) && Takeable(s) == {}
      ensures k.Some? ==> forall s: State, w {:trigger Step.Take(w, k.value), s.workers} ::
                old(Shows(s)) && w in s.workers && s.workers[w].Ready?
                ==> Enabled(s, Step.Take(w, k.value)) && Shows(Next(s, Step.Take(w, k.value)))
    {
      k := TakePending();
      if k.Some? { active := active + {k.value}; }
    }

    /** The worker's hold after a pass. */
    method Finish(k: Key)
      modifies this
      ensures active == old(active) - {k} && pending == old(pending) && closed == old(closed)
      ensures forall s: State, w {:trigger Enabled(s, Done(w))} ::
                old(Shows(s)) && Enabled(s, Done(w)) && s.workers[w].key == k ==> Shows(Next(s, Done(w)))
    {
      active := active - {k};
    }

    /** The end of `Stop`'s loop. */
    method Close()
      modifies this
      ensures closed && pending == old(pending) && active == old(active)
      ensures forall s: State :: old(Shows(s)) && Enabled(s, Check) && Next(s, Check).closed ==> Shows(Next(s, Check))
    {
      closed := true;
    }
  }

  // ------------------------------------------------------------------- invariant

  predicate WorksOn(workers: map<Worker, Pc>, w: Worker) {
    w in workers && workers[w].Busy?
  }

  /** The keys in progress are exactly the busy workers', each worked on by one. */
  ghost predicate OneWorkerEach(active: set<Key>, workers: map<Worker, Pc>) {
    && (forall w :: WorksOn(workers, w) ==> workers[w].key in active)
    && (forall k :: k in active ==> exists w :: WorksOn(workers, w) && workers[w].key == k)
    && (forall v, w :: WorksOn(workers, v) && WorksOn(workers, w) && workers[v].key == workers[w].key ==> v == w)
  }

  predicate Sleeps(workers: map<Worker, Pc>, w: Worker) {
    w in workers && workers[w].Asleep?
  }

  /** Nobody sleeps while there is a key to take, or a reason to leave. */
  ghost predicate SleepersRight(s: State) {
    && ((exists w :: Sleeps(s.workers, w)) ==> Takeable(s) == {} && !s.closed && (!s.cancelled || s.due))
    && (s.stopper.Waiting? ==> s.pending != {} || s.active != {})
    && (forall w :: w in s.workers && s.workers[w].Gone? ==> s.closed || s.cancelled)
  }

  predicate IsPassAfter(p: (Key, nat), k: Key, t: nat) {
    p.0 == k && p.1 > t
  }

  /** An accepted enqueue is still pending, being processed since, or followed by a pass. */
  ghost predicate Answered(s: State, k: Key, t: nat) {
    || k in s.pending
    || (exists w :: WorksOn(s.workers, w) && s.workers[w].key == k && s.workers[w].since > t)
    || (exists p :: p in s.passes && IsPassAfter(p, k, t))
  }

  ghost predicate Inv(s: State) {
    && OneWorkerEach(s.active, s.workers) && SleepersRight(s)
    && (forall e :: e in s.accepted ==> e.1 < s.now)
    && (!s.cancelled ==> forall e :: e in s.accepted ==> Answered(s, e.0, e.1))
    && (s.closed <==> s.stopper.Closing? || s.stopper.Returned?)
    && (s.closed && s.stopper.drained ==> s.pending == {} && s.active == {})
  }

  ghost predicate Init(s: State) {
    && s.pending == {} && s.active == {} && !s.closed && !s.cancelled && !s.due && !s.stopCancelled
    && s.stopper == Idle && s.accepted == {} && s.passes == {}
    && forall w :: w in s.workers ==> s.workers[w] == Ready
  }

  lemma InitInv(s: State)
    requires Init(s)
    ensures Inv(s)
  {
  }

  // ---------------------------------------------------------- pieces of the proof

  lemma BroadcastKeeps(s: State)
    requires OneWorkerEach(s.active, s.workers)
    requires s.closed <==> s.stopper.Closing? || s.stopper.Returned?
    requires forall w :: w in s.workers && s.workers[w].Gone? ==> s.closed || s.cancelled
    ensures OneWorkerEach(s.active, Broadcast(s).workers) && SleepersRight(Broadcast(s))
  {
    var t := Broadcast(s);
    assert forall w :: WorksOn(t.workers, w) <==> WorksOn(s.workers, w);
    forall k | k in s.active ensures exists w :: WorksOn(t.workers, w) && t.workers[w].key == k {
      var w :| WorksOn(s.workers, w) && s.workers[w].key == k;
      assert WorksOn(t.workers, w);
    }
    assert forall w :: !Sleeps(t.workers, w);
  }

  lemma AnsweredStays(s: State, t: State, k: Key, at: nat)
    requires Answered(s, k, at)
    requires s.pending <= t.pending && s.passes <= t.passes
    requires forall w :: WorksOn(s.workers, w) ==> WorksOn(t.workers, w) && t.workers[w] == s.workers[w]
    ensures Answered(t, k, at)
  {
    if w :| WorksOn(s.workers, w) && s.workers[w].key == k && s.workers[w].since > at {
      assert WorksOn(t.workers, w);
    }
    if p :| p in s.passes && IsPassAfter(p, k, at) { assert p in t.passes; }
  }

  lemma EnqueueKeeps(s: State, k: Key, n: nat)
    requires Inv(s) && s.now == n + 1 && !s.closed && forall e :: e in s.accepted ==> e.1 < n
    ensures Inv(Act(s, Enqueue(k), n))
  {
    var u := s.(pending := s.pending + {k}, accepted := s.accepted + {(k, n)});
    var t := Broadcast(u);
    BroadcastKeeps(u);
    forall e | e in t.accepted && !t.cancelled ensures Answered(t, e.0, e.1) {
      if e != (k, n) { AnsweredStays(s, t, e.0, e.1); }
    }
  }

  lemma TakeKeeps(s: State, w: Worker, k: Key, n: nat)
    requires Inv(s) && s.now == n + 1 && Enabled(s, Take(w, k)) && forall e :: e in s.accepted ==> e.1 < n
    ensures Inv(Act(s, Take(w, k), n))
  {
    var t := Act(s, Take(w, k), n);
    assert WorksOn(t.workers, w);
    forall v | WorksOn(s.workers, v) ensures WorksOn(t.workers, v) && t.workers[v] == s.workers[v] { }
    forall j | j in t.active ensures exists v :: WorksOn(t.workers, v) && t.workers[v].key == j {
      if j != k {
        var v :| WorksOn(s.workers, v) && s.workers[v].key == j;
        assert WorksOn(t.workers, v);
      }
    }
    TakeSleepers(s, w, k, n);
    forall e | e in t.accepted && !t.cancelled ensures Answered(t, e.0, e.1) {
      assert Answered(s, e.0, e.1);
      if e.0 != k {
        AnsweredStays(s.(pending := t.pending), t, e.0, e.1);
      }
    }
  }

  lemma TakeSleepers(s: State, w: Worker, k: Key, n: nat)
    requires Inv(s) && Enabled(s, Take(w, k))
    ensures SleepersRight(Act(s, Take(w, k), n))
  {
    var t := Act(s, Take(w, k), n);
    assert forall v :: Sleeps(t.workers, v) ==> Sleeps(s.workers, v);
    assert k in t.active;
  }

  lemma RestKeeps(s: State, w: Worker, n: nat)
    requires Inv(s) && Enabled(s, Rest(w))
    ensures Inv(Act(s, Rest(w), n))
  {
    var t := Act(s, Rest(w), n);
    forall v | WorksOn(s.workers, v) ensures WorksOn(t.workers, v) && t.workers[v] == s.workers[v] { }
    forall j | j in t.active ensures exists v :: WorksOn(t.workers, v) && t.workers[v].key == j {
      var v :| WorksOn(s.workers, v) && s.workers[v].key == j;
      assert WorksOn(t.workers, v);
    }
    assert forall v :: Sleeps(t.workers, v) && v != w ==> Sleeps(s.workers, v);
    forall e | e in t.accepted && !t.cancelled ensures Answered(t, e.0, e.1) { AnsweredStays(s, t, e.0, e.1); }
  }

  /** The worker that is done was the only one on its key. */
  lemma DoneWorkers(s: State, w: Worker)
    requires Inv(s) && WorksOn(s.workers, w)
    ensures OneWorkerEach(s.active - {s.workers[w].key}, s.workers[w := Ready])
  {
    var a, ws, k := s.active - {s.workers[w].key}, s.workers[w := Ready], s.workers[w].key;
    assert forall v :: WorksOn(ws, v) ==> WorksOn(s.workers, v) && v != w;
    forall j | j in a ensures exists v :: WorksOn(ws, v) && ws[v].key == j {
      var v :| WorksOn(s.workers, v) && s.workers[v].key == j;
      assert WorksOn(ws, v);
    }
  }

  lemma DoneKeeps(s: State, w: Worker, n: nat)
    requires Inv(s) && Enabled(s, Done(w))
    ensures Inv(Act(s, Done(w), n))
  {
    var b := s.workers[w];
    var u := s.(active := s.active - {b.key}, workers := s.workers[w := Ready],
                passes := if s.cancelled then s.passes else s.passes + {(b.key, b.since)});
    var t := Broadcast(u);
    DoneWorkers(s, w);
    BroadcastKeeps(u);
    forall e | e in t.accepted && !t.cancelled ensures Answered(t, e.0, e.1) {
      assert Answered(s, e.0, e.1);
      if v :| WorksOn(s.workers, v) && s.workers[v].key == e.0 && s.workers[v].since > e.1 {
        if v == w {
          assert IsPassAfter((b.key, b.since), e.0, e.1);
        } else {
          assert WorksOn(t.workers, v);
        }
      } else if p :| p in s.passes && IsPassAfter(p, e.0, e.1) {
        assert p in t.passes;
      }
    }
  }

  lemma BroadcastInv(s: State, u: State)
    requires Inv(s) && u.workers == s.workers && u.active == s.active && u.accepted == s.accepted && u.now == s.now
    requires s.pending <= u.pending && u.passes == s.passes && u.cancelled == s.cancelled && (s.closed ==> u.closed)
    requires u.closed <==> u.stopper.Closing? || u.stopper.Returned?
    requires u.closed && u.stopper.drained ==> u.pending == {} && u.active == {}
    ensures Inv(Broadcast(u))
  {
    var t := Broadcast(u);
    BroadcastKeeps(u);
    forall e | e in t.accepted && !t.cancelled ensures Answered(t, e.0, e.1) { AnsweredStays(s, t, e.0, e.1); }
  }

  lemma StepKeeps(s: State, step: Step)
    requires Inv(s) && Enabled(s, step)
    ensures Inv(Next(s, step))
  {
    var v, n := s.(now := s.now + 1), s.now;
    assert Inv(v);
    match step
    case Enqueue(k) => if !v.closed { EnqueueKeeps(v, k, n); }
    case Take(w, k) => TakeKeeps(v, w, k, n);
    case Rest(w) => RestKeeps(v, w, n);
    case Done(w) => DoneKeeps(v, w, n);
    case Cancel =>
    case Watch => BroadcastInv(v, v.(due := false));
    case CancelStop =>
    case Stop =>
    case Check =>
      var work := v.pending != {} || v.active != {};
      if !(work && !v.stopCancelled) { BroadcastInv(v, v.(closed := true, stopper := Closing(!work))); }
    case Return =>
  }

  // ------------------------------------------------------------------ whole runs

  ghost predicate IsRun(ss: seq<State>, steps: seq<Step>) {
    && |ss| == |steps| + 1 && Init(ss[0])
    && forall i {:trigger steps[i]} ::
      0 <= i < |steps| ==> Enabled(ss[i], steps[i]) && ss[i + 1] == Next(ss[i], steps[i])
  }

  lemma {:induction false} RunKeeps(ss: seq<State>, steps: seq<Step>, n: nat)
    requires IsRun(ss, steps) && n <= |steps|
    ensures Inv(ss[n])
  {
    if n == 0 {
      InitInv(ss[0]);
    } else {
      RunKeeps(ss, steps, n - 1);
      StepKeeps(ss[n - 1], steps[n - 1]);
    }
  }

  /** In every run: no session is processed by two workers at once, and no worker sleeps
      while there is a key it could take (but for the moment before a cancellation is announced). */
  lemma PoolIsSafe(ss: seq<State>, steps: seq<Step>, n: nat)
    requires IsRun(ss, steps) && n <= |steps|
    ensures forall v, w :: WorksOn(ss[n].workers, v) && WorksOn(ss[n].workers, w) && v != w ==>
              ss[n].workers[v].key != ss[n].workers[w].key
    ensures forall w :: Sleeps(ss[n].workers, w) ==> Takeable(ss[n]) == {}
    ensures ss[n].stopper.Waiting? ==> ss[n].pending != {} || ss[n].active != {}
  {
    RunKeeps(ss, steps, n);
  }

  /** The set is closed by `Stop` alone: when it finds no work, or its own context over.  What it
      remembers is whether there was none. */
  lemma CloseIff(s: State, step: Step)
    requires Enabled(s, step) && !s.closed
    ensures Next(s, step).closed <==> step == Check && ((s.pending == {} && s.active == {}) || s.stopCancelled)
    ensures Next(s, step).closed ==> Next(s, step).stopper == Closing(s.pending == {} && s.active == {})
  {
  }

  /** How `Stop` goes on once the set is closed: it returns when every worker has left. */
  predicate ClosedAs(s: State, drained: bool) {
    s.closed && (s.stopper == Closing(drained) || (s.stopper == Returned(drained) && AllGone(s.workers)))
  }

  lemma ClosedStays(s: State, step: Step, drained: bool)
    requires Enabled(s, step) && ClosedAs(s, drained)
    ensures ClosedAs(Next(s, step), drained)
  {
  }

  /** In a run, a closed set was closed at some moment, for one of these reasons; and `Stop`
      returns only when every worker has left. */
  lemma {:induction false} ClosedBy(ss: seq<State>, steps: seq<Step>, n: nat) returns (m: nat)
    requires IsRun(ss, steps) && n <= |steps| && ss[n].closed
    ensures m < n && steps[m] == Check && !ss[m].closed
    ensures (ss[m].pending == {} && ss[m].active == {}) || ss[m].stopCancelled
    ensures ClosedAs(ss[n], ss[m].pending == {} && ss[m].active == {})
  {
    assert n > 0;
    assert Enabled(ss[n - 1], steps[n - 1]) && ss[n] == Next(ss[n - 1], steps[n - 1]);
    if ss[n - 1].closed {
      m := ClosedBy(ss, steps, n - 1);
      ClosedStays(ss[n - 1], steps[n - 1], ss[m].pending == {} && ss[m].active == {});
    } else {
      m := n - 1;
      CloseIff(ss[n - 1], steps[n - 1]);
    }
  }

  /** A worker leaves only when there is nothing to take and the set is closed or its context
      over; it comes to rest otherwise. */
  lemma LeavesIff(s: State, step: Step, w: Worker)
    requires Enabled(s, step) && w in s.workers && !s.workers[w].Gone?
    ensures w in Next(s, step).workers
    ensures Next(s, step).workers[w].Gone? <==>
              step == Rest(w) && s.pending <= s.active && (s.closed || s.cancelled)
  {
    if Takeable(s) == {} {
      forall k | k in s.pending ensures k in s.active { assert k !in Takeable(s); }
    }
    if s.pending <= s.active { assert Takeable(s) == {}; }
  }

  /** Accepted enqueues are remembered for the rest of the run. */
  lemma {:induction false} AcceptedStays(ss: seq<State>, steps: seq<Step>, i: nat, n: nat)
    requires IsRun(ss, steps) && i <= n <= |steps|
    ensures ss[i].accepted <= ss[n].accepted
  {
    if i < n {
      AcceptedStays(ss, steps, i, n - 1);
      assert steps[n - 1] == steps[n - 1];
    }
  }

  /** When the drain of `Stop` ran to its end and the workers' context is still live, every
      enqueue that was ever accepted has been followed by a complete pass over its session
      that started after it. */
  lemma DrainCompletes(ss: seq<State>, steps: seq<Step>, i: nat, n: nat, k: Key)
    requires IsRun(ss, steps) && i < n <= |steps|
    requires steps[i] == Enqueue(k) && !ss[i].closed
    requires (ss[n].stopper.Closing? || ss[n].stopper.Returned?) && ss[n].stopper.drained && !ss[n].cancelled
    ensures exists start :: (k, start) in ss[n].passes && start > ss[i].now
  {
    assert steps[i] == Enqueue(k);
    assert (k, ss[i].now) in ss[i + 1].accepted;
    AcceptedStays(ss, steps, i + 1, n);
    RunKeeps(ss, steps, n);
    var s, at := ss[n], ss[i].now;
    assert Answered(s, k, at);
    assert forall w :: !WorksOn(s.workers, w);
    var p :| p in s.passes && IsPassAfter(p, k, at);
    assert (k, p.1) in s.passes;
  }

  /** Some worker is processing or can take a key. */
  ghost predicate WorkerMoves(s: State) {
    exists w :: w in s.workers && (Enabled(s, Done(w)) || exists k :: Enabled(s, Take(w, k)))
  }

  /** While there is work and the set is open, the pool moves on exactly as long as a worker
      is left, whether the workers' context is over or not. */
  lemma DrainProgresses(ss: seq<State>, steps: seq<Step>, n: nat)
    requires IsRun(ss, steps) && n <= |steps|
    requires !ss[n].closed && (ss[n].pending != {} || ss[n].active != {})
    ensures WorkerMoves(ss[n]) <==> exists w :: w in ss[n].workers && !ss[n].workers[w].Gone?
  {
    RunKeeps(ss, steps, n);
    var s := ss[n];
    if w :| w in s.workers && !s.workers[w].Gone? {
      if k :| k in s.active {
        var v :| WorksOn(s.workers, v) && s.workers[v].key == k;
        assert Enabled(s, Done(v));
      } else {
        var k :| k in s.pending;
        assert k in Takeable(s) && !Sleeps(s.workers, w) && !WorksOn(s.workers, w);
        assert Enabled(s, Take(w, k));
      }
    }
  }

  predicate AllGone(workers: map<Worker, Pc>) {
    forall w :: w in workers ==> workers[w].Gone?
  }

  /** `Stop` left its loop, if it did, because its own context was over. */
  predicate OnlyAborted(s: State) {
    s.closed ==> s.stopCancelled && (s.stopper == Closing(false) || s.stopper == Returned(false))
  }

  lemma GoneStays(s: State, step: Step)
    requires Inv(s) && Enabled(s, step) && AllGone(s.workers) && s.pending != {} && OnlyAborted(s)
    ensures var t := Next(s, step); AllGone(t.workers) && s.pending <= t.pending && OnlyAborted(t)
  {
  }

  /** Once every worker has left, a pending key stays pending for the rest of the run, and the
      loop of `Stop` ends only after its own context is over, with the work undone. */
  lemma {:induction false} DrainNeedsWorkers(ss: seq<State>, steps: seq<Step>, m: nat, n: nat)
    requires IsRun(ss, steps) && m <= n <= |steps|
    requires AllGone(ss[m].workers) && ss[m].pending != {} && !ss[m].closed
    ensures AllGone(ss[n].workers) && ss[m].pending <= ss[n].pending && OnlyAborted(ss[n])
  {
    if m < n {
      DrainNeedsWorkers(ss, steps, m, n - 1);
      RunKeeps(ss, steps, n - 1);
      assert Enabled(ss[n - 1], steps[n - 1]);
      GoneStays(ss[n - 1], steps[n - 1]);
    }
  }

  /** What wakes a waiting `Stop`: an accepted enqueue, a finished pass, or the announcement
      that the workers' context is over.  The end of its own context does not. */
  predicate Wakes(step: Step) {
    step.Enqueue? || step.Done? || step.Watch?
  }

  lemma StopWakesIff(s: State, step: Step)
    requires Inv(s) && Enabled(s, step) && s.stopper.Waiting?
    ensures !Next(s, step).stopper.Waiting? <==> Wakes(step)
  {
  }

  /** The drain is documented to be aborted when the context given to `Stop` is over.  A waiting
      `Stop` notices that exactly when something wakes it afterwards. */
  lemma {:induction false} AbortIff(ss: seq<State>, steps: seq<Step>, m: nat, n: nat)
    requires IsRun(ss, steps) && m <= n <= |steps|
    requires ss[m].stopper.Waiting? && ss[m].stopCancelled
    ensures ss[n].stopCancelled
    ensures ss[n].stopper.Waiting? <==> forall i :: m <= i < n ==> !Wakes(steps[i])
  {
    if m < n {
      AbortIff(ss, steps, m, n - 1);
      RunKeeps(ss, steps, n - 1);
      assert Enabled(ss[n - 1], steps[n - 1]);
      if ss[n - 1].stopper.Waiting? {
        StopWakesIff(ss[n - 1], steps[n - 1]);
      } else {
        StaysAwake(ss[n - 1], steps[n - 1]);
      }
    }
  }

  /** With its context over `Stop` does not wait again. */
  lemma StaysAwake(s: State, step: Step)
    requires Enabled(s, step) && s.stopCancelled && !s.stopper.Waiting?
    ensures !Next(s, step).stopper.Waiting?
  {
  }

  /** So with every worker gone and the end of their context announced, only a new enqueue ever
      wakes it. */
  lemma {:induction false} StrandedStop(ss: seq<State>, steps: seq<Step>, m: nat, n: nat)
    requires IsRun(ss, steps) && m <= n <= |steps|
    requires AllGone(ss[m].workers) && ss[m].stopper.Waiting? && ss[m].cancelled && !ss[m].due
    requires forall i :: m <= i < n ==> !steps[i].Enqueue?
    ensures ss[n].stopper.Waiting? && AllGone(ss[n].workers) && ss[n].cancelled && !ss[n].due
  {
    if m < n {
      StrandedStop(ss, steps, m, n - 1);
      RunKeeps(ss, steps, n - 1);
      assert Enabled(ss[n - 1], steps[n - 1]) && !steps[n - 1].Enqueue?;
      StopWakesIff(ss[n - 1], steps[n - 1]);
    }
  }
}
