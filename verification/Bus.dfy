/** The live-event bus and the stream that reads from it: events may be dropped, staleness
    may not go unnoticed. */
module EventBus {
  import opened Text

  /** Room in a subscriber's channel. */
  const DEPTH: nat := 1024

  datatype Event =
    | RefetchAll(run: string)
    | Invalidate(run: string, topic: nat)   // persisted state changed: read this again
    | Chunk(run: string, text: string)      // ephemeral, nothing to read again

  predicate Matches(subscribed: string, run: string) {
    subscribed == "" || run == "" || subscribed == run
  }

  // ------------------------------------------------------------- the objects

  class Subscription {
    const run: string
    var queue: seq<Event>        // the channel
    var overflow: bool

    constructor (run: string)
      ensures this.run == run && queue == [] && !overflow
    {
      this.run, queue, overflow := run, [], false;
    }

    /** Never blocks; an event there is no room for is dropped and flagged. */
    method Deliver(ev: Event)
      requires |queue| <= DEPTH
      modifies this
      ensures |queue| <= DEPTH
      ensures queue == Delivered(old(queue), ev)
      ensures overflow == Flagged(old(queue), old(overflow))
      ensures queue == (if |old(queue)| < DEPTH then old(queue) + [ev] else old(queue))
      ensures overflow == (old(overflow) || |old(queue)| == DEPTH)
    {
      if |queue| < DEPTH { queue := queue + [ev]; } else { overflow := true; }
    }

    method TakeOverflow() returns (was: bool)
      modifies this
      ensures was == old(overflow) && !overflow && queue == old(queue)
    {
      was, overflow := overflow, false;
    }
  }

  /** The channel after an event was delivered, and the flag. */
  function Delivered(queue: seq<Event>, ev: Event): seq<Event> {
    if |queue| < DEPTH then queue + [ev] else queue
  }

  predicate Flagged(queue: seq<Event>, overflow: bool) {
    overflow || |queue| >= DEPTH
  }

  class Bus {
    var subs: set<Subscription>

    constructor ()
      ensures subs == {}
    { subs := {}; }

    /** The part of `Subscribe` under the lock, and the prime that follows when there is
        room for it. */
    method Subscribe(run: string) returns (s: Subscription)
      modifies this
      ensures fresh(s) && subs == old(subs) + {s} && s.run == run && s.queue == [RefetchAll(run)] && !s.overflow
    {
      s := new Subscription(run);
      subs := subs + {s};
      s.Deliver(RefetchAll(run));
    }

    method Close(s: Subscription)
      modifies this
      ensures subs == old(subs) - {s}
    {
      subs := subs - {s};
    }

    /** Every matching subscriber gets the event or its flag, no other is touched. */
    method Publish(ev: Event)
      requires forall s :: s in subs ==> |s.queue| <= DEPTH
      modifies subs
      ensures forall s :: s in subs ==> |s.queue| <= DEPTH
      ensures forall s :: s in subs && Matches(s.run, ev.run) ==> s.queue == Delivered(old(s.queue), ev)
      ensures forall s :: s in subs && Matches(s.run, ev.run) ==> s.overflow == Flagged(old(s.queue), old(s.overflow))
      ensures forall s :: s in subs && !Matches(s.run, ev.run) ==> unchanged(s)
      ensures forall s :: s in subs && (s.run == "" || ev.run == "" || s.run == ev.run) ==>
                s.queue == (if |old(s.queue)| < DEPTH then old(s.queue) + [ev] else old(s.queue))
                && s.overflow == (old(s.overflow) || |old(s.queue)| >= DEPTH)
      ensures forall s :: s in subs && s.run != "" && ev.run != "" && s.run != ev.run ==> unchanged(s)
    {
      var rest := set s | s in subs && Matches(s.run, ev.run);
      while rest != {}
        invariant rest <= subs && forall s :: s in rest ==> Matches(s.run, ev.run)
        invariant forall s :: s in subs ==> |s.queue| <= DEPTH
        invariant forall s ::
          s in subs && Matches(s.run, ev.run) && s !in rest ==> s.queue == Delivered(old(s.queue), ev)
        invariant forall s ::
          s in subs && Matches(s.run, ev.run) && s !in rest ==> s.overflow == Flagged(old(s.queue), old(s.overflow))
        invariant forall s :: s in subs && (s in rest || !Matches(s.run, ev.run)) ==> unchanged(s)
        decreases rest
      {
        var s :| s in rest;
        rest := rest - {s};
        s.Deliver(ev);
      }
    }
  }

  // -------------------------------------------------------------- the protocol

  type SubId = nat
  type Publisher = nat

  /** A subscriber, the stream goroutine that reads it, and what its client has yet to
      learn: `blank` until a first full load, and the invalidations `stale`. */
  datatype Sub = Sub(run: string, live: bool, primed: bool, queue: seq<Event>, overflow: bool,
                     held: Option<Event>, blank: bool, stale: set<Event>)

  /** A `Publish` between its snapshot and its last delivery. */
  datatype Flight = Flight(ev: Event, targets: set<SubId>)

  datatype State = State(subs: map<SubId, Sub>, flights: map<Publisher, Flight>)

  const INITIAL := State(map[], map[])

  datatype Step =
    | Subscribe(i: SubId, run: string)
    | Prime(i: SubId)                        // blocks while the channel is full
    | Publish(p: Publisher, ev: Event)       // the snapshot of the matching subscribers
    | Deliver(p: Publisher, to: SubId)
    | Finish(p: Publisher)
    | Receive(i: SubId)
    | Tick(i: SubId)                         // the stream takes a set overflow flag
    | Write(i: SubId)                        // what it holds reaches the client
    | Close(i: SubId)

  function Targets(subs: map<SubId, Sub>, ev: Event): set<SubId> {
    set i | i in subs && subs[i].live && Matches(subs[i].run, ev.run)
  }

  predicate Enabled(s: State, step: Step) {
    match step
    case Subscribe(i, _) => i !in s.subs
    case Prime(i) => i in s.subs && !s.subs[i].primed && |s.subs[i].queue| < DEPTH
    case Publish(p, _) => p !in s.flights
    case Deliver(p, to) => p in s.flights && to in s.flights[p].targets && to in s.subs
    case Finish(p) => p in s.flights && s.flights[p].targets == {}
    case Receive(i) => i in s.subs && s.subs[i].primed && s.subs[i].held == None && s.subs[i].queue != []
    case Tick(i) => i in s.subs && s.subs[i].primed && s.subs[i].held == None && s.subs[i].overflow
    case Write(i) => i in s.subs && s.subs[i].held.Some?
    case Close(i) => i in s.subs && s.subs[i].primed
  }

  /** What `Subscription.Deliver` does to the object. */
  function Got(sub: Sub, ev: Event): Sub {
    sub.(queue := Delivered(sub.queue, ev), overflow := Flagged(sub.queue, sub.overflow))
  }

  /** The client reads again what the event says. */
  function Learned(sub: Sub, ev: Event): Sub {
    sub.(held := None, blank := sub.blank && !ev.RefetchAll?,
         stale := if ev.RefetchAll? then {} else sub.stale - {ev})
  }

  function Stale(subs: map<SubId, Sub>, ev: Event): map<SubId, Sub> {
    map i | i in subs ::
      if i in Targets(subs, ev) && ev.Invalidate? then subs[i].(stale := subs[i].stale + {ev}) else subs[i]
  }

  function Next(s: State, step: Step): State
    requires Enabled(s, step)
  {
    match step
    case Subscribe(i, run) => s.(subs := s.subs[i := Sub(run, true, false, [], false, None, true, {})])
    case Prime(i) => s.(subs := s.subs[i := Got(s.subs[i], RefetchAll(s.subs[i].run)).(primed := true)])
    case Publish(p, ev) => State(Stale(s.subs, ev), s.flights[p := Flight(ev, Targets(s.subs, ev))])
    case Deliver(p, to) =>
      var f := s.flights[p];
      State(s.subs[to := Got(s.subs[to], f.ev)], s.flights[p := f.(targets := f.targets - {to})])
    case Finish(p) => s.(flights := s.flights - {p})
    case Receive(i) =>
      var b := s.subs[i];
      s.(subs := s.subs[i := b.(held := Some(b.queue[0]), queue := b.queue[1..])])
    case Tick(i) => s.(subs := s.subs[i := s.subs[i].(held := Some(RefetchAll(s.subs[i].run)), overflow := false)])
    case Write(i) => s.(subs := s.subs[i := Learned(s.subs[i], s.subs[i].held.value)])
    case Close(i) => s.(subs := s.subs[i := s.subs[i].(live := false)])
  }

  // --------------------------------------------------------------- invariant

  predicate Covers(e: Event, ev: Event) { e.RefetchAll? || e == ev }

  /** The client is going to hear of `ev` on the subscriber's own account. */
  ghost predicate Pending(sub: Sub, ev: Event) {
    || sub.overflow || !sub.primed
    || (sub.held.Some? && Covers(sub.held.value, ev))
    || Queued(sub.queue, ev)
  }

  ghost predicate Queued(queue: seq<Event>, ev: Event) {
    exists k :: 0 <= k < |queue| && Covers(queue[k], ev)
  }

  ghost predicate OnItsWay(flights: map<Publisher, Flight>, i: SubId, ev: Event) {
    exists p :: p in flights && i in flights[p].targets && flights[p].ev == ev
  }

  /** The client will load everything. */
  ghost predicate FullLoadPending(sub: Sub) {
    forall ev :: Pending(sub, ev)
  }

  ghost predicate SubOk(i: SubId, sub: Sub, flights: map<Publisher, Flight>) {
    && |sub.queue| <= DEPTH
    && (sub.blank ==> FullLoadPending(sub))
    && (forall ev :: ev in sub.stale ==> Pending(sub, ev) || OnItsWay(flights, i, ev))
    && (forall k :: 0 <= k < |sub.queue| ==> Matches(sub.run, sub.queue[k].run))
    && (!sub.primed ==> sub.held == None && sub.blank && sub.live)
  }

  predicate FlightOk(f: Flight, subs: map<SubId, Sub>) {
    forall i :: i in f.targets ==> i in subs && Matches(subs[i].run, f.ev.run)
  }

  ghost predicate Inv(s: State) {
    && (forall i :: i in s.subs ==> SubOk(i, s.subs[i], s.flights))
    && forall p :: p in s.flights ==> FlightOk(s.flights[p], s.subs)
  }

  lemma GotPending(sub: Sub, ev: Event, other: Event)
    requires Pending(sub, other) || other == ev
    ensures Pending(Got(sub, ev), other)
  {
    var q := sub.queue;
    if Queued(q, other) {
      var k :| 0 <= k < |q| && Covers(q[k], other);
      assert (q + [ev])[k] == q[k];
    }
    if other == ev { assert (q + [ev])[|q|] == ev; }
  }

  lemma ReceivePending(sub: Sub, other: Event)
    requires sub.queue != [] && sub.held == None && Pending(sub, other)
    ensures Pending(sub.(held := Some(sub.queue[0]), queue := sub.queue[1..]), other)
  {
    var q := sub.queue;
    if Queued(q, other) {
      var k :| 0 <= k < |q| && Covers(q[k], other);
      assert k > 0 ==> q[1..][k - 1] == q[k];
    }
  }

  lemma PrimePending(sub: Sub, other: Event)
    requires |sub.queue| < DEPTH
    ensures Pending(Got(sub, RefetchAll(sub.run)).(primed := true), other)
  {
    var q := sub.queue + [RefetchAll(sub.run)];
    assert Covers(q[|sub.queue|], other);
  }

  lemma PrimeKeeps(i: SubId, sub: Sub, flights: map<Publisher, Flight>)
    requires SubOk(i, sub, flights) && !sub.primed && |sub.queue| < DEPTH
    ensures SubOk(i, Got(sub, RefetchAll(sub.run)).(primed := true), flights)
  {
    forall ev ensures Pending(Got(sub, RefetchAll(sub.run)).(primed := true), ev) { PrimePending(sub, ev); }
  }

  lemma GotKeeps(i: SubId, sub: Sub, flights: map<Publisher, Flight>, p: Publisher)
    requires SubOk(i, sub, flights) && p in flights && i in flights[p].targets && Matches(sub.run, flights[p].ev.run)
    ensures SubOk(i, Got(sub, flights[p].ev), flights[p := flights[p].(targets := flights[p].targets - {i})])
  {
    var ev, rest := flights[p].ev, flights[p := flights[p].(targets := flights[p].targets - {i})];
    var got := Got(sub, ev);
    forall other | Pending(sub, other) ensures Pending(got, other) { GotPending(sub, ev, other); }
    forall other | other in sub.stale ensures Pending(got, other) || OnItsWay(rest, i, other) {
      if !Pending(sub, other) {
        var r :| r in flights && i in flights[r].targets && flights[r].ev == other;
        if r == p { GotPending(sub, ev, other); } else { assert r in rest && rest[r] == flights[r]; }
      }
    }
  }

  /** Fewer targets elsewhere, or a new flight, leave a subscriber's events on their way. */
  lemma FlightsGrow(i: SubId, sub: Sub, was: map<Publisher, Flight>, now: map<Publisher, Flight>)
    requires SubOk(i, sub, was)
    requires forall p :: p in was && i in was[p].targets ==> p in now && i in now[p].targets && now[p].ev == was[p].ev
    ensures SubOk(i, sub, now)
  {
    forall ev | ev in sub.stale && OnItsWay(was, i, ev) ensures OnItsWay(now, i, ev) {
      var p :| p in was && i in was[p].targets && was[p].ev == ev;
      assert p in now;
    }
  }

  lemma ReceiveKeeps(i: SubId, sub: Sub, flights: map<Publisher, Flight>)
    requires SubOk(i, sub, flights) && sub.primed && sub.held == None && sub.queue != []
    ensures SubOk(i, sub.(held := Some(sub.queue[0]), queue := sub.queue[1..]), flights)
  {
    forall ev | Pending(sub, ev) ensures Pending(sub.(held := Some(sub.queue[0]), queue := sub.queue[1..]), ev) {
      ReceivePending(sub, ev);
    }
  }

  lemma WriteKeeps(i: SubId, sub: Sub, flights: map<Publisher, Flight>)
    requires SubOk(i, sub, flights) && sub.held.Some?
    ensures SubOk(i, Learned(sub, sub.held.value), flights)
  {
    var e, next := sub.held.value, Learned(sub, sub.held.value);
    forall ev | Pending(sub, ev) && !Covers(e, ev) ensures Pending(next, ev) { }
    if next.blank && !sub.overflow { FullLoadQueued(sub, e); }
  }

  /** If the queue is to bring a full load, some element of it is a full load: no single
      invalidation covers two topics. */
  lemma FullLoadQueued(sub: Sub, e: Event)
    requires FullLoadPending(sub) && !sub.overflow && sub.primed && sub.held == Some(e) && !e.RefetchAll?
    ensures forall ev :: Queued(sub.queue, ev)
  {
    var top := FreshTopic(sub.queue, if e.Invalidate? then e.topic else 0);
    var probe := Invalidate("", top);
    assert Pending(sub, probe);
    var k :| 0 <= k < |sub.queue| && Covers(sub.queue[k], probe);
    assert sub.queue[k].RefetchAll?;
    forall ev ensures Queued(sub.queue, ev) { assert Covers(sub.queue[k], ev); }
  }

  function FreshTopic(queue: seq<Event>, above: nat): (t: nat)
    ensures t > above
    ensures forall k :: 0 <= k < |queue| && queue[k].Invalidate? ==> queue[k].topic < t
  {
    if queue == [] then above + 1 else
      var t, last := FreshTopic(queue[..|queue| - 1], above), queue[|queue| - 1];
      if last.Invalidate? && last.topic >= t then last.topic + 1 else t
  }

  lemma PublishKeeps(s: State, p: Publisher, ev: Event)
    requires Inv(s) && Enabled(s, Publish(p, ev))
    ensures Inv(Next(s, Publish(p, ev)))
  {
    var t := Next(s, Publish(p, ev));
    forall i | i in t.subs ensures SubOk(i, t.subs[i], t.flights) {
      FlightsGrow(i, s.subs[i], s.flights, t.flights);
      assert i in Targets(s.subs, ev) ==> OnItsWay(t.flights, i, ev) by { assert p in t.flights; }
      assert forall e :: Pending(t.subs[i], e) <==> Pending(s.subs[i], e);
    }
  }

  lemma DeliverKeeps(s: State, p: Publisher, to: SubId)
    requires Inv(s) && Enabled(s, Deliver(p, to))
    ensures Inv(Next(s, Deliver(p, to)))
  {
    var t := Next(s, Deliver(p, to));
    GotKeeps(to, s.subs[to], s.flights, p);
    forall i | i in t.subs && i != to ensures SubOk(i, t.subs[i], t.flights) {
      FlightsGrow(i, s.subs[i], s.flights, t.flights);
    }
  }

  lemma OneSubKeeps(s: State, i: SubId, sub: Sub)
    requires Inv(s) && SubOk(i, sub, s.flights) && (i in s.subs ==> sub.run == s.subs[i].run)
    ensures Inv(s.(subs := s.subs[i := sub]))
  {
  }

  lemma FinishKeeps(s: State, p: Publisher)
    requires Inv(s) && Enabled(s, Finish(p))
    ensures Inv(Next(s, Finish(p)))
  {
    forall i | i in s.subs ensures SubOk(i, s.subs[i], s.flights - {p}) {
      FlightsGrow(i, s.subs[i], s.flights, s.flights - {p});
    }
  }

  lemma StepKeeps(s: State, step: Step)
    requires Inv(s) && Enabled(s, step)
    ensures Inv(Next(s, step))
  {
    match step
    case Subscribe(i, run) => OneSubKeeps(s, i, Sub(run, true, false, [], false, None, true, {}));
    case Prime(i) => PrimeKeeps(i, s.subs[i], s.flights); OneSubKeeps(s, i, Next(s, step).subs[i]);
    case Publish(p, ev) => PublishKeeps(s, p, ev);
    case Deliver(p, to) => DeliverKeeps(s, p, to);
    case Finish(p) => FinishKeeps(s, p);
    case Receive(i) => ReceiveKeeps(i, s.subs[i], s.flights); OneSubKeeps(s, i, Next(s, step).subs[i]);
    case Tick(i) => TickKeeps(i, s.subs[i], s.flights); OneSubKeeps(s, i, Next(s, step).subs[i]);
    case Write(i) => WriteKeeps(i, s.subs[i], s.flights); OneSubKeeps(s, i, Next(s, step).subs[i]);
    case Close(i) => CloseKeeps(i, s.subs[i], s.flights); OneSubKeeps(s, i, Next(s, step).subs[i]);
  }

  lemma TickKeeps(i: SubId, sub: Sub, flights: map<Publisher, Flight>)
    requires SubOk(i, sub, flights) && sub.primed
    ensures SubOk(i, sub.(held := Some(RefetchAll(sub.run)), overflow := false), flights)
  {
  }

  lemma CloseKeeps(i: SubId, sub: Sub, flights: map<Publisher, Flight>)
    requires SubOk(i, sub, flights) && sub.primed
    ensures SubOk(i, sub.(live := false), flights)
  {
    assert forall ev :: Pending(sub.(live := false), ev) <==> Pending(sub, ev);
  }

  // --------------------------------------------------------------------- runs

  ghost predicate Run(states: seq<State>, steps: seq<Step>) {
    && |states| == |steps| + 1 && states[0] == INITIAL
    && forall k {:trigger steps[k]} ::
      0 <= k < |steps| ==> Enabled(states[k], steps[k]) && states[k + 1] == Next(states[k], steps[k])
  }

  lemma {:induction false} RunKeeps(states: seq<State>, steps: seq<Step>, n: nat)
    requires Run(states, steps) && n < |states|
    ensures Inv(states[n])
  {
    if n > 0 {
      RunKeeps(states, steps, n - 1);
      assert Enabled(states[n - 1], steps[n - 1]);
      StepKeeps(states[n - 1], steps[n - 1]);
    }
  }

  /** Staleness never goes unnoticed, in any interleaving: whatever a client has yet to learn
      is queued, held, on its way, or covered by the flag or the prime. */
  lemma NothingIsLost(states: seq<State>, steps: seq<Step>, n: nat, i: SubId)
    requires Run(states, steps) && n < |states| && i in states[n].subs
    ensures forall ev ::
      ev in states[n].subs[i].stale ==> Pending(states[n].subs[i], ev) || OnItsWay(states[n].flights, i, ev)
    ensures states[n].subs[i].blank ==> FullLoadPending(states[n].subs[i])
  {
    RunKeeps(states, steps, n);
  }

  /** A stream with nothing left to do has an up-to-date client. */
  lemma CaughtUpIsCurrent(states: seq<State>, steps: seq<Step>, n: nat, i: SubId)
    requires Run(states, steps) && n < |states| && i in states[n].subs
    requires var sub := states[n].subs[i]; sub.primed && sub.queue == [] && sub.held == None && !sub.overflow
    requires forall p :: p in states[n].flights ==> i !in states[n].flights[p].targets
    ensures states[n].subs[i].stale == {} && !states[n].subs[i].blank
  {
    RunKeeps(states, steps, n);
    var sub := states[n].subs[i];
    assert !Pending(sub, RefetchAll(""));
    forall ev ensures ev !in sub.stale {
      assert !Pending(sub, ev) && !OnItsWay(states[n].flights, i, ev);
    }
  }

  /** A subscriber never receives another run's events. */
  lemma OnlyMatching(states: seq<State>, steps: seq<Step>, n: nat, i: SubId)
    requires Run(states, steps) && n < |states| && i in states[n].subs
    ensures var run := states[n].subs[i].run;
            forall e :: e in states[n].subs[i].queue ==> run == "" || e.run == "" || e.run == run
  {
    RunKeeps(states, steps, n);
  }

  // ----------------------------------------------------- when the prime blocks

  /** How many of the steps from `m` up to `n` deliver an event to `i`. */
  function Delivers(steps: seq<Step>, i: SubId, m: nat, n: nat): nat
    requires m <= n <= |steps|
  {
    if m == n then 0 else Delivers(steps, i, m, n - 1) + if steps[n - 1].Deliver? && steps[n - 1].to == i then 1 else 0
  }

  /** The prime of `i` was not among the steps from `m` up to `n`. */
  predicate NotPrimed(steps: seq<Step>, i: SubId, m: nat, n: nat)
    requires m <= n <= |steps|
  {
    forall k :: m <= k < n ==> steps[k] != Prime(i)
  }

  function Min(a: nat, b: nat): nat { if a < b then a else b }

  /** Before the prime nobody reads, so the channel fills with what is delivered. */
  lemma UnprimedStep(s: State, step: Step, i: SubId)
    requires Enabled(s, step) && i in s.subs && !s.subs[i].primed && step != Prime(i) && |s.subs[i].queue| <= DEPTH
    ensures var t := Next(s, step);
      && i in t.subs && !t.subs[i].primed
      && var n := |s.subs[i].queue|;
         |t.subs[i].queue| == if step.Deliver? && step.to == i then Min(n + 1, DEPTH) else n
  {
  }

  lemma {:induction false} UnprimedQueue(states: seq<State>, steps: seq<Step>, i: SubId, m: nat, n: nat)
    requires Run(states, steps) && m < n <= |steps|
    requires steps[m].Subscribe? && steps[m].i == i && NotPrimed(steps, i, m + 1, n)
    ensures i in states[n].subs && !states[n].subs[i].primed
    ensures |states[n].subs[i].queue| == Min(Delivers(steps, i, m + 1, n), DEPTH)
  {
    assert Enabled(states[n - 1], steps[n - 1]);
    if m + 1 < n {
      UnprimedQueue(states, steps, i, m, n - 1);
      UnprimedStep(states[n - 1], steps[n - 1], i);
    }
  }

  /** The prime is free to go exactly while fewer than `DEPTH` events were delivered since the
      subscription; otherwise it blocks. */
  lemma PrimeFreeIff(states: seq<State>, steps: seq<Step>, i: SubId, m: nat, n: nat)
    requires Run(states, steps) && m < n <= |steps|
    requires steps[m].Subscribe? && steps[m].i == i && NotPrimed(steps, i, m + 1, n)
    ensures Enabled(states[n], Prime(i)) <==> Delivers(steps, i, m + 1, n) < DEPTH
  {
    UnprimedQueue(states, steps, i, m, n);
  }

  /** The channel filled up before the prime could be sent. */
  predicate Stuck(s: State, i: SubId) {
    i in s.subs && !s.subs[i].primed && |s.subs[i].queue| == DEPTH
  }

  /** Nobody reads before the prime is sent, so a subscriber that is stuck stays stuck, in
      every continuation of the run. */
  lemma {:induction false} StuckForever(states: seq<State>, steps: seq<Step>, i: SubId, m: nat, n: nat)
    requires Run(states, steps) && m <= n <= |steps| && Stuck(states[m], i)
    ensures Stuck(states[n], i)
  {
    if m < n {
      StuckForever(states, steps, i, m, n - 1);
      assert Enabled(states[n - 1], steps[n - 1]);
      UnprimedStep(states[n - 1], steps[n - 1], i);
    }
  }

  /** A publisher that is not in the middle of a publication. */
  lemma {:induction false} FreePublisher(busy: set<Publisher>) returns (p: Publisher)
    ensures forall q :: q in busy ==> q < p
  {
    if busy == {} {
      p := 0;
    } else {
      var q :| q in busy;
      p := FreePublisher(busy - {q});
      assert forall r :: r in busy ==> r == q || r in busy - {q};
      if p <= q { p := q + 1; }
    }
  }

  lemma Extended(states0: seq<State>, steps0: seq<Step>, step: Step) returns (states: seq<State>, steps: seq<Step>)
    requires Run(states0, steps0) && Enabled(states0[|steps0|], step)
    ensures Run(states, steps) && steps == steps0 + [step] && states == states0 + [Next(states0[|steps0|], step)]
  {
    states, steps := states0 + [Next(states0[|steps0|], step)], steps0 + [step];
  }

  /** What `now` is to `was` after `ev` was delivered to `targets`, channels and flags. */
  predicate DeliveredTo(was: map<SubId, Sub>, now: map<SubId, Sub>, ev: Event, targets: set<SubId>) {
    && now.Keys == was.Keys
    && (forall i :: i in was && i in targets ==> now[i].queue == Delivered(was[i].queue, ev))
    && (forall i :: i in was && i in targets ==> now[i].overflow == Flagged(was[i].queue, was[i].overflow))
    && (forall i :: i in was && i !in targets ==> now[i].queue == was[i].queue && now[i].overflow == was[i].overflow)
  }

  /** The deliveries of one publication, one after the other, do to the subscribers what
      `Bus.Publish` does to the objects. */
  lemma {:induction false} DeliverAll(states0: seq<State>, steps0: seq<Step>, p: Publisher)
    returns (states: seq<State>, steps: seq<Step>)
    requires Run(states0, steps0) && p in states0[|steps0|].flights
    ensures Run(states, steps) && steps0 <= steps
    ensures var s, t := states0[|steps0|], states[|steps|];
      && p in t.flights && t.flights[p].targets == {}
      && DeliveredTo(s.subs, t.subs, s.flights[p].ev, s.flights[p].targets)
    decreases states0[|steps0|].flights[p].targets
  {
    RunKeeps(states0, steps0, |steps0|);
    states, steps := states0, steps0;
    var s := states0[|steps0|];
    if i :| i in s.flights[p].targets {
      assert FlightOk(s.flights[p], s.subs);
      states, steps := Extended(states, steps, Deliver(p, i));
      states, steps := DeliverAll(states, steps, p);
    }
  }

  /** So no subscription is safe from it: whatever happened before, as long as the prime of `i`
      is still to come, the run can go on so that `i` gets stuck. */
  lemma {:induction false} PrimeCanBlock(states0: seq<State>, steps0: seq<Step>, i: SubId)
    returns (states: seq<State>, steps: seq<Step>)
    requires Run(states0, steps0) && i in states0[|steps0|].subs && !states0[|steps0|].subs[i].primed
    ensures Run(states, steps) && steps0 <= steps && Stuck(states[|steps|], i)
    decreases DEPTH - |states0[|steps0|].subs[i].queue|
  {
    RunKeeps(states0, steps0, |steps0|);
    states, steps := states0, steps0;
    var s := states0[|steps0|];
    assert SubOk(i, s.subs[i], s.flights);
    if |s.subs[i].queue| < DEPTH {
      var p := FreePublisher(s.flights.Keys);
      states, steps := Extended(states, steps, Publish(p, Chunk("", "")));
      states, steps := Extended(states, steps, Deliver(p, i));
      states, steps := PrimeCanBlock(states, steps, i);
    }
  }
}
