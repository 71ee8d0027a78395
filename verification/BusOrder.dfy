/** Who gets an event, in which order, and when a client may stop waiting for it. */
module BusOrder {
  import opened Text
  import opened EventBus

  /** A publication goes to every open subscription of all runs or of its run, and to all open
      ones if it names no run. */
  lemma TargetsAre(subs: map<SubId, Sub>, ev: Event, i: SubId)
    ensures i in Targets(subs, ev) <==>
            i in subs && subs[i].live && (subs[i].run == "" || ev.run == "" || subs[i].run == ev.run)
  {
  }

  /** A publication that begins in a run is on its way to exactly those. */
  lemma PublishAims(states: seq<State>, steps: seq<Step>, k: nat, p: Publisher, ev: Event, i: SubId)
    requires Run(states, steps) && k < |steps| && steps[k] == Publish(p, ev)
    ensures var subs := states[k].subs;
            && p in states[k + 1].flights && states[k + 1].flights[p].ev == ev
            && (i in states[k + 1].flights[p].targets <==>
                  i in subs && subs[i].live && (subs[i].run == "" || ev.run == "" || subs[i].run == ev.run))
  {
    assert Enabled(states[k], steps[k]) && states[k + 1] == Next(states[k], steps[k]);
  }

  // --------------------------------------------------------------- the order

  /** What step `k` puts into the channel of `i`: its prime, or an event delivered while there
      is room. */
  function PutBy(s: State, step: Step, i: SubId): seq<Event>
    requires Enabled(s, step)
  {
    match step
    case Prime(j) => if j == i then [RefetchAll(s.subs[i].run)] else []
    case Deliver(p, to) => if to == i && |s.subs[i].queue| < DEPTH then [s.flights[p].ev] else []
    case _ => []
  }

  /** What step `k` hands to the stream of `i`: what it holds when the step is over. */
  function HandedBy(s: State, step: Step, i: SubId): seq<Event>
    requires Enabled(s, step)
  {
    if step == Receive(i) && Next(s, step).subs[i].held.Some? then [Next(s, step).subs[i].held.value] else []
  }

  function Put(states: seq<State>, steps: seq<Step>, i: SubId, n: nat): seq<Event>
    requires Run(states, steps) && n <= |steps|
  {
    if n == 0 then []
    else
      assert Enabled(states[n - 1], steps[n - 1]);
      Put(states, steps, i, n - 1) + PutBy(states[n - 1], steps[n - 1], i)
  }

  function Handed(states: seq<State>, steps: seq<Step>, i: SubId, n: nat): seq<Event>
    requires Run(states, steps) && n <= |steps|
  {
    if n == 0 then []
    else
      assert Enabled(states[n - 1], steps[n - 1]);
      Handed(states, steps, i, n - 1) + HandedBy(states[n - 1], steps[n - 1], i)
  }

  function QueueOf(s: State, i: SubId): seq<Event> {
    if i in s.subs then s.subs[i].queue else []
  }

  lemma QueueStep(s: State, step: Step, i: SubId)
    requires Enabled(s, step)
    ensures HandedBy(s, step, i) + QueueOf(Next(s, step), i) == QueueOf(s, i) + PutBy(s, step, i)
  {
    if step == Receive(i) {
      var q := s.subs[i].queue;
      assert [q[0]] + q[1..] == q;
    }
  }

  /** First in, first out, over every run: what a stream was handed, followed by what is still
      queued for it, is what was put into its channel, in order. */
  lemma {:induction false} FirstInFirstOut(states: seq<State>, steps: seq<Step>, i: SubId, n: nat)
    requires Run(states, steps) && n <= |steps|
    ensures Handed(states, steps, i, n) + QueueOf(states[n], i) == Put(states, steps, i, n)
  {
    if n > 0 {
      FirstInFirstOut(states, steps, i, n - 1);
      assert Enabled(states[n - 1], steps[n - 1]) && states[n] == Next(states[n - 1], steps[n - 1]);
      QueueStep(states[n - 1], steps[n - 1], i);
      Associative(Handed(states, steps, i, n - 1), HandedBy(states[n - 1], steps[n - 1], i), QueueOf(states[n], i));
      Associative(Handed(states, steps, i, n - 1), QueueOf(states[n - 1], i), PutBy(states[n - 1], steps[n - 1], i));
    }
  }

  /** An event that finds no room is not put; the flag says so. */
  lemma DroppedIsFlagged(s: State, p: Publisher, i: SubId)
    requires Enabled(s, Deliver(p, i))
    ensures PutBy(s, Deliver(p, i), i) == [] <==> |s.subs[i].queue| >= DEPTH
    ensures |s.subs[i].queue| >= DEPTH ==> Next(s, Deliver(p, i)).subs[i].overflow
  {
  }

  // -------------------------------------------------------------- being current

  /** A client has something to learn from the moment it is published, and only a full load, or
      that very event, written to it ends that. */
  lemma StaleUntilTold(s: State, step: Step, i: SubId, ev: Event)
    requires Enabled(s, step) && i in s.subs
    ensures step.Publish? && step.ev == ev && ev.Invalidate? && i in Targets(s.subs, ev) ==>
              ev in Next(s, step).subs[i].stale
    ensures ev in s.subs[i].stale && ev !in Next(s, step).subs[i].stale ==>
              step == Write(i) && Told(s.subs[i].held, ev)
  {
  }

  predicate Told(held: Option<Event>, ev: Event) {
    held == Some(ev) || (held.Some? && held.value.RefetchAll?)
  }

  /** A full load written to the client is all it has to learn, an event written is that one. */
  lemma WriteTells(s: State, i: SubId)
    requires Enabled(s, Write(i))
    ensures var sub, t := s.subs[i], Next(s, Write(i)).subs[i];
            && t.held == None && t.queue == sub.queue
            && (sub.held.value.RefetchAll? ==> t.stale == {} && !t.blank)
            && (!sub.held.value.RefetchAll? ==> t.stale == sub.stale - {sub.held.value} && t.blank == sub.blank)
  {
  }

  /** A set flag becomes a full load of the subscription's run. */
  lemma TickReloads(s: State, i: SubId)
    requires Enabled(s, Tick(i))
    ensures Next(s, Tick(i)).subs[i].held == Some(RefetchAll(s.subs[i].run)) && !Next(s, Tick(i)).subs[i].overflow
  {
  }

  /** What a stream still has to do. */
  function Backlog(sub: Sub): nat {
    2 * |sub.queue| + (if sub.overflow then 2 else 0) + if sub.held.Some? then 1 else 0
  }

  /** A primed stream with something to do has a step of its own that leaves it less to do, so
      left alone it catches up. */
  lemma StreamGoesOn(s: State, i: SubId)
    requires i in s.subs && s.subs[i].primed && Backlog(s.subs[i]) > 0
    ensures exists step :: step in {Receive(i), Tick(i), Write(i)} && Enabled(s, step)
                           && Backlog(Next(s, step).subs[i]) < Backlog(s.subs[i])
  {
    var sub := s.subs[i];
    var step := if sub.held.Some? then Write(i) else if sub.queue != [] then Receive(i) else Tick(i);
    assert Enabled(s, step) && Backlog(Next(s, step).subs[i]) < Backlog(sub);
  }

  /** Anybody new can subscribe, any publisher publish and, with its deliveries made, finish; a
      primed subscription can be closed, and then no publication aims at it any more. */
  lemma CanHappen(s: State, i: SubId, run: string, p: Publisher, ev: Event)
    ensures i !in s.subs ==> Enabled(s, Subscribe(i, run)) && i in Next(s, Subscribe(i, run)).subs
    ensures p !in s.flights ==> Enabled(s, EventBus.Step.Publish(p, ev))
    ensures p in s.flights && s.flights[p].targets == {} ==>
              Enabled(s, Finish(p)) && Next(s, Finish(p)).flights == s.flights - {p}
    ensures i in s.subs && s.subs[i].primed ==>
              Enabled(s, Close(i)) && i !in Targets(Next(s, Close(i)).subs, ev)
  {
  }

  /** A new subscription has everything to learn, until a full load is written. */
  lemma BlankUntilLoaded(s: State, step: Step, i: SubId)
    requires Enabled(s, step)
    ensures step.Subscribe? && step.i == i ==> Next(s, step).subs[i].blank
    ensures i in s.subs && s.subs[i].blank && !Next(s, step).subs[i].blank ==>
              step == Write(i) && s.subs[i].held.Some? && s.subs[i].held.value.RefetchAll?
  {
  }
}
