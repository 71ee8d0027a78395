/** The chunk of events a phase is cut from: which whole steps go into it, and where the phase
    ends whatever the model answers. */
module Chunks {
  import opened Text

  // ------------------------------------------------------------------- events

  datatype Rec = Rec(step: nat, size: nat)

  /** The sizes of the events of each step, in order. */
  type Events = map<nat, seq<nat>>

  function At(events: Events, step: nat): seq<Rec> {
    if step in events then seq(|events[step]|, i requires 0 <= i < |events[step]| => Rec(step, events[step][i])) else []
  }

  predicate HasEvent(events: Events, step: nat) {
    step in events && events[step] != []
  }

  /** No event in the steps lo..hi. */
  predicate Silent(events: Events, lo: nat, hi: int) {
    forall s :: lo <= s <= hi ==> !HasEvent(events, s)
  }

  /** `GetEvents` over a range of steps: step by step. */
  function EventsIn(events: Events, lo: nat, hi: nat): (r: seq<Rec>)
    ensures forall x :: x in r ==> lo <= x.step <= hi && HasEvent(events, x.step)
    decreases hi + 1 - lo
  {
    if lo > hi then [] else At(events, lo) + EventsIn(events, lo + 1, hi)
  }

  lemma {:induction false} EventsInSome(events: Events, lo: nat, hi: nat)
    ensures EventsIn(events, lo, hi) == [] <==> Silent(events, lo, hi)
    decreases hi + 1 - lo
  {
    if lo <= hi {
      EventsInSome(events, lo + 1, hi);
      SilentFrom(events, lo, hi);
    }
  }

  lemma SilentFrom(events: Events, lo: nat, hi: nat)
    requires lo <= hi
    ensures Silent(events, lo, hi) <==> At(events, lo) == [] && Silent(events, lo + 1, hi)
  {
    assert At(events, lo) != [] <==> HasEvent(events, lo);
  }

  /** Events are only ever added. */
  predicate Grown(was: Events, now: Events) {
    forall s :: s in was ==> s in now && was[s] <= now[s]
  }

  lemma GrownTwice(was: Events, mid: Events, now: Events)
    requires Grown(was, mid) && Grown(mid, now)
    ensures Grown(was, now)
  {
  }

  lemma SilentBefore(was: Events, now: Events, lo: nat, hi: nat)
    requires Grown(was, now) && Silent(now, lo, hi)
    ensures Silent(was, lo, hi)
  {
    forall s | lo <= s <= hi ensures !HasEvent(was, s) { assert !HasEvent(now, s); }
  }

  /** A range of one step gives that step's events, in order. */
  lemma EventsInOne(events: Events, step: nat)
    ensures |EventsIn(events, step, step)| == if step in events then |events[step]| else 0
    ensures step in events ==>
              forall i :: 0 <= i < |events[step]| ==> EventsIn(events, step, step)[i] == Rec(step, events[step][i])
  {
    assert EventsIn(events, step, step) == At(events, step) + EventsIn(events, step + 1, step) == At(events, step);
  }

  /** Reading a range is reading its first steps, then the others. */
  lemma {:induction false} EventsInSplit(events: Events, lo: nat, m: nat, hi: nat)
    requires lo <= m + 1 <= hi + 1
    ensures EventsIn(events, lo, hi) == EventsIn(events, lo, m) + EventsIn(events, m + 1, hi)
    decreases m + 1 - lo
  {
    if lo <= m {
      EventsInSplit(events, lo + 1, m, hi);
      Associative(At(events, lo), EventsIn(events, lo + 1, m), EventsIn(events, m + 1, hi));
    }
  }

  function Total(recs: seq<Rec>): nat {
    if recs == [] then 0 else Total(recs[..|recs| - 1]) + recs[|recs| - 1].size
  }

  /** `eventsCharCount` over one step's events. */
  function CharsOf(events: Events, step: nat): nat {
    Total(EventsIn(events, step, step))
  }

  lemma {:induction false} TotalAppend(a: seq<Rec>, b: seq<Rec>)
    ensures Total(a + b) == Total(a) + Total(b)
  {
    if b == [] {
      assert a + b == a;
    } else {
      TotalAppend(a, b[..|b| - 1]);
      assert (a + b)[..|a + b| - 1] == a + b[..|b| - 1];
    }
  }

  lemma TotalOfBoth(all: seq<Rec>, a: seq<Rec>, b: seq<Rec>)
    requires all == a + b
    ensures Total(all) == Total(a) + Total(b)
  {
    TotalAppend(a, b);
  }

  lemma {:induction false} TotalOfPrefix(recs: seq<Rec>, n: nat)
    requires n <= |recs|
    ensures Total(recs[..n]) <= Total(recs)
    decreases |recs|
  {
    if n == |recs| {
      assert recs[..n] == recs;
    } else {
      TotalOfPrefix(recs[..|recs| - 1], n);
      assert recs[..|recs| - 1][..n] == recs[..n];
    }
  }

  lemma CharsGrow(was: Events, now: Events, step: nat)
    requires Grown(was, now)
    ensures CharsOf(was, step) <= CharsOf(now, step)
  {
    var a, b := At(was, step), At(now, step);
    assert EventsIn(was, step, step) == a + EventsIn(was, step + 1, step) == a;
    assert EventsIn(now, step, step) == b + EventsIn(now, step + 1, step) == b;
    assert a == b[..|a|];
    TotalOfPrefix(b, |a|);
  }

  // ------------------------------------------------------- cutting a chunk

  const HARD_CAP: nat := 800_000

  /** `i` is where a step's records begin or the list ends. */
  predicate Boundary(recs: seq<Rec>, i: nat) {
    i <= |recs| && (0 < i < |recs| ==> recs[i].step != recs[i - 1].step)
  }

  predicate OneStep(recs: seq<Rec>) {
    forall i :: 0 <= i < |recs| ==> recs[i].step == recs[0].step
  }

  /** `j` ends the step that begins at `i`. */
  predicate StepEnd(recs: seq<Rec>, i: nat, j: nat) {
    i < j <= |recs| && OneStep(recs[i..j]) && Boundary(recs, j)
  }

  /** The step that begins at `i` would take the chunk over the cap. */
  ghost predicate NextIsTooMuch(recs: seq<Rec>, i: nat, cap: nat) {
    exists j: nat :: StepEnd(recs, i, j) && Total(recs[..j]) > cap
  }

  /** `truncateChunkToCap`: the longest prefix of whole steps within the cap, and at least
      one step. */
  method TruncateChunkToCap(recs: seq<Rec>, cap: nat) returns (k: nat)
    ensures Boundary(recs, k) && (recs != [] ==> 0 < k)
    ensures Total(recs[..k]) <= cap || OneStep(recs[..k])
    ensures k < |recs| ==> NextIsTooMuch(recs, k, cap)
  {
    k := 0;
    var running, i := 0, 0;
    while i < |recs|
      invariant i == k && Boundary(recs, k) && running == Total(recs[..k])
      invariant Total(recs[..k]) <= cap || OneStep(recs[..k])
    {
      var step, j, chars := recs[i].step, i, 0;
      while j < |recs| && recs[j].step == step
        invariant i <= j <= |recs| && (forall m :: i <= m < j ==> recs[m].step == step)
        invariant running + chars == Total(recs[..j])
      {
        assert recs[..j + 1][..j] == recs[..j];
        chars := chars + recs[j].size;
        j := j + 1;
      }
      assert StepEnd(recs, i, j);
      if k > 0 && running + chars > cap { break; }
      assert k == 0 ==> recs[..j] == recs[i..j];
      running := running + chars;
      k, i := j, j;
    }
  }

  // ------------------------------------------------------ chunks, step by step

  lemma AscendingBoth(here: seq<Rec>, rest: seq<Rec>, lo: nat)
    requires forall i :: 0 <= i < |here| ==> here[i].step == lo
    requires forall i :: 0 <= i < |rest| ==> lo <= rest[i].step
    requires forall i, j :: 0 <= i <= j < |rest| ==> rest[i].step <= rest[j].step
    ensures forall i, j :: 0 <= i <= j < |here + rest| ==> (here + rest)[i].step <= (here + rest)[j].step
  {
  }

  lemma {:induction false} StepsAscend(events: Events, lo: nat, hi: nat)
    ensures forall i, j ::
      0 <= i <= j < |EventsIn(events, lo, hi)| ==> EventsIn(events, lo, hi)[i].step <= EventsIn(events, lo, hi)[j].step
    decreases hi + 1 - lo
  {
    if lo <= hi {
      StepsAscend(events, lo + 1, hi);
      var here, rest := At(events, lo), EventsIn(events, lo + 1, hi);
      assert forall i :: 0 <= i < |rest| ==> rest[i] in rest;
      AscendingBoth(here, rest, lo);
    }
  }

  lemma {:induction false} EventsShown(events: Events, lo: nat, hi: nat, s: nat)
    requires lo <= s <= hi && HasEvent(events, s)
    ensures exists i :: 0 <= i < |EventsIn(events, lo, hi)| && EventsIn(events, lo, hi)[i].step == s
    decreases hi + 1 - lo
  {
    var here, rest := At(events, lo), EventsIn(events, lo + 1, hi);
    if s == lo {
      assert EventsIn(events, lo, hi)[0] == here[0];
    } else {
      EventsShown(events, lo + 1, hi, s);
      var i :| 0 <= i < |rest| && rest[i].step == s;
      assert EventsIn(events, lo, hi)[|here| + i] == rest[i];
    }
  }

  lemma OwnStepOnly(here: seq<Rec>, rest: seq<Rec>, lo: nat, k: nat)
    requires 0 < k <= |here| && Boundary(here + rest, k)
    requires forall i :: 0 <= i < |here| ==> here[i].step == lo
    ensures k == |here| && (here + rest)[..k] == here && (here + rest)[k - 1].step == lo
  {
    var recs := here + rest;
    assert recs[k - 1] == here[k - 1];
    assert forall i :: 0 <= i < |here| ==> recs[i] == here[i];
  }

  lemma BoundaryInRest(here: seq<Rec>, rest: seq<Rec>, m: nat)
    requires 0 < m <= |rest| && Boundary(here + rest, |here| + m)
    ensures Boundary(rest, m) && (here + rest)[..|here| + m] == here + rest[..m]
    ensures (here + rest)[|here| + m - 1] == rest[m - 1]
  {
    assert m < |rest| ==> (here + rest)[|here| + m] == rest[m];
  }

  /** Whole steps of a range are the range up to the last of them. */
  lemma {:induction false} WholeSteps(events: Events, lo: nat, hi: nat, k: nat)
    requires 0 < k <= |EventsIn(events, lo, hi)| && Boundary(EventsIn(events, lo, hi), k)
    ensures var recs := EventsIn(events, lo, hi); recs[..k] == EventsIn(events, lo, recs[k - 1].step)
    decreases hi + 1 - lo
  {
    var here, rest := At(events, lo), EventsIn(events, lo + 1, hi);
    if k <= |here| {
      OwnStepOnly(here, rest, lo, k);
      assert EventsIn(events, lo, lo) == here + [];
    } else {
      var m := k - |here|;
      BoundaryInRest(here, rest, m);
      WholeSteps(events, lo + 1, hi, m);
      assert rest[m - 1] in rest;
    }
  }

  /** The chunk read from `lo` ends with the step `last`: whole steps within the cap, or one
      step, and with the next step that has an event it would be over the cap. */
  ghost predicate ChunkEnds(events: Events, lo: nat, hi: nat, last: nat) {
    && lo <= last <= hi && HasEvent(events, last)
    && (Total(EventsIn(events, lo, last)) <= HARD_CAP || Silent(events, lo, last - 1))
    && (Silent(events, last + 1, hi) || exists s :: OverWith(events, lo, hi, last, s))
  }

  predicate OverWith(events: Events, lo: nat, hi: nat, last: nat, s: nat) {
    last < s <= hi && Silent(events, last + 1, s - 1) && Total(EventsIn(events, lo, s)) > HARD_CAP
  }

  /** Between two neighbouring records there is no event. */
  lemma SilentBetween(events: Events, lo: nat, hi: nat, k: nat)
    requires 0 < k < |EventsIn(events, lo, hi)|
    ensures var recs := EventsIn(events, lo, hi); Silent(events, recs[k - 1].step + 1, recs[k].step - 1)
  {
    var recs := EventsIn(events, lo, hi);
    StepsAscend(events, lo, hi);
    assert recs[k - 1] in recs && recs[k] in recs;
    assert forall i :: 0 <= i < |recs| ==> recs[i].step <= recs[k - 1].step || recs[k].step <= recs[i].step;
    forall s | recs[k - 1].step + 1 <= s <= recs[k].step - 1 ensures !HasEvent(events, s) {
      if HasEvent(events, s) { EventsShown(events, lo, hi, s); }
    }
  }

  lemma SilentBeforeFirst(events: Events, lo: nat, hi: nat)
    requires EventsIn(events, lo, hi) != []
    ensures Silent(events, lo, EventsIn(events, lo, hi)[0].step - 1)
  {
    var recs := EventsIn(events, lo, hi);
    StepsAscend(events, lo, hi);
    assert recs[0] in recs;
    forall s | lo <= s <= recs[0].step - 1 ensures !HasEvent(events, s) {
      if HasEvent(events, s) { EventsShown(events, lo, hi, s); }
    }
  }

  lemma SilentAfterLast(events: Events, lo: nat, hi: nat)
    requires EventsIn(events, lo, hi) != []
    ensures var recs := EventsIn(events, lo, hi); Silent(events, recs[|recs| - 1].step + 1, hi)
  {
    var recs := EventsIn(events, lo, hi);
    StepsAscend(events, lo, hi);
    assert recs[|recs| - 1] in recs;
    forall s | recs[|recs| - 1].step + 1 <= s <= hi ensures !HasEvent(events, s) {
      if HasEvent(events, s) { EventsShown(events, lo, hi, s); }
    }
  }

  /** The step that begins at `k` would take the chunk over the cap. */
  lemma NextStepIsTooMuch(events: Events, lo: nat, hi: nat, k: nat, j: nat)
    requires var recs := EventsIn(events, lo, hi);
      0 < k < |recs| && StepEnd(recs, k, j) && Total(recs[..j]) > HARD_CAP && recs[k - 1].step < recs[k].step
    ensures OverWith(events, lo, hi, EventsIn(events, lo, hi)[k - 1].step, EventsIn(events, lo, hi)[j - 1].step)
  {
    var recs := EventsIn(events, lo, hi);
    WholeSteps(events, lo, hi, j);
    SilentBetween(events, lo, hi, k);
    assert recs[k..j][j - 1 - k] == recs[j - 1] && recs[k..j][0] == recs[k];
    assert recs[j - 1] in recs;
  }

  /** What is in the chunk: whole steps, within the cap or one of them. */
  lemma CutHolds(events: Events, lo: nat, hi: nat, k: nat)
    requires var recs := EventsIn(events, lo, hi);
      0 < k <= |recs| && Boundary(recs, k) && (Total(recs[..k]) <= HARD_CAP || OneStep(recs[..k]))
    ensures var last := EventsIn(events, lo, hi)[k - 1].step;
      Total(EventsIn(events, lo, last)) <= HARD_CAP || Silent(events, lo, last - 1)
  {
    var recs := EventsIn(events, lo, hi);
    WholeSteps(events, lo, hi, k);
    SilentBeforeFirst(events, lo, hi);
    assert recs[..k][k - 1] == recs[k - 1] && recs[..k][0] == recs[0];
  }

  /** What follows the chunk: nothing, or a step too much. */
  lemma CutStops(events: Events, lo: nat, hi: nat, recs: seq<Rec>, k: nat)
    requires recs == EventsIn(events, lo, hi) && 0 < k <= |recs| && Boundary(recs, k)
    requires k < |recs| ==> NextIsTooMuch(recs, k, HARD_CAP)
    ensures var last := recs[k - 1].step; Silent(events, last + 1, hi) || exists s :: OverWith(events, lo, hi, last, s)
  {
    if k == |recs| {
      SilentAfterLast(events, lo, hi);
    } else {
      StepsAscend(events, lo, hi);
      var j: nat :| StepEnd(recs, k, j) && Total(recs[..j]) > HARD_CAP;
      NextStepIsTooMuch(events, lo, hi, k, j);
    }
  }

  lemma StepOf(events: Events, lo: nat, hi: nat, i: nat)
    requires i < |EventsIn(events, lo, hi)|
    ensures var s := EventsIn(events, lo, hi)[i].step; lo <= s <= hi && HasEvent(events, s)
  {
    assert EventsIn(events, lo, hi)[i] in EventsIn(events, lo, hi);
  }

  /** What the cut at `k` means for the steps. */
  lemma CutEndsChunk(events: Events, lo: nat, hi: nat, recs: seq<Rec>, k: nat)
    requires recs == EventsIn(events, lo, hi) && 0 < k <= |recs| && Boundary(recs, k)
    requires Total(recs[..k]) <= HARD_CAP || OneStep(recs[..k])
    requires k < |recs| ==> NextIsTooMuch(recs, k, HARD_CAP)
    ensures ChunkEnds(events, lo, hi, recs[k - 1].step)
  {
    StepOf(events, lo, hi, k - 1);
    CutHolds(events, lo, hi, k);
    CutStops(events, lo, hi, recs, k);
  }

  // ----------------------------------------------------------- end of a phase

  function MaxStep(start: nat, recs: seq<Rec>): (m: nat)
    ensures start <= m
    ensures forall r :: r in recs ==> r.step <= m
    ensures m == start || exists r :: r in recs && r.step == m
  {
    if recs == [] then start
    else
      var m, last := MaxStep(start, recs[..|recs| - 1]), recs[|recs| - 1];
      assert recs == recs[..|recs| - 1] + [last];
      if last.step > m then last.step else m
  }

  /** `summarizePhase`: where the phase ends, given what the model answered (a failed call
      or an unusable answer is None). */
  function EndStep(start: nat, max: nat, answer: Option<int>, force: bool): nat
    requires start <= max
  {
    match answer
    case None => max
    case Some(e) => if force || e < start || e > max then max else e
  }

  lemma LastIsMax(events: Events, lo: nat, hi: nat, k: nat)
    requires 0 < k <= |EventsIn(events, lo, hi)|
    ensures MaxStep(lo, EventsIn(events, lo, hi)[..k]) == EventsIn(events, lo, hi)[k - 1].step
  {
    var recs := EventsIn(events, lo, hi);
    StepsAscend(events, lo, hi);
    assert recs[..k][k - 1] == recs[k - 1] && recs[k - 1] in recs[..k] && recs[k - 1] in recs;
    var m := MaxStep(lo, recs[..k]);
    if m != lo {
      var r :| r in recs[..k] && r.step == m;
      var i :| 0 <= i < k && recs[..k][i] == r;
      assert recs[i] == r;
    }
  }

  /** No answer can move the boundary out of the chunk. */
  lemma EndStepInChunk(start: nat, max: nat, answer: Option<int>, force: bool)
    requires start <= max
    ensures start <= EndStep(start, max, answer, force) <= max
    ensures force ==> EndStep(start, max, answer, force) == max
  {
  }
}
