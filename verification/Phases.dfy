/** The observer's work on one session: step summaries, phase closing, and the three
    cursors, with other goroutines finalizing steps in between and failures anywhere. */
module Phases {
  import opened Text
  import opened Chunks

  // ------------------------------------------------------------- phase rows

  /** Phase rows by their last step, which is their identity in the store: a row written
      again for the same last step replaces the one before. */
  type PhaseRows = map<nat, nat>      // last step -> first step

  predicate Covers(rows: PhaseRows, e: nat, s: nat) {
    e in rows && rows[e] <= s <= e
  }

  predicate Formed(rows: PhaseRows) {
    forall e :: e in rows ==> 1 <= rows[e] <= e
  }

  /** `s` lies in a row that ends by `n`. */
  ghost predicate Covered(rows: PhaseRows, n: nat, s: nat) {
    exists e: nat :: e <= n && Covers(rows, e, s)
  }

  ghost predicate NoGap(rows: PhaseRows, n: nat) {
    forall s :: 1 <= s <= n ==> Covered(rows, n, s)
  }

  ghost predicate NoOverlap(rows: PhaseRows, n: nat) {
    forall s: nat, c: nat, d: nat :: c <= n && d <= n && Covers(rows, c, s) && Covers(rows, d, s) ==> c == d
  }

  /** The rows cover each of the steps 1..n once, and nothing else. */
  ghost predicate Partition(rows: PhaseRows, n: nat) {
    && Formed(rows) && NoGap(rows, n) && NoOverlap(rows, n)
    && forall e :: e in rows ==> e <= n
  }

  /** Closing the steps after `n` leaves no gap, whatever rows lie beyond `n`. */
  lemma CloseLeavesNoGap(rows: PhaseRows, n: nat, e: nat)
    requires Formed(rows) && NoGap(rows, n) && n < e
    ensures Formed(rows[e := n + 1]) && NoGap(rows[e := n + 1], e)
  {
    var next := rows[e := n + 1];
    forall s: nat | 1 <= s <= e ensures Covered(next, e, s) {
      if s <= n {
        assert Covered(rows, n, s);
        var d: nat :| d <= n && Covers(rows, d, s);
        assert Covers(next, d, s);
      } else {
        assert Covers(next, e, s);
      }
    }
  }

  /** It brings no overlap exactly when no row left behind ends inside the new phase. */
  lemma CloseOverlapIff(rows: PhaseRows, n: nat, e: nat)
    requires Formed(rows) && n < e
    ensures NoOverlap(rows[e := n + 1], e) <==> NoOverlap(rows, n) && forall d :: d in rows ==> !(n < d < e)
  {
    var next := rows[e := n + 1];
    if NoOverlap(next, e) {
      forall s: nat, c: nat, d: nat | c <= n && d <= n && Covers(rows, c, s) && Covers(rows, d, s) ensures c == d {
        assert Covers(next, c, s) && Covers(next, d, s);
      }
      forall d | d in rows ensures !(n < d < e) {
        assert n < d < e ==> Covers(next, d, d) && Covers(next, e, d);
      }
    } else {
      var s: nat, c: nat, d: nat :| c <= e && d <= e && Covers(next, c, s) && Covers(next, d, s) && c != d;
      assert c != e ==> Covers(rows, c, s);
      assert d != e ==> Covers(rows, d, s);
    }
  }

  /** A row beyond `n` changes nothing up to `n`. */
  lemma BeyondIsApart(rows: PhaseRows, n: nat, e: nat, start: nat)
    requires Formed(rows) && NoGap(rows, n) && n < e && 1 <= start <= e
    ensures Formed(rows[e := start]) && NoGap(rows[e := start], n)
    ensures NoOverlap(rows[e := start], n) <==> NoOverlap(rows, n)
  {
    var next := rows[e := start];
    forall s: nat | 1 <= s <= n ensures Covered(next, n, s) {
      assert Covered(rows, n, s);
      var d: nat :| d <= n && Covers(rows, d, s);
      assert Covers(next, d, s);
    }
    assert forall d: nat, s: nat :: d <= n ==> (Covers(next, d, s) <==> Covers(rows, d, s));
  }

  /** A row written without its cursor bump breaks the partition.  The retry from the same
      cursor mends it at once exactly when it chooses the same last step again, and leaves
      two phases overlapping for good exactly when it chooses a later one. */
  lemma RetryMendsIff(rows: PhaseRows, n: nat, e: nat, again: nat)
    requires Partition(rows, n) && n < e && n < again
    ensures !Partition(rows[e := n + 1], n)
    ensures Partition(rows[e := n + 1][again := n + 1], again) <==> again == e
    ensures NoOverlap(rows[e := n + 1][again := n + 1], again) <==> again <= e
  {
    var torn := rows[e := n + 1];
    var next := torn[again := n + 1];
    assert e in torn && e in next;
    BeyondIsApart(rows, n, e, n + 1);
    CloseLeavesNoGap(torn, n, again);
    CloseOverlapIff(torn, n, again);
  }

  // ------------------------------------------------------- a pass over the rows

  /** From `was` with the cursor at `from`, a pass closed phases with the last steps `ends`
      and reached `rows` with the cursor at `to`. */
  ghost predicate Pass(was: PhaseRows, from: nat, rows: PhaseRows, to: nat, ends: set<nat>) {
    && from <= to
    && (forall e :: e in ends ==> from < e <= to && e in rows)
    && (from < to ==> to in ends)
    && (forall e :: e in was && e !in ends ==> e in rows && rows[e] == was[e])
    && (forall e :: e in rows && e !in ends ==> e in was)
  }

  /** Every row of an earlier failure that the pass went by was written again. */
  predicate Mended(was: PhaseRows, from: nat, to: nat, ends: set<nat>) {
    forall d :: d in was && from < d <= to ==> d in ends
  }

  lemma PassStep(was: PhaseRows, from: nat, rows: PhaseRows, n: nat, ends: set<nat>, e: nat)
    requires Pass(was, from, rows, n, ends) && Formed(rows) && n < e
    requires NoOverlap(rows, n) <==> NoOverlap(was, from) && Mended(was, from, n, ends)
    ensures Pass(was, from, rows[e := n + 1], e, ends + {e})
    ensures NoOverlap(rows[e := n + 1], e) <==> NoOverlap(was, from) && Mended(was, from, e, ends + {e})
  {
    CloseOverlapIff(rows, n, e);
    assert forall d :: n < d < e ==> (d in rows <==> d in was);
    assert Mended(was, from, e, ends + {e}) <==> Mended(was, from, n, ends) && forall d :: d in was ==> !(n < d < e);
  }

  lemma PassOfPartition(was: PhaseRows, from: nat, rows: PhaseRows, to: nat, ends: set<nat>)
    requires Partition(was, from) && Pass(was, from, rows, to, ends)
    requires Formed(rows) && NoGap(rows, to) && NoOverlap(rows, to)
    ensures Partition(rows, to)
  {
    assert forall e :: e in rows ==> e in ends || e in was;
  }

  // ------------------------------------------------- what the outside does

  /** The store calls of one pass over a session; each is made at most once in a pass.  A
      context that ends makes the next call fail. */
  datatype Call =
    | StepsRow                  // the session's row, for the steps
    | ReadStep(step: nat)
    | WriteStep(step: nat)
    | BumpStep(step: nat)
    | PhasesRow                 // the session's row, for the phases
    | SumText(after: nat)
    | ReadChunk(after: nat)
    | WritePhase(end: nat)
    | BumpPhase(end: nat)

  /** A write that fails may or may not have taken effect. */
  datatype Fault = Lost | Late

  /** Which calls of a pass fail, and where the model puts the end of the phase that begins at
      a step, if its answer can be used at all. */
  datatype Outside = Outside(faults: map<Call, Fault>, answers: map<nat, int>) {
    predicate Fails(c: Call) {
      c in faults
    }

    /** The call has no effect on the store. */
    predicate Loses(c: Call) {
      c in faults && faults[c].Lost?
    }

    function Answer(start: nat): Option<int> {
      if start in answers then Some(answers[start]) else None
    }
  }

  predicate StepFails(out: Outside, step: nat) {
    out.Fails(ReadStep(step)) || out.Fails(WriteStep(step)) || out.Fails(BumpStep(step))
  }

  /** A call of the turn with the cursor at `n` fails. */
  ghost predicate TurnFails(out: Outside, n: nat, watermark: nat) {
    || out.Fails(SumText(n)) || out.Fails(ReadChunk(n))
    || exists e :: n < e <= watermark && (out.Fails(WritePhase(e)) || out.Fails(BumpPhase(e)))
  }

  /** A call of the pass over the phases from one cursor to another fails. */
  ghost predicate PassFails(out: Outside, from: nat, to: nat, watermark: nat) {
    out.Fails(PhasesRow) || exists n :: from <= n <= to && TurnFails(out, n, watermark)
  }

  /** The two writes that close the phase `n + 1 .. e`: what they left behind, and how the turn
      ended. */
  predicate Wrote(out: Outside, stop: Stop, n: nat, rows: PhaseRows, e: nat, m: nat, next: PhaseRows) {
    && next == (if out.Loses(WritePhase(e)) then rows else rows[e := n + 1])
    && m == (if out.Fails(WritePhase(e)) || out.Loses(BumpPhase(e)) then n else e)
    && stop == if !out.Fails(WritePhase(e)) && !out.Fails(BumpPhase(e)) then Done
               else if out.Loses(WritePhase(e)) || m == e then Failed else Torn(e)
  }

  /** Where the phase from `lo` on ends: where the model says, if that is in the chunk that ends
      with step `last` and the session is not settled, else with the chunk. */
  ghost predicate EndsAt(out: Outside, force: bool, seen: Events, lo: nat, hi: nat, last: nat, end: nat) {
    && ChunkEnds(seen, lo, hi, last)
    && end == if !force && lo in out.answers && lo <= out.answers[lo] <= last then out.answers[lo] else last
  }

  /** The phase that is due, read from the events `seen` with the cursor at `n`, is recorded,
      unless there is nothing to read. */
  ghost predicate Ended(out: Outside, stop: Stop, force: bool, watermark: nat, seen: Events, n: nat, rows: PhaseRows,
                        last: nat, end: nat, m: nat, next: PhaseRows) {
    if Silent(seen, n + 1, watermark) then stop == NoEvents && m == n && next == rows
    else EndsAt(out, force, seen, n + 1, watermark, last, end) && n < end <= watermark
         && Wrote(out, stop, n, rows, end, m, next)
  }

  /** A whole turn: every call that fails is reported, and only those; otherwise the phase that
      is due is recorded. */
  ghost predicate Answered(out: Outside, stop: Stop, force: bool, watermark: nat, steps: StepRows, seen: Events,
                           n: nat, rows: PhaseRows, last: nat, end: nat, m: nat, next: PhaseRows) {
    if out.Fails(SumText(n)) then stop == Failed && m == n && next == rows
    else if !Due(force, steps, n, watermark) then stop == Waiting && m == n && next == rows
    else if out.Fails(ReadChunk(n)) then stop == Failed && m == n && next == rows
    else Ended(out, stop, force, watermark, seen, n, rows, last, end, m, next)
  }

  /** The phase from `start` to `e` was due, and ends where the events read for it say. */
  ghost predicate ClosedRight(out: Outside, force: bool, steps: StepRows, watermark: nat, was: Events, now: Events,
                              start: nat, e: nat) {
    && start > 0 && Due(force, steps, start - 1, watermark)
    && exists seen, last ::
      Grown(was, seen) && Grown(seen, now) && EndsAt(out, force, seen, start, watermark, last, e)
  }

  lemma ClosedRightLater(out: Outside, force: bool, steps: StepRows, watermark: nat, was: Events, now: Events,
                         later: Events, start: nat, e: nat)
    requires ClosedRight(out, force, steps, watermark, was, now, start, e) && Grown(now, later)
    ensures ClosedRight(out, force, steps, watermark, was, later, start, e)
  {
    var seen, last :|
      Grown(was, seen) && Grown(seen, now) && EndsAt(out, force, seen, start, watermark, last, e);
    GrownTwice(seen, now, later);
  }

  /** All phases that ended with the steps `ends` were closed rightly. */
  ghost predicate AllRight(out: Outside, force: bool, steps: StepRows, watermark: nat, was: Events, now: Events,
                           rows: PhaseRows, ends: set<nat>) {
    forall e :: e in ends ==> e in rows && ClosedRight(out, force, steps, watermark, was, now, rows[e], e)
  }

  lemma TurnIsRight(out: Outside, stop: Stop, force: bool, watermark: nat, steps: StepRows, was: Events, before: Events,
                    seen: Events, now: Events, n: nat, rows: PhaseRows, last: nat, end: nat, ends: set<nat>, m: nat,
                    next: PhaseRows)
    requires AllRight(out, force, steps, watermark, was, before, rows, ends) && forall e :: e in ends ==> e <= n
    requires Grown(was, before) && Grown(before, seen) && Grown(seen, now) && n < watermark
    requires Answered(out, stop, force, watermark, steps, seen, n, rows, last, end, m, next)
    ensures AllRight(out, force, steps, watermark, was, now, next, EndsAfter(ends, n, m))
  {
    GrownTwice(was, before, seen);
    GrownTwice(before, seen, now);
    forall e | e in EndsAfter(ends, n, m)
      ensures e in next && ClosedRight(out, force, steps, watermark, was, now, next[e], e)
    {
      if e in ends { ClosedRightLater(out, force, steps, watermark, was, before, now, rows[e], e); }
    }
  }

  lemma AnsweredIsTurned(out: Outside, stop: Stop, force: bool, watermark: nat, steps: StepRows, was: Events,
                         seen: Events, n: nat, rows: PhaseRows, last: nat, end: nat, m: nat, next: PhaseRows)
    requires Grown(was, seen) && n < watermark
    requires Answered(out, stop, force, watermark, steps, seen, n, rows, last, end, m, next)
    ensures Turned(stop, force, watermark, steps, was, n, rows, m, next)
    ensures stop.Failed? || stop.Torn? ==> TurnFails(out, n, watermark)
  {
    if stop.NoEvents? { SilentBefore(was, seen, n + 1, watermark); }
  }

  // ------------------------------------------------------------------- the row

  const THRESHOLD: nat := 200_000

  type StepRows = map<nat, nat>       // step -> char count of its summary's events

  function SumChars(rows: StepRows, lo: nat, hi: nat): nat
    decreases hi
  {
    if hi <= lo then 0 else SumChars(rows, lo, hi - 1) + if hi in rows then rows[hi] else 0
  }

  lemma {:induction false} SumFirst(rows: StepRows, lo: nat, hi: nat)
    requires lo < hi
    ensures SumChars(rows, lo, hi) == (if lo + 1 in rows then rows[lo + 1] else 0) + SumChars(rows, lo + 1, hi)
    decreases hi
  {
    if lo + 1 < hi { SumFirst(rows, lo, hi - 1); }
  }

  /** The summary of a step is stamped with the size of its events. */
  predicate Stamped(events: Events, rows: StepRows, step: nat) {
    step in rows && rows[step] == CharsOf(events, step)
  }

  lemma FirstSize(events: Events, rows: StepRows, lo: nat, hi: nat)
    requires lo <= hi && Stamped(events, rows, lo)
    ensures Total(EventsIn(events, lo, hi)) == rows[lo] + Total(EventsIn(events, lo + 1, hi))
  {
    EventsInSplit(events, lo, lo, hi);
    TotalOfBoth(EventsIn(events, lo, hi), EventsIn(events, lo, lo), EventsIn(events, lo + 1, hi));
  }

  /** The steps after `k`, of those after `lo`. */
  lemma {:induction false} SumFrom(events: Events, rows: StepRows, lo: nat, k: nat, hi: nat)
    requires lo <= k <= hi && forall s :: lo < s <= hi ==> Stamped(events, rows, s)
    ensures SumChars(rows, k, hi) == Total(EventsIn(events, k + 1, hi))
    decreases hi - k
  {
    if k < hi {
      SumFirst(rows, k, hi);
      FirstSize(events, rows, k + 1, hi);
      SumFrom(events, rows, lo, k + 1, hi);
    }
  }

  /** What is compared with the threshold is the size of the text that would be read: the
      stamps on the step summaries add up to the events of those steps. */
  lemma SumIsChunkSize(events: Events, rows: StepRows, lo: nat, hi: nat)
    requires lo <= hi && forall s :: lo < s <= hi ==> s in rows && rows[s] == CharsOf(events, s)
    ensures SumChars(rows, lo, hi) == Total(EventsIn(events, lo + 1, hi))
  {
    assert forall s :: lo < s <= hi ==> Stamped(events, rows, s);
    SumFrom(events, rows, lo, lo, hi);
  }

  /** How a pass over a session ended. */
  datatype Stop =
    | Done
    | Waiting           // below the threshold and not settled
    | NoEvents
    | Failed            // a store call failed or the context was cancelled
    | Torn(end: nat)    // a phase row was written, its cursor bump was not

  /** A phase is due: the session is settled, or enough text has come together. */
  predicate Due(force: bool, steps: StepRows, n: nat, watermark: nat) {
    force || SumChars(steps, n, watermark) >= THRESHOLD
  }

  /** What one turn did with the cursor at `n` and the rows `rows`: a phase is closed only when
      one is due, and its row begins right after the cursor. */
  ghost predicate Turned(stop: Stop, force: bool, watermark: nat, steps: StepRows, events: Events,
                         n: nat, rows: PhaseRows, m: nat, next: PhaseRows) {
    var closed := Due(force, steps, n, watermark) && n < m <= watermark && next == rows[m := n + 1];
    match stop
    case Done => closed
    case Waiting => m == n && next == rows && !Due(force, steps, n, watermark)
    case NoEvents => m == n && next == rows && Silent(events, n + 1, watermark)
    case Torn(e) => Due(force, steps, n, watermark) && m == n && n < e <= watermark && next == rows[e := n + 1]
    case Failed => closed || (m == n && next == rows)
  }

  /** Why a pass over a session's phases stopped with the cursor at `phased`. */
  ghost predicate Explained(stop: Stop, settled: bool, events: Events, rows: StepRows, phased: nat, summarized: nat) {
    match stop
    case Done => phased == summarized
    case Waiting => phased < summarized && !Due(settled, rows, phased, summarized)
    case NoEvents => phased < summarized && Silent(events, phased + 1, summarized)
    case Torn(end) => phased < end <= summarized
    case Failed => true
  }

  /** Which rows a pass wrote: those of the phases it closed, and after a failure between the
      two writes one more.  No phases overlap, unless a row left behind by an earlier failure
      was passed over. */
  ghost predicate Outcome(stop: Stop, was: PhaseRows, from: nat, rows: PhaseRows, to: nat, ends: set<nat>) {
    && (if stop.Torn? then TornFrom(stop.end, was, from, rows, to, ends) else Pass(was, from, rows, to, ends))
    && (NoOverlap(rows, to) <==> NoOverlap(was, from) && Mended(was, from, to, ends))
  }

  ghost predicate TornFrom(end: nat, was: PhaseRows, from: nat, rows: PhaseRows, to: nat, ends: set<nat>) {
    exists before: PhaseRows :: Pass(was, from, before, to, ends) && rows == before[end := to + 1]
  }

  lemma PartitionKept(stop: Stop, was: PhaseRows, from: nat, rows: PhaseRows, to: nat, ends: set<nat>)
    requires Outcome(stop, was, from, rows, to, ends) && !stop.Torn?
    requires Formed(rows) && NoGap(rows, to)
    ensures Partition(was, from) ==> Partition(rows, to)
  {
    if Partition(was, from) {
      assert Mended(was, from, to, ends);
      PassOfPartition(was, from, rows, to, ends);
    }
  }

  function EndsAfter(ends: set<nat>, n: nat, m: nat): set<nat> {
    if n < m then ends + {m} else ends
  }

  lemma TurnOutcome(stop: Stop, force: bool, watermark: nat, steps: StepRows, events: Events, was: PhaseRows, from: nat,
                    rows: PhaseRows, n: nat, ends: set<nat>, m: nat, next: PhaseRows)
    requires Outcome(Done, was, from, rows, n, ends) && Formed(rows) && NoGap(rows, n)
    requires Turned(stop, force, watermark, steps, events, n, rows, m, next)
    ensures Outcome(stop, was, from, next, m, EndsAfter(ends, n, m))
  {
    if n < m { PassStep(was, from, rows, n, ends, m); }
    if stop.Torn? {
      BeyondIsApart(rows, n, stop.end, n + 1);
      assert TornFrom(stop.end, was, from, next, m, ends);
    }
  }

  lemma TurnExplained(stop: Stop, force: bool, watermark: nat, steps: StepRows, was: Events, seen: Events,
                      rows: PhaseRows, n: nat, m: nat, next: PhaseRows)
    requires Grown(was, seen) && n < watermark && !stop.Done?
    requires Turned(stop, force, watermark, steps, seen, n, rows, m, next)
    ensures Explained(stop, force, was, steps, m, watermark)
  {
    if stop.NoEvents? { SilentBefore(was, seen, n + 1, watermark); }
  }

  /** What one turn keeps, and what it says about the pass if it was the last. */
  lemma TurnKeeps(out: Outside, stop: Stop, force: bool, watermark: nat, steps: StepRows, start: Events, was: Events,
                  seen: Events, now: Events, first: PhaseRows, from: nat, n: nat, rows: PhaseRows, last: nat, end: nat,
                  ends: set<nat>, m: nat, next: PhaseRows)
    requires Grown(start, was) && Grown(was, seen) && Grown(seen, now) && n < watermark
    requires Formed(rows) && NoGap(rows, n) && Outcome(Done, first, from, rows, n, ends)
    requires AllRight(out, force, steps, watermark, start, was, rows, ends)
    requires Answered(out, stop, force, watermark, steps, seen, n, rows, last, end, m, next)
    ensures n <= m <= watermark && Outcome(stop, first, from, next, m, EndsAfter(ends, n, m))
    ensures AllRight(out, force, steps, watermark, start, now, next, EndsAfter(ends, n, m))
    ensures stop.Failed? || stop.Torn? ==> PassFails(out, from, m, watermark)
    ensures !stop.Done? ==> Explained(stop, force, start, steps, m, watermark)
  {
    AnsweredIsTurned(out, stop, force, watermark, steps, was, seen, n, rows, last, end, m, next);
    TurnOutcome(stop, force, watermark, steps, was, first, from, rows, n, ends, m, next);
    TurnIsRight(out, stop, force, watermark, steps, start, was, seen, now, n, rows, last, end, ends, m, next);
    if !stop.Done? {
      TurnExplained(stop, force, watermark, steps, start, was, rows, n, m, next);
    }
  }

  /** A settled session with an event at its last summarized step ends with every step in a
      phase, unless a store call of the pass fails. */
  lemma SettledIsClosed(out: Outside, stop: Stop, events: Events, rows: StepRows, from: nat, phased: nat,
                        summarized: nat)
    requires Explained(stop, true, events, rows, phased, summarized) && HasEvent(events, summarized)
    requires stop.Failed? || stop.Torn? ==> PassFails(out, from, phased, summarized)
    ensures phased == summarized || PassFails(out, from, phased, summarized)
  {
    assert Silent(events, phased + 1, summarized) && phased < summarized ==> !HasEvent(events, summarized);
  }

  /** A session's row in the store, its summaries and its events. */
  class Session {
    var finalized: nat
    var summarized: nat
    var phased: nat
    var settled: bool              // neither on the spine nor idle
    var stepRows: StepRows
    var phaseRows: PhaseRows
    var events: Events

    constructor ()
      ensures Valid() && finalized == 0 && Partition(phaseRows, phased)
    {
      finalized, summarized, phased, settled := 0, 0, 0, false;
      stepRows, phaseRows, events := map[], map[], map[];
    }

    /** The cursor invariant; a summary for every summarized step, and a phase for every
        phased one. */
    ghost predicate Valid()
      reads this
    {
      && phased <= summarized <= finalized
      && (forall s :: 1 <= s <= summarized ==> s in stepRows)
      && Formed(phaseRows) && NoGap(phaseRows, phased)
    }

    method FinalizeStep(step: nat)
      requires Valid()
      modifies this`finalized
      ensures Valid() && finalized == if step > old(finalized) then step else old(finalized)
    {
      if step > finalized { finalized := step; }
    }

    method SetLastSummarizedStep(step: nat)
      modifies this`summarized
      ensures summarized == if step > old(summarized) then step else old(summarized)
    {
      if step > summarized { summarized := step; }
    }

    method SetLastPhasedStep(step: nat)
      modifies this`phased
      ensures phased == if step > old(phased) then step else old(phased)
    {
      if step > phased { phased := step; }
    }

    /** What the rest of the process may do between two store calls of the observer: any
        number of steps finalized, events appended, the status changed.  The invariant has
        to hold wherever this is called. */
    method Others()
      requires Valid()
      modifies this`finalized, this`events, this`settled
      ensures Valid() && finalized >= old(finalized) && Grown(old(events), events)
    {
    }

    /** The length of a step's events as they are read, unless the read fails. */
    method ReadChars(step: nat, out: Outside) returns (chars: Option<nat>)
      requires Valid()
      modifies this`finalized, this`events, this`settled
      ensures Valid() && finalized >= old(finalized) && Grown(old(events), events)
      ensures chars.None? <==> out.Fails(ReadStep(step))
      ensures chars.Some? ==> CharsOf(old(events), step) <= chars.value <= CharsOf(events, step)
    {
      Others();
      if out.Fails(ReadStep(step)) { return None; }
      CharsGrow(old(events), events, step);
      return Some(CharsOf(events, step));
    }

    /** The two writes for a step: its summary, and the cursor bump that follows it. */
    method RecordStep(step: nat, chars: nat, out: Outside) returns (stop: Stop)
      requires Valid() && step == summarized + 1 <= finalized
      modifies this`finalized, this`summarized, this`stepRows, this`events, this`settled
      ensures Valid() && finalized >= old(finalized) && Grown(old(events), events)
      ensures stop == if out.Fails(WriteStep(step)) || out.Fails(BumpStep(step)) then Failed else Done
      ensures summarized == if out.Fails(WriteStep(step)) || out.Loses(BumpStep(step)) then old(summarized) else step
      ensures stepRows == if out.Loses(WriteStep(step)) then old(stepRows) else old(stepRows)[step := chars]
    {
      Others();
      if !out.Loses(WriteStep(step)) { stepRows := stepRows[step := chars]; }
      if out.Fails(WriteStep(step)) { return Failed; }
      Others();
      if !out.Loses(BumpStep(step)) { SetLastSummarizedStep(step); }
      return if out.Fails(BumpStep(step)) then Failed else Done;
    }

    /** `summarizeOneStep` and the cursor bump that follows it. */
    method SummarizeOneStep(step: nat, out: Outside) returns (stop: Stop)
      requires Valid() && step == summarized + 1 <= finalized
      modifies this`finalized, this`summarized, this`stepRows, this`events, this`settled
      ensures Valid() && finalized >= old(finalized) && Grown(old(events), events)
      ensures stop == if StepFails(out, step) then Failed else Done
      ensures summarized == (if out.Fails(ReadStep(step)) || out.Fails(WriteStep(step)) || out.Loses(BumpStep(step))
                             then old(summarized) else step)
      ensures if out.Fails(ReadStep(step)) || out.Loses(WriteStep(step)) then stepRows == old(stepRows)
              else && step in stepRows && stepRows == old(stepRows)[step := stepRows[step]]
                   && CharsOf(old(events), step) <= stepRows[step] <= CharsOf(events, step)
    {
      var chars := ReadChars(step, out);
      if chars.None? { return Failed; }
      ghost var read := events;
      stop := RecordStep(step, chars.value, out);
      CharsGrow(read, events, step);
    }

    /** `catchUpSteps`: one summary for each step between the two cursors.  It fails exactly if
        a call for one of them fails, and then it stops there: at the first such step, with the
        cursor before it, or on it if only the answer to the bump was lost. */
    method CatchUpSteps(out: Outside) returns (stop: Stop)
      requires Valid()
      modifies this`finalized, this`summarized, this`stepRows, this`events, this`settled
      ensures Valid() && finalized >= old(finalized) && Grown(old(events), events)
      ensures stop.Done? || stop.Failed?
      ensures stop.Done? <==>
                !out.Fails(StepsRow) && forall s :: old(summarized) < s <= old(finalized) ==> !StepFails(out, s)
      ensures stop.Done? ==> summarized == old(finalized)
      ensures out.Fails(StepsRow) ==> summarized == old(summarized) && stepRows == old(stepRows)
      ensures old(summarized) <= summarized <= old(finalized)
      ensures forall s :: old(summarized) < s < summarized ==> !StepFails(out, s)
      ensures stop.Failed? && !out.Fails(StepsRow) ==>
                || (old(summarized) < summarized && StepFails(out, summarized))
                || (summarized < old(finalized) && StepFails(out, summarized + 1))
      ensures forall s :: s in stepRows ==> s in old(stepRows) || old(summarized) < s <= summarized + 1
      ensures forall s ::
        s in old(stepRows) && s <= old(summarized) ==> s in stepRows && stepRows[s] == old(stepRows)[s]
    {
      if out.Fails(StepsRow) { return Failed; }
      var step, last := summarized + 1, finalized;
      while step <= last
        invariant Valid() && finalized >= old(finalized) && Grown(old(events), events)
        invariant step == summarized + 1 && old(summarized) <= summarized <= last
        invariant forall s :: old(summarized) < s <= summarized ==> !StepFails(out, s)
        invariant forall s :: s in stepRows ==> s in old(stepRows) || old(summarized) < s <= summarized
        invariant forall s ::
          s in old(stepRows) && s <= old(summarized) ==> s in stepRows && stepRows[s] == old(stepRows)[s]
      {
        stop := SummarizeOneStep(step, out);
        if stop.Failed? { return; }
        step := step + 1;
      }
      return Done;
    }

    /** Read the chunk and take the model's answer where its first phase ends: any integer, or
        none.  An answer inside the chunk is taken, unless the session is settled; otherwise
        the phase ends with the last step of the chunk. */
    static method SummarizeChunk(events: Events, lo: nat, hi: nat, force: bool, out: Outside)
      returns (end: Option<nat>, ghost last: nat)
      requires lo <= hi
      ensures end.None? <==> Silent(events, lo, hi)
      ensures end.Some? ==> lo <= end.value <= hi && EndsAt(out, force, events, lo, hi, last, end.value)
    {
      EventsInSome(events, lo, hi);
      var recs := EventsIn(events, lo, hi);
      if recs == [] { return None, 0; }
      var k := TruncateChunkToCap(recs, HARD_CAP);
      CutEndsChunk(events, lo, hi, recs, k);
      var max := MaxStep(lo, recs[..k]);
      LastIsMax(events, lo, hi, k);
      return Some(EndStep(lo, max, out.Answer(lo), force)), max;
    }

    /** One turn of `closePhases`: at most one phase is closed.  `seen` are the events it reads,
        `last` is where their chunk ends and `end` where the phase ends. */
    method CloseOne(force: bool, watermark: nat, out: Outside)
      returns (stop: Stop, ghost seen: Events, ghost last: nat, ghost end: nat)
      requires Valid() && phased < watermark == summarized
      modifies this`finalized, this`phased, this`phaseRows, this`events, this`settled
      ensures Valid() && finalized >= old(finalized) && Grown(old(events), seen) && Grown(seen, events)
      ensures Answered(out, stop, force, watermark, stepRows, seen, old(phased), old(phaseRows), last, end, phased,
                phaseRows)
    {
      var ended := Ready(force, watermark, out);
      seen := events;
      if ended.Some? { return ended.value, seen, 0, 0; }
      stop, last, end := CloseDue(force, watermark, out);
    }

    /** The calls before the chunk is read: why the turn ends here, if it does. */
    method Ready(force: bool, watermark: nat, out: Outside) returns (ended: Option<Stop>)
      requires Valid()
      modifies this`finalized, this`events, this`settled
      ensures Valid() && finalized >= old(finalized) && Grown(old(events), events)
      ensures ended == if out.Fails(SumText(phased)) then Some(Failed)
                       else if !Due(force, stepRows, phased, watermark) then Some(Waiting)
                       else if out.Fails(ReadChunk(phased)) then Some(Failed)
                       else None
    {
      Others();
      if out.Fails(SumText(phased)) { return Some(Failed); }
      var charSum := SumChars(stepRows, phased, watermark);
      if charSum < THRESHOLD && !force { return Some(Waiting); }
      Others();
      return if out.Fails(ReadChunk(phased)) then Some(Failed) else None;
    }

    /** A phase is due and the calls before did not fail: read its chunk, find its end and
        record it. */
    method CloseDue(force: bool, watermark: nat, out: Outside) returns (stop: Stop, ghost last: nat, ghost end: nat)
      requires Valid() && phased < watermark == summarized
      modifies this`finalized, this`phased, this`phaseRows, this`events, this`settled
      ensures Valid() && finalized >= old(finalized) && Grown(old(events), events)
      ensures Ended(out, stop, force, watermark, old(events), old(phased), old(phaseRows), last, end, phased, phaseRows)
    {
      end := 0;
      var chosen;
      chosen, last := SummarizeChunk(events, phased + 1, watermark, force, out);
      if chosen.None? { return NoEvents, 0, 0; }
      end := chosen.value;
      Others();
      stop := Record(chosen.value, out);
    }

    /** The two writes that close the phase ending at `endStep`. */
    method Record(endStep: nat, out: Outside) returns (stop: Stop)
      requires Valid() && phased < endStep <= summarized
      modifies this`finalized, this`phased, this`phaseRows, this`events, this`settled
      ensures Valid() && finalized >= old(finalized) && Grown(old(events), events)
      ensures Wrote(out, stop, old(phased), old(phaseRows), endStep, phased, phaseRows)
    {
      BeyondIsApart(phaseRows, phased, endStep, phased + 1);
      CloseLeavesNoGap(phaseRows, phased, endStep);
      if !out.Loses(WritePhase(endStep)) { phaseRows := phaseRows[endStep := phased + 1]; }
      if out.Fails(WritePhase(endStep)) {
        return if out.Loses(WritePhase(endStep)) then Failed else Torn(endStep);
      }
      Others();
      if !out.Loses(BumpPhase(endStep)) { SetLastPhasedStep(endStep); }
      if out.Fails(BumpPhase(endStep)) {
        return if out.Loses(BumpPhase(endStep)) then Torn(endStep) else Failed;
      }
      return Done;
    }

    /** The same turn, seen from the start of the pass: `start`, `first` and `from` are the
        events, the rows and the cursor of then, `before` the phases closed since. */
    method NextTurn(force: bool, watermark: nat, out: Outside, ghost start: Events, ghost first: PhaseRows,
                    ghost from: nat, ghost before: set<nat>)
      returns (stop: Stop, ghost ends: set<nat>)
      requires Valid() && phased < watermark == summarized && Grown(start, events)
      requires Outcome(Done, first, from, phaseRows, phased, before)
      requires AllRight(out, force, stepRows, watermark, start, events, phaseRows, before)
      modifies this`finalized, this`phased, this`phaseRows, this`events, this`settled
      ensures Valid() && finalized >= old(finalized) && Grown(start, events)
      ensures old(phased) <= phased <= watermark && (stop.Done? ==> old(phased) < phased)
      ensures Outcome(stop, first, from, phaseRows, phased, ends)
      ensures AllRight(out, force, stepRows, watermark, start, events, phaseRows, ends)
      ensures stop.Failed? || stop.Torn? ==> PassFails(out, from, phased, watermark)
      ensures !stop.Done? ==> Explained(stop, force, start, stepRows, phased, watermark)
    {
      ghost var rows, n, was := phaseRows, phased, events;
      ghost var seen, last, end;
      stop, seen, last, end := CloseOne(force, watermark, out);
      TurnKeeps(out, stop, force, watermark, stepRows, start, was, seen, events, first, from, n, rows, last, end,
          before, phased, phaseRows);
      GrownTwice(start, was, seen);
      GrownTwice(start, seen, events);
      ends := EndsAfter(before, n, phased);
    }

    /** `closePhases`: close phases while one is due.  `ends` collects the last steps of the
        phases this call closed. */
    method ClosePhases(out: Outside) returns (stop: Stop, ghost ends: set<nat>)
      requires Valid()
      modifies this`finalized, this`phased, this`phaseRows, this`events, this`settled
      ensures Valid() && finalized >= old(finalized) && Grown(old(events), events)
      ensures Outcome(stop, old(phaseRows), old(phased), phaseRows, phased, ends)
      ensures Explained(stop, old(settled), old(events), stepRows, phased, summarized)
      ensures AllRight(out, old(settled), stepRows, summarized, old(events), events, phaseRows, ends)
      ensures stop.Failed? || stop.Torn? ==> PassFails(out, old(phased), phased, summarized)
      ensures out.Fails(PhasesRow) ==> stop == Failed && phased == old(phased) && phaseRows == old(phaseRows)
    {
      ends := {};
      if out.Fails(PhasesRow) { return Failed, {}; }
      var force, watermark := settled, summarized;
      stop := Done;
      while watermark > phased
        invariant stop.Done? && old(phased) <= phased <= watermark == summarized
        invariant Valid() && finalized >= old(finalized) && Grown(old(events), events)
        invariant Outcome(Done, old(phaseRows), old(phased), phaseRows, phased, ends)
        invariant AllRight(out, force, stepRows, watermark, old(events), events, phaseRows, ends)
      {
        stop, ends := NextTurn(force, watermark, out, old(events), old(phaseRows), old(phased), ends);
        if !stop.Done? { break; }
      }
    }

    /** `process`: the steps, then the phases.  With no failure between the two writes of a
        phase, the phase rows stay an exact partition of the phased steps; with no failure at
        all every step gets its summary and phases are closed until none is due. */
    method Process(out: Outside) returns (stepsStop: Stop, stop: Stop)
      requires Valid()
      modifies this`finalized, this`summarized, this`phased, this`stepRows, this`phaseRows, this`events, this`settled
      ensures Valid() && finalized >= old(finalized) && Grown(old(events), events)
      ensures old(Partition(phaseRows, phased)) && !stop.Torn? ==> Partition(phaseRows, phased)
      ensures stepsStop.Done? ==> summarized == old(finalized)
      ensures stepsStop.Done? && stop.Done? ==> phased == old(finalized)
      ensures out.faults == map[] ==> stepsStop.Done? && (stop.Done? || stop.Waiting? || stop.NoEvents?)
    {
      stepsStop := CatchUpSteps(out);
      ghost var rows, n := phaseRows, phased;
      ghost var ends: set<nat>;
      stop, ends := ClosePhases(out);
      if !stop.Torn? { PartitionKept(stop, rows, n, phaseRows, phased, ends); }
    }
  }
}
