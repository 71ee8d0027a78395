/** The trajectory view: phase rows in step order, each with its steps, and the loose steps
    after the last phase. */
module Trajectory {
  import opened Phases

  datatype Row = Row(start: nat, end: nat)

  /** The observations are the rows of `m`, in any order. */
  ghost predicate RowsOf(rows: seq<Row>, m: PhaseRows) {
    && (forall i :: 0 <= i < |rows| ==> rows[i].end in m && m[rows[i].end] == rows[i].start)
    && (forall e :: e in m ==> Row(m[e], e) in rows)
    && (forall i, j :: 0 <= i < j < |rows| ==> rows[i].end != rows[j].end)
  }

  ghost predicate ByEnd(rows: seq<Row>) {
    forall i, j :: 0 <= i < j < |rows| ==> rows[i].end <= rows[j].end
  }

  /** The steps from `lo` to `hi`. */
  function Range(lo: nat, hi: int): (r: seq<nat>)
    ensures |r| == if lo <= hi then hi + 1 - lo else 0
    ensures forall i :: 0 <= i < |r| ==> r[i] == lo + i
    decreases hi + 1 - lo
  {
    if lo > hi then [] else Range(lo, hi - 1) + [hi]
  }

  /** Every step shown, in the order shown. */
  function Shown(phases: seq<seq<nat>>): seq<nat> {
    if phases == [] then [] else Shown(phases[..|phases| - 1]) + phases[|phases| - 1]
  }

  function StepsOf(rows: seq<Row>): seq<seq<nat>> {
    seq(|rows|, i requires 0 <= i < |rows| => Range(rows[i].start, rows[i].end))
  }

  // ---------------------------------------------------------- rows end to end

  /** The rows follow one another without gap or overlap, from step 1 to step `n`. */
  predicate EndToEnd(rows: seq<Row>, n: nat) {
    if rows == [] then n == 0 else
      var last := rows[|rows| - 1];
      1 <= last.start <= last.end == n && EndToEnd(rows[..|rows| - 1], last.start - 1)
  }

  lemma ShownLast(rows: seq<Row>)
    requires rows != []
    ensures var init, last := rows[..|rows| - 1], rows[|rows| - 1];
            Shown(StepsOf(rows)) == Shown(StepsOf(init)) + Range(last.start, last.end)
  {
    assert StepsOf(rows)[..|rows| - 1] == StepsOf(rows[..|rows| - 1]);
  }

  ghost predicate AllFormed(rows: seq<Row>) {
    forall i :: 0 <= i < |rows| ==> 1 <= rows[i].start <= rows[i].end
  }

  lemma RangeSplit(lo: nat, mid: nat, hi: nat)
    requires lo <= mid <= hi
    ensures Range(lo, mid - 1) + Range(mid, hi) == Range(lo, hi)
  {
  }

  lemma RangeTail(before: seq<nat>, lo: nat, hi: nat, n: nat)
    requires 1 <= lo <= hi && before + Range(lo, hi) == Range(1, n)
    ensures hi == n && before == Range(1, lo - 1)
  {
    var all := before + Range(lo, hi);
    assert all[|all| - 1] == hi;
    assert all[|before|] == lo;
    assert before == all[..|before|];
    assert Range(1, n)[..|before|] == Range(1, lo - 1);
  }

  lemma {:induction false} EndToEndShown(rows: seq<Row>, n: nat)
    requires AllFormed(rows)
    ensures EndToEnd(rows, n) <==> Shown(StepsOf(rows)) == Range(1, n)
  {
    if rows == [] {
      assert Shown(StepsOf(rows)) == [];
    } else {
      var last, init := rows[|rows| - 1], rows[..|rows| - 1];
      ShownLast(rows);
      EndToEndShown(init, last.start - 1);
      if EndToEnd(rows, n) {
        RangeSplit(1, last.start, n);
      } else if Shown(StepsOf(rows)) == Range(1, n) {
        RangeTail(Shown(StepsOf(init)), last.start, last.end, n);
      }
    }
  }

  lemma LastIsEnd(rows: seq<Row>, m: PhaseRows, n: nat)
    requires RowsOf(rows, m) && ByEnd(rows) && Partition(m, n) && rows != []
    ensures rows[|rows| - 1].end == n
  {
    var last := rows[|rows| - 1];
    assert last.end in m;
    assert Covered(m, n, n);
    var e: nat :| e <= n && Covers(m, e, n);
    assert Row(m[e], e) in rows;
  }

  lemma WithoutLast(rows: seq<Row>, m: PhaseRows)
    requires RowsOf(rows, m) && ByEnd(rows) && rows != []
    ensures RowsOf(rows[..|rows| - 1], m - {rows[|rows| - 1].end})
    ensures m == (m - {rows[|rows| - 1].end})[rows[|rows| - 1].end := rows[|rows| - 1].start]
  {
    var last, init := rows[|rows| - 1], rows[..|rows| - 1];
    forall e | e in m && e != last.end ensures Row(m[e], e) in init {
      InInit(rows, Row(m[e], e));
    }
    assert forall i :: 0 <= i < |init| ==> init[i] == rows[i];
  }

  lemma InInit(rows: seq<Row>, r: Row)
    requires rows != [] && r in rows && r != rows[|rows| - 1]
    ensures r in rows[..|rows| - 1]
  {
    var i :| 0 <= i < |rows| && rows[i] == r;
    assert rows[..|rows| - 1][i] == r;
  }

  lemma PartitionWithoutLast(m: PhaseRows, n: nat)
    requires Partition(m, n) && n in m
    ensures Partition(m - {n}, m[n] - 1)
  {
    var rest, k := m - {n}, m[n] - 1;
    forall e | e in rest ensures e <= k {
      assert k < e ==> Covers(m, e, e) && Covers(m, n, e);
    }
    forall s: nat | 1 <= s <= k ensures Covered(rest, k, s) {
      assert Covered(m, n, s);
      var e: nat :| e <= n && Covers(m, e, s);
      assert Covers(rest, e, s);
    }
    forall s: nat, c: nat, d: nat | c <= k && d <= k && Covers(rest, c, s) && Covers(rest, d, s) ensures c == d {
      assert Covers(m, c, s) && Covers(m, d, s);
    }
  }

  lemma PartitionWithLast(rest: PhaseRows, start: nat, n: nat)
    requires 1 <= start <= n && Partition(rest, start - 1)
    ensures Partition(rest[n := start], n)
  {
    CloseLeavesNoGap(rest, start - 1, n);
    CloseOverlapIff(rest, start - 1, n);
  }

  lemma {:induction false} EndToEndIsPartition(rows: seq<Row>, m: PhaseRows, n: nat)
    requires RowsOf(rows, m) && ByEnd(rows) && EndToEnd(rows, n)
    ensures Partition(m, n)
    decreases |rows|
  {
    if rows == [] {
      NoRows(m, n);
    } else {
      var start := rows[|rows| - 1].start;
      WithoutLast(rows, m);
      EndToEndIsPartition(rows[..|rows| - 1], m - {n}, start - 1);
      PartitionWithLast(m - {n}, start, n);
    }
  }

  lemma {:induction false} PartitionIsEndToEnd(rows: seq<Row>, m: PhaseRows, n: nat)
    requires RowsOf(rows, m) && ByEnd(rows) && Partition(m, n)
    ensures EndToEnd(rows, n)
    decreases |rows|
  {
    if rows == [] {
      NoRows(m, n);
    } else {
      LastIsEnd(rows, m, n);
      LastRowOf(rows, m);
      WithoutLast(rows, m);
      PartitionWithoutLast(m, n);
      PartitionIsEndToEnd(rows[..|rows| - 1], m - {n}, m[n] - 1);
    }
  }

  lemma LastRowOf(rows: seq<Row>, m: PhaseRows)
    requires RowsOf(rows, m) && rows != []
    ensures rows[|rows| - 1].end in m && m[rows[|rows| - 1].end] == rows[|rows| - 1].start
  {
  }

  /** Sorted rows follow one another exactly when they partition the steps. */
  lemma EndToEndIffPartition(rows: seq<Row>, m: PhaseRows, n: nat)
    requires RowsOf(rows, m) && ByEnd(rows)
    ensures EndToEnd(rows, n) <==> Partition(m, n)
  {
    if EndToEnd(rows, n) { EndToEndIsPartition(rows, m, n); }
    if Partition(m, n) { PartitionIsEndToEnd(rows, m, n); }
  }

  lemma NoRows(m: PhaseRows, n: nat)
    requires RowsOf([], m)
    ensures Partition(m, n) <==> n == 0
  {
    assert forall e :: e in m ==> Row(m[e], e) in [];
    assert n > 0 && NoGap(m, n) ==> Covered(m, n, n);
  }

  lemma RowsStay(rows: seq<Row>, sorted: seq<Row>, m: PhaseRows)
    requires RowsOf(rows, m) && multiset(sorted) == multiset(rows)
    ensures RowsOf(sorted, m)
  {
    assert forall r :: r in sorted <==> r in multiset(sorted);
    assert forall r :: r in rows <==> r in multiset(rows);
    assert forall i :: 0 <= i < |sorted| ==> sorted[i] in rows;
    forall i, j | 0 <= i < j < |sorted| ensures sorted[i].end != sorted[j].end {
      if sorted[i].end == sorted[j].end {
        assert sorted[i] in rows && sorted[j] in rows;
        TwiceIn(sorted, i, j);
        OnceIn(rows, sorted[i]);
      }
    }
  }

  lemma TwiceIn(rows: seq<Row>, i: nat, j: nat)
    requires i < j < |rows| && rows[i] == rows[j]
    ensures multiset(rows)[rows[i]] >= 2
  {
    assert rows == rows[..j] + [rows[j]] + rows[j + 1..];
    assert rows[..j][i] == rows[i];
  }

  lemma {:induction false} OnceIn(rows: seq<Row>, r: Row)
    requires forall i, j :: 0 <= i < j < |rows| ==> rows[i].end != rows[j].end
    ensures multiset(rows)[r] <= 1
  {
    if rows != [] {
      var last, init := rows[|rows| - 1], rows[..|rows| - 1];
      assert rows == init + [last];
      OnceIn(init, r);
    }
  }

  // ------------------------------------------------------------- the assembly

  lemma InsertedOrder(sorted: seq<Row>, p: nat, r: Row)
    requires ByEnd(sorted) && p <= |sorted|
    requires p > 0 ==> sorted[p - 1].end <= r.end
    requires p < |sorted| ==> r.end <= sorted[p].end
    ensures ByEnd(sorted[..p] + [r] + sorted[p..])
  {
    var next := sorted[..p] + [r] + sorted[p..];
    forall i, j | 0 <= i < j < |next| ensures next[i].end <= next[j].end {
      assert next[i] == if i < p then sorted[i] else if i == p then r else sorted[i - 1];
      assert next[j] == if j < p then sorted[j] else if j == p then r else sorted[j - 1];
    }
  }

  lemma InsertedRows(sorted: seq<Row>, p: nat, r: Row)
    requires p <= |sorted|
    ensures multiset(sorted[..p] + [r] + sorted[p..]) == multiset(sorted) + multiset{r}
  {
    assert sorted == sorted[..p] + sorted[p..];
  }

  /** One more row, where it belongs. */
  method InsertRow(sorted: seq<Row>, r: Row) returns (next: seq<Row>)
    requires ByEnd(sorted)
    ensures multiset(next) == multiset(sorted) + multiset{r} && ByEnd(next)
  {
    var p := |sorted|;
    while p > 0 && sorted[p - 1].end > r.end
      invariant 0 <= p <= |sorted| && (p < |sorted| ==> r.end <= sorted[p].end)
    {
      p := p - 1;
    }
    InsertedOrder(sorted, p, r);
    InsertedRows(sorted, p, r);
    next := sorted[..p] + [r] + sorted[p..];
  }

  lemma OneRowMore(rows: seq<Row>, i: nat)
    requires i < |rows|
    ensures multiset(rows[..i + 1]) == multiset(rows[..i]) + multiset{rows[i]}
  {
    assert rows[..i + 1] == rows[..i] + [rows[i]];
  }

  /** `sort.Slice` by end step. */
  method SortByEnd(rows: seq<Row>) returns (sorted: seq<Row>)
    ensures multiset(sorted) == multiset(rows) && ByEnd(sorted)
  {
    sorted := [];
    var i := 0;
    while i < |rows|
      invariant 0 <= i <= |rows| && multiset(sorted) == multiset(rows[..i]) && ByEnd(sorted)
    {
      sorted := InsertRow(sorted, rows[i]);
      OneRowMore(rows, i);
      i := i + 1;
    }
    assert rows[..i] == rows;
  }

  method StepsFrom(lo: nat, hi: nat) returns (steps: seq<nat>)
    ensures steps == Range(lo, hi)
  {
    steps := [];
    var n := lo;
    while n <= hi
      invariant lo <= n && (n <= hi + 1 || n == lo) && steps == Range(lo, n - 1)
    {
      steps, n := steps + [n], n + 1;
    }
  }

  method ListPhases(sorted: seq<Row>) returns (phases: seq<seq<nat>>, lastEnd: nat)
    ensures phases == StepsOf(sorted)
    ensures forall i :: 0 <= i < |sorted| ==> sorted[i].end <= lastEnd
    ensures lastEnd == 0 || exists i :: 0 <= i < |sorted| && sorted[i].end == lastEnd
  {
    phases, lastEnd := [], 0;
    var i := 0;
    while i < |sorted|
      invariant 0 <= i <= |sorted| && phases == StepsOf(sorted[..i])
      invariant forall k :: 0 <= k < i ==> sorted[k].end <= lastEnd
      invariant lastEnd == 0 || exists k :: 0 <= k < i && sorted[k].end == lastEnd
    {
      var steps := StepsFrom(sorted[i].start, sorted[i].end);
      phases := phases + [steps];
      if sorted[i].end > lastEnd { lastEnd := sorted[i].end; }
      i := i + 1;
    }
    assert sorted[..i] == sorted;
  }

  /** `handleTrajectory`: the steps of each phase, and the loose steps up to the step of the
      newest event.  The view shows each step once and in order exactly when the rows
      partition the steps up to the last phase. */
  method Assemble(phaseObs: seq<Row>, newest: nat, ghost m: PhaseRows)
    returns (phases: seq<seq<nat>>, loose: seq<nat>, lastEnd: nat)
    requires RowsOf(phaseObs, m) && Formed(m)
    ensures |phases| == |phaseObs| && (forall r :: r in phaseObs ==> Range(r.start, r.end) in phases)
    ensures (forall e :: e in m ==> e <= lastEnd) && (lastEnd == 0 || lastEnd in m)
    ensures Shown(phases) + loose == Range(1, if newest > lastEnd then newest else lastEnd) <==> Partition(m, lastEnd)
  {
    var sorted := SortByEnd(phaseObs);
    RowsStay(phaseObs, sorted, m);
    phases, lastEnd := ListPhases(sorted);
    loose := StepsFrom(lastEnd + 1, newest);
    ViewIff(sorted, m, lastEnd, newest);
    EveryRow(phaseObs, sorted, m);
    LastOfAll(sorted, m, lastEnd);
  }

  lemma EveryRow(rows: seq<Row>, sorted: seq<Row>, m: PhaseRows)
    requires RowsOf(sorted, m) && multiset(sorted) == multiset(rows)
    ensures forall r :: r in rows ==> Range(r.start, r.end) in StepsOf(sorted)
    ensures |StepsOf(sorted)| == |rows|
  {
    forall r | r in rows ensures Range(r.start, r.end) in StepsOf(sorted) {
      assert r in multiset(rows) && r in multiset(sorted);
      var k :| 0 <= k < |sorted| && sorted[k] == r;
      assert StepsOf(sorted)[k] == Range(r.start, r.end);
    }
    assert |sorted| == |multiset(sorted)| == |multiset(rows)| == |rows|;
  }

  lemma LastOfAll(sorted: seq<Row>, m: PhaseRows, lastEnd: nat)
    requires RowsOf(sorted, m)
    requires forall i :: 0 <= i < |sorted| ==> sorted[i].end <= lastEnd
    requires lastEnd == 0 || exists i :: 0 <= i < |sorted| && sorted[i].end == lastEnd
    ensures (forall e :: e in m ==> e <= lastEnd) && (lastEnd == 0 || lastEnd in m)
  {
    forall e | e in m ensures e <= lastEnd {
      assert Row(m[e], e) in sorted;
    }
  }

  lemma ViewIff(sorted: seq<Row>, m: PhaseRows, lastEnd: nat, newest: nat)
    requires RowsOf(sorted, m) && ByEnd(sorted) && Formed(m)
    ensures var end := if newest > lastEnd then newest else lastEnd;
            Shown(StepsOf(sorted)) + Range(lastEnd + 1, newest) == Range(1, end) <==> Partition(m, lastEnd)
  {
    var shown, loose := Shown(StepsOf(sorted)), Range(lastEnd + 1, newest);
    var all := Range(1, if newest > lastEnd then newest else lastEnd);
    forall i | 0 <= i < |sorted| ensures 1 <= sorted[i].start <= sorted[i].end {
      assert sorted[i].end in m;
    }
    EndToEndShown(sorted, lastEnd);
    EndToEndIffPartition(sorted, m, lastEnd);
    assert Range(1, lastEnd) + loose == all;
    if shown + loose == all {
      assert |shown| == lastEnd;
      assert shown == (shown + loose)[..lastEnd] == all[..lastEnd] == Range(1, lastEnd);
    }
  }
}
