/** The recursive cancel cascade over one run's sessions. */
module Cancel {
  import opened Text
  import opened Events
  import opened Registry

  type Statuses = map<string, Status>

  /** An event written to a session's stream. */
  datatype Posting = Posting(to: string, event: Event)

  /** The run's fixed facts: who has which parent, the order the store lists sessions in,
      and which store calls fail.  A cascade reads and writes each session at most once, so
      fixed sets describe any pattern of failures. */
  datatype Run = Run(
    parent: map<string, string>,
    order: seq<string>,
    unreadable: set<string>,      // GetSession fails
    unwritable: set<string>,      // TerminateAndNotifyParent fails
    unlistable: set<string>)      // GetChildSessions fails

  function ParentOf(r: Run, x: string): string {
    if x in r.parent then r.parent[x] else ""
  }

  function ChildrenFrom(r: Run, x: string, from: seq<string>): seq<string> {
    if from == [] then []
    else (if from[0] in r.parent && r.parent[from[0]] == x then [from[0]] else []) + ChildrenFrom(r, x, from[1..])
  }

  /** `GetChildSessions`. */
  function Children(r: Run, x: string): seq<string> {
    ChildrenFrom(r, x, r.order)
  }

  predicate IsChild(r: Run, x: string, y: string) {
    y in r.parent && r.parent[y] == x
  }

  /** The positions `at` in the store's order, from first to last, hold the sessions `ch`, and
      they are all the positions of a child of `x`. */
  ghost predicate Lists(r: Run, x: string, from: seq<string>, ch: seq<string>, at: seq<nat>) {
    && |at| == |ch| && (forall k :: 0 <= k < |at| ==> at[k] < |from| && from[at[k]] == ch[k])
    && (forall j, k :: 0 <= j < k < |at| ==> at[j] < at[k])
    && (forall i :: 0 <= i < |from| ==> (i in at <==> IsChild(r, x, from[i])))
  }

  lemma ListsLater(r: Run, x: string, from: seq<string>, ch: seq<string>, rest: seq<nat>, at: seq<nat>)
    requires from != [] && Lists(r, x, from[1..], ch, rest) && !IsChild(r, x, from[0])
    requires |at| == |rest| && forall k :: 0 <= k < |at| ==> at[k] == rest[k] + 1
    ensures Lists(r, x, from, ch, at)
  {
    forall i | 0 <= i < |from| ensures i in at <==> IsChild(r, x, from[i]) {
      if i > 0 {
        assert from[i] == from[1..][i - 1];
        if i - 1 in rest {
          var k :| 0 <= k < |rest| && rest[k] == i - 1;
          assert at[k] == i;
        }
      }
    }
  }

  lemma ListsFirst(r: Run, x: string, from: seq<string>, ch: seq<string>, rest: seq<nat>, at: seq<nat>)
    requires from != [] && Lists(r, x, from[1..], ch, rest) && IsChild(r, x, from[0])
    requires |at| == |rest| + 1 && at[0] == 0 && forall k :: 1 <= k < |at| ==> at[k] == rest[k - 1] + 1
    ensures Lists(r, x, from, [from[0]] + ch, at)
  {
    forall i | 0 < i < |from| ensures i in at <==> IsChild(r, x, from[i]) {
      assert from[i] == from[1..][i - 1];
      ShiftedIn(rest, at, i);
    }
  }

  lemma ShiftedIn(rest: seq<nat>, at: seq<nat>, i: nat)
    requires |at| == |rest| + 1 && at[0] == 0 && forall k :: 1 <= k < |at| ==> at[k] == rest[k - 1] + 1
    requires i > 0
    ensures i in at <==> i - 1 in rest
  {
    if i in at {
      var k :| 0 <= k < |at| && at[k] == i;
      assert rest[k - 1] == i - 1;
    }
    if i - 1 in rest {
      var k :| 0 <= k < |rest| && rest[k] == i - 1;
      assert at[k + 1] == i;
    }
  }

  /** The listing is exactly the children, in the store's order. */
  lemma {:induction false} ChildrenAt(r: Run, x: string, from: seq<string>) returns (at: seq<nat>)
    ensures Lists(r, x, from, ChildrenFrom(r, x, from), at)
  {
    at := [];
    if from != [] {
      var rest := ChildrenAt(r, x, from[1..]);
      at := seq(|rest|, k requires 0 <= k < |rest| => rest[k] + 1);
      if IsChild(r, x, from[0]) {
        at := [0] + at;
        ListsFirst(r, x, from, ChildrenFrom(r, x, from[1..]), rest, at);
      } else {
        ListsLater(r, x, from, ChildrenFrom(r, x, from[1..]), rest, at);
        assert ChildrenFrom(r, x, from) == ChildrenFrom(r, x, from[1..]);
      }
    }
  }

  lemma ChildrenAre(r: Run, x: string, y: string)
    ensures y in Children(r, x) <==> y in r.order && IsChild(r, x, y)
  {
    var at := ChildrenAt(r, x, r.order);
    if y in r.order && IsChild(r, x, y) {
      var i :| 0 <= i < |r.order| && r.order[i] == y;
      var k :| 0 <= k < |at| && at[k] == i;
    }
    if y in Children(r, x) {
      var k :| 0 <= k < |at| && Children(r, x)[k] == y;
      assert at[k] in at;
    }
  }

  /** Each child is listed once when the store has each session once. */
  lemma ChildrenOnce(r: Run, x: string)
    requires forall i, j :: 0 <= i < j < |r.order| ==> r.order[i] != r.order[j]
    ensures forall i, j :: 0 <= i < j < |Children(r, x)| ==> Children(r, x)[i] != Children(r, x)[j]
  {
    var at := ChildrenAt(r, x, r.order);
  }

  function NonTerminal(st: Statuses): set<string> {
    set x | x in st && !Terminal(st[x])
  }

  /** The terminal write can go through; it needs the parent's row, too. */
  predicate Writable(r: Run, st: Statuses, x: string) {
    x !in r.unwritable && (ParentOf(r, x) == "" || ParentOf(r, x) in st)
  }

  predicate Cancellable(r: Run, st: Statuses, x: string) {
    x in st && !Terminal(st[x]) && x !in r.unreadable && Writable(r, st, x)
  }

  /** The call for `x` fails at once. */
  predicate Blocked(r: Run, st: Statuses, x: string) {
    x !in st || x in r.unreadable || (!Terminal(st[x]) && !Writable(r, st, x))
  }

  /** The cascade goes from `x` to `y`: the store has `y`, with the parent `x`. */
  predicate Edge(r: Run, x: string, y: string) {
    x !in r.unlistable && y in r.order && IsChild(r, x, y)
  }

  // ------------------------------------------------------------ what is reached

  ghost predicate IsPath(r: Run, st: Statuses, p: seq<string>) {
    && p != []
    && (forall i :: 0 <= i < |p| ==> Cancellable(r, st, p[i]))
    && (forall i :: 0 <= i < |p| - 1 ==> Edge(r, p[i], p[i + 1]))
  }

  /** Reachable from the target through child links between sessions that can be cancelled. */
  ghost predicate Reached(r: Run, st: Statuses, target: string, x: string) {
    exists p :: IsPath(r, st, p) && p[0] == target && p[|p| - 1] == x
  }

  /** Closed under the cascade: with a session, every child of it that can be cancelled. */
  ghost predicate Closed(r: Run, st: Statuses, d: set<string>) {
    forall x, y :: x in d && Edge(r, x, y) && Cancellable(r, st, y) ==> y in d
  }

  lemma {:induction false} PathEndsInside(r: Run, st: Statuses, d: set<string>, p: seq<string>, n: nat)
    requires IsPath(r, st, p) && n < |p| && p[0] in d && Closed(r, st, d)
    ensures p[n] in d
  {
    if n > 0 {
      PathEndsInside(r, st, d, p, n - 1);
      assert Edge(r, p[n - 1], p[n - 1 + 1]);
    }
  }

  /** A closed set of reached sessions that holds the target holds exactly the reached ones. */
  lemma ClosedIsReached(r: Run, st: Statuses, target: string, d: set<string>)
    requires Closed(r, st, d)
    requires forall x :: x in d ==> Reached(r, st, target, x)
    requires Cancellable(r, st, target) ==> target in d
    ensures forall x :: x in d <==> Reached(r, st, target, x)
  {
    forall x | Reached(r, st, target, x) ensures x in d {
      var p :| IsPath(r, st, p) && p[0] == target && p[|p| - 1] == x;
      assert Cancellable(r, st, p[0]);
      PathEndsInside(r, st, d, p, |p| - 1);
    }
  }

  /** Statuses after some sessions were cancelled. */
  predicate After(st: Statuses, now: Statuses, d: set<string>) {
    && now.Keys == st.Keys && d <= st.Keys
    && forall x :: x in st ==> now[x] == if x in d then Cancelled else st[x]
  }

  lemma AfterCancellable(r: Run, st: Statuses, now: Statuses, d: set<string>, x: string)
    requires After(st, now, d)
    ensures Cancellable(r, now, x) <==> Cancellable(r, st, x) && x !in d
  {
  }

  /** A path found later in the cascade was there from the start. */
  lemma ReachedEarlier(r: Run, st: Statuses, now: Statuses, d: set<string>, parent: string, child: string, x: string)
    requires After(st, now, d) && Reached(r, now, child, x)
    requires Cancellable(r, st, parent) && Edge(r, parent, child)
    ensures Reached(r, st, parent, x)
  {
    var p :| IsPath(r, now, p) && p[0] == child && p[|p| - 1] == x;
    var q := [parent] + p;
    forall i | 0 <= i < |q| ensures Cancellable(r, st, q[i]) {
      if i > 0 { AfterCancellable(r, st, now, d, p[i - 1]); }
    }
    forall i | 0 <= i < |q| - 1 ensures Edge(r, q[i], q[i + 1]) {
      if i > 0 { assert Edge(r, p[i - 1], p[i - 1 + 1]); }
    }
    assert IsPath(r, st, q) && q[0] == parent && q[|q| - 1] == x;
  }

  lemma ReachedSelf(r: Run, st: Statuses, x: string)
    requires Cancellable(r, st, x)
    ensures Reached(r, st, x, x)
  {
    assert IsPath(r, st, [x]) && [x][0] == x && [x][|[x]| - 1] == x;
  }

  // ------------------------------------------------------------------- postings

  function Count(log: seq<Posting>, p: Posting): nat {
    if log == [] then 0 else Count(log[..|log| - 1], p) + if log[|log| - 1] == p then 1 else 0
  }

  lemma CountAppend(log: seq<Posting>, q: Posting, p: Posting)
    ensures Count(log + [q], p) == Count(log, p) + if p == q then 1 else 0
  {
    assert (log + [q])[..|log|] == log;
  }

  /** How often `p` is written when the sessions in `d` are cancelled: once for each one's
      own marker, once for each one's result to its parent. */
  function Expected(r: Run, d: set<string>, p: Posting): nat {
    match p.event
    case SystemEvent => if p.to in d then 1 else 0
    case ChildResultEvent(child, verdict) =>
      if child in d && verdict.Cancelled? && p.to != "" && ParentOf(r, child) == p.to then 1 else 0
    case _ => 0
  }

  lemma ExpectedUnion(r: Run, d: set<string>, e: set<string>, p: Posting)
    requires d !! e
    ensures Expected(r, d + e, p) == Expected(r, d, p) + Expected(r, e, p)
  {
  }

  /** The cascade fails: the target is blocked, or something that was cancelled cannot list
      its children or has a blocked child. */
  ghost predicate Failed(r: Run, st: Statuses, target: string, d: set<string>) {
    || Blocked(r, st, target)
    || (exists x :: x in d && x in r.unlistable)
    || (exists x, y :: x in d && Edge(r, x, y) && Blocked(r, st, y))
  }

  lemma AfterBlocked(r: Run, st: Statuses, now: Statuses, d: set<string>, x: string)
    requires After(st, now, d) && forall y :: y in d ==> Cancellable(r, st, y)
    ensures Blocked(r, now, x) <==> Blocked(r, st, x)
  {
  }

  // ------------------------------------------------------------------- the store

  class Store {
    const run: Run
    var status: Statuses
    var log: seq<Posting>         // every event written, oldest first
    var commits: seq<Posting>     // those the commit listener was called for

    constructor (run: Run, status: Statuses)
      ensures this.run == run && this.status == status && log == [] && commits == []
    {
      this.run := run;
      this.status := status;
      log, commits := [], [];
    }

    /** One transaction: the terminal status, the session's own marker, the parent's result;
        a session that is terminal already is left alone, and that is no failure. */
    method TerminateAndNotifyParent(x: string) returns (ok: bool)
      requires x in status
      modifies this
      ensures var rowless := x in run.parent && run.parent[x] != "" && run.parent[x] !in old(status);
              ok <==> Terminal(old(status)[x]) || (x !in run.unwritable && !rowless)
      ensures old(!ok || Terminal(status[x])) ==> status == old(status) && log == old(log) && commits == old(commits)
      ensures ok && !Terminal(old(status)[x]) ==>
                && status == old(status)[x := Cancelled]
                && log == old(log) + [Posting(x, SystemEvent)] + ToParent(run, x)
                && commits == old(commits) + ToParent(run, x)
    {
      if Terminal(status[x]) { return true; }
      if !Writable(run, status, x) { return false; }
      status := status[x := Cancelled];
      log := log + [Posting(x, SystemEvent)] + ToParent(run, x);
      commits := commits + ToParent(run, x);
      return true;
    }
  }

  function ToParent(r: Run, x: string): seq<Posting> {
    if ParentOf(r, x) == "" then [] else [Posting(ParentOf(r, x), ChildResultEvent(x, Cancelled))]
  }

  // ------------------------------------------------------------ the cascade loop

  /** What is known once the first `i` children of `x` have been handled. */
  ghost predicate Partial(r: Run, st: Statuses, x: string, d: set<string>, ch: seq<string>, i: nat)
    requires i <= |ch|
  {
    && x in d && Cancellable(r, st, x)
    && (forall y :: y in d ==> Reached(r, st, x, y))
    && (forall y, z :: y in d && y != x && Edge(r, y, z) && Cancellable(r, st, z) ==> z in d)
    && (forall k :: 0 <= k < i && Cancellable(r, st, ch[k]) ==> ch[k] in d)
  }

  lemma ReachedCancellable(r: Run, st: Statuses, target: string, x: string)
    requires Reached(r, st, target, x)
    ensures Cancellable(r, st, x) && Cancellable(r, st, target)
  {
    var p :| IsPath(r, st, p) && p[0] == target && p[|p| - 1] == x;
    assert Cancellable(r, st, p[0]) && Cancellable(r, st, p[|p| - 1]);
  }

  lemma PartialStep(r: Run, st: Statuses, now: Statuses, x: string, d: set<string>, ch: seq<string>, i: nat,
          e: set<string>)
    requires i < |ch| && Edge(r, x, ch[i])
    requires Partial(r, st, x, d, ch, i) && After(st, now, d)
    requires (forall y :: y in e ==> Reached(r, now, ch[i], y)) && Closed(r, now, e)
    requires Cancellable(r, now, ch[i]) ==> ch[i] in e
    ensures d !! e
    ensures Partial(r, st, x, d + e, ch, i + 1)
  {
    forall y | y in e ensures y !in d && Reached(r, st, x, y) {
      ReachedCancellable(r, now, ch[i], y);
      AfterCancellable(r, st, now, d, y);
      ReachedEarlier(r, st, now, d, x, ch[i], y);
    }
    forall y, z | y in d + e && y != x && Edge(r, y, z) && Cancellable(r, st, z) ensures z in d + e {
      AfterCancellable(r, st, now, d, z);
    }
    AfterCancellable(r, st, now, d, ch[i]);
  }

  lemma AfterStep(st: Statuses, now: Statuses, d: set<string>, later: Statuses, e: set<string>)
    requires After(st, now, d) && After(now, later, e)
    ensures After(st, later, d + e)
  {
  }

  /** The same for failures: those met below `x` so far. */
  ghost predicate FailedBelow(r: Run, st: Statuses, x: string, d: set<string>, ch: seq<string>, i: nat)
    requires i <= |ch|
  {
    || (exists y :: y in d && y != x && y in r.unlistable)
    || (exists y, z :: y in d && y != x && Edge(r, y, z) && Blocked(r, st, z))
    || (exists k :: 0 <= k < i && Blocked(r, st, ch[k]))
  }

  lemma FailedStep(r: Run, st: Statuses, now: Statuses, x: string, d: set<string>, ch: seq<string>, i: nat,
          e: set<string>)
    requires i < |ch| && After(st, now, d) && x in d && d !! e
    requires forall y :: y in d ==> Cancellable(r, st, y)
    ensures FailedBelow(r, st, x, d + e, ch, i + 1) <==> FailedBelow(r, st, x, d, ch, i) || Failed(r, now, ch[i], e)
  {
    forall y ensures Blocked(r, now, y) <==> Blocked(r, st, y) { AfterBlocked(r, st, now, d, y); }
    if FailedBelow(r, st, x, d + e, ch, i + 1) && !FailedBelow(r, st, x, d, ch, i) && !Blocked(r, st, ch[i]) {
      if y :| y in d + e && y != x && y in r.unlistable {
        assert y in e;
      } else if y, z :| y in d + e && y != x && Edge(r, y, z) && Blocked(r, st, z) {
        assert y in e && Blocked(r, now, z);
      }
    }
    if FailedBelow(r, st, x, d, ch, i) { FailedGrows(r, st, x, d, ch, i, e); }
    if Failed(r, now, ch[i], e) && !Blocked(r, now, ch[i]) {
      if y :| y in e && y in r.unlistable {
        assert y in d + e && y != x;
      } else {
        var y, z :| y in e && Edge(r, y, z) && Blocked(r, now, z);
        assert y in d + e && y != x && Blocked(r, st, z);
      }
    }
  }

  lemma FailedGrows(r: Run, st: Statuses, x: string, d: set<string>, ch: seq<string>, i: nat, e: set<string>)
    requires i < |ch| && FailedBelow(r, st, x, d, ch, i)
    ensures FailedBelow(r, st, x, d + e, ch, i + 1)
  {
    if y :| y in d && y != x && y in r.unlistable {
      assert y in d + e;
    } else if y, z :| y in d && y != x && Edge(r, y, z) && Blocked(r, st, z) {
      assert y in d + e;
    } else {
      var k :| 0 <= k < i && Blocked(r, st, ch[k]);
      assert k < i + 1;
    }
  }

  /** All children handled: the cancelled sessions are closed, and every failure is known. */
  lemma CascadeDone(r: Run, st: Statuses, x: string, d: set<string>, ch: seq<string>)
    requires ch == if x in r.unlistable then [] else Children(r, x)
    requires Partial(r, st, x, d, ch, |ch|)
    ensures Closed(r, st, d)
    ensures Failed(r, st, x, d) <==> x in r.unlistable || FailedBelow(r, st, x, d, ch, |ch|)
  {
    forall y, z | y in d && Edge(r, y, z) && Cancellable(r, st, z) ensures z in d {
      ChildrenAre(r, y, z);
      if y == x { var k :| 0 <= k < |ch| && ch[k] == z; }
    }
    if y, z :| y in d && Edge(r, y, z) && Blocked(r, st, z) {
      ChildrenAre(r, y, z);
      if y == x { var k :| 0 <= k < |ch| && ch[k] == z; }
    }
    if k :| 0 <= k < |ch| && Blocked(r, st, ch[k]) {
      ChildrenAre(r, x, ch[k]);
      assert Edge(r, x, ch[k]);
    }
  }

  // ------------------------------------------------------------------- the method

  ghost function Handles(reg: SessionRegistry?): set<Handle>
    reads reg
  {
    if reg == null then {} else reg.sessions.Values
  }

  /** No two sessions share a handle. */
  ghost predicate OwnHandles(reg: SessionRegistry?)
    reads reg
  {
    reg != null ==> forall a, b ::
      a in reg.sessions && b in reg.sessions && reg.sessions[a] == reg.sessions[b] ==> a == b
  }

  /** Which handles are cancelled. */
  ghost function Flags(reg: SessionRegistry?): map<string, bool>
    reads reg, Handles(reg)
  {
    if reg == null then map[] else map s | s in reg.sessions :: reg.sessions[s].cancelled
  }

  /** Exactly the handles of `d` were cancelled in between. */
  predicate Interrupted(was: map<string, bool>, now: map<string, bool>, d: set<string>) {
    now.Keys == was.Keys && forall s :: s in was ==> now[s] == (was[s] || s in d)
  }

  /** A commit that no notifier turns into a respawn. */
  predicate IsNotice(p: Posting) {
    p.event.ChildResultEvent? && p.event.verdict.Cancelled?
  }

  /** `d` is exactly what a cascade from `x` cancels. */
  ghost predicate Cascaded(r: Run, st: Statuses, now: Statuses, x: string, d: set<string>) {
    && After(st, now, d) && Closed(r, st, d)
    && (forall y :: y in d ==> Reached(r, st, x, y))
    && (Cancellable(r, st, x) ==> x in d)
  }

  ghost predicate Counted(r: Run, was: seq<Posting>, log: seq<Posting>, d: set<string>) {
    forall p :: Count(log, p) == Count(was, p) + Expected(r, d, p)
  }

  /** The listener was told of the results for the parents of `d`, once each, and of nothing else. */
  ghost predicate OnlyNotices(r: Run, was: seq<Posting>, commits: seq<Posting>, d: set<string>) {
    && was <= commits && (forall i :: |was| <= i < |commits| ==> IsNotice(commits[i]))
    && forall p: Posting :: Count(commits, p) == Count(was, p) + if p.event.SystemEvent? then 0 else Expected(r, d, p)
  }

  /** Everything a cascade leaves behind besides the statuses. */
  datatype Trace = Trace(log: seq<Posting>, commits: seq<Posting>, flags: map<string, bool>)

  ghost function TraceOf(store: Store, reg: SessionRegistry?): Trace
    reads store, reg, Handles(reg)
  {
    Trace(store.log, store.commits, Flags(reg))
  }

  /** Between two traces exactly the sessions `d` wrote what a cancelled session writes, and
      the handles of `e` were cancelled. */
  ghost predicate Left(r: Run, was: Trace, now: Trace, d: set<string>, e: set<string>) {
    && Counted(r, was.log, now.log, d) && OnlyNotices(r, was.commits, now.commits, d)
    && Interrupted(was.flags, now.flags, e)
  }

  lemma LeftChain(r: Run, was: Trace, mid: Trace, now: Trace, d: set<string>, e: set<string>, d': set<string>,
          e': set<string>)
    requires d !! d' && Left(r, was, mid, d, e) && Left(r, mid, now, d', e')
    ensures Left(r, was, now, d + d', e + e')
  {
    CountsChain(r, was.log, mid.log, now.log, d, d');
    NoticesChain(r, was.commits, mid.commits, now.commits, d, d');
  }

  lemma LeftNothing(r: Run, t: Trace)
    ensures Left(r, t, t, {}, {})
  {
  }

  /** The terminal write of one session. */
  method Terminate(store: Store, ghost reg: SessionRegistry?, x: string) returns (ok: bool)
    requires x in store.status && !Terminal(store.status[x])
    modifies store
    ensures ok <==> Writable(store.run, old(store.status), x)
    ensures ok ==> After(old(store.status), store.status, {x})
                   && Left(store.run, old(TraceOf(store, reg)), TraceOf(store, reg), {x}, {})
    ensures !ok ==> store.status == old(store.status) && TraceOf(store, reg) == old(TraceOf(store, reg))
  {
    ok := store.TerminateAndNotifyParent(x);
    if ok {
      WrittenOnce(store.run, old(store.log), x);
      ToldOnce(store.run, old(store.commits), x);
    }
  }

  /** The interruption of one session's goroutine, if it has one. */
  method Interrupt(ghost store: Store, reg: SessionRegistry?, x: string)
    requires OwnHandles(reg)
    modifies Handles(reg)
    ensures Left(store.run, old(TraceOf(store, reg)), TraceOf(store, reg), {}, {x})
  {
    if reg != null { reg.Interrupt(x); }
  }

  /** `CancelSession`.  `d` are the sessions this call cancels. */
  method CancelSession(store: Store, reg: SessionRegistry?, x: string) returns (ok: bool, ghost d: set<string>)
    requires OwnHandles(reg)
    modifies store, Handles(reg)
    ensures Cascaded(store.run, old(store.status), store.status, x, d)
    ensures Left(store.run, old(TraceOf(store, reg)), TraceOf(store, reg), d, d)
    ensures ok <==> !Failed(store.run, old(store.status), x, d)
    decreases NonTerminal(store.status), 0
  {
    ghost var st, t := store.status, TraceOf(store, reg);
    if x !in store.status || x in store.run.unreadable || Terminal(store.status[x]) {
      LeftNothing(store.run, t);
      return x in store.status && x !in store.run.unreadable, {};
    }
    ok := Terminate(store, reg, x);
    if !ok {
      LeftNothing(store.run, t);
      return false, {};
    }
    ghost var t1 := TraceOf(store, reg);
    ReachedSelf(store.run, st, x);
    FewerLeft(st, store.status, {x}, x);
    ok, d := CancelChildren(store, reg, x, st);
    ghost var t2 := TraceOf(store, reg);
    Interrupt(store, reg, x);
    LeftInAll(store.run, t, t1, t2, TraceOf(store, reg), x, d);
  }

  /** The session's own write, its children, and its interruption, one after the other. */
  lemma LeftInAll(r: Run, t: Trace, t1: Trace, t2: Trace, t3: Trace, x: string, d: set<string>)
    requires x in d && Left(r, t, t1, {x}, {}) && Left(r, t1, t2, d - {x}, d - {x}) && Left(r, t2, t3, {}, {x})
    ensures Left(r, t, t3, d, d)
  {
    LeftChain(r, t, t1, t2, {x}, {}, d - {x}, d - {x});
    LeftChain(r, t, t2, t3, {x} + (d - {x}), {} + (d - {x}), {}, {x});
    assert {x} + (d - {x}) + {} == d && {} + (d - {x}) + {x} == d;
  }

  /** What the loop over the children keeps. */
  ghost predicate LoopInv(r: Run, st: Statuses, now: Statuses, t: Trace, u: Trace, x: string, d: set<string>,
                          ch: seq<string>, i: nat, ok: bool)
    requires i <= |ch|
  {
    && After(st, now, d) && Partial(r, st, x, d, ch, i)
    && Left(r, t, u, d - {x}, d - {x})
    && (ok <==> !FailedBelow(r, st, x, d, ch, i))
  }

  lemma LoopStep(r: Run, st: Statuses, now: Statuses, later: Statuses, t: Trace, u: Trace, v: Trace, x: string,
                 d: set<string>, ch: seq<string>, i: nat, ok: bool, e: set<string>, childOk: bool)
    requires i < |ch| && Edge(r, x, ch[i]) && LoopInv(r, st, now, t, u, x, d, ch, i, ok)
    requires Cascaded(r, now, later, ch[i], e) && Left(r, u, v, e, e) && (childOk <==> !Failed(r, now, ch[i], e))
    ensures LoopInv(r, st, later, t, v, x, d + e, ch, i + 1, ok && childOk)
    ensures NonTerminal(later) <= NonTerminal(now)
  {
    ChildStep(r, st, now, later, x, d, ch, i, e);
    LeftChain(r, t, u, v, d - {x}, d - {x}, e, e);
    assert (d - {x}) + e == d + e - {x};
  }

  /** The loop of `CancelSession` over the children of `x`, which has just been cancelled in
      the statuses `st`. */
  method CancelChildren(store: Store, reg: SessionRegistry?, x: string, ghost st: Statuses)
    returns (ok: bool, ghost d: set<string>)
    requires OwnHandles(reg)
    requires Cancellable(store.run, st, x) && After(st, store.status, {x}) && Reached(store.run, st, x, x)
    modifies store, Handles(reg)
    ensures x in d && Cascaded(store.run, st, store.status, x, d)
    ensures Left(store.run, old(TraceOf(store, reg)), TraceOf(store, reg), d - {x}, d - {x})
    ensures ok <==> !Failed(store.run, st, x, d)
    decreases NonTerminal(store.status), 1
  {
    d, ok := {x}, true;
    var ch := if x in store.run.unlistable then [] else Children(store.run, x);
    LeftNothing(store.run, TraceOf(store, reg));
    assert d - {x} == {};
    for i := 0 to |ch|
      invariant LoopInv(store.run, st, store.status, old(TraceOf(store, reg)), TraceOf(store, reg), x, d, ch, i, ok)
      invariant NonTerminal(store.status) <= NonTerminal(old(store.status))
    {
      ghost var now, u := store.status, TraceOf(store, reg);
      ChildrenAre(store.run, x, ch[i]);
      var childOk, e := CancelSession(store, reg, ch[i]);
      LoopStep(store.run, st, now, store.status, old(TraceOf(store, reg)), u, TraceOf(store, reg), x, d, ch, i, ok, e,
          childOk);
      d := d + e;
      ok := ok && childOk;
    }
    CascadeDone(store.run, st, x, d, ch);
    ok := ok && x !in store.run.unlistable;
  }

  lemma ChildStep(r: Run, st: Statuses, now: Statuses, later: Statuses, x: string, d: set<string>, ch: seq<string>,
          i: nat, e: set<string>)
    requires i < |ch| && Edge(r, x, ch[i])
    requires Partial(r, st, x, d, ch, i) && After(st, now, d) && Cascaded(r, now, later, ch[i], e)
    ensures d !! e && Partial(r, st, x, d + e, ch, i + 1) && After(st, later, d + e)
    ensures FailedBelow(r, st, x, d + e, ch, i + 1) <==> FailedBelow(r, st, x, d, ch, i) || Failed(r, now, ch[i], e)
    ensures NonTerminal(later) <= NonTerminal(now)
  {
    PartialStep(r, st, now, x, d, ch, i, e);
    AfterStep(st, now, d, later, e);
    PartialCancellable(r, st, x, d, ch, i);
    FailedStep(r, st, now, x, d, ch, i, e);
  }

  lemma CountsChain(r: Run, was: seq<Posting>, mid: seq<Posting>, log: seq<Posting>, d: set<string>, e: set<string>)
    requires d !! e && Counted(r, was, mid, d) && Counted(r, mid, log, e)
    ensures Counted(r, was, log, d + e)
  {
    forall p ensures Count(log, p) == Count(was, p) + Expected(r, d + e, p) {
      ExpectedUnion(r, d, e, p);
    }
  }

  lemma NoticesChain(r: Run, was: seq<Posting>, mid: seq<Posting>, now: seq<Posting>, d: set<string>, e: set<string>)
    requires d !! e && OnlyNotices(r, was, mid, d) && OnlyNotices(r, mid, now, e)
    ensures OnlyNotices(r, was, now, d + e)
  {
    forall p: Posting
      ensures Count(now, p) == Count(was, p) + if p.event.SystemEvent? then 0 else Expected(r, d + e, p)
    {
      ExpectedUnion(r, d, e, p);
    }
  }

  lemma FewerLeft(st: Statuses, now: Statuses, d: set<string>, x: string)
    requires After(st, now, d) && x in d && !Terminal(st[x])
    ensures NonTerminal(now) < NonTerminal(st)
  {
    assert x in NonTerminal(st) && x !in NonTerminal(now);
  }

  lemma PartialCancellable(r: Run, st: Statuses, x: string, d: set<string>, ch: seq<string>, i: nat)
    requires i <= |ch| && Partial(r, st, x, d, ch, i)
    ensures forall y :: y in d ==> Cancellable(r, st, y)
  {
    forall y | y in d ensures Cancellable(r, st, y) { ReachedCancellable(r, st, x, y); }
  }

  lemma WrittenOnce(r: Run, log: seq<Posting>, x: string)
    ensures Counted(r, log, log + [Posting(x, SystemEvent)] + ToParent(r, x), {x})
  {
    var one := log + [Posting(x, SystemEvent)];
    forall p ensures Count(one + ToParent(r, x), p) == Count(log, p) + Expected(r, {x}, p) {
      CountAppend(log, Posting(x, SystemEvent), p);
      CountToParent(r, one, x, p);
      ExpectedOne(r, x, p);
    }
  }

  lemma ToldOnce(r: Run, commits: seq<Posting>, x: string)
    ensures OnlyNotices(r, commits, commits + ToParent(r, x), {x})
  {
    forall p: Posting
      ensures Count(commits + ToParent(r, x), p)
           == Count(commits, p) + if p.event.SystemEvent? then 0 else Expected(r, {x}, p)
    {
      CountToParent(r, commits, x, p);
      ExpectedOne(r, x, p);
    }
  }

  lemma CountToParent(r: Run, one: seq<Posting>, x: string, p: Posting)
    ensures Count(one + ToParent(r, x), p) == Count(one, p) + Count(ToParent(r, x), p)
  {
    if ParentOf(r, x) == "" {
      assert one + ToParent(r, x) == one;
    } else {
      CountAppend(one, ToParent(r, x)[0], p);
    }
  }

  lemma ExpectedOne(r: Run, x: string, p: Posting)
    ensures Expected(r, {x}, p) == (if p == Posting(x, SystemEvent) then 1 else 0) + Count(ToParent(r, x), p)
  {
  }

  /** Everything the cascade from `x` has to do can be done: the target is not blocked, and
      whoever is reached can list its children and has no blocked child. */
  ghost predicate AllDoable(r: Run, st: Statuses, x: string) {
    && !Blocked(r, st, x)
    && (forall y :: Reached(r, st, x, y) ==> y !in r.unlistable)
    && (forall y, z :: Reached(r, st, x, y) && Edge(r, y, z) ==> !Blocked(r, st, z))
  }

  /** What a cascade from `x` does, said outright: exactly the sessions reachable from `x`
      through child links between sessions that can be cancelled end up cancelled and
      interrupted, each writes its marker and tells its parent once, and nothing else changes. */
  method CancelRun(store: Store, reg: SessionRegistry?, x: string) returns (ok: bool)
    requires OwnHandles(reg)
    modifies store, Handles(reg)
    ensures store.status.Keys == old(store.status).Keys
    ensures forall y :: y in store.status ==>
              store.status[y] == if Reached(store.run, old(store.status), x, y) then Cancelled else old(store.status)[y]
    ensures reg != null ==> forall s :: s in reg.sessions ==>
              reg.sessions[s].cancelled ==
              (old(reg.sessions[s].cancelled) || Reached(store.run, old(store.status), x, s))
    ensures forall y :: y in store.run.parent && store.run.parent[y] != "" ==>
              var p := Posting(store.run.parent[y], ChildResultEvent(y, Cancelled));
              var n := if Reached(store.run, old(store.status), x, y) then 1 else 0;
              && Count(store.log, p) == Count(old(store.log), p) + n
              && Count(store.commits, p) == Count(old(store.commits), p) + n
    ensures forall y ::
              var p := Posting(y, SystemEvent);
              var n := if Reached(store.run, old(store.status), x, y) then 1 else 0;
              Count(store.log, p) == Count(old(store.log), p) + n
    ensures ok <==> AllDoable(store.run, old(store.status), x)
    ensures old(store.commits) <= store.commits
    ensures forall i, status {:trigger Revives(store.commits[i].event, status)} ::
              |old(store.commits)| <= i < |store.commits| ==> !Revives(store.commits[i].event, status)
  {
    ghost var t := TraceOf(store, reg);
    ghost var d;
    ok, d := CancelSession(store, reg, x);
    ClosedIsReached(store.run, old(store.status), x, d);
    if reg != null {
      forall s | s in reg.sessions ensures reg.sessions[s].cancelled == (old(reg.sessions[s].cancelled) || s in d) {
        assert t.flags[s] == old(reg.sessions[s].cancelled) && Flags(reg)[s] == reg.sessions[s].cancelled;
      }
    }
    forall i, status | |old(store.commits)| <= i < |store.commits| ensures !Revives(store.commits[i].event, status) {
      NoticesNeverRevive(store.commits[i], status);
    }
  }

  /** A failure below the target is reported too: here the target is cancelled, its child cannot
      be written, and the call fails. */
  method CancelledYetFailed() returns (ok: bool, target: Status, child: Status)
    ensures !ok && target == Cancelled && child == Ongoing
  {
    var run := Run(map["b" := "a"], ["a", "b"], {}, {"b"}, {});
    var store := new Store(run, map["a" := Ongoing, "b" := Ongoing]);
    ghost var st := store.status;
    ReachedSelf(run, st, "a");
    assert ChildrenFrom(run, "a", ["b"]) == ["b"] + ChildrenFrom(run, "a", []);
    assert run.order[1..] == ["b"];
    assert Edge(run, "a", "b") && Blocked(run, st, "b");
    ok := CancelRun(store, null, "a");
    target, child := store.status["a"], store.status["b"];
    if Reached(run, st, "a", "b") { ReachedCancellable(run, st, "a", "b"); }
  }

  /** The commits of a cascade never start a goroutine, whatever the parent's status. */
  lemma NoticesNeverRevive(p: Posting, status: Option<Status>)
    requires IsNotice(p)
    ensures !Revives(p.event, status)
  {
  }
}
