/** The per-session waiter: a counter and a channel that is closed and replaced on each
    notify, shared by any number of callers of `waitAfter`. */
module WaiterProtocol {

  /** The counter is a uint64 and wraps around. */
  const WRAP: nat := 0x1_0000_0000_0000_0000

  type Chan = nat
  type Caller = nat

  datatype Pc =
    | Holding(last: nat)                  // has captured the counter
    | Selecting(last: nat, on: Chan)      // released the mutex, waits on a channel
    | Expired(last: nat)                  // timer or context fired, will read the counter again
    | Returned(last: nat, result: nat)

  datatype State = State(counter: nat, ch: Chan, closed: set<Chan>, callers: map<Caller, Pc>)

  datatype Step =
    | Notify
    | Capture(c: Caller)       // Handle.Counter
    | Enter(c: Caller)         // one hold of the mutex in waitAfter's loop
    | Wake(c: Caller)          // the select sees the channel closed; back to the loop
    | Expire(c: Caller)        // the select takes the timer or the context
    | Reread(c: Caller)        // snapshot after the timer or the context

  predicate Enabled(s: State, step: Step) {
    match step
    case Notify => true
    case Capture(c) => c !in s.callers
    case Enter(c) => c in s.callers && s.callers[c].Holding?
    case Wake(c) => c in s.callers && s.callers[c].Selecting? && s.callers[c].on in s.closed
    case Expire(c) => c in s.callers && s.callers[c].Selecting?
    case Reread(c) => c in s.callers && s.callers[c].Expired?
  }

  function Next(s: State, step: Step): State
    requires Enabled(s, step)
  {
    match step
    case Notify => s.(counter := (s.counter + 1) % WRAP, closed := s.closed + {s.ch}, ch := s.ch + 1)
    case Capture(c) => s.(callers := s.callers[c := Holding(s.counter)])
    case Enter(c) =>
      var last := s.callers[c].last;
      s.(callers := s.callers[c := if s.counter != last then Returned(last, s.counter) else Selecting(last, s.ch)])
    case Wake(c) => s.(callers := s.callers[c := Holding(s.callers[c].last)])
    case Expire(c) => s.(callers := s.callers[c := Expired(s.callers[c].last)])
    case Reread(c) => s.(callers := s.callers[c := Returned(s.callers[c].last, s.counter)])
  }

  /** Whoever waits on an open channel waits on the current one, with its value still current. */
  predicate CallerOk(s: State, p: Pc) {
    p.Selecting? ==> (p.on in s.closed || (p.on == s.ch && s.counter == p.last))
  }

  ghost predicate Inv(s: State) {
    && s.ch !in s.closed && (forall c :: c in s.closed ==> c < s.ch)
    && (forall c :: c in s.callers ==> CallerOk(s, s.callers[c]))
  }

  ghost predicate Init(s: State) {
    s.counter == 0 && s.closed == {} && s.callers == map[]
  }

  lemma StepKeeps(s: State, step: Step)
    requires Inv(s) && Enabled(s, step)
    ensures Inv(Next(s, step))
  {
    var t := Next(s, step);
    forall c | c in t.callers ensures CallerOk(t, t.callers[c]) {
      if c in s.callers { assert CallerOk(s, s.callers[c]); }
    }
  }

  /** The states a sequence of enabled steps goes through. */
  ghost predicate IsRun(ss: seq<State>, steps: seq<Step>) {
    && |ss| == |steps| + 1 && Init(ss[0])
    && forall i {:trigger steps[i]} ::
      0 <= i < |steps| ==> Enabled(ss[i], steps[i]) && ss[i + 1] == Next(ss[i], steps[i])
  }

  lemma {:induction false} RunKeeps(ss: seq<State>, steps: seq<Step>, n: nat)
    requires IsRun(ss, steps) && n <= |steps|
    ensures Inv(ss[n])
  {
    if n > 0 {
      RunKeeps(ss, steps, n - 1);
      StepKeeps(ss[n - 1], steps[n - 1]);
    }
  }

  /** How many of the steps from `m` to before `n` are notifies. */
  function Notifies(steps: seq<Step>, m: nat, n: nat): nat
    requires m <= n <= |steps|
    decreases n
  {
    if m == n then 0 else Notifies(steps, m, n - 1) + if steps[n - 1].Notify? then 1 else 0
  }

  lemma {:induction false} NotifiesSplit(steps: seq<Step>, m: nat, n: nat)
    requires m <= n <= |steps|
    ensures Notifies(steps, 0, n) == Notifies(steps, 0, m) + Notifies(steps, m, n)
    decreases n
  {
    if m < n { NotifiesSplit(steps, m, n - 1); }
  }

  lemma WrapSuccessor(n: nat)
    ensures (n % WRAP + 1) % WRAP == (n + 1) % WRAP
  {
    var q, r := n / WRAP, n % WRAP;
    assert n + 1 == q * WRAP + (r + 1);
    if r + 1 == WRAP { assert n + 1 == (q + 1) * WRAP; }
  }

  /** The counter counts the notifies, modulo 2^64. */
  lemma {:induction false} CounterCounts(ss: seq<State>, steps: seq<Step>, n: nat)
    requires IsRun(ss, steps) && n <= |steps|
    ensures ss[n].counter == Notifies(steps, 0, n) % WRAP
  {
    if n > 0 {
      CounterCounts(ss, steps, n - 1);
      WrapSuccessor(Notifies(steps, 0, n - 1));
      assert ss[n] == Next(ss[n - 1], steps[n - 1]);
    }
  }

  lemma SameRemainder(a: nat, b: nat)
    requires a <= b
    ensures a % WRAP == b % WRAP <==> (b - a) % WRAP == 0
  {
    var qa, qb, d := a / WRAP, b / WRAP, b - a;
    assert a == qa * WRAP + a % WRAP && b == qb * WRAP + b % WRAP && d == (d / WRAP) * WRAP + d % WRAP;
    if a % WRAP == b % WRAP {
      assert d == (qb - qa) * WRAP;
    }
    if d % WRAP == 0 {
      assert b == (qa + d / WRAP) * WRAP + a % WRAP;
    }
  }

  /** Two readings of the counter agree exactly when the notifies between them are a multiple
      of 2^64. */
  lemma SameCounterIff(ss: seq<State>, steps: seq<Step>, m: nat, n: nat)
    requires IsRun(ss, steps) && m <= n <= |steps|
    ensures ss[m].counter == ss[n].counter <==> Notifies(steps, m, n) % WRAP == 0
  {
    CounterCounts(ss, steps, m);
    CounterCounts(ss, steps, n);
    NotifiesSplit(steps, m, n);
    SameCount(Notifies(steps, 0, m), Notifies(steps, m, n), Notifies(steps, 0, n), ss[m].counter, ss[n].counter);
  }

  lemma SameCount(before: nat, between: nat, all: nat, x: nat, y: nat)
    requires all == before + between && x == before % WRAP && y == all % WRAP
    ensures x == y <==> between % WRAP == 0
  {
    SameRemainder(before, all);
  }

  /** What a caller captured stays with it. */
  lemma {:induction false} CapturedStays(ss: seq<State>, steps: seq<Step>, j: nat, n: nat, c: Caller)
    requires IsRun(ss, steps) && j < n <= |steps| && steps[j] == Capture(c)
    ensures c in ss[n].callers && ss[n].callers[c].last == ss[j].counter
    decreases n
  {
    if n == j + 1 {
      assert ss[j + 1] == Next(ss[j], steps[j]);
    } else {
      CapturedStays(ss, steps, j, n - 1, c);
      assert ss[n - 1 + 1] == Next(ss[n - 1], steps[n - 1]);
    }
  }

  /** No lost wake-up, in every run: a caller whose captured value has been passed is never
      waiting on an open channel. */
  lemma WaitersAreRight(ss: seq<State>, steps: seq<Step>, j: nat, n: nat, c: Caller)
    requires IsRun(ss, steps) && j < n <= |steps| && steps[j] == Capture(c)
    requires c in ss[n].callers && ss[n].callers[c].Selecting? && ss[n].counter != ss[j].counter
    ensures ss[n].callers[c].on in ss[n].closed && Enabled(ss[n], Wake(c))
  {
    RunKeeps(ss, steps, n);
    CapturedStays(ss, steps, j, n, c);
    assert CallerOk(ss[n], ss[n].callers[c]);
  }

  /** The steps are possible one after the other and lead from `s` to `t`. */
  ghost predicate Leads(s: State, steps: seq<Step>, t: State)
    decreases |steps|
  {
    if steps == [] then s == t else Enabled(s, steps[0]) && Leads(Next(s, steps[0]), steps[1..], t)
  }

  /** How many steps a caller is from its answer. */
  function Distance(s: State, p: Pc): nat {
    match p
    case Returned(_, _) => 0
    case Expired(_) => 1
    case Selecting(_, _) => 2
    case Holding(last) => if s.counter != last then 1 else 3
  }

  /** Nobody is ever stuck: a caller's own steps lead it to its answer, and a notify can
      always come. */
  lemma {:induction false} CanReturn(s: State, c: Caller) returns (steps: seq<Step>, t: State)
    requires c in s.callers
    ensures |steps| == Distance(s, s.callers[c]) && Leads(s, steps, t)
    ensures c in t.callers && t.callers[c].Returned? && Enabled(s, Notify)
    decreases Distance(s, s.callers[c])
  {
    steps, t := [], s;
    if !s.callers[c].Returned? {
      var step := match s.callers[c]
        case Holding(_) => Enter(c)
        case Selecting(_, _) => Expire(c)
        case _ => Reread(c);
      var rest;
      rest, t := CanReturn(Next(s, step), c);
      steps := [step] + rest;
      assert steps[1..] == rest;
    }
  }

  /** Any new caller can begin, with the counter as it is. */
  lemma CanBegin(s: State, c: Caller)
    requires c !in s.callers
    ensures Enabled(s, Capture(c)) && Next(s, Capture(c)).callers == s.callers[c := Holding(s.counter)]
  {
  }

  /** A caller that is woken after its value was passed answers at once, without waiting again. */
  lemma WokenAnswers(s: State, c: Caller)
    requires Enabled(s, Wake(c)) && s.counter != s.callers[c].last
    ensures var t := Next(s, Wake(c));
            && t.counter == s.counter && Enabled(t, Enter(c))
            && Next(t, Enter(c)).callers == s.callers[c := Returned(s.callers[c].last, s.counter)]
  {
  }

  /** What `waitAfter` answers, in every run: the counter at the moment it returns.  The answer
      is the captured value exactly when the notifies since the capture are a multiple of 2^64
      (so, short of that many, only when there was none), and then its timer or context fired. */
  lemma AnswersAreRight(ss: seq<State>, steps: seq<Step>, j: nat, m: nat, c: Caller)
    requires IsRun(ss, steps) && j < m < |steps| && steps[j] == Capture(c)
    requires c in ss[m].callers && !ss[m].callers[c].Returned?
    requires c in ss[m + 1].callers && ss[m + 1].callers[c].Returned?
    ensures steps[m] == Enter(c) || steps[m] == Reread(c)
    ensures var answer := ss[m + 1].callers[c].result;
            && answer == ss[m].counter
            && (answer == ss[j].counter <==> Notifies(steps, j, m) % WRAP == 0)
            && (answer == ss[j].counter ==> steps[m] == Reread(c))
  {
    CapturedStays(ss, steps, j, m, c);
    SameCounterIff(ss, steps, j, m);
    assert ss[m + 1] == Next(ss[m], steps[m]);
  }

  /** An answer is final. */
  lemma {:induction false} AnswerStays(ss: seq<State>, steps: seq<Step>, m: nat, n: nat, c: Caller)
    requires IsRun(ss, steps) && m <= n <= |steps| && c in ss[m].callers && ss[m].callers[c].Returned?
    ensures c in ss[n].callers && ss[n].callers[c] == ss[m].callers[c]
    decreases n
  {
    if m < n {
      AnswerStays(ss, steps, m, n - 1, c);
      assert ss[n - 1 + 1] == Next(ss[n - 1], steps[n - 1]);
    }
  }
}
