/** The worker pool goes on: what can always happen, and that a closed pool comes to its end. */
module PoolShutdown {
  import opened Text
  import opened WorkPool

  /** A context can end at any time, its end is announced, and Stop can always begin; a worker
      that is up takes a key or comes to rest. */
  lemma CanHappen(s: State, w: Worker)
    ensures !s.cancelled ==> Enabled(s, Cancel) && Next(s, Cancel).cancelled && Next(s, Cancel).due
    ensures s.due ==> Enabled(s, Watch) && !Next(s, Watch).due && !Sleeps(Next(s, Watch).workers, w)
    ensures Enabled(s, CancelStop) && Next(s, CancelStop).stopCancelled
    ensures s.stopper == Idle ==> Enabled(s, Stop) && Next(s, Stop).stopper == Checking
    ensures s.stopper == Checking ==> Enabled(s, Check)
    ensures w in s.workers && s.workers[w] == Ready ==> Enabled(s, Rest(w)) || exists k :: Enabled(s, Take(w, k))
    ensures w in s.workers && s.workers[w].Busy? ==> Enabled(s, Done(w))
  {
    if w in s.workers && s.workers[w] == Ready && Takeable(s) != {} {
      var k :| k in Takeable(s);
      assert Enabled(s, Take(w, k));
    }
  }

  function Up(workers: map<Worker, Pc>): set<Worker> {
    set w | w in workers && !workers[w].Gone?
  }

  function InPass(workers: map<Worker, Pc>): set<Worker> {
    set w | w in workers && workers[w].Busy?
  }

  /** What is left to do for a closed pool. */
  function Left(s: State): nat {
    2 * |s.pending| + |InPass(s.workers)| + |Up(s.workers)|
  }

  lemma TakeShrinks(s: State, w: Worker, k: Key)
    requires Enabled(s, Take(w, k))
    ensures Left(Next(s, Take(w, k))) == Left(s) - 1
  {
    var t := Next(s, Take(w, k));
    assert s.pending == t.pending + {k};
    assert InPass(t.workers) == InPass(s.workers) + {w} && Up(t.workers) == Up(s.workers);
  }

  lemma DoneShrinks(s: State, w: Worker)
    requires Enabled(s, Done(w))
    ensures Left(Next(s, Done(w))) == Left(s) - 1
  {
    var t := Next(s, Done(w));
    assert InPass(s.workers) == InPass(t.workers) + {w} && Up(t.workers) == Up(s.workers);
  }

  lemma RestShrinks(s: State, w: Worker)
    requires Enabled(s, Rest(w)) && s.closed
    ensures Left(Next(s, Rest(w))) == Left(s) - 1
  {
    var t := Next(s, Rest(w));
    assert Up(s.workers) == Up(t.workers) + {w} && InPass(t.workers) == InPass(s.workers);
  }

  /** Once the set is closed the pool comes to its end by its own steps: while a worker is left
      some step of a worker leaves less to do, and when none is left Stop can return. */
  lemma ShutdownGoesOn(ss: seq<State>, steps: seq<Step>, n: nat)
    requires IsRun(ss, steps) && n <= |steps| && ss[n].closed
    ensures !AllGone(ss[n].workers) ==> exists step: Step ::
      (step.Take? || step.Done? || step.Rest?) && Enabled(ss[n], step) && Left(Next(ss[n], step)) < Left(ss[n])
    ensures AllGone(ss[n].workers) && !ss[n].stopper.Returned? ==>
              Enabled(ss[n], Return) && Next(ss[n], Return).stopper.Returned?
  {
    RunKeeps(ss, steps, n);
    var s := ss[n];
    if w :| w in s.workers && !s.workers[w].Gone? {
      assert !Sleeps(s.workers, w);
      CanHappen(s, w);
      if s.workers[w].Busy? {
        DoneShrinks(s, w);
      } else if Takeable(s) == {} {
        RestShrinks(s, w);
      } else {
        var k :| k in Takeable(s);
        TakeShrinks(s, w, k);
      }
    }
  }

  /** Nothing new is accepted meanwhile. */
  lemma ClosedTakesNothing(s: State, k: Key)
    requires s.closed
    ensures Next(s, Enqueue(k)).pending == s.pending && Next(s, Enqueue(k)).accepted == s.accepted
  {
  }
}
