/** The liveness protocol over whole runs: what holds in every interleaving, what waking up
    finds, and the run in which two lock holds are not enough. */
module LivenessRuns {
  import opened Text
  import opened Liveness

  // ------------------------------------------------------------------ whole runs

  /** `ws` are the worlds a run goes through, `ss` the steps between them. */
  ghost predicate IsRun(ws: seq<World>, ss: seq<Step>) {
    && |ws| == |ss| + 1 && Init(ws[0])
    && forall i {:trigger ss[i]} :: 0 <= i < |ss| ==> StepsTo(ws[i], ss[i], ws[i + 1])
  }

  predicate StepsTo(w: World, s: Step, v: World) {
    WellTyped(w) && Enabled(w, s) && v == Apply(w, s)
  }

  lemma {:induction false} RunKeeps(ws: seq<World>, ss: seq<Step>, n: nat)
    requires IsRun(ws, ss) && n <= |ss|
    requires forall i :: 0 <= i < n ==> GoodStep(ws[i], ss[i])
    ensures Inv(ws[n])
  {
    if n == 0 {
      InitInv(ws[0]);
    } else {
      RunKeeps(ws, ss, n - 1);
      assert StepsTo(ws[n - 1], ss[n - 1], ws[n]);
      StepIff(ws[n - 1], ss[n - 1]);
    }
  }

  /** A run keeps the protocol's invariant throughout exactly when every registration lands. */
  lemma RunIff(ws: seq<World>, ss: seq<Step>)
    requires IsRun(ws, ss)
    ensures (forall i :: 0 <= i <= |ss| ==> Inv(ws[i])) <==> (forall i :: 0 <= i < |ss| ==> GoodStep(ws[i], ss[i]))
  {
    if forall i :: 0 <= i < |ss| ==> GoodStep(ws[i], ss[i]) {
      forall i | 0 <= i <= |ss| ensures Inv(ws[i]) { RunKeeps(ws, ss, i); }
    }
    if forall i :: 0 <= i <= |ss| ==> Inv(ws[i]) {
      forall i | 0 <= i < |ss| ensures GoodStep(ws[i], ss[i]) {
        assert StepsTo(ws[i], ss[i], ws[i + 1]) && Inv(ws[i]) && Inv(ws[i + 1]);
        StepIff(ws[i], ss[i]);
      }
    }
  }

  /** What the invariant means to a session: its slot is the published one, and no other
      goroutine has the same run and session. */
  ghost predicate OneGoroutineEach(w: World) {
    && (forall p :: IsOwner(w.procs, p) ==> InPublished(w.published, w.insts, p, w.procs[p]))
    && (forall p, q :: SameSession(w, p, q) ==> p == q)
  }

  /** Two live goroutines (or one, twice) of the same run and session. */
  predicate SameSession(w: World, p: Pid, q: Pid) {
    && IsOwner(w.procs, p) && IsOwner(w.procs, q)
    && w.procs[p].run == w.procs[q].run && w.procs[p].sid == w.procs[q].sid
  }

  lemma InvMeansOneEach(w: World)
    requires Inv(w)
    ensures OneGoroutineEach(w)
  {
    forall p, q | SameSession(w, p, q) ensures p == q {
      assert InPublished(w.published, w.insts, p, w.procs[p]);
      assert InPublished(w.published, w.insts, q, w.procs[q]);
    }
  }

  /** Every live session can be found and has one goroutine, and no removal that is already
      decided changes that. */
  ghost predicate Safe(w: World) {
    && OneGoroutineEach(w)
    && forall p :: p in w.procs && w.procs[p].Removing? ==> AfterDelete(w, p)
  }

  /** The removal `p` has decided on leaves every live session findable and alone. */
  ghost predicate AfterDelete(w: World, p: Pid) {
    WellTyped(w) && Enabled(w, Delete(p)) && OneGoroutineEach(Apply(w, Delete(p)))
  }

  lemma InvIsSafe(w: World)
    requires Inv(w)
    ensures Safe(w)
  {
    InvMeansOneEach(w);
    forall p | p in w.procs && w.procs[p].Removing? ensures AfterDelete(w, p) {
      StepIff(w, Delete(p));
      InvMeansOneEach(Apply(w, Delete(p)));
    }
  }

  /** A registration that does not land strands its session at once, or as soon as the removal
      under way deletes its registry. */
  lemma BadClaimIsUnsafe(w: World, s: Step)
    requires Inv(w) && Enabled(w, s) && !GoodStep(w, s)
    ensures !Safe(Apply(w, s))
  {
    var v, k := Apply(w, s), w.procs[s.p];
    assert IsOwner(v.procs, s.p) && v.procs[s.p].run == k.run && v.procs[s.p].inst == k.inst;
    if k.run in v.published && v.published[k.run] == k.inst {
      var q :| q in w.procs && w.procs[q].Removing? && w.procs[q].inst == k.inst;
      assert w.procs[q].run == k.run;
      assert v.procs[q] == w.procs[q];
      StrandedByDelete(v, q, s.p);
    } else {
      assert !InPublished(v.published, v.insts, s.p, v.procs[s.p]);
    }
  }

  lemma StrandedByDelete(v: World, q: Pid, p: Pid)
    requires WellTyped(v) && q in v.procs && v.procs[q].Removing? && IsOwner(v.procs, p)
    requires v.procs[p].run == v.procs[q].run
    ensures !AfterDelete(v, q)
  {
    var u := Apply(v, Delete(q));
    assert IsOwner(u.procs, p) && !InPublished(u.published, u.insts, p, u.procs[p]);
  }

  lemma SafeStepIsGood(w: World, s: Step, v: World)
    requires Inv(w) && StepsTo(w, s, v) && Safe(v)
    ensures GoodStep(w, s)
  {
    if !GoodStep(w, s) { BadClaimIsUnsafe(w, s); }
  }

  lemma {:induction false} SafeRunKeeps(ws: seq<World>, ss: seq<Step>, n: nat)
    requires IsRun(ws, ss) && n <= |ss| && forall i :: 0 <= i <= |ss| ==> Safe(ws[i])
    ensures Inv(ws[n])
  {
    if n == 0 {
      InitInv(ws[0]);
    } else {
      SafeRunKeeps(ws, ss, n - 1);
      assert StepsTo(ws[n - 1], ss[n - 1], ws[n]);
      SafeStepIsGood(ws[n - 1], ss[n - 1], ws[n]);
      StepIff(ws[n - 1], ss[n - 1]);
    }
  }

  /** Every live session of a run stays findable and alone, also once the removals under way
      are through, exactly when every registration lands in a registry that is published and
      not being removed. */
  lemma SafeIff(ws: seq<World>, ss: seq<Step>)
    requires IsRun(ws, ss)
    ensures (forall i :: 0 <= i <= |ss| ==> Safe(ws[i])) <==> (forall i :: 0 <= i < |ss| ==> GoodStep(ws[i], ss[i]))
  {
    if forall i :: 0 <= i < |ss| ==> GoodStep(ws[i], ss[i]) {
      forall i | 0 <= i <= |ss| ensures Safe(ws[i]) {
        RunKeeps(ws, ss, i);
        InvIsSafe(ws[i]);
      }
    }
    if forall i :: 0 <= i <= |ss| ==> Safe(ws[i]) {
      forall i | 0 <= i < |ss| ensures GoodStep(ws[i], ss[i]) {
        SafeRunKeeps(ws, ss, i);
        assert StepsTo(ws[i], ss[i], ws[i + 1]);
        SafeStepIsGood(ws[i], ss[i], ws[i + 1]);
      }
    }
  }

  /** Launching in one step: in every run without the two-hold launches, every live session
      is reachable through the published registry and never has a second goroutine. */
  lemma PairedRunsAreSafe(ws: seq<World>, ss: seq<Step>, n: nat)
    requires IsRun(ws, ss) && n <= |ss|
    requires forall i :: 0 <= i < |ss| ==> !ss[i].Claim?
    ensures Inv(ws[n]) && OneGoroutineEach(ws[n])
  {
    RunKeeps(ws, ss, n);
    InvMeansOneEach(ws[n]);
  }

  // ------------------------------------------------------------ what can happen

  /** Everybody can go on: a live session can spawn and end, and so on for each stage of a
      launch, a cleanup and a notifier, but for those that need the run-registry mutex while
      somebody holds it. */
  lemma CanGoOn(w: World, p: Pid, run: string, sid: string)
    requires Inv(w)
    ensures Unlocked(w) ==> Enabled(w, Touch(run)) && Enabled(w, Launch(run, sid)) && Enabled(w, Capture(run, sid))
                            && Enabled(w, Commit(run, sid))
    ensures p in w.procs ==>
              match w.procs[p]
              case Captured(_, _, _) => Enabled(w, Claim(p))
              case Owner(_, _, _, _) => Enabled(w, Spawn(p, sid)) && Enabled(w, Release(p))
              case Leaving(_) => Enabled(w, Quit(p)) && (Unlocked(w) ==> Enabled(w, CheckEmpty(p)))
              case Removing(_, _) => Enabled(w, Delete(p))
              case Waking(_, _, _, _) => Enabled(w, Lookup(p))
              case Found(_, _, _, _) => Enabled(w, Wake(p))
              case Missed(_, _, _) => Enabled(w, Ignore(p)) && (Unlocked(w) ==> Enabled(w, Respawn(p)))
  {
    if p in w.procs {
      assert ProcPast(w.insts, w.procs[p], w.now);
      if w.procs[p].Owner? { assert InPublished(w.published, w.insts, p, w.procs[p]); }
    }
  }

  /** Between the two halves of a removal nobody else reads or changes what is published. */
  lemma RemovalLocks(w: World, p: Pid, s: Step)
    requires Inv(w) && p in w.procs && w.procs[p].Removing? && Enabled(w, s) && s != Delete(p)
    ensures !(s.Touch? || s.Launch? || s.Capture? || s.CheckEmpty? || s.Delete? || s.Commit? || s.Respawn?)
    ensures Apply(w, s).published == w.published && p in Apply(w, s).procs && Apply(w, s).procs[p] == w.procs[p]
  {
    assert w.now !in w.procs;
  }

  // --------------------------------------------------------- starting and ending

  /** A session of the run is live. */
  ghost predicate IsLive(w: World, run: string, sid: string) {
    exists o :: IsOwner(w.procs, o) && w.procs[o].run == run && w.procs[o].sid == sid
  }

  lemma LiveIsRegistered(w: World, run: string, sid: string)
    requires Inv(w)
    ensures IsLive(w, run, sid) <==> run in w.published && sid in w.insts[w.published[run]]
  {
    if o :| IsOwner(w.procs, o) && w.procs[o].run == run && w.procs[o].sid == sid {
      assert InPublished(w.published, w.insts, o, w.procs[o]);
    }
    if run in w.published && sid in w.insts[w.published[run]] {
      var i := w.published[run];
      var o := w.insts[i][sid];
      assert OwnsSlot(w.procs, o, i, sid);
      assert InPublished(w.published, w.insts, o, w.procs[o]);
    }
  }

  /** Asking for a run's registry publishes an empty one if there is none, and changes nothing
      else; a child that quits and a notifier with nothing to revive just end. */
  lemma SmallSteps(w: World, s: Step)
    requires Inv(w) && Enabled(w, s)
    ensures s.Touch? ==>
              var v := Apply(w, s);
              && v.procs == w.procs && s.run in v.published
              && v.published == (if s.run in w.published then w.published else w.published[s.run := w.now])
              && (s.run !in w.published ==> v.insts == w.insts[w.now := map[]])
    ensures s.Quit? || s.Ignore? ==>
              Apply(w, s).procs == w.procs - {s.p} && Apply(w, s).published == w.published
              && Apply(w, s).insts == w.insts
  {
  }

  /** A launch starts a goroutine exactly if the session has none; nobody else is touched. */
  lemma LaunchStartsIff(w: World, run: string, sid: string)
    requires Inv(w) && Enabled(w, Launch(run, sid))
    ensures var v := Apply(w, Launch(run, sid));
            && run in v.published
            && v.procs == if IsLive(w, run, sid) then w.procs
                          else w.procs[w.now := Owner(run, sid, v.published[run], w.now)]
  {
    LiveIsRegistered(w, run, sid);
    assert w.now !in w.procs;
    if run in w.published { assert w.published[run] in w.insts; }
  }

  /** A child starts exactly if there is no live session of its name in the parent's run, and
      goes by the parent's registry. */
  lemma SpawnStartsIff(w: World, parent: Pid, sid: string)
    requires Inv(w) && Enabled(w, Spawn(parent, sid))
    ensures var k, v := w.procs[parent], Apply(w, Spawn(parent, sid));
            && v.published == w.published
            && v.procs == if IsLive(w, k.run, sid) then w.procs else w.procs[w.now := Owner(k.run, sid, k.inst, w.now)]
  {
    LiveIsRegistered(w, w.procs[parent].run, sid);
    assert InPublished(w.published, w.insts, parent, w.procs[parent]);
    assert w.now !in w.procs;
  }

  /** A release ends exactly its own session, and the slot is free again. */
  lemma ReleaseEnds(w: World, p: Pid, run: string, sid: string)
    requires Inv(w) && Enabled(w, Release(p))
    ensures var k, v := w.procs[p], Apply(w, Release(p));
            && (IsLive(v, run, sid) <==> IsLive(w, run, sid) && !(run == k.run && sid == k.sid))
            && v.procs == w.procs[p := Leaving(k.run)] && v.published == w.published
  {
    var k, v := w.procs[p], Apply(w, Release(p));
    StepIff(w, Release(p));
    LiveIsRegistered(w, run, sid);
    LiveIsRegistered(v, run, sid);
    assert InPublished(w.published, w.insts, p, k);
  }

  /** The cleanup after it unpublishes the run exactly if its registry is empty. */
  lemma CleanupRemovesIff(w: World, p: Pid)
    requires Inv(w) && Enabled(w, CheckEmpty(p))
    ensures var run, v := w.procs[p].run, Apply(w, CheckEmpty(p));
            var empty := run in w.published && w.insts[w.published[run]] == map[];
            && v.published == w.published && (empty <==> Enabled(v, Delete(p))) && (!empty ==> p !in v.procs)
            && (empty ==> Apply(v, Delete(p)).published == w.published - {run}
                          && p !in Apply(v, Delete(p)).procs)
  {
  }

  // ------------------------------------------------------------------- waking up

  /** A commit to a live session starts a notifier that holds its registry. */
  lemma CommitKnows(w: World, run: string, sid: string, o: Pid)
    requires Inv(w) && Enabled(w, Commit(run, sid))
    requires IsOwner(w.procs, o) && w.procs[o].run == run && w.procs[o].sid == sid
    ensures var v := Apply(w, Commit(run, sid));
            && v.procs == w.procs[w.now := Waking(run, sid, w.now, Some(w.procs[o].inst))]
            && LiveSince(v.procs, o, run, sid, v.procs[w.now].at)
  {
    assert InPublished(w.published, w.insts, o, w.procs[o]);
    assert ProcPast(w.insts, w.procs[o], w.now);
  }

  /** A commit to a session that was live when the notifier looked, and still is, finds its
      handle; the next step of the notifier bumps that session's own waiter. */
  lemma CommitReachesLive(w: World, p: Pid, o: Pid)
    requires Inv(w) && p in w.procs && w.procs[p].Waking?
    requires LiveSince(w.procs, o, w.procs[p].run, w.procs[p].sid, w.procs[p].at)
    ensures var v := Apply(w, Lookup(p));
            && v.procs[p] == Found(w.procs[p].run, w.procs[p].sid, w.procs[p].at, o)
            && Enabled(v, Wake(p))
            && Apply(v, Wake(p)).bumps == v.bumps[o := 1 + (if o in v.bumps then v.bumps[o] else 0)]
  {
    assert NotifierSound(w.procs, w.procs[p], o);
    assert InPublished(w.published, w.insts, o, w.procs[o]);
  }

  /** A notifier that has found the handle of a live session bumps that session's own waiter,
      once, and is done. */
  lemma WakeReachesLive(w: World, p: Pid, o: Pid)
    requires Inv(w) && p in w.procs && w.procs[p].Found?
    requires LiveSince(w.procs, o, w.procs[p].run, w.procs[p].sid, w.procs[p].at)
    ensures Enabled(w, Wake(p))
    ensures Apply(w, Wake(p)).bumps == w.bumps[o := 1 + (if o in w.bumps then w.bumps[o] else 0)]
    ensures Apply(w, Wake(p)).procs == w.procs - {p}
  {
    assert NotifierSound(w.procs, w.procs[p], o);
  }

  /** A notifier on the way to a respawn never has a live session that was there at its commit. */
  lemma NoRespawnOfLive(w: World, p: Pid, o: Pid)
    requires Inv(w) && p in w.procs && w.procs[p].Missed?
    ensures !LiveSince(w.procs, o, w.procs[p].run, w.procs[p].sid, w.procs[p].at)
  {
    if IsOwner(w.procs, o) { assert NotifierSound(w.procs, w.procs[p], o); }
  }

  /** No event that revives is lost: the respawn starts a goroutine, or finds the slot held
      by one that registered after the commit and so reads the event from its stream. */
  lemma RespawnLosesNothing(w: World, p: Pid)
    requires Inv(w) && Enabled(w, Respawn(p))
    ensures var k, v := w.procs[p], Apply(w, Respawn(p));
            || (IsOwner(v.procs, p) && v.procs[p].run == k.run && v.procs[p].sid == k.sid)
            || exists o ::
              IsOwner(w.procs, o) && w.procs[o].run == k.run && w.procs[o].sid == k.sid && w.procs[o].since >= k.at
  {
    var k := w.procs[p];
    if k.run in w.published && k.sid in w.insts[w.published[k.run]] {
      var i := w.published[k.run];
      var o := w.insts[i][k.sid];
      assert OwnsSlot(w.procs, o, i, k.sid);
      assert InPublished(w.published, w.insts, o, w.procs[o]);
      NoRespawnOfLive(w, p, o);
    }
  }

  lemma OthersPublishNothingElse(w: World, s: Step, run: string)
    requires Inv(w) && Enabled(w, s) && !s.Delete? && run in w.published
    ensures run in Apply(w, s).published && Apply(w, s).published[run] == w.published[run]
  {
  }

  /** A registry with a session in it is never unpublished. */
  lemma OnlyEmptyIsUnpublished(w: World, s: Step, run: string)
    requires Inv(w) && Enabled(w, s)
    requires run in w.published && (run !in Apply(w, s).published || Apply(w, s).published[run] != w.published[run])
    ensures s.Delete? && run !in Apply(w, s).published && w.insts[w.published[run]] == map[]
  {
    if !s.Delete? { OthersPublishNothingElse(w, s, run); }
  }

  // ------------------------------------------- two lock holds are not one step

  /** The worlds of a run in which session `s` registers while its run is being removed. */
  function Stranding(r: string, a: string, s: string): seq<World> {
    [ World(map[], map[], map[], map[], 0),
      World(map[r := 0], map[0 := map[a := 0]], map[0 := Owner(r, a, 0, 0)], map[], 1),
      World(map[r := 0], map[0 := map[]], map[0 := Leaving(r)], map[], 2),
      World(map[r := 0], map[0 := map[]], map[0 := Leaving(r), 2 := Captured(r, s, 0)], map[], 3),
      World(map[r := 0], map[0 := map[]], map[0 := Removing(r, 0), 2 := Captured(r, s, 0)], map[], 4),
      World(map[r := 0], map[0 := map[s := 2]], map[0 := Removing(r, 0), 2 := Owner(r, s, 0, 4)], map[], 5),
      World(map[], map[0 := map[s := 2]], map[2 := Owner(r, s, 0, 4)], map[], 6),
      World(map[r := 6], map[0 := map[s := 2], 6 := map[s := 6]],
            map[2 := Owner(r, s, 0, 4), 6 := Owner(r, s, 6, 6)], map[], 7) ]
  }

  lemma StrandingStart(r: string, a: string, s: string)
    ensures var ws := Stranding(r, a, s);
            StepsTo(ws[0], Launch(r, a), ws[1]) && StepsTo(ws[1], Release(0), ws[2])
  {
  }

  lemma StrandingCapture(r: string, a: string, s: string)
    ensures var ws := Stranding(r, a, s);
            StepsTo(ws[2], Capture(r, s), ws[3]) && StepsTo(ws[3], CheckEmpty(0), ws[4])
  {
  }

  lemma StrandingClaim(r: string, a: string, s: string)
    ensures var ws := Stranding(r, a, s);
            StepsTo(ws[4], Claim(2), ws[5]) && StepsTo(ws[5], Delete(0), ws[6])
  {
    var ws := Stranding(r, a, s);
    assert Apply(ws[5], Delete(0)).published == map[];
  }

  lemma StrandingDuplicate(r: string, a: string, s: string)
    ensures var ws := Stranding(r, a, s);
            StepsTo(ws[6], Launch(r, s), ws[7]) && SameSession(ws[7], 2, 6)
  {
  }

  /** A run goes on with any step that is enabled. */
  lemma RunSnoc(ws: seq<World>, ss: seq<Step>, s: Step, v: World) returns (xs: seq<World>, ys: seq<Step>)
    requires IsRun(ws, ss) && StepsTo(ws[|ss|], s, v)
    ensures IsRun(xs, ys) && xs[|ys|] == v
  {
    xs, ys := ws + [v], ss + [s];
    forall i | 0 <= i < |ys| ensures StepsTo(xs[i], ys[i], xs[i + 1]) {
      if i < |ss| { assert StepsTo(ws[i], ss[i], ws[i + 1]); }
    }
  }

  lemma StrandingFirst(r: string, a: string, s: string) returns (xs: seq<World>, ys: seq<Step>)
    ensures IsRun(xs, ys) && xs[|ys|] == Stranding(r, a, s)[4]
  {
    var ws := Stranding(r, a, s);
    StrandingStart(r, a, s);
    StrandingCapture(r, a, s);
    xs, ys := RunSnoc([ws[0]], [], Launch(r, a), ws[1]);
    xs, ys := RunSnoc(xs, ys, Release(0), ws[2]);
    xs, ys := RunSnoc(xs, ys, Capture(r, s), ws[3]);
    xs, ys := RunSnoc(xs, ys, CheckEmpty(0), ws[4]);
  }

  /** With the two holds apart, a removal between them strands a session outside the
      published registry, and the next launch starts a second goroutine for it. */
  lemma TwoHoldsCanDuplicate(r: string, a: string, s: string)
    ensures exists ws: seq<World>, ss, p, q :: IsRun(ws, ss) && p != q && SameSession(ws[|ss|], p, q)
  {
    var ws := Stranding(r, a, s);
    StrandingClaim(r, a, s);
    StrandingDuplicate(r, a, s);
    var xs, ys := StrandingFirst(r, a, s);
    xs, ys := RunSnoc(xs, ys, Claim(2), ws[5]);
    xs, ys := RunSnoc(xs, ys, Delete(0), ws[6]);
    xs, ys := RunSnoc(xs, ys, Launch(r, s), ws[7]);
    assert SameSession(xs[|ys|], 2, 6);
  }
}
