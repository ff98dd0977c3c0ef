/** When exactly the time of the last success never moves back. */
module SchedulerSuccess {
  import opened Prelude
  import opened Cron
  import opened ScanModel
  import opened SchedulerSystem
  import SchedulerHistory
  import opened SchedulerTraces
  import RunModel

  /** Some history of the Scan passes through `w` and ends in `w'`. */
  ghost predicate Leads(spec: ScanSpec, w: World, w': World) {
    exists steps: seq<Step>, k: nat ::
      && k <= |steps| && Feasible(steps[..k]) && Feasible(steps) && Uses(steps, spec)
      && After(steps[..k]) == w && After(steps) == w'
  }

  lemma LeadsSelf(spec: ScanSpec, w: World)
    requires Reaches(spec, false, w)
    ensures Leads(spec, w, w)
  {
    var steps: seq<Step> :| Feasible(steps) && Uses(steps, spec) && After(steps) == w;
    assert steps[..|steps|] == steps;
  }

  lemma LeadsNext(spec: ScanSpec, w: World, w1: World, s: Step)
    requires Leads(spec, w, w1) && Enabled(w1, s) && (s.ScanRead? ==> s.spec == spec)
    ensures Leads(spec, w, Apply(w1, s))
  {
    var steps: seq<Step>, k: nat :|
      && k <= |steps| && Feasible(steps[..k]) && Feasible(steps) && Uses(steps, spec)
      && After(steps[..k]) == w && After(steps) == w1;
    OneMoreStep(steps, s);
    assert Uses(steps + [s], spec) && (steps + [s])[..k] == steps[..k];
  }

  /** The stored time of the last success never moves back, in any history. */
  ghost predicate NeverForgets(spec: ScanSpec) {
    forall w, w' :: Leads(spec, w, w') ==> NoLater(w.status.lastSuccessfulRunTime, w'.status.lastSuccessfulRunTime)
  }

  lemma KeptIsRemembered(spec: ScanSpec, w: World, w': World)
    requires spec.SuccessLimit() >= 1 && Leads(spec, w, w')
    ensures NoLater(w.status.lastSuccessfulRunTime, w'.status.lastSuccessfulRunTime)
  {
    var steps: seq<Step>, k: nat :|
      && k <= |steps| && Feasible(steps[..k]) && Feasible(steps) && Uses(steps, spec)
      && After(steps[..k]) == w && After(steps) == w';
    SchedulerHistory.LastSuccessNeverMovesBack(steps, k);
  }

  // ---------- with a limit of zero ----------

  function Third(spec: ScanSpec): int
    requires spec.schedule.Some?
  {
    spec.schedule.value.next(Second(spec))
  }

  /** A fire is due whatever earlier instant is taken for the last run. */
  lemma FireDue(spec: ScanSpec, t: int, f: int)
    requires Operational(spec) && t < f && spec.schedule.value.IsFire(f)
    ensures IsDue(spec, Some(t), f)
  {
    AfterNext(spec.schedule.value, f);
  }

  lemma ThirdDue(spec: ScanSpec)
    requires Operational(spec)
    ensures First(spec) < Second(spec) < Third(spec)
    ensures IsDue(spec, Some(Second(spec)), Third(spec)) && IsDue(spec, Some(First(spec)), Third(spec))
  {
    AfterNext(spec.schedule.value, Second(spec));
    FireDue(spec, Second(spec), Third(spec));
    FireDue(spec, First(spec), Third(spec));
  }

  /** The list that pruning starts with fails; the status is stored. */
  lemma SkipsPruning(spec: ScanSpec, w: World) returns (w': World)
    requires Reaches(spec, false, w) && w.pc.Created?
    ensures Reaches(spec, false, w') && w' == w.(pc := Idle, status := w.pc.local)
  {
    ReachesNext(spec, false, w, ScanGcListFails);
    var w1 := Apply(w, ScanGcListFails);
    ReachesNext(spec, false, w1, ScanWrite(true));
    w' := Apply(w1, ScanWrite(true));
  }

  /** A Run that succeeded at the given instant. */
  ghost predicate SucceededAt(runs: Runs, u: Uid, at: int, name: string) {
    && Owned(runs, SCAN, u) && runs[u].status.phase == RunModel.Succeeded && runs[u].status.completionTime == Some(at)
    && runs[u].spec.name == name
  }

  lemma FirstSucceeds(spec: ScanSpec) returns (w: World)
    requires Operational(spec)
    ensures Reaches(spec, false, w) && w.pc.Idle? && w.clock == Second(spec) && w.nextUid == 2 && Clear(w.cluster, "run-2")
    ensures w.runs.Keys == {1} && SucceededAt(w.runs, 1, First(spec), "run-1")
  {
    FirstDue(spec);
    SecondDue(spec);
    var w1 := FiresOnce(spec, false);
    var w2 := Ends(spec, false, w1, 1, RunModel.Succeeded);
    StaysClear(w1.cluster, w2.cluster, "run-1", "run-2");
    var w3 := SkipsPruning(spec, w2);
    ReachesNext(spec, false, w3, Tick(Second(spec)));
    w := Apply(w3, Tick(Second(spec)));
  }

  lemma SecondSucceeds(spec: ScanSpec) returns (w: World)
    requires Operational(spec)
    ensures Reaches(spec, false, w) && w.pc.Created? && w.clock == Second(spec) && w.nextUid == 3
    ensures w.runs.Keys == {1, 2} && SucceededAt(w.runs, 1, First(spec), "run-1") && SucceededAt(w.runs, 2, Second(spec), "run-2")
  {
    SecondDue(spec);
    var w1 := FirstSucceeds(spec);
    RefreshToOnly(w1, [1], 1, First(spec));
    var w2 := Fires(spec, false, w1, [1], "run-2");
    w := Ends(spec, false, w2, 2, RunModel.Succeeded);
  }

  lemma TwoSucceeded(spec: ScanSpec) returns (w: World)
    requires Operational(spec)
    ensures Reaches(spec, false, w) && w.pc.Idle? && w.clock == Third(spec) && w.nextUid == 3
    ensures w.runs.Keys == {1, 2} && SucceededAt(w.runs, 1, First(spec), "run-1") && SucceededAt(w.runs, 2, Second(spec), "run-2")
  {
    ThirdDue(spec);
    var w1 := SecondSucceeds(spec);
    var w2 := SkipsPruning(spec, w1);
    ReachesNext(spec, false, w2, Tick(Third(spec)));
    w := Apply(w2, Tick(Third(spec)));
  }

  /** The latest of the times that count is the refreshed one, for both times if it is a success. */
  lemma RefreshToLatest(w: World, listing: seq<Uid>, u: Uid, at: int)
    requires IsListing(w.runs, listing) && Counts(w.runs, SCAN, true, u) && w.runs[u].status.completionTime == Some(at)
    requires forall v :: Counts(w.runs, SCAN, false, v) ==> NoLater(w.runs[v].status.completionTime, Some(at))
    ensures var st := Refreshed(w.status, w.runs, SCAN, listing);
            st.lastRunTime == Some(at) && st.lastSuccessfulRunTime == Some(at)
  {
    LatestOfMeaning(w.runs, SCAN, false, listing);
    LatestOfMeaning(w.runs, SCAN, true, listing);
    assert u in listing && Counts(w.runs, SCAN, false, u);
    assert forall v :: Counts(w.runs, SCAN, true, v) ==> Counts(w.runs, SCAN, false, v);
  }

  /** The third fire is run; the reconcile has seen both successes. */
  lemma ThirdFires(spec: ScanSpec) returns (w: World)
    requires Operational(spec)
    ensures Reaches(spec, false, w) && w.pc.Created? && w.pc.spec == spec && w.clock == Third(spec)
    ensures w.pc.local.lastSuccessfulRunTime == Some(Second(spec))
    ensures w.runs.Keys == {1, 2, 3} && !w.runs[3].Terminal() && w.runs[3].spec.name == "run-3"
    ensures SucceededAt(w.runs, 1, First(spec), "run-1") && SucceededAt(w.runs, 2, Second(spec), "run-2")
  {
    ThirdDue(spec);
    var w1 := TwoSucceeded(spec);
    RefreshToLatest(w1, [1, 2], 2, Second(spec));
    w := Fires(spec, false, w1, [1, 2], "run-3");
  }

  /** Pruning deletes the more recent success first and fails on the older one; the status is stored. */
  lemma PrunesHalf(spec: ScanSpec, w: World) returns (w': World)
    requires Reaches(spec, false, w) && w.pc.Created? && w.pc.spec.SuccessLimit() == 0
    requires spec.schedule.Some? && First(spec) <= Second(spec)
    requires w.runs.Keys == {1, 2, 3} && !w.runs[3].Terminal()
    requires SucceededAt(w.runs, 1, First(spec), "run-1") && SucceededAt(w.runs, 2, Second(spec), "run-2")
    ensures Reaches(spec, false, w') && w' == w.(pc := Idle, status := w.pc.local, runs := w.runs - {2})
  {
    ReachesNext(spec, false, w, ScanGcList([2, 1], []));
    var w1 := Apply(w, ScanGcList([2, 1], []));
    assert w1.pc.excess == [2, 1];
    w' := DeletesHalf(spec, w1);
  }

  lemma DeletesHalf(spec: ScanSpec, w: World) returns (w': World)
    requires Reaches(spec, false, w) && w.pc.Pruning? && w.pc.excess == [2, 1]
    ensures Reaches(spec, false, w') && w' == w.(pc := Idle, status := w.pc.local, runs := w.runs - {2})
  {
    ReachesNext(spec, false, w, ScanDelete(RunModel.Applied));
    var w1 := Apply(w, ScanDelete(RunModel.Applied));
    assert w1.pc.excess == [1];
    ReachesNext(spec, false, w1, ScanDelete(RunModel.Rejected));
    var w2 := Apply(w1, ScanDelete(RunModel.Rejected));
    ReachesNext(spec, false, w2, ScanWrite(true));
    w' := Apply(w2, ScanWrite(true));
  }

  /** One more reconcile that creates nothing: it skips, or the creation is rejected. It stores what it refreshed. */
  lemma LooksAgain(spec: ScanSpec, w: World, listing: seq<Uid>) returns (w': World)
    requires Operational(spec) && Reaches(spec, false, w) && w.pc.Idle? && IsListing(w.runs, listing)
    requires IsDue(spec, Refreshed(w.status, w.runs, SCAN, listing).lastRunTime, w.clock)
    ensures Leads(spec, w, w')
    ensures w'.status.lastSuccessfulRunTime == Refreshed(w.status, w.runs, SCAN, listing).lastSuccessfulRunTime
  {
    LeadsSelf(spec, w);
    var read, list := ScanRead(spec, Platform.Ready), ScanList(listing, Some(w.clock), spec.schedule.value.next(w.clock));
    LeadsNext(spec, w, w, read);
    var w1 := Apply(w, read);
    LeadsNext(spec, w, w1, list);
    w' := StoresLocal(spec, w, Apply(w1, list));
  }

  lemma StoresLocal(spec: ScanSpec, w: World, w1: World) returns (w': World)
    requires Leads(spec, w, w1) && (w1.pc.Due? || w1.pc.Writing?)
    ensures Leads(spec, w, w') && w'.status == w1.pc.local
  {
    var w2 := w1;
    if w1.pc.Due? {
      LeadsNext(spec, w, w1, ScanCreate("run", RunModel.Rejected));
      w2 := Apply(w1, ScanCreate("run", RunModel.Rejected));
    }
    LeadsNext(spec, w, w2, ScanWrite(true));
    w' := Apply(w2, ScanWrite(true));
  }

  /** With a success limit of zero the time moves back in some history, under any policy. */
  lemma LimitZeroForgets(spec: ScanSpec)
    requires Operational(spec) && spec.SuccessLimit() == 0
    ensures !NeverForgets(spec)
  {
    ThirdDue(spec);
    var w1 := ThirdFires(spec);
    var w2 := PrunesHalf(spec, w1);
    RefreshToLatest(w2, [1, 3], 1, First(spec));
    var w3 := LooksAgain(spec, w2, [1, 3]);
    assert w2.status.lastSuccessfulRunTime == Some(Second(spec)) && w3.status.lastSuccessfulRunTime == Some(First(spec));
  }

  /** The stored time of the last success never moves back, in any history, if and only if at least one success is kept. */
  lemma NeverForgetsExactlyWhenKept(spec: ScanSpec)
    requires Operational(spec)
    ensures NeverForgets(spec) <==> spec.SuccessLimit() >= 1
  {
    if spec.SuccessLimit() >= 1 {
      forall w, w' | Leads(spec, w, w') ensures NoLater(w.status.lastSuccessfulRunTime, w'.status.lastSuccessfulRunTime) {
        KeptIsRemembered(spec, w, w');
      }
    } else {
      LimitZeroForgets(spec);
    }
  }
}
