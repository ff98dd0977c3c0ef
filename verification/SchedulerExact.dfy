/**
  When exactly a Scan runs no fire twice: in all histories, and in those where nothing fails and nothing is lost.
*/
module SchedulerExact {
  import opened Prelude
  import opened Cron
  import opened ScanModel
  import opened SchedulerSystem
  import SchedulerOrder
  import opened SchedulerHistory
  import opened SchedulerTraces
  import RunModel

  // ---------- any history ----------

  lemma StrictDistinct(spec: ScanSpec, smooth: bool, w: World)
    requires SchedulerOrder.Strict(spec) && Reaches(spec, smooth, w)
    ensures Distinct(w)
  {
    var steps: seq<Step> :| Feasible(steps) && Uses(steps, spec) && After(steps) == w;
    SchedulerOrder.AlwaysInv(steps);
    forall u, v | u in w.fires && v in w.fires && u != v ensures w.fires[u] != w.fires[v] {
      SchedulerOrder.IntervalsDisjointIn(w, if u < v then u else v, if u < v then v else u);
    }
  }

  /** What is repeated smoothly is repeated. */
  lemma SmoothIsAny(spec: ScanSpec)
    ensures NeverRepeats(spec, false) ==> NeverRepeats(spec, true)
  {
    forall w | Reaches(spec, true, w) ensures Reaches(spec, false, w) {
    }
  }

  /**
    A Scan never runs a fire twice, in any history with lost writes and crashes, if and only if its policy
    is not Allow and both history limits keep at least one Run.
  */
  lemma NeverRepeatsExactlyWhenStrict(spec: ScanSpec)
    requires Operational(spec)
    ensures NeverRepeats(spec, false) <==> SchedulerOrder.Strict(spec)
  {
    if SchedulerOrder.Strict(spec) {
      forall w | Reaches(spec, false, w) ensures Distinct(w) {
        StrictDistinct(spec, false, w);
      }
    } else if spec.policy == Allow {
      AllowRepeatsWithoutLoss(spec);
      SmoothIsAny(spec);
    } else {
      LimitZeroRepeats(spec, if spec.FailLimit() == 0 then RunModel.Failed else RunModel.Succeeded);
    }
  }

  // ---------- smooth histories with both limits zero ----------

  /** Concurrency is forbidden and no ended Run is kept. */
  predicate KeepsNone(spec: ScanSpec) {
    spec.policy != Allow && spec.SuccessLimit() == 0 && spec.FailLimit() == 0
  }

  ghost predicate Ascending(w: World) {
    && (forall u :: u in w.fires ==> u < w.nextUid && w.newest.Some? && u <= w.newest.value)
    && (w.newest.Some? ==> w.newest.value in w.fires)
    && (forall u, v :: u in w.fires && v in w.fires && u < v ==> w.fires[u] < w.fires[v])
  }

  /** The newest Run, if it is still there, ended no earlier than its fire. */
  ghost predicate NewestStamped(w: World) {
    w.newest.Some? && w.newest.value in w.runs && w.newest.value in w.fires ==>
      var run, fire := w.runs[w.newest.value], w.fires[w.newest.value];
      fire <= run.touched && fire % SECOND == 0 && (run.Terminal() ==> NoLater(Some(fire), run.status.completionTime))
  }

  /** Every other Run of the Scan has ended and is about to be deleted. */
  ghost predicate OthersGoing(w: World) {
    forall u :: Owned(w.runs, SCAN, u) && w.newest != Some(u) ==>
      w.runs[u].Terminal() && (w.pc.Created? || u in Doomed(w.pc))
  }

  /** The status in hand remembers the fire of the newest Run, or something later. */
  ghost predicate Remembered(w: World) {
    w.newest.Some? && w.newest.value in w.fires ==> NoLater(Some(w.fires[w.newest.value]), Pending(w).lastRunTime)
  }

  ghost predicate AtPc(w: World) {
    && (w.pc.Admitted? || w.pc.Due? || w.pc.Created? ==> KeepsNone(w.pc.spec))
    && (w.pc.Due? ==>
          && w.pc.fire % SECOND == 0 && w.pc.fire <= w.clock && (forall u :: !Active(w.runs, SCAN, u))
          && (w.newest.Some? && w.newest.value in w.fires ==> w.fires[w.newest.value] < w.pc.fire))
  }

  ghost predicate Inv(w: World) {
    Base(w) && Ascending(w) && NewestStamped(w) && OthersGoing(w) && Remembered(w) && AtPc(w)
  }

  /** Listing: the refresh never goes behind the newest fire, so what is due is later. */
  lemma RefreshRemembers(w: World, listing: seq<Uid>)
    requires Inv(w) && w.pc.Admitted? && IsListing(w.runs, listing) && w.newest.Some?
    ensures NoLater(Some(w.fires[w.newest.value]), Refreshed(w.pc.local, w.runs, SCAN, listing).lastRunTime)
  {
    LatestOfMeaning(w.runs, SCAN, false, listing);
    var r := LatestOf(w.runs, SCAN, false, listing);
    if r.Some? {
      var u :| u in listing && Counts(w.runs, SCAN, false, u) && w.runs[u].status.completionTime == r;
      assert w.newest == Some(u);
    }
  }

  lemma ListKeeps(w: World, s: Step)
    requires Inv(w) && s.ScanList? && Enabled(w, s)
    ensures Remembered(Apply(w, s)) && OthersGoing(Apply(w, s))
  {
    if w.newest.Some? {
      RefreshRemembers(w, s.listing);
    }
  }

  lemma ListKeepsPc(w: World, s: Step)
    requires Inv(w) && s.ScanList? && Enabled(w, s)
    ensures AtPc(Apply(w, s))
  {
    if w.newest.Some? {
      RefreshRemembers(w, s.listing);
    }
    if Apply(w, s).pc.Due? {
      DueMeansNoneActive(w, s);
      SchedulerOrder.FireOnSecond(w.pc.spec.schedule.value, s.missed.value);
    }
  }

  lemma CreateKeeps(w: World, w': World, run: RunObject, fire: int)
    requires Inv(w) && w.pc.Due? && fire == w.pc.fire && SchedulerOrder.Grew(w, w', run, fire)
    requires w'.pc.Created? && w'.pc.local.lastRunTime == Some(fire) && w'.pc.spec == w.pc.spec
    ensures Ascending(w') && NewestStamped(w') && OthersGoing(w') && Remembered(w') && AtPc(w')
  {
    forall u | Owned(w'.runs, SCAN, u) && w'.newest != Some(u) ensures w'.runs[u].Terminal() {
      assert !Active(w.runs, SCAN, u) && u in w.runs && w'.runs[u] == w.runs[u];
    }
  }

  lemma GcListKeeps(w: World, s: Step)
    requires Inv(w) && s.ScanGcList? && Enabled(w, s)
    ensures OthersGoing(Apply(w, s))
  {
    var w' := Apply(w, s);
    assert w'.pc.excess == s.succeeded + s.failed;
    forall u | Owned(w'.runs, SCAN, u) && w'.newest != Some(u) ensures w'.runs[u].Terminal() && u in w'.pc.excess {
      assert w.runs[u].Terminal();
      assert InClass(w.runs, SCAN, RunModel.Succeeded, u) || InClass(w.runs, SCAN, RunModel.Failed, u);
    }
  }

  lemma MoveKeepsRuns(w: World, w': World, r: Uid)
    requires Ascending(w) && NewestStamped(w) && OthersGoing(w) && Moved(w, w', r) && RunOk(w, r)
    ensures NewestStamped(w') && OthersGoing(w')
  {
    if w.newest == Some(r) && !w.runs[r].Terminal() && w'.runs[r].Terminal() {
      SchedulerOrder.EndsAfterFire(w.runs[r], w'.runs[r], w.clock, w.fires[r]);
    }
    forall u | Owned(w'.runs, SCAN, u) && w'.newest != Some(u)
      ensures w'.runs[u].Terminal() && (w'.pc.Created? || u in Doomed(w'.pc))
    {
      assert Owned(w.runs, SCAN, u);
    }
  }

  lemma MoveKeepsPc(w: World, w': World, r: Uid)
    requires Ascending(w) && Remembered(w) && AtPc(w) && Moved(w, w', r)
    ensures Ascending(w') && Remembered(w') && AtPc(w')
  {
    MoveActivatesNone(w, w', r);
  }

  /** The steps that neither list, nor create, nor move a Run. */
  predicate IsOther(s: Step) {
    Smooth(s) && !s.ScanList? && !s.ScanCreate? && !s.ScanGcList? && !s.RunReconcile?
  }

  /** They leave the Runs of the Scan as they are, but for those that go as picked. */
  ghost predicate CalmRuns(w: World, w': World) {
    && (forall u :: u in w'.runs && u < w.nextUid ==> u in w.runs && w'.runs[u] == w.runs[u])
    && (forall u :: Owned(w'.runs, SCAN, u) ==> Owned(w.runs, SCAN, u) && w'.runs[u] == w.runs[u])
    && (forall u :: Owned(w'.runs, SCAN, u) && u in Doomed(w.pc) ==> u in Doomed(w'.pc))
  }

  /** They bring no new time into the status and no new fire. */
  ghost predicate CalmPc(w: World, w': World) {
    && w'.fires == w.fires && w'.newest == w.newest && w.nextUid <= w'.nextUid && w.clock <= w'.clock
    && Pending(w').lastRunTime == Pending(w).lastRunTime
    && (w'.pc.Due? || w'.pc.Created? || w.pc.Created? ==> w'.pc == w.pc) && (w'.pc.Admitted? ==> KeepsNone(w'.pc.spec))
  }

  lemma OtherCalmRuns(w: World, s: Step)
    requires Enabled(w, s) && IsOther(s)
    ensures CalmRuns(w, Apply(w, s))
  {
    var w' := Apply(w, s);
    if s.ScanDelete? {
      assert w.pc.excess == [w.pc.excess[0]] + w'.pc.excess;
    }
  }

  lemma OtherCalmPc(w: World, s: Step)
    requires AtPc(w) && Enabled(w, s) && IsOther(s) && (s.ScanRead? ==> KeepsNone(s.spec))
    ensures CalmPc(w, Apply(w, s))
  {
  }

  lemma CalmKeepsRuns(w: World, w': World)
    requires Ascending(w) && NewestStamped(w) && OthersGoing(w) && CalmPc(w, w') && CalmRuns(w, w')
    ensures NewestStamped(w') && OthersGoing(w')
  {
  }

  lemma CalmKeepsPc(w: World, w': World)
    requires Ascending(w) && Remembered(w) && AtPc(w) && CalmPc(w, w') && CalmRuns(w, w')
    ensures Ascending(w') && Remembered(w') && AtPc(w')
  {
    forall u | Active(w'.runs, SCAN, u) ensures Active(w.runs, SCAN, u) {
    }
  }

  lemma StepKeepsInv(w: World, s: Step)
    requires Inv(w) && Enabled(w, s) && Smooth(s) && (s.ScanRead? ==> KeepsNone(s.spec))
    ensures Inv(Apply(w, s))
  {
    var w' := Apply(w, s);
    StepKeepsBase(w, s);
    if s.RunReconcile? {
      assert RunOk(w, s.run);
      RunStepMoves(w, s);
      MoveKeepsRuns(w, w', s.run);
      MoveKeepsPc(w, w', s.run);
    } else if s.ScanList? {
      ListKeeps(w, s);
      ListKeepsPc(w, s);
    } else if s.ScanCreate? {
      CreateKeeps(w, w', w'.runs[w.nextUid], w.pc.fire);
    } else if s.ScanGcList? {
      GcListKeeps(w, s);
    } else {
      OtherKeeps(w, s);
    }
  }

  lemma OtherKeeps(w: World, s: Step)
    requires Inv(w) && Enabled(w, s) && IsOther(s) && (s.ScanRead? ==> KeepsNone(s.spec))
    ensures var w' := Apply(w, s); Ascending(w') && NewestStamped(w') && OthersGoing(w') && Remembered(w') && AtPc(w')
  {
    OtherCalmRuns(w, s);
    OtherCalmPc(w, s);
    CalmKeepsPc(w, Apply(w, s));
    CalmKeepsRuns(w, Apply(w, s));
  }

  lemma {:induction false} AlwaysInv(steps: seq<Step>, spec: ScanSpec)
    requires Feasible(steps) && Uses(steps, spec) && AllSmooth(steps) && KeepsNone(spec)
    ensures Inv(After(steps))
  {
    if steps != [] {
      AlwaysInv(steps[..|steps| - 1], spec);
      StepKeepsInv(After(steps[..|steps| - 1]), steps[|steps| - 1]);
    }
  }

  lemma KeepsNoneDistinct(spec: ScanSpec, w: World)
    requires KeepsNone(spec) && Reaches(spec, true, w)
    ensures Distinct(w)
  {
    var steps: seq<Step> :| Feasible(steps) && Uses(steps, spec) && AllSmooth(steps) && After(steps) == w;
    AlwaysInv(steps, spec);
    forall u, v | u in w.fires && v in w.fires && u != v ensures w.fires[u] != w.fires[v] {
      assert u < v || v < u;
    }
  }

  /** Concurrency is forbidden, and the Scan keeps ended Runs of both kinds or of neither. */
  predicate Even(spec: ScanSpec) {
    spec.policy != Allow && (spec.SuccessLimit() == 0 <==> spec.FailLimit() == 0)
  }

  /**
    When every call and every write succeeds, a Scan never runs a fire twice if and only if its policy is not
    Allow and either both history limits are zero or neither is.
  */
  lemma NeverRepeatsSmoothlyExactlyWhenEven(spec: ScanSpec)
    requires Operational(spec)
    ensures NeverRepeats(spec, true) <==> Even(spec)
  {
    if spec.policy == Allow {
      AllowRepeatsWithoutLoss(spec);
    } else if SchedulerOrder.Strict(spec) {
      forall w | Reaches(spec, true, w) ensures Distinct(w) {
        StrictDistinct(spec, true, w);
      }
    } else if KeepsNone(spec) {
      forall w | Reaches(spec, true, w) ensures Distinct(w) {
        KeepsNoneDistinct(spec, w);
      }
    } else if spec.FailLimit() == 0 {
      OneLimitZeroRepeatsWithoutLoss(spec, RunModel.Succeeded, RunModel.Failed);
    } else {
      OneLimitZeroRepeatsWithoutLoss(spec, RunModel.Failed, RunModel.Succeeded);
    }
  }
}
