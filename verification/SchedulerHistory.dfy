/** What the history limits keep: how many Runs there can be, and that the last success is never forgotten. */
module SchedulerHistory {
  import opened Prelude
  import opened ScanModel
  import opened SchedulerSystem
  import RunModel

  // ---------- the last successful time ----------

  ghost predicate KeepsSuccess(steps: seq<Step>) {
    forall i :: 0 <= i < |steps| && steps[i].ScanRead? ==> steps[i].spec.SuccessLimit() >= 1
  }

  /** Some succeeded Run of the Scan outside `except` ended no earlier than `t`. */
  ghost predicate Witnessed(runs: Runs, except: seq<Uid>, t: Option<int>) {
    t.None? || exists u :: u !in except && Counts(runs, SCAN, true, u) && t.value <= runs[u].status.completionTime.value
  }

  function Doomed(pc: Pc): seq<Uid> {
    if pc.Pruning? then pc.excess else []
  }

  /** The copy of the status a reconcile in progress will write. */
  function Pending(w: World): ScanStatus {
    if w.pc.Idle? then w.status else w.pc.local
  }

  ghost predicate SuccessKept(w: World) {
    && (w.pc.Admitted? || w.pc.Due? || w.pc.Created? ==> w.pc.spec.SuccessLimit() >= 1)
    && NoLater(w.status.lastSuccessfulRunTime, Pending(w).lastSuccessfulRunTime)
    && Witnessed(w.runs, Doomed(w.pc), Pending(w).lastSuccessfulRunTime)
  }

  lemma WitnessStays(runs: Runs, except: seq<Uid>, t: Option<int>, runs': Runs, except': seq<Uid>)
    requires Witnessed(runs, except, t)
    requires forall u :: Counts(runs, SCAN, true, u) && u !in except ==>
               u !in except' && u in runs' && runs'[u].owners == runs[u].owners && runs'[u].status == runs[u].status
    ensures Witnessed(runs', except', t)
  {
    if t.Some? {
      var u :| u !in except && Counts(runs, SCAN, true, u) && t.value <= runs[u].status.completionTime.value;
      assert u !in except' && Counts(runs', SCAN, true, u) && t.value <= runs'[u].status.completionTime.value;
    }
  }

  /** The refreshed time is witnessed, and no earlier than a witnessed one before. */
  lemma RefreshedWitnessed(st: ScanStatus, runs: Runs, listing: seq<Uid>)
    requires IsListing(runs, listing) && Witnessed(runs, [], st.lastSuccessfulRunTime)
    ensures var t := Refreshed(st, runs, SCAN, listing).lastSuccessfulRunTime;
            Witnessed(runs, [], t) && NoLater(st.lastSuccessfulRunTime, t)
  {
    LatestOfMeaning(runs, SCAN, true, listing);
    var was := st.lastSuccessfulRunTime;
    if was.Some? {
      var u :| Counts(runs, SCAN, true, u) && was.value <= runs[u].status.completionTime.value;
      assert u in listing;
    }
    var r := LatestOf(runs, SCAN, true, listing);
    if r.Some? {
      var u :| u in listing && Counts(runs, SCAN, true, u) && runs[u].status.completionTime == r;
      assert u !in [] && Counts(runs, SCAN, true, u) && r.value <= runs[u].status.completionTime.value;
    }
  }

  /** A success up for deletion leaves behind the most recent one. */
  lemma MostRecentStays(runs: Runs, succeeded: seq<Uid>, keep: nat, u: Uid) returns (kept: Uid)
    requires IsOrder(runs, SCAN, RunModel.Succeeded, succeeded) && InClass(runs, SCAN, RunModel.Succeeded, u) && keep >= 1
    ensures InClass(runs, SCAN, RunModel.Succeeded, kept) && kept !in Excess(succeeded, keep) && (kept == u || NoOlder(runs, kept, u))
  {
    ExcessIsOldest(runs, SCAN, RunModel.Succeeded, succeeded, keep);
    assert u in succeeded;
    kept := if u in Excess(succeeded, keep) then succeeded[0] else u;
    assert kept in succeeded;
  }

  /** So pruning leaves a witness. */
  lemma PruningWitnessed(w: World, succeeded: seq<Uid>, failed: seq<Uid>, keep: nat, keepFailed: nat, t: Option<int>)
    requires Base(w) && Witnessed(w.runs, [], t) && keep >= 1
    requires IsOrder(w.runs, SCAN, RunModel.Succeeded, succeeded) && IsOrder(w.runs, SCAN, RunModel.Failed, failed)
    ensures Witnessed(w.runs, Excess(succeeded, keep) + Excess(failed, keepFailed), t)
  {
    ExcessIsOldest(w.runs, SCAN, RunModel.Failed, failed, keepFailed);
    if t.Some? {
      var u :| Counts(w.runs, SCAN, true, u) && t.value <= w.runs[u].status.completionTime.value;
      var kept := MostRecentStays(w.runs, succeeded, keep, u);
      assert RunOk(w, kept) && RunOk(w, u);
      assert kept !in Excess(succeeded, keep) + Excess(failed, keepFailed);
      assert Counts(w.runs, SCAN, true, kept) && t.value <= w.runs[kept].status.completionTime.value;
    }
  }

  lemma ListKeepsSuccess(w: World, s: Step)
    requires SuccessKept(w) && s.ScanList? && Enabled(w, s)
    ensures SuccessKept(Apply(w, s))
  {
    RefreshedWitnessed(w.pc.local, w.runs, s.listing);
  }

  lemma GcListKeepsSuccess(w: World, s: Step)
    requires Base(w) && SuccessKept(w) && s.ScanGcList? && Enabled(w, s)
    ensures SuccessKept(Apply(w, s))
  {
    PruningWitnessed(w, s.succeeded, s.failed, w.pc.spec.SuccessLimit(), w.pc.spec.FailLimit(), w.pc.local.lastSuccessfulRunTime);
  }

  /** The other steps bring no new time into the status. */
  lemma PendingStep(w: World, s: Step)
    requires Enabled(w, s) && !s.RunReconcile? && !s.ScanList? && !s.ScanGcList?
    requires NoLater(w.status.lastSuccessfulRunTime, Pending(w).lastSuccessfulRunTime)
    ensures var w' := Apply(w, s);
            && NoLater(w'.status.lastSuccessfulRunTime, Pending(w').lastSuccessfulRunTime)
            && NoLater(Pending(w').lastSuccessfulRunTime, Pending(w).lastSuccessfulRunTime)
            && (w'.pc.Admitted? || w'.pc.Due? || w'.pc.Created? ==>
                  if s.ScanRead? then w'.pc.spec == s.spec else (w.pc.Admitted? || w.pc.Due? || w.pc.Created?) && w'.pc.spec == w.pc.spec)
  {
  }

  lemma OtherKeepsSuccess(w: World, s: Step)
    requires Base(w) && SuccessKept(w) && Enabled(w, s) && !s.RunReconcile? && !s.ScanList? && !s.ScanGcList?
    requires s.ScanRead? ==> s.spec.SuccessLimit() >= 1
    ensures SuccessKept(Apply(w, s))
  {
    var w' := Apply(w, s);
    PendingStep(w, s);
    SurvivorsStay(w, s);
    assert forall u :: Counts(w.runs, SCAN, true, u) && u !in Doomed(w.pc) ==> Safe(w, u);
    WitnessStays(w.runs, Doomed(w.pc), Pending(w).lastSuccessfulRunTime, w'.runs, Doomed(w'.pc));
    WitnessEarlier(w, w');
  }

  lemma WitnessEarlier(w: World, w': World)
    requires Witnessed(w'.runs, Doomed(w'.pc), Pending(w).lastSuccessfulRunTime)
    requires NoLater(Pending(w').lastSuccessfulRunTime, Pending(w).lastSuccessfulRunTime)
    ensures Witnessed(w'.runs, Doomed(w'.pc), Pending(w').lastSuccessfulRunTime)
  {
    var t := Pending(w).lastSuccessfulRunTime;
    if Pending(w').lastSuccessfulRunTime.Some? {
      var u :| u !in Doomed(w'.pc) && Counts(w'.runs, SCAN, true, u) && t.value <= w'.runs[u].status.completionTime.value;
      assert Pending(w').lastSuccessfulRunTime.value <= w'.runs[u].status.completionTime.value;
    }
  }

  /** A Run that counts and is not picked for deletion. */
  ghost predicate Safe(w: World, u: Uid) {
    Counts(w.runs, SCAN, true, u) && u !in Doomed(w.pc)
  }

  lemma DeleteSpares(w: World, s: Step, u: Uid)
    requires s.ScanDelete? && Enabled(w, s) && Safe(w, u)
    ensures Safe(Apply(w, s), u) && Apply(w, s).runs[u] == w.runs[u]
  {
    assert w.pc.excess[0] in w.pc.excess;
  }

  lemma OthersSpare(w: World, s: Step, u: Uid)
    requires !s.RunReconcile? && !s.ScanGcList? && !s.ScanDelete? && Enabled(w, s) && Safe(w, u) && u < w.nextUid
    ensures Safe(Apply(w, s), u) && Apply(w, s).runs[u] == w.runs[u]
  {
  }

  /** No step but pruning deletes a Run of the Scan, and pruning deletes only what it had picked. */
  lemma SurvivorsStay(w: World, s: Step)
    requires Base(w) && Enabled(w, s) && !s.RunReconcile? && !s.ScanList? && !s.ScanGcList?
    ensures forall u :: Safe(w, u) ==> Safe(Apply(w, s), u) && Apply(w, s).runs[u] == w.runs[u]
  {
    forall u | Safe(w, u) ensures Safe(Apply(w, s), u) && Apply(w, s).runs[u] == w.runs[u] {
      assert RunOk(w, u);
      if s.ScanDelete? {
        DeleteSpares(w, s, u);
      } else {
        OthersSpare(w, s, u);
      }
    }
  }

  lemma MoveKeepsSuccess(w: World, w': World, r: Uid)
    requires SuccessKept(w) && Moved(w, w', r)
    ensures SuccessKept(w')
  {
    WitnessStays(w.runs, Doomed(w.pc), Pending(w).lastSuccessfulRunTime, w'.runs, Doomed(w.pc));
  }

  lemma StepKeepsSuccess(w: World, s: Step)
    requires Base(w) && SuccessKept(w) && Enabled(w, s) && (s.ScanRead? ==> s.spec.SuccessLimit() >= 1)
    ensures SuccessKept(Apply(w, s))
  {
    if s.RunReconcile? {
      assert RunOk(w, s.run);
      RunStepMoves(w, s);
      MoveKeepsSuccess(w, Apply(w, s), s.run);
    } else if s.ScanList? {
      ListKeepsSuccess(w, s);
    } else if s.ScanGcList? {
      GcListKeepsSuccess(w, s);
    } else {
      OtherKeepsSuccess(w, s);
    }
  }

  /** The stored status changes only by a write of the pending copy. */
  lemma StoredIsOldOrPending(w: World, s: Step)
    requires Enabled(w, s)
    ensures Apply(w, s).status == w.status || Apply(w, s).status == Pending(w)
  {
  }

  /** While at least one success is kept, the stored time of the last success never moves back, under any policy. */
  lemma {:induction false} LastSuccessNeverMovesBack(steps: seq<Step>, k: nat)
    requires Feasible(steps) && KeepsSuccess(steps) && k <= |steps|
    ensures SuccessKept(After(steps))
    ensures Feasible(steps[..k]) && NoLater(After(steps[..k]).status.lastSuccessfulRunTime, After(steps).status.lastSuccessfulRunTime)
  {
    if k == |steps| {
      assert steps[..k] == steps;
    }
    if steps != [] {
      var before := steps[..|steps| - 1];
      AlwaysBase(before);
      if k < |steps| {
        LastSuccessNeverMovesBack(before, k);
        assert before[..k] == steps[..k];
      } else {
        LastSuccessNeverMovesBack(before, 0);
      }
      StepKeepsSuccess(After(before), steps[|steps| - 1]);
      StoredIsOldOrPending(After(before), steps[|steps| - 1]);
    }
  }

  // ---------- the reference to the last Run ----------

  /** References name Runs the Scan created, and the one recorded on creation is the newest, at its own fire. */
  ghost predicate RefsOk(w: World) {
    && (forall u :: u in w.fires ==> u < w.nextUid)
    && (Pending(w).lastRunRef.Some? ==> Pending(w).lastRunRef.value in w.fires)
    && NoLater(w.status.lastRunRef, Pending(w).lastRunRef)
    && (w.status.lastRunRef.Some? ==> w.status.lastRunRef.value in w.fires)
    && (w.pc.Created? ==>
          && w.newest.Some? && w.newest.value in w.fires && w.pc.local.lastRunRef == w.newest
          && w.pc.local.lastRunTime == Some(w.fires[w.newest.value]))
  }

  ghost predicate SameRefs(w: World, w': World) {
    w'.fires == w.fires && w'.newest == w.newest && w'.status == w.status && w.nextUid <= w'.nextUid &&
    (w'.pc == w.pc || w'.pc.Idle? || (!w'.pc.Created? && Pending(w').lastRunRef == Pending(w).lastRunRef))
  }

  lemma SameKeepsRefs(w: World, w': World)
    requires RefsOk(w) && SameRefs(w, w')
    ensures RefsOk(w')
  {
  }

  /** Only a creation and the status write touch what the references depend on. */
  lemma OthersSameRefs(w: World, s: Step)
    requires Enabled(w, s) && !s.ScanCreate? && !s.ScanWrite?
    ensures SameRefs(w, Apply(w, s))
  {
  }

  lemma StepKeepsRefs(w: World, s: Step)
    requires RefsOk(w) && Enabled(w, s)
    ensures RefsOk(Apply(w, s)) && NoLater(w.status.lastRunRef, Apply(w, s).status.lastRunRef)
  {
    if !s.ScanCreate? && !s.ScanWrite? {
      OthersSameRefs(w, s);
      SameKeepsRefs(w, Apply(w, s));
    }
  }

  /**
    Under any policy and limits, the stored reference always names a Run that this Scan created and never goes
    back to an earlier one, whichever writes are lost.
  */
  lemma {:induction false} LastRefNeverMovesBack(steps: seq<Step>, k: nat)
    requires Feasible(steps) && k <= |steps|
    ensures RefsOk(After(steps))
    ensures Feasible(steps[..k]) && NoLater(After(steps[..k]).status.lastRunRef, After(steps).status.lastRunRef)
  {
    if k == |steps| {
      assert steps[..k] == steps;
    }
    if steps != [] {
      var before := steps[..|steps| - 1];
      LastRefNeverMovesBack(before, if k < |steps| then k else 0);
      assert k < |steps| ==> before[..k] == steps[..k];
      StepKeepsRefs(After(before), steps[|steps| - 1]);
    }
  }

  // ---------- how many Runs there can be ----------

  /** The Scan forbids concurrency, has fixed limits, and a reconcile that creates a Run finishes its pruning. */
  ghost predicate Finishes(w: World, s: Step, succ: nat, fail: nat) {
    match s
    case ScanRead(spec, _) => spec.policy != Allow && spec.SuccessLimit() == succ && spec.FailLimit() == fail
    case ScanCreate(_, write) => !write.ReplyLost?
    case ScanGcListFails => false
    case ScanDelete(write) => write.Applied?
    case ScanCrash => !w.pc.Created? && !w.pc.Pruning?
    case _ => true
  }

  ghost predicate AlwaysFinishes(steps: seq<Step>, succ: nat, fail: nat)
    requires Feasible(steps)
  {
    steps == [] ||
    (AlwaysFinishes(steps[..|steps| - 1], succ, fail) && Finishes(After(steps[..|steps| - 1]), steps[|steps| - 1], succ, fail))
  }

  /** Runs of one class, without the newest Run. */
  ghost function Older(w: World, phase: RunModel.Phase): set<Uid> {
    set u | u in w.runs && InClass(w.runs, SCAN, phase, u) && w.newest != Some(u)
  }

  ghost function AsSet(s: seq<Uid>): set<Uid> {
    set u | u in s
  }

  ghost predicate Tidy(w: World, phase: RunModel.Phase, keep: nat) {
    w.pc.Created? || |Older(w, phase) - AsSet(Doomed(w.pc))| <= keep
  }

  ghost predicate OldOnesEnded(w: World) {
    && (w.pc.Due? ==> forall u :: !Active(w.runs, SCAN, u))
    && (forall u: Uid :: Active(w.runs, SCAN, u) ==> w.newest == Some(u))
  }

  ghost predicate Limits(pc: Pc, succ: nat, fail: nat) {
    pc.Admitted? || pc.Due? || pc.Created? ==>
      pc.spec.policy != Allow && pc.spec.SuccessLimit() == succ && pc.spec.FailLimit() == fail
  }

  ghost predicate Bounded(w: World, succ: nat, fail: nat) {
    && OldOnesEnded(w) && Limits(w.pc, succ, fail)
    && Tidy(w, RunModel.Succeeded, succ) && Tidy(w, RunModel.Failed, fail)
  }

  /** At most `keep` of a class are not up for deletion. */
  lemma KeptFew(w: World, phase: RunModel.Phase, order: seq<Uid>, keep: nat, doomed: set<Uid>)
    requires IsOrder(w.runs, SCAN, phase, order) && AsSet(Excess(order, keep)) <= doomed
    ensures |Older(w, phase) - doomed| <= keep
  {
    var kept := order[..if |order| <= keep then |order| else keep];
    assert order == kept + Excess(order, keep);
    forall u | u in Older(w, phase) - doomed ensures u in AsSet(kept) {
      assert u in order && u !in Excess(order, keep);
    }
    SeqSetSize(kept);
    SubsetSize(Older(w, phase) - doomed, AsSet(kept));
  }

  lemma {:induction false} SeqSetSize(s: seq<Uid>)
    ensures |AsSet(s)| <= |s|
  {
    if s != [] {
      var last := |s| - 1;
      SeqSetSize(s[..last]);
      assert s == s[..last] + [s[last]];
      assert AsSet(s) == AsSet(s[..last]) + {s[last]};
    } else {
      assert AsSet(s) == {};
    }
  }

  lemma GcListTidy(w: World, s: Step, succ: nat, fail: nat)
    requires s.ScanGcList? && Enabled(w, s) && Limits(w.pc, succ, fail)
    ensures Tidy(Apply(w, s), RunModel.Succeeded, succ) && Tidy(Apply(w, s), RunModel.Failed, fail)
  {
    var w' := Apply(w, s);
    var doomed := AsSet(w'.pc.excess);
    assert AsSet(Excess(s.succeeded, succ)) <= doomed && AsSet(Excess(s.failed, fail)) <= doomed;
    assert Older(w', RunModel.Succeeded) == Older(w, RunModel.Succeeded) && Older(w', RunModel.Failed) == Older(w, RunModel.Failed);
    KeptFew(w, RunModel.Succeeded, s.succeeded, succ, doomed);
    KeptFew(w, RunModel.Failed, s.failed, fail, doomed);
  }

  /** The other steps of the Scan add no Run to a class except through `Created`. */
  lemma OtherTidy(w: World, s: Step, phase: RunModel.Phase, keep: nat, succ: nat, fail: nat)
    requires Base(w) && Enabled(w, s) && Finishes(w, s, succ, fail) && !s.RunReconcile? && !s.ScanGcList? && Tidy(w, phase, keep)
    requires RunModel.IsTerminal(phase)
    ensures Tidy(Apply(w, s), phase, keep)
  {
    var w' := Apply(w, s);
    if !w'.pc.Created? {
      NothingAdded(w, s, phase, succ, fail);
      SubsetSize(Older(w', phase) - AsSet(Doomed(w'.pc)), Older(w, phase) - AsSet(Doomed(w.pc)));
    }
  }

  /** Doomed Runs stay doomed until they are gone, unless the reconcile is cut short. */
  lemma DoomedStep(w: World, s: Step, succ: nat, fail: nat)
    requires Enabled(w, s) && Finishes(w, s, succ, fail) && !s.RunReconcile? && !s.ScanGcList? && !Apply(w, s).pc.Created?
    ensures !w.pc.Created? && Apply(w, s).newest == w.newest
    ensures forall u :: u in Apply(w, s).runs && u in Doomed(w.pc) ==> u in Doomed(Apply(w, s).pc)
  {
  }

  lemma NothingAdded(w: World, s: Step, phase: RunModel.Phase, succ: nat, fail: nat)
    requires Enabled(w, s) && Finishes(w, s, succ, fail) && !s.RunReconcile? && !s.ScanGcList?
    requires !Apply(w, s).pc.Created? && RunModel.IsTerminal(phase)
    ensures !w.pc.Created?
    ensures Older(Apply(w, s), phase) - AsSet(Doomed(Apply(w, s).pc)) <= Older(w, phase) - AsSet(Doomed(w.pc))
  {
    DoomedStep(w, s, succ, fail);
    QuietStays(w, s);
    StayAddsNone(w, Apply(w, s), phase);
  }

  lemma StayAddsNone(w: World, w': World, phase: RunModel.Phase)
    requires RunsStay(w, w') && w'.newest == w.newest && RunModel.IsTerminal(phase)
    requires forall u :: u in w'.runs && u in Doomed(w.pc) ==> u in Doomed(w'.pc)
    ensures Older(w', phase) - AsSet(Doomed(w'.pc)) <= Older(w, phase) - AsSet(Doomed(w.pc))
  {
  }

  lemma MoveTidy(w: World, w': World, r: Uid, phase: RunModel.Phase, keep: nat)
    requires OldOnesEnded(w) && Moved(w, w', r) && Tidy(w, phase, keep) && RunModel.IsTerminal(phase)
    ensures Tidy(w', phase, keep)
  {
    assert Active(w.runs, SCAN, r) ==> w.newest == Some(r);
    assert Older(w', phase) == Older(w, phase);
  }

  lemma QuietKeepsLimits(w: World, s: Step, succ: nat, fail: nat)
    requires Limits(w.pc, succ, fail) && Enabled(w, s) && Finishes(w, s, succ, fail) && !s.RunReconcile?
    ensures Limits(Apply(w, s).pc, succ, fail)
  {
  }

  lemma QuietKeepsEnded(w: World, s: Step, succ: nat, fail: nat)
    requires OldOnesEnded(w) && Limits(w.pc, succ, fail) && Enabled(w, s) && Finishes(w, s, succ, fail) && !s.RunReconcile?
    ensures OldOnesEnded(Apply(w, s))
  {
    QuietActivates(w, s);
    if s.ScanList? && Apply(w, s).pc.Due? {
      DueMeansNoneActive(w, s);
    }
  }

  lemma MoveKeepsBounded(w: World, w': World, r: Uid, succ: nat, fail: nat)
    requires Bounded(w, succ, fail) && Moved(w, w', r)
    ensures Bounded(w', succ, fail)
  {
    MoveActivatesNone(w, w', r);
    MoveTidy(w, w', r, RunModel.Succeeded, succ);
    MoveTidy(w, w', r, RunModel.Failed, fail);
  }

  lemma StepKeepsBounded(w: World, s: Step, succ: nat, fail: nat)
    requires Base(w) && Bounded(w, succ, fail) && Enabled(w, s) && Finishes(w, s, succ, fail)
    ensures Bounded(Apply(w, s), succ, fail)
  {
    if s.RunReconcile? {
      assert RunOk(w, s.run);
      RunStepMoves(w, s);
      MoveKeepsBounded(w, Apply(w, s), s.run, succ, fail);
    } else {
      QuietKeepsEnded(w, s, succ, fail);
      QuietKeepsLimits(w, s, succ, fail);
      if s.ScanGcList? {
        GcListTidy(w, s, succ, fail);
      } else {
        OtherTidy(w, s, RunModel.Succeeded, succ, succ, fail);
        OtherTidy(w, s, RunModel.Failed, fail, succ, fail);
      }
    }
  }

  lemma {:induction false} AlwaysBounded(steps: seq<Step>, succ: nat, fail: nat)
    requires Feasible(steps) && AlwaysFinishes(steps, succ, fail)
    ensures Bounded(After(steps), succ, fail)
  {
    if steps == [] {
      assert Older(START, RunModel.Succeeded) == {} && Older(START, RunModel.Failed) == {};
    } else {
      var before := steps[..|steps| - 1];
      AlwaysBounded(before, succ, fail);
      AlwaysBase(before);
      StepKeepsBounded(After(before), steps[|steps| - 1], succ, fail);
    }
  }

  /** The Runs the Scan owns. */
  ghost function OwnedRuns(w: World): set<Uid> {
    set u | u in w.runs && Owned(w.runs, SCAN, u)
  }

  lemma UnionSize(a: set<Uid>, b: set<Uid>)
    ensures |a + b| <= |a| + |b|
  {
    assert a + b == a + (b - a);
    assert |a + (b - a)| == |a| + |b - a|;
    SubsetSize(b - a, b);
  }

  lemma ThreeSets(all: set<Uid>, a: set<Uid>, b: set<Uid>, c: set<Uid>)
    requires forall u :: u in all ==> u in a || u in b || u in c
    ensures |all| <= |a| + |b| + |c|
  {
    SubsetSize(all, a + b + c);
    UnionSize(a, b);
    UnionSize(a + b, c);
  }

  ghost function NewestOf(w: World): set<Uid> {
    if w.newest.Some? then {w.newest.value} else {}
  }

  /** A Run of the Scan is the newest or has ended. */
  lemma OwnedIsOld(w: World, u: Uid)
    requires OldOnesEnded(w) && u in OwnedRuns(w)
    ensures u in Older(w, RunModel.Succeeded) || u in Older(w, RunModel.Failed) || u in NewestOf(w)
  {
    assert !Active(w.runs, SCAN, u) || w.newest == Some(u);
  }

  lemma NothingDoomed(w: World, phase: RunModel.Phase, keep: nat)
    requires Tidy(w, phase, keep) && !w.pc.Created? && !w.pc.Pruning?
    ensures |Older(w, phase)| <= keep
  {
    assert Older(w, phase) - AsSet(Doomed(w.pc)) == Older(w, phase);
  }

  lemma BoundedCount(w: World, succ: nat, fail: nat)
    requires Bounded(w, succ, fail) && !w.pc.Created? && !w.pc.Pruning?
    ensures |OwnedRuns(w)| <= succ + fail + 1
  {
    NothingDoomed(w, RunModel.Succeeded, succ);
    NothingDoomed(w, RunModel.Failed, fail);
    forall u | u in OwnedRuns(w)
      ensures u in Older(w, RunModel.Succeeded) || u in Older(w, RunModel.Failed) || u in NewestOf(w)
    {
      OwnedIsOld(w, u);
    }
    ThreeSets(OwnedRuns(w), Older(w, RunModel.Succeeded), Older(w, RunModel.Failed), NewestOf(w));
  }

  /** Whenever no reconcile is creating or pruning, the Scan owns at most one Run beyond its two limits. */
  lemma HistoryBounded(steps: seq<Step>, succ: nat, fail: nat)
    requires Feasible(steps) && AlwaysFinishes(steps, succ, fail)
    requires !After(steps).pc.Created? && !After(steps).pc.Pruning?
    ensures |OwnedRuns(After(steps))| <= succ + fail + 1
  {
    AlwaysBounded(steps, succ, fail);
    BoundedCount(After(steps), succ, fail);
  }
}
