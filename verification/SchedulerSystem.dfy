/**
  One Scan with its Runs as a transition system. A Scan reconcile is broken into the calls it makes, so
  that Run reconciles, Job progress, other Scans and the clock can come in between; its own status write
  can be lost, and the controller can crash at any point.
*/
module SchedulerSystem {
  import opened Prelude
  import opened Cron
  import opened ScanModel
  import RunModel

  /** The UID of the Scan in question. */
  const SCAN: Uid := 0

  /** How far the Scan reconcile in progress has come, with its copy of the status. */
  datatype Pc =
    | Idle
    | Admitted(spec: ScanSpec, now: int, local: ScanStatus)
    | Due(spec: ScanSpec, local: ScanStatus, fire: int)
    | Created(spec: ScanSpec, local: ScanStatus)
    | Pruning(local: ScanStatus, excess: seq<Uid>)
    | Writing(local: ScanStatus)

  /**
    `status` is the stored status. `fires`, `done` and `newest` record, for the proofs, the fire time of
    every Run the Scan ever created, the completion time of every one that ended, and the last one created.
  */
  datatype World = World(
    clock: int,
    status: ScanStatus,
    pc: Pc,
    runs: Runs,
    cluster: RunModel.Cluster,
    nextUid: Uid,
    fires: map<Uid, int>,
    done: map<Uid, int>,
    newest: Option<Uid>)

  const START: World := World(0, NEW_SCAN, Idle, map[], RunModel.Cluster(map[], map[], map[]), 1, map[], map[], None)

  datatype Step =
    | Tick(now: int)
    | ScanRead(spec: ScanSpec, platform: Platform)
    | ScanList(listing: seq<Uid>, missed: Option<int>, next: int)
    | ScanListFails
    | ScanCreate(name: string, write: RunModel.Write)
    | ScanGcList(succeeded: seq<Uid>, failed: seq<Uid>)
    | ScanGcListFails
    | ScanDelete(write: RunModel.Write)
    | ScanPruned
    | ScanWrite(persisted: bool)
    | ScanCrash
    | RunReconcile(run: Uid, env: RunModel.Env, persisted: bool)
    | IndexCompletes(job: string, index: nat)
    | JobFails(job: string, pods: nat)
    | ForeignCreate(runSpec: RunModel.RunSpec, owners: set<Uid>)
    | ForeignDelete(run: Uid)

  /** The API server accepts a new Run only under a name that no other Run has. */
  predicate FreshName(runs: Runs, name: string) {
    forall u :: u in runs ==> runs[u].spec.name != name
  }

  ghost predicate Enabled(w: World, s: Step) {
    match s
    case Tick(now) => w.clock <= now
    case ScanRead(spec, _) => w.pc.Idle? && spec.Valid()
    case ScanList(listing, missed, next) =>
      w.pc.Admitted? && w.pc.spec.schedule.Some? && IsListing(w.runs, listing) &&
      var start := StartFrom(Refreshed(w.pc.local, w.runs, SCAN, listing).lastRunTime, w.pc.now);
      IsMissed(w.pc.spec.schedule.value, start, w.pc.now, missed) && IsNext(w.pc.spec.schedule.value, start, w.pc.now, next)
    case ScanListFails => w.pc.Admitted?
    case ScanCreate(name, write) => w.pc.Due? && (write.Rejected? || FreshName(w.runs, name))
    case ScanGcList(succeeded, failed) =>
      w.pc.Created? && IsOrder(w.runs, SCAN, RunModel.Succeeded, succeeded) && IsOrder(w.runs, SCAN, RunModel.Failed, failed)
    case ScanGcListFails => w.pc.Created?
    case ScanDelete(_) => w.pc.Pruning? && w.pc.excess != []
    case ScanPruned => w.pc.Pruning? && w.pc.excess == []
    case ScanWrite(_) => w.pc.Writing?
    case ScanCrash => true
    case RunReconcile(u, env, _) =>
      u in w.runs && env.ClockRuns() && w.runs[u].touched <= env.began && env.workersAt <= w.clock
    case IndexCompletes(job, index) => RunModel.IndexCanComplete(w.cluster, job, index)
    case JobFails(job, _) => job in w.cluster.jobs
    case ForeignCreate(runSpec, owners) => SCAN !in owners && FreshName(w.runs, runSpec.name)
    case ForeignDelete(u) => u in w.runs && SCAN !in w.runs[u].owners
  }

  ghost function Apply(w: World, s: Step): World
    requires Enabled(w, s)
  {
    match s
    case Tick(now) => w.(clock := now)
    case ScanRead(spec, platform) =>
      w.(pc := if Proceeds(spec, platform) then Admitted(spec, w.clock, w.status) else Writing(Stopped(w.status, spec, platform)))
    case ScanList(listing, missed, next) => w.(pc := Decided(w.pc, w.runs, listing, missed, next))
    case ScanListFails => w.(pc := Writing(w.pc.local))
    case ScanCreate(name, write) => if write.Rejected? then w.(pc := Writing(w.pc.local)) else WithRun(w, name, write.Applied?)
    case ScanGcList(succeeded, failed) =>
      w.(pc := Pruning(w.pc.local, Excess(succeeded, w.pc.spec.SuccessLimit()) + Excess(failed, w.pc.spec.FailLimit())))
    case ScanGcListFails => w.(pc := Writing(w.pc.local))
    case ScanDelete(write) =>
      w.(runs := if write.Rejected? then w.runs else w.runs - {w.pc.excess[0]},
         pc := if write.Applied? then w.pc.(excess := w.pc.excess[1..]) else Writing(w.pc.local))
    case ScanPruned => w.(pc := Writing(Marked(w.pc.local, TypeScheduled, true, NextRunComputed)))
    case ScanWrite(persisted) => w.(status := if persisted then w.pc.local else w.status, pc := Idle)
    case ScanCrash => w.(pc := Idle)
    case RunReconcile(u, env, persisted) =>
      var run := w.runs[u];
      Settled(w, u, RunModel.Reconcile(run.spec, run.status, w.cluster, env), persisted)
    case IndexCompletes(job, index) => w.(cluster := RunModel.WithIndexDone(w.cluster, job, index))
    case JobFails(job, pods) => w.(cluster := RunModel.WithJobFailed(w.cluster, job, pods))
    case ForeignCreate(spec, owners) =>
      w.(runs := w.runs[w.nextUid := RunObject(spec, owners, Stored(w.clock), None, RunModel.INITIAL, w.clock)],
         nextUid := w.nextUid + 1)
    case ForeignDelete(u) => w.(runs := w.runs - {u})
  }

  /** Refresh from the list, then wait, skip or go on to create. */
  ghost function Decided(pc: Pc, runs: Runs, listing: seq<Uid>, missed: Option<int>, next: int): Pc
    requires pc.Admitted?
  {
    var local := Planned(pc.local, runs, SCAN, listing, next);
    if missed.None? || ShouldSkip(pc.spec.policy, local) then Writing(Marked(local, TypeScheduled, true, NextRunComputed))
    else Due(pc.spec, local, missed.value)
  }

  /** The Run exists; the controller knows only if the reply came back. */
  ghost function WithRun(w: World, name: string, acknowledged: bool): World
    requires w.pc.Due?
  {
    var u := w.nextUid;
    w.(runs := w.runs[u := NewRun(w.pc.spec, SCAN, name, w.pc.fire, w.clock)],
       nextUid := u + 1,
       fires := w.fires[u := w.pc.fire],
       newest := Some(u),
       pc := if acknowledged then Created(w.pc.spec, Fired(w.pc.local, u, w.pc.fire)) else Writing(w.pc.local))
  }

  /** The end of a Run reconcile. */
  ghost function Settled(w: World, u: Uid, o: RunModel.Outcome, persisted: bool): World
    requires u in w.runs
  {
    var run := w.runs[u];
    var st := if persisted then RunModel.Persist(o.status) else run.status;
    var ends := SCAN in run.owners && RunModel.IsTerminal(st.phase) && !run.Terminal() && st.completionTime.Some?;
    w.(runs := w.runs[u := run.(status := st, touched := w.clock)],
       cluster := o.cluster,
       done := if ends then w.done[u := st.completionTime.value] else w.done)
  }

  // ---------- histories ----------

  ghost predicate Feasible(steps: seq<Step>)
    decreases |steps|, 0
  {
    steps == [] || (Feasible(steps[..|steps| - 1]) && Enabled(After(steps[..|steps| - 1]), steps[|steps| - 1]))
  }

  ghost function After(steps: seq<Step>): World
    requires Feasible(steps)
    decreases |steps|, 1
  {
    if steps == [] then START else Apply(After(steps[..|steps| - 1]), steps[|steps| - 1])
  }

  /** A history goes on with any step that is possible after it. */
  lemma OneMoreStep(steps: seq<Step>, s: Step)
    requires Feasible(steps) && Enabled(After(steps), s)
    ensures Feasible(steps + [s]) && After(steps + [s]) == Apply(After(steps), s)
  {
    var more := steps + [s];
    assert more[..|more| - 1] == steps && more[|more| - 1] == s;
  }

  // ---------- what holds whatever the specs are ----------

  ghost predicate RunOk(w: World, u: Uid)
    requires u in w.runs
  {
    var run := w.runs[u];
    && u < w.nextUid && run.touched <= w.clock
    && RunModel.WellFormed(run.status) && RunModel.StampsBy(run.status, run.touched)
    && RunModel.Persist(run.status) == run.status
  }

  ghost predicate Prunable(w: World, u: Uid) {
    u < w.nextUid && (u in w.runs ==> Owned(w.runs, SCAN, u) && w.runs[u].Terminal())
  }

  /** Uids are fresh, every Run is well formed, and no Run up for deletion is anything but terminal and owned. */
  ghost predicate Base(w: World) {
    && (forall u :: u in w.runs ==> RunOk(w, u))
    && (w.pc.Admitted? ==> w.pc.now <= w.clock && w.pc.spec.Valid())
    && (w.pc.Pruning? ==> forall u :: u in w.pc.excess ==> Prunable(w, u))
  }

  /** A Run reconcile changes only the status of its own Run: it stays terminal if it was, and ends with a stamp. */
  ghost predicate RunMoves(run: RunObject, run': RunObject, clock: int) {
    && run'.spec == run.spec && run'.owners == run.owners && run'.created == run.created
    && run'.scheduledFor == run.scheduledFor && run'.touched == clock
    && RunModel.WellFormed(run'.status) && RunModel.StampsBy(run'.status, clock) && RunModel.Persist(run'.status) == run'.status
    && (run.Terminal() ==> run'.status == run.status)
    && (!run.Terminal() && run'.Terminal() ==>
          run'.status.completionTime.Some? && exists t :: run.touched <= t <= clock && run'.status.completionTime.value == Stored(t))
  }

  /** `w'` is `w` after a reconcile of Run `r`. */
  ghost predicate Moved(w: World, w': World, r: Uid) {
    && r in w.runs && w'.runs.Keys == w.runs.Keys && RunMoves(w.runs[r], w'.runs[r], w.clock)
    && (forall u :: u in w.runs && u != r ==> w'.runs[u] == w.runs[u])
    && w' == w.(runs := w'.runs, cluster := w'.cluster, done := w'.done)
    && w'.done == if SCAN in w.runs[r].owners && w'.runs[r].Terminal() && !w.runs[r].Terminal()
                  then w.done[r := w'.runs[r].status.completionTime.value] else w.done
  }

  lemma RunStepMoves(w: World, s: Step)
    requires s.RunReconcile? && Enabled(w, s) && RunOk(w, s.run)
    ensures Moved(w, Apply(w, s), s.run)
  {
    var run := w.runs[s.run];
    RunModel.StampsLater(run.status, run.touched, s.env.began);
    RunModel.ReconcileSound(run.spec, run.status, w.cluster, s.env);
    SettledMoves(w, s.run, s.env, RunModel.Reconcile(run.spec, run.status, w.cluster, s.env), s.persisted);
  }

  lemma SettledMoves(w: World, u: Uid, env: RunModel.Env, o: RunModel.Outcome, persisted: bool)
    requires u in w.runs && RunOk(w, u) && env.ClockRuns() && w.runs[u].touched <= env.began && env.workersAt <= w.clock
    requires RunModel.Sound(w.runs[u].spec, w.runs[u].status, w.cluster, env, o)
    ensures RunMoves(w.runs[u], Settled(w, u, o, persisted).runs[u], w.clock)
  {
    var run := w.runs[u];
    RunModel.StampsLater(o.status, env.workersAt, w.clock);
    RunModel.StampsLater(run.status, run.touched, w.clock);
    RunModel.PersistKeepsWellFormed(o.status, w.clock);
    RunModel.PersistIdempotent(o.status);
    assert run.touched <= env.stamped <= w.clock;
  }

  lemma StepKeepsBase(w: World, s: Step)
    requires Base(w) && Enabled(w, s)
    ensures Base(Apply(w, s))
  {
    if s.RunReconcile? {
      assert RunOk(w, s.run);
      RunStepMoves(w, s);
      RunMovesKeepsBase(w, Apply(w, s), s.run);
    } else {
      QuietKeepsBase(w, s);
    }
  }

  /** Apart from Run reconciles, a step leaves each Run as it is, deletes it, or creates it new. */
  ghost predicate RunsStay(w: World, w': World) {
    && w.clock <= w'.clock && w.nextUid <= w'.nextUid
    && forall u :: u in w'.runs ==>
         || (u in w.runs && w'.runs[u] == w.runs[u])
         || (w.nextUid <= u < w'.nextUid && w'.runs[u].status == RunModel.INITIAL && w'.runs[u].touched == w'.clock)
  }

  lemma QuietStays(w: World, s: Step)
    requires Enabled(w, s) && !s.RunReconcile?
    ensures RunsStay(w, Apply(w, s))
  {
  }

  lemma StayKeepsRuns(w: World, w': World, u: Uid)
    requires Base(w) && RunsStay(w, w') && u in w'.runs
    ensures RunOk(w', u)
  {
    assert u in w.runs ==> RunOk(w, u);
  }

  lemma StayKeepsPrunable(w: World, w': World, u: Uid)
    requires RunsStay(w, w') && Prunable(w, u)
    ensures Prunable(w', u)
  {
  }

  lemma QuietKeepsBase(w: World, s: Step)
    requires Base(w) && Enabled(w, s) && !s.RunReconcile?
    ensures Base(Apply(w, s))
  {
    var w' := Apply(w, s);
    QuietStays(w, s);
    forall u | u in w'.runs ensures RunOk(w', u) {
      StayKeepsRuns(w, w', u);
    }
    if w'.pc.Pruning? {
      forall u | u in w'.pc.excess ensures Prunable(w', u) {
        if s.ScanGcList? {
          GcListPrunable(w, s, u);
        } else {
          assert u in w.pc.excess;
        }
        StayKeepsPrunable(w, w', u);
      }
    }
  }

  lemma GcListPrunable(w: World, s: Step, u: Uid)
    requires Base(w) && s.ScanGcList? && Enabled(w, s) && u in Apply(w, s).pc.excess
    ensures Prunable(w, u)
  {
    ExcessIsOldest(w.runs, SCAN, RunModel.Succeeded, s.succeeded, w.pc.spec.SuccessLimit());
    ExcessIsOldest(w.runs, SCAN, RunModel.Failed, s.failed, w.pc.spec.FailLimit());
    assert InClass(w.runs, SCAN, RunModel.Succeeded, u) || InClass(w.runs, SCAN, RunModel.Failed, u);
    assert RunOk(w, u);
  }

  lemma RunMovesKeepsBase(w: World, w': World, run: Uid)
    requires Base(w) && Moved(w, w', run)
    ensures Base(w')
  {
    forall u | u in w'.runs ensures RunOk(w', u) {
      assert RunOk(w, u);
    }
    if w.pc.Pruning? {
      forall u | u in w.pc.excess ensures Prunable(w', u) {
        assert Prunable(w, u);
      }
    }
  }

  lemma {:induction false} AlwaysBase(steps: seq<Step>)
    requires Feasible(steps)
    ensures Base(After(steps))
  {
    if steps != [] {
      AlwaysBase(steps[..|steps| - 1]);
      StepKeepsBase(After(steps[..|steps| - 1]), steps[|steps| - 1]);
    }
  }

  // ---------- at most one active Run ----------

  /** The Scan's policy is not Allow in any of its reconciles; everything else about the spec may change. */
  ghost predicate NeverAllows(steps: seq<Step>) {
    forall i :: 0 <= i < |steps| && steps[i].ScanRead? ==> steps[i].spec.policy != Allow
  }

  ghost predicate OneActive(w: World) {
    && (w.pc.Admitted? || w.pc.Due? ==> w.pc.spec.policy != Allow)
    && (w.pc.Due? ==> forall u :: !Active(w.runs, SCAN, u))
    && (forall u, v :: Active(w.runs, SCAN, u) && Active(w.runs, SCAN, v) ==> u == v)
  }

  lemma StepKeepsOneActive(w: World, s: Step)
    requires Base(w) && OneActive(w) && Enabled(w, s) && (s.ScanRead? ==> s.spec.policy != Allow)
    ensures OneActive(Apply(w, s))
  {
    var w' := Apply(w, s);
    if s.RunReconcile? {
      assert RunOk(w, s.run);
      RunStepMoves(w, s);
      MoveActivatesNone(w, w', s.run);
    } else {
      QuietKeepsOneActive(w, s);
    }
  }

  lemma MoveActivatesNone(w: World, w': World, r: Uid)
    requires Moved(w, w', r)
    ensures forall u :: Active(w'.runs, SCAN, u) ==> Active(w.runs, SCAN, u)
  {
  }

  lemma QuietActivates(w: World, s: Step)
    requires Enabled(w, s) && !s.RunReconcile?
    ensures forall u :: Active(Apply(w, s).runs, SCAN, u) ==> Active(w.runs, SCAN, u) || (s.ScanCreate? && u == w.nextUid)
  {
  }

  /** A forbidding Scan goes on to create only when the list shows none of its Runs active. */
  lemma DueMeansNoneActive(w: World, s: Step)
    requires s.ScanList? && Enabled(w, s) && Apply(w, s).pc.Due? && w.pc.spec.policy != Allow
    ensures forall u :: !Active(w.runs, SCAN, u)
  {
    ActiveOfMeaning(w.runs, SCAN, s.listing);
  }

  lemma QuietKeepsOneActive(w: World, s: Step)
    requires OneActive(w) && Enabled(w, s) && (s.ScanRead? ==> s.spec.policy != Allow) && !s.RunReconcile?
    ensures OneActive(Apply(w, s))
  {
    QuietActivates(w, s);
    if s.ScanList? && Apply(w, s).pc.Due? {
      DueMeansNoneActive(w, s);
    }
  }

  /** In every interleaving, with status writes lost and specs edited at will, at most one Run of the Scan is active. */
  lemma {:induction false} AtMostOneActive(steps: seq<Step>)
    requires Feasible(steps) && NeverAllows(steps)
    ensures OneActive(After(steps))
    ensures forall u, v :: Active(After(steps).runs, SCAN, u) && Active(After(steps).runs, SCAN, v) ==> u == v
  {
    if steps != [] {
      var before := steps[..|steps| - 1];
      AtMostOneActive(before);
      AlwaysBase(before);
      StepKeepsOneActive(After(before), steps[|steps| - 1]);
    }
  }
}
