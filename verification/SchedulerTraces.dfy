/** Histories that run a fire twice, with and without anything going wrong on the way. */
module SchedulerTraces {
  import opened Prelude
  import opened Cron
  import opened ScanModel
  import opened SchedulerSystem
  import RunModel
  import Names
  import ShardPlanner
  import ShardKeys
  import Slugs

  // ---------- what can be reached ----------

  /** Every reconcile of the Scan sees this spec. */
  ghost predicate Uses(steps: seq<Step>, spec: ScanSpec) {
    forall i :: 0 <= i < |steps| && steps[i].ScanRead? ==> steps[i].spec == spec
  }

  /** Every call of both controllers succeeds, no Job fails, nothing is lost, nobody crashes. */
  predicate Smooth(s: Step) {
    match s
    case ScanListFails | ScanGcListFails | ScanCrash | JobFails(_, _) => false
    case ScanRead(_, platform) => !platform.Unreadable?
    case ScanCreate(_, write) => write.Applied?
    case ScanDelete(write) => write.Applied?
    case ScanWrite(persisted) => persisted
    case RunReconcile(_, env, persisted) => env.NothingFails() && persisted
    case _ => true
  }

  ghost predicate AllSmooth(steps: seq<Step>) {
    forall i :: 0 <= i < |steps| ==> Smooth(steps[i])
  }

  /** States the Scan can get into, by any history or only by smooth ones. */
  ghost predicate Reaches(spec: ScanSpec, smooth: bool, w: World) {
    exists steps: seq<Step> :: Feasible(steps) && Uses(steps, spec) && (smooth ==> AllSmooth(steps)) && After(steps) == w
  }

  lemma ReachesStart(spec: ScanSpec, smooth: bool)
    ensures Reaches(spec, smooth, START)
  {
    assert Feasible([]) && Uses([], spec) && AllSmooth([]) && After([]) == START;
  }

  lemma ReachesNext(spec: ScanSpec, smooth: bool, w: World, s: Step)
    requires Reaches(spec, smooth, w) && Enabled(w, s) && (s.ScanRead? ==> s.spec == spec) && (smooth ==> Smooth(s))
    ensures Reaches(spec, smooth, Apply(w, s))
  {
    var steps: seq<Step> :| Feasible(steps) && Uses(steps, spec) && (smooth ==> AllSmooth(steps)) && After(steps) == w;
    OneMoreStep(steps, s);
    assert Uses(steps + [s], spec) && (smooth ==> AllSmooth(steps + [s]));
  }

  ghost predicate Distinct(w: World) {
    forall u, v :: u in w.fires && v in w.fires && u != v ==> w.fires[u] != w.fires[v]
  }

  /** Whatever happens, or whatever happens smoothly, no two Runs of the Scan are for the same fire. */
  ghost predicate NeverRepeats(spec: ScanSpec, smooth: bool) {
    forall w :: Reaches(spec, smooth, w) ==> Distinct(w)
  }

  /** The Scan can fire, and its Runs can be launched. */
  ghost predicate Operational(spec: ScanSpec) {
    && spec.Valid() && !spec.suspend && spec.schedule.Some?
    && spec.workers.IsInt32() && RunModel.Defaulted(spec.workers).Valid() && spec.configParses
  }

  /** A spec with the defaults of the API and a fire every minute, for any policy and limits. */
  lemma DefaultsOperational(policy: Policy, successes: Option<nat>, failures: Option<nat>)
    ensures Operational(ScanSpec(false, policy, Some(EveryMinute()), successes, failures,
                                 ShardPlanner.WorkerBounds(1, 10, 50), true, true))
  {
    EveryMinuteValid();
  }

  lemma Repeated(spec: ScanSpec, smooth: bool, w: World, u: Uid, v: Uid)
    requires Reaches(spec, smooth, w) && u in w.fires && v in w.fires && u != v && w.fires[u] == w.fires[v]
    ensures !NeverRepeats(spec, smooth)
  {
    assert !Distinct(w);
  }

  // ---------- a fire ----------

  /** The first two fires of the schedule. */
  function First(spec: ScanSpec): int
    requires spec.schedule.Some?
  {
    spec.schedule.value.next(0)
  }

  function Second(spec: ScanSpec): int
    requires spec.schedule.Some?
  {
    spec.schedule.value.next(First(spec))
  }

  /** With this last run, a reconcile at the instant of the fire reports it. */
  ghost predicate IsDue(spec: ScanSpec, lastRun: Option<int>, fire: int)
    requires spec.schedule.Some?
  {
    var s, start := spec.schedule.value, StartFrom(lastRun, fire);
    IsMissed(s, start, fire, Some(fire)) && IsNext(s, start, fire, s.next(fire))
  }

  lemma FirstDue(spec: ScanSpec)
    requires Operational(spec)
    ensures 0 < First(spec) && First(spec) % SECOND == 0 && IsDue(spec, None, First(spec))
  {
    var s, f := spec.schedule.value, First(spec);
    AfterNext(s, 0);
    AfterNext(s, f);
    ReportedWithinGrace(s, f, f);
  }

  /** A Scan that takes its first fire for its last run finds the second one due. */
  lemma SecondDue(spec: ScanSpec)
    requires Operational(spec)
    ensures First(spec) < Second(spec) && Second(spec) % SECOND == 0 && IsDue(spec, Some(First(spec)), Second(spec))
  {
    var s := spec.schedule.value;
    AfterNext(s, First(spec));
    AfterNext(s, Second(spec));
  }

  ghost predicate MayFire(spec: ScanSpec, w: World) {
    w.pc.Idle? && (spec.policy == Allow || forall u :: !Active(w.runs, SCAN, u))
  }

  lemma NoneMeansEmpty(s: seq<Uid>)
    ensures s == [] <==> forall u :: u !in s
  {
    if s != [] {
      assert s[0] in s;
    }
  }

  /** A Scan that is not held back runs the fire that is due, whether or not it has done so before. */
  lemma Fires(spec: ScanSpec, smooth: bool, w: World, listing: seq<Uid>, name: string) returns (w': World)
    requires Operational(spec) && Reaches(spec, smooth, w) && MayFire(spec, w)
    requires IsListing(w.runs, listing) && FreshName(w.runs, name)
    requires IsDue(spec, Refreshed(w.status, w.runs, SCAN, listing).lastRunTime, w.clock)
    ensures Reaches(spec, smooth, w') && w'.pc.Created? && w'.pc.spec == spec && w'.pc.local.lastRunTime == Some(w.clock)
    ensures w'.pc.local.lastSuccessfulRunTime == Refreshed(w.status, w.runs, SCAN, listing).lastSuccessfulRunTime
    ensures w' == w.(pc := w'.pc, newest := w'.newest, nextUid := w.nextUid + 1,
                     runs := w.runs[w.nextUid := NewRun(spec, SCAN, name, w.clock, w.clock)], fires := w.fires[w.nextUid := w.clock])
  {
    var read, list := ScanRead(spec, Platform.Ready), ScanList(listing, Some(w.clock), spec.schedule.value.next(w.clock));
    ReachesNext(spec, smooth, w, read);
    var w1 := Apply(w, read);
    ActiveOfMeaning(w1.runs, SCAN, listing);
    NoneMeansEmpty(ActiveOf(w1.runs, SCAN, listing));
    ReachesNext(spec, smooth, w1, list);
    var w2 := Apply(w1, list);
    ReachesNext(spec, smooth, w2, ScanCreate(name, RunModel.Applied));
    w' := Apply(w2, ScanCreate(name, RunModel.Applied));
  }

  /** The new Run, as the Scan creates it at the given instant. */
  function Child(spec: ScanSpec, name: string, fire: int): RunObject {
    NewRun(spec, SCAN, name, fire, fire)
  }

  /** The Scan has fired once, at its first fire. */
  lemma FiresOnce(spec: ScanSpec, smooth: bool) returns (w: World)
    requires Operational(spec)
    ensures Reaches(spec, smooth, w) && w.pc.Created? && w.pc.spec == spec && w.pc.local.lastRunTime == Some(First(spec))
    ensures w == START.(clock := First(spec), pc := w.pc, newest := w.newest, nextUid := 2,
                        runs := map[1 := Child(spec, "run-1", First(spec))], fires := map[1 := First(spec)])
  {
    ReachesStart(spec, smooth);
    FirstDue(spec);
    ReachesNext(spec, smooth, START, Tick(First(spec)));
    w := Fires(spec, smooth, Apply(START, Tick(First(spec))), [], "run-1");
  }

  /** The reconcile finds nothing beyond its limits and stores its status. */
  lemma FindsNothing(spec: ScanSpec, smooth: bool, w: World, succeeded: seq<Uid>, failed: seq<Uid>) returns (w': World)
    requires Reaches(spec, smooth, w) && w.pc.Created?
    requires IsOrder(w.runs, SCAN, RunModel.Succeeded, succeeded) && IsOrder(w.runs, SCAN, RunModel.Failed, failed)
    requires |succeeded| <= w.pc.spec.SuccessLimit() && |failed| <= w.pc.spec.FailLimit()
    ensures Reaches(spec, smooth, w') && w' == w.(pc := Idle, status := w'.status)
    ensures w'.status.lastRunTime == w.pc.local.lastRunTime
  {
    ReachesNext(spec, smooth, w, ScanGcList(succeeded, failed));
    var w1 := Apply(w, ScanGcList(succeeded, failed));
    assert w1.pc.excess == [];
    w' := Stores(spec, smooth, w1);
  }

  lemma Stores(spec: ScanSpec, smooth: bool, w: World) returns (w': World)
    requires Reaches(spec, smooth, w) && w.pc.Pruning? && w.pc.excess == []
    ensures Reaches(spec, smooth, w') && w' == w.(pc := Idle, status := w'.status)
    ensures w'.status.lastRunTime == w.pc.local.lastRunTime
  {
    ReachesNext(spec, smooth, w, ScanPruned);
    var w1 := Apply(w, ScanPruned);
    ReachesNext(spec, smooth, w1, ScanWrite(true));
    w' := Apply(w1, ScanWrite(true));
  }

  // ---------- a Run that ends at once ----------

  /** Answers of which none is a failure. */
  function Answers(t: int, found: seq<RunModel.Candidate>): RunModel.Env {
    RunModel.Env(t, t, t, true, true, Some("token"), true, RunModel.Applied,
                 RunModel.Found(found), true, RunModel.Applied, true, RunModel.Applied)
  }

  /** Discovery of one repository. */
  const ONE: seq<RunModel.Candidate> := [RunModel.Candidate("a", RunModel.HasConfig)]

  /** The cluster has no ConfigMap and no Job under the names of the Run. */
  ghost predicate Clear(c: RunModel.Cluster, name: string) {
    Names.ShardsName(name) !in c.configMaps && Names.JobName(name) !in c.jobs
  }

  /** Between two clusters at most the objects of the Run were added. */
  ghost predicate Added(c: RunModel.Cluster, c': RunModel.Cluster, name: string) {
    && c'.configMaps.Keys <= c.configMaps.Keys + {Names.ShardsName(name)}
    && c'.jobs.Keys <= c.jobs.Keys + {Names.JobName(name)}
  }

  /** Run `u` of `w` is new; in `w'` it has ended, stamped `at`, and nothing else of the Scan changed. */
  ghost predicate EndedIn(w: World, w': World, u: Uid, phase: RunModel.Phase, at: int) {
    && u in w.runs && u in w'.runs
    && w'.runs[u].status.phase == phase && w'.runs[u].status.completionTime == Some(at)
    && w' == w.(runs := w.runs[u := w.runs[u].(status := w'.runs[u].status, touched := w.clock)], cluster := w'.cluster, done := w'.done)
  }

  /** It discovers no repository. The stamp may be older than the write. */
  lemma FailsAt(spec: ScanSpec, smooth: bool, w: World, u: Uid, at: int) returns (w': World)
    requires Reaches(spec, smooth, w) && u in w.runs && w.runs[u].status == RunModel.INITIAL
    requires w.runs[u].touched <= at <= w.clock && at % SECOND == 0
    ensures Reaches(spec, smooth, w') && EndedIn(w, w', u, RunModel.Failed, at)
    ensures w'.cluster.configMaps == w.cluster.configMaps && w'.cluster.jobs == w.cluster.jobs
  {
    var fail := RunReconcile(u, Answers(at, []), true);
    ReachesNext(spec, smooth, w, fail);
    w' := Apply(w, fail);
  }

  /** The shards of a single repository are small enough to be readable, for any worker count. */
  lemma OneRepoReadable(n: nat, i: nat)
    requires i < n <= ShardPlanner.INT32_MAX
    ensures ShardPlanner.Entrypoint(ShardPlanner.PlannedData(["a"], n), i).Some?
  {
    var sorted := Slugs.Sort(["a"]);
    assert sorted == Slugs.Insert([], "a") == ["a"] by { assert ["a"][..0] == []; }
    var shard := ShardPlanner.Stride(sorted, i, n);
    assert shard == [] || shard == ["a"];
    ShortDecimal(i, 10);
    ShortDecimal(n, 10);
    ShortShard(ShardPlanner.Payload(i, n, shard));
    ShardPlanner.PlannedDataServes(["a"], n, i);
  }

  lemma ShortShard(p: ShardPlanner.Payload)
    requires p.repos == [] || p.repos == ["a"]
    requires |ShardKeys.Decimal(p.index)| <= 10 && |ShardKeys.Decimal(p.total)| <= 10
    ensures !ShardPlanner.Oversize(p)
  {
    assert ShardPlanner.ReposSize(["a"]) == 4 by { assert ["a"][..0] == []; }
  }

  function Pow10(k: nat): nat {
    if k == 0 then 1 else 10 * Pow10(k - 1)
  }

  lemma {:induction false} ShortDecimal(n: nat, k: nat)
    requires k >= 1 && (n < Pow10(k) || (k == 10 && n <= ShardPlanner.INT32_MAX))
    ensures |ShardKeys.Decimal(n)| <= k
  {
    if k == 10 {
      assert Pow10(4) == 10000;
      assert Pow10(7) == 10000000;
      assert Pow10(10) == 10000000000;
    }
    if n >= 10 {
      ShortDecimal(n / 10, k - 1);
    }
  }

  /** What the cluster is once the workers for the single repository are launched. */
  ghost predicate LaunchedIn(spec: RunModel.RunSpec, c: RunModel.Cluster, c': RunModel.Cluster)
    requires RunModel.Defaulted(spec.workers).Valid()
  {
    var n := ShardPlanner.Workers(1, RunModel.Defaulted(spec.workers));
    && c'.jobs == c.jobs[Names.JobName(spec.name) := RunModel.NewJob(spec, n, ["a"])]
    && c'.configMaps == c.configMaps[Names.ShardsName(spec.name) :=
         RunModel.ConfigMap(spec.name, ShardPlanner.PlannedData(["a"], n), ["a"])]
  }

  /** The single repository is discovered, the ConfigMap and the Job are created, the Run is running. */
  lemma Launches(spec: RunModel.RunSpec, c: RunModel.Cluster, t: int)
    requires RunModel.Defaulted(spec.workers).Valid() && spec.configParses && Clear(c, spec.name)
    ensures var o := RunModel.Reconcile(spec, RunModel.INITIAL, c, Answers(t, ONE));
            && o.status.phase == RunModel.Running && o.status.workerJobRef == Some(Names.JobName(spec.name))
            && LaunchedIn(spec, c, o.cluster)
  {
    var env := Answers(t, ONE);
    AttemptsOne(spec, c, t);
    RunModel.AttemptPhase(spec, RunModel.INITIAL, c, env);
    RunModel.ReconcileSound(spec, RunModel.INITIAL, c, env);
  }

  lemma AttemptsOne(spec: RunModel.RunSpec, c: RunModel.Cluster, t: int)
    ensures RunModel.Attempt(spec, Answers(t, ONE)) == Some(["a"])
    ensures !RunModel.MeetsTransient(spec, c, Answers(t, ONE))
  {
    var none: seq<Slugs.Slug> := [];
    assert ONE[..0] == [] && none + ["a"] == ["a"];
    assert RunModel.Probed(ONE[..0]) == Success(none);
    assert RunModel.Probed(ONE) == Success(none + ["a"]);
    assert seq(|ONE|, i requires 0 <= i < |ONE| => ONE[i].slug) == ["a"];
  }

  /** The Job called `job` can complete all its indexes; `k` of them it has completed. */
  ghost predicate Underway(c: RunModel.Cluster, job: string, k: nat) {
    && job in c.jobs && k <= c.jobs[job].completions && |c.jobs[job].done| == k
    && (forall i :: i in c.jobs[job].done ==> i < k) && c.jobs[job].configMap in c.configMaps
    && forall i: nat :: i < c.jobs[job].completions ==>
         ShardPlanner.Entrypoint(c.configMaps[c.jobs[job].configMap].data, i).Some?
  }

  lemma {:induction false} CompletesAll(spec: ScanSpec, smooth: bool, w: World, job: string, k: nat) returns (w': World)
    requires Reaches(spec, smooth, w) && Underway(w.cluster, job, k)
    ensures Reaches(spec, smooth, w') && w' == w.(cluster := w'.cluster)
    ensures w'.cluster.configMaps == w.cluster.configMaps && w'.cluster.jobs.Keys == w.cluster.jobs.Keys
    ensures job in w'.cluster.jobs && |w'.cluster.jobs[job].done| >= w'.cluster.jobs[job].completions
    decreases w.cluster.jobs[job].completions - k
  {
    if k == w.cluster.jobs[job].completions {
      w' := w;
    } else {
      ReachesNext(spec, smooth, w, IndexCompletes(job, k));
      var c := RunModel.WithIndexDone(w.cluster, job, k);
      assert c.jobs[job].done.Keys == w.cluster.jobs[job].done.Keys + {k};
      w' := CompletesAll(spec, smooth, w.(cluster := c), job, k + 1);
    }
  }

  lemma LaunchedUnderway(run: RunModel.RunSpec, c: RunModel.Cluster, c': RunModel.Cluster)
    requires run.workers.IsInt32() && RunModel.Defaulted(run.workers).Valid() && LaunchedIn(run, c, c')
    ensures Underway(c', Names.JobName(run.name), 0) && Added(c, c', run.name)
  {
    var n := ShardPlanner.Workers(1, RunModel.Defaulted(run.workers));
    forall i: nat | i < n ensures ShardPlanner.Entrypoint(ShardPlanner.PlannedData(["a"], n), i).Some? {
      OneRepoReadable(n, i);
    }
  }

  /** Run `u` of `w` is new; in `w'` it is running and all indexes of its Job are done. */
  ghost predicate RunningIn(w: World, w': World, u: Uid) {
    && u in w.runs && u in w'.runs && w'.runs[u].status.phase == RunModel.Running && w'.runs[u].status.workerJobRef.Some?
    && w' == w.(runs := w.runs[u := w.runs[u].(status := w'.runs[u].status, touched := w.clock)], cluster := w'.cluster)
    && var job := w'.runs[u].status.workerJobRef.value;
       job in w'.cluster.jobs && |w'.cluster.jobs[job].done| >= w'.cluster.jobs[job].completions
  }

  lemma Starts(spec: ScanSpec, smooth: bool, w: World, u: Uid) returns (w': World)
    requires Operational(spec) && Reaches(spec, smooth, w) && u in w.runs && Clear(w.cluster, w.runs[u].spec.name)
    requires w.runs[u] == Child(spec, w.runs[u].spec.name, w.clock)
    ensures Reaches(spec, smooth, w') && u in w'.runs && LaunchedIn(w.runs[u].spec, w.cluster, w'.cluster)
    ensures w'.runs[u].status.phase == RunModel.Running && w'.runs[u].status.workerJobRef == Some(Names.JobName(w.runs[u].spec.name))
    ensures w' == w.(runs := w.runs[u := w.runs[u].(status := w'.runs[u].status, touched := w.clock)], cluster := w'.cluster)
  {
    var launch := RunReconcile(u, Answers(w.clock, ONE), true);
    Launches(w.runs[u].spec, w.cluster, w.clock);
    ReachesNext(spec, smooth, w, launch);
    w' := Apply(w, launch);
  }

  lemma Runs(spec: ScanSpec, smooth: bool, w: World, u: Uid) returns (w': World)
    requires Operational(spec) && Reaches(spec, smooth, w) && u in w.runs && Clear(w.cluster, w.runs[u].spec.name)
    requires w.runs[u] == Child(spec, w.runs[u].spec.name, w.clock)
    ensures Reaches(spec, smooth, w') && RunningIn(w, w', u) && Added(w.cluster, w'.cluster, w.runs[u].spec.name)
  {
    var w1 := Starts(spec, smooth, w, u);
    LaunchedUnderway(w.runs[u].spec, w.cluster, w1.cluster);
    w' := CompletesAll(spec, smooth, w1, Names.JobName(w.runs[u].spec.name), 0);
  }

  /** It discovers one repository, its Job completes, and it is seen to have succeeded, all at one instant. */
  lemma Succeeds(spec: ScanSpec, smooth: bool, w: World, u: Uid) returns (w': World)
    requires Operational(spec) && Reaches(spec, smooth, w) && u in w.runs && Clear(w.cluster, w.runs[u].spec.name)
    requires w.runs[u] == Child(spec, w.runs[u].spec.name, w.clock) && w.clock % SECOND == 0
    ensures Reaches(spec, smooth, w') && EndedIn(w, w', u, RunModel.Succeeded, w.clock)
    ensures Added(w.cluster, w'.cluster, w.runs[u].spec.name)
  {
    var w1 := Runs(spec, smooth, w, u);
    w' := Observed(spec, smooth, w1, u);
  }

  lemma Observed(spec: ScanSpec, smooth: bool, w: World, u: Uid) returns (w': World)
    requires Reaches(spec, smooth, w) && u in w.runs && w.clock % SECOND == 0 && w.runs[u].touched == w.clock
    requires w.runs[u].status.phase == RunModel.Running && w.runs[u].status.workerJobRef.Some?
    requires var job := w.runs[u].status.workerJobRef.value;
             job in w.cluster.jobs && |w.cluster.jobs[job].done| >= w.cluster.jobs[job].completions
    ensures Reaches(spec, smooth, w') && EndedIn(w, w', u, RunModel.Succeeded, w.clock) && w'.cluster == w.cluster
  {
    var observe := RunReconcile(u, Answers(w.clock, ONE), true);
    ReachesNext(spec, smooth, w, observe);
    w' := Apply(w, observe);
  }

  /** The new Run ends at once, one way or the other. */
  lemma Ends(spec: ScanSpec, smooth: bool, w: World, u: Uid, phase: RunModel.Phase) returns (w': World)
    requires Operational(spec) && Reaches(spec, smooth, w) && u in w.runs && RunModel.IsTerminal(phase)
    requires w.runs[u] == Child(spec, w.runs[u].spec.name, w.clock) && w.clock % SECOND == 0
    requires phase == RunModel.Succeeded ==> Clear(w.cluster, w.runs[u].spec.name)
    ensures Reaches(spec, smooth, w') && EndedIn(w, w', u, phase, w.clock)
    ensures Added(w.cluster, w'.cluster, w.runs[u].spec.name)
  {
    if phase == RunModel.Failed {
      w' := FailsAt(spec, smooth, w, u, w.clock);
    } else {
      w' := Succeeds(spec, smooth, w, u);
    }
  }

  /** Objects added for one Run are not those of another whose name differs in time. */
  lemma StaysClear(c: RunModel.Cluster, c': RunModel.Cluster, name: string, other: string)
    requires Added(c, c', name) && Clear(c, other) && Names.Take(name, 48) != Names.Take(other, 48)
    ensures Clear(c', other)
  {
    Names.ApartIsolated(name, other);
  }

  // ---------- a limit of zero and a crash ----------

  function Limit(spec: ScanSpec, phase: RunModel.Phase): nat {
    if phase == RunModel.Succeeded then spec.SuccessLimit() else spec.FailLimit()
  }

  /** Run 1 is the only one, new in the reconcile at hand, and has ended. */
  ghost predicate OnlyEnded(spec: ScanSpec, w: World, phase: RunModel.Phase)
    requires spec.schedule.Some?
  {
    && w.pc.Created? && w.pc.spec == spec && w.clock == First(spec) && w.status == NEW_SCAN && w.fires == map[1 := First(spec)]
    && w.nextUid == 2 && w.runs.Keys == {1} && Owned(w.runs, SCAN, 1) && w.runs[1].status.phase == phase
  }

  /**
    A Run that ends before the pruning after its creation lists the Runs is pruned at once if the limit of its
    class is zero; a crash before the status write, and nothing tells that the fire was ever run.
  */
  lemma LimitZeroRepeats(spec: ScanSpec, phase: RunModel.Phase)
    requires Operational(spec) && RunModel.IsTerminal(phase) && Limit(spec, phase) == 0
    ensures !NeverRepeats(spec, false)
  {
    FirstDue(spec);
    var w := FiresOnce(spec, false);
    var w1 := Ends(spec, false, w, 1, phase);
    var w2 := PrunedAndLost(spec, w1, phase);
    var w3 := Fires(spec, false, w2, [], "run-2");
    Repeated(spec, false, w3, 1, 2);
  }

  lemma Pruned(spec: ScanSpec, w: World, phase: RunModel.Phase) returns (w': World)
    requires Reaches(spec, false, w) && w.pc.Created? && w.pc.spec == spec && w.runs.Keys == {1}
    requires Owned(w.runs, SCAN, 1) && w.runs[1].status.phase == phase && RunModel.IsTerminal(phase) && Limit(spec, phase) == 0
    ensures Reaches(spec, false, w') && w'.pc.Pruning? && w'.pc.excess == [1] && w' == w.(pc := w'.pc)
  {
    var list := if phase == RunModel.Succeeded then ScanGcList([1], []) else ScanGcList([], [1]);
    ReachesNext(spec, false, w, list);
    w' := Apply(w, list);
    assert w'.pc.excess == [1];
  }

  lemma PrunedAndLost(spec: ScanSpec, w: World, phase: RunModel.Phase) returns (w': World)
    requires Operational(spec) && Reaches(spec, false, w) && OnlyEnded(spec, w, phase)
    requires RunModel.IsTerminal(phase) && Limit(spec, phase) == 0
    ensures Reaches(spec, false, w') && w' == w.(pc := Idle, runs := map[])
  {
    var w1 := Pruned(spec, w, phase);
    ReachesNext(spec, false, w1, ScanDelete(RunModel.Applied));
    var w2 := Apply(w1, ScanDelete(RunModel.Applied));
    assert w2.runs == map[];
    ReachesNext(spec, false, w2, ScanCrash);
    w' := Apply(w2, ScanCrash);
  }

  // ---------- Allow, with nothing lost ----------

  /** The refresh, if exactly one Run of the Scan has ended. */
  lemma RefreshToOnly(w: World, listing: seq<Uid>, u: Uid, at: int)
    requires IsListing(w.runs, listing) && Owned(w.runs, SCAN, u) && w.runs[u].Terminal()
    requires w.runs[u].status.completionTime == Some(at) && forall v :: v in w.runs && v != u ==> !w.runs[v].Terminal()
    ensures Refreshed(w.status, w.runs, SCAN, listing).lastRunTime == Some(at)
  {
    LatestOfMeaning(w.runs, SCAN, false, listing);
    assert u in listing && Counts(w.runs, SCAN, false, u);
  }

  /** The refresh, if none has. */
  lemma RefreshToNone(w: World, listing: seq<Uid>)
    requires forall v :: v in w.runs ==> !w.runs[v].Terminal()
    ensures Refreshed(w.status, w.runs, SCAN, listing).lastRunTime == w.status.lastRunTime
  {
    LatestOfMeaning(w.runs, SCAN, false, listing);
  }

  /** The first fire has been run and recorded; it is time for the second, and the first Run is still to be reconciled. */
  lemma FirstRunIdle(spec: ScanSpec, smooth: bool) returns (w: World)
    requires Operational(spec)
    ensures Reaches(spec, smooth, w) && w.pc.Idle? && w.status.lastRunTime == Some(First(spec))
    ensures w.clock == Second(spec) && w.nextUid == 2 && w.runs == map[1 := Child(spec, "run-1", First(spec))]
  {
    SecondDue(spec);
    var w1 := FiresOnce(spec, smooth);
    var w2 := FindsNothing(spec, smooth, w1, [], []);
    ReachesNext(spec, smooth, w2, Tick(Second(spec)));
    w := Apply(w2, Tick(Second(spec)));
  }

  /** So has the second, with both Runs still to be reconciled. */
  lemma SecondRunIdle(spec: ScanSpec, smooth: bool) returns (w: World)
    requires Operational(spec) && spec.policy == Allow
    ensures Reaches(spec, smooth, w) && w.pc.Idle? && w.clock == Second(spec) && w.nextUid == 3
    ensures w.runs == map[1 := Child(spec, "run-1", First(spec)), 2 := Child(spec, "run-2", Second(spec))]
    ensures 2 in w.fires && w.fires[2] == Second(spec)
  {
    SecondDue(spec);
    var w1 := FirstRunIdle(spec, smooth);
    RefreshToNone(w1, [1]);
    var w2 := Fires(spec, smooth, w1, [1], "run-2");
    w := FindsNothing(spec, smooth, w2, [], []);
  }

  /**
    Under Allow a fire is run twice although every call and every write succeeds, whatever the limits: a Run whose
    completion was stamped before the fire and is stored after it moves the last run back behind the fire.
  */
  lemma AllowRepeatsWithoutLoss(spec: ScanSpec)
    requires Operational(spec) && spec.policy == Allow
    ensures !NeverRepeats(spec, true)
  {
    FirstDue(spec);
    SecondDue(spec);
    var w1 := SecondRunIdle(spec, true);
    var w2 := FailsAt(spec, true, w1, 1, First(spec));
    RefreshToOnly(w2, [1, 2], 1, First(spec));
    var w3 := Fires(spec, true, w2, [1, 2], "run-3");
    Repeated(spec, true, w3, 2, 3);
  }

  // ---------- one limit of zero, with nothing lost ----------

  /** Run 1 ended at the first fire and is kept; the second fire is at hand. */
  ghost predicate OneKept(spec: ScanSpec, w: World, kept: RunModel.Phase)
    requires spec.schedule.Some?
  {
    && w.pc.Idle? && w.clock == Second(spec) && w.runs.Keys == {1} && Owned(w.runs, SCAN, 1) && RunModel.IsTerminal(kept)
    && w.runs[1].status.phase == kept && w.runs[1].status.completionTime == Some(First(spec)) && w.runs[1].spec.name == "run-1"
  }

  lemma KeepsFirst(spec: ScanSpec, kept: RunModel.Phase) returns (w: World)
    requires Operational(spec) && RunModel.IsTerminal(kept) && Limit(spec, kept) >= 1
    ensures Reaches(spec, true, w) && OneKept(spec, w, kept) && w.nextUid == 2 && Clear(w.cluster, "run-2")
  {
    FirstDue(spec);
    SecondDue(spec);
    var w1 := FiresOnce(spec, true);
    var w2 := Ends(spec, true, w1, 1, kept);
    StaysClear(w1.cluster, w2.cluster, "run-1", "run-2");
    var succeeded, failed := if kept == RunModel.Succeeded then [1] else [], if kept == RunModel.Failed then [1] else [];
    var w3 := FindsNothing(spec, true, w2, succeeded, failed);
    ReachesNext(spec, true, w3, Tick(Second(spec)));
    w := Apply(w3, Tick(Second(spec)));
  }

  /** The second fire is run. */
  lemma SecondFires(spec: ScanSpec, w: World, kept: RunModel.Phase) returns (w': World)
    requires Operational(spec) && Reaches(spec, true, w) && OneKept(spec, w, kept) && w.nextUid == 2
    ensures Reaches(spec, true, w') && w'.pc.Created? && w'.pc.spec == spec && w'.clock == w.clock && w'.nextUid == 3
    ensures w'.runs == w.runs[2 := Child(spec, "run-2", w.clock)] && w'.cluster == w.cluster
    ensures 2 in w'.fires && w'.fires[2] == Second(spec)
  {
    SecondDue(spec);
    RefreshToOnly(w, [1], 1, First(spec));
    w' := Fires(spec, true, w, [1], "run-2");
  }

  /** Its Run ends at once. */
  lemma SecondEnds(spec: ScanSpec, w: World, kept: RunModel.Phase, gone: RunModel.Phase) returns (w': World)
    requires Operational(spec) && Reaches(spec, true, w) && OneKept(spec, w, kept) && w.nextUid == 2
    requires RunModel.IsTerminal(gone) && Clear(w.cluster, "run-2")
    ensures Reaches(spec, true, w') && w'.pc.Created? && w'.pc.spec == spec && w'.clock == w.clock && w'.nextUid == 3
    ensures w'.runs.Keys == {1, 2} && w'.runs[1] == w.runs[1] && Owned(w'.runs, SCAN, 2) && w'.runs[2].status.phase == gone
    ensures 2 in w'.fires && w'.fires[2] == Second(spec)
  {
    SecondDue(spec);
    var w1 := SecondFires(spec, w, kept);
    w' := Ends(spec, true, w1, 2, gone);
  }

  /** The pruning that follows deletes it, and the status is stored. */
  lemma SecondPruned(spec: ScanSpec, w: World, kept: RunModel.Phase, gone: RunModel.Phase) returns (w': World)
    requires Reaches(spec, true, w) && w.pc.Created? && w.pc.spec == spec && w.runs.Keys == {1, 2}
    requires Owned(w.runs, SCAN, 1) && Owned(w.runs, SCAN, 2) && w.runs[1].status.phase == kept && w.runs[2].status.phase == gone
    requires RunModel.IsTerminal(kept) && RunModel.IsTerminal(gone) && Limit(spec, kept) >= 1 && Limit(spec, gone) == 0
    ensures Reaches(spec, true, w') && w' == w.(pc := Idle, status := w'.status, runs := w.runs - {2})
  {
    var list := if kept == RunModel.Succeeded then ScanGcList([1], [2]) else ScanGcList([2], [1]);
    ReachesNext(spec, true, w, list);
    var w1 := Apply(w, list);
    assert w1.pc.excess == [2];
    ReachesNext(spec, true, w1, ScanDelete(RunModel.Applied));
    w' := Stores(spec, true, Apply(w1, ScanDelete(RunModel.Applied)));
  }

  /**
    With one limit of zero and one that keeps a Run, under any policy, a fire is run twice although every call and
    every write succeeds: its Run is gone, and the refresh moves the last run back to the older one that is kept.
  */
  lemma OneLimitZeroRepeatsWithoutLoss(spec: ScanSpec, kept: RunModel.Phase, gone: RunModel.Phase)
    requires Operational(spec) && RunModel.IsTerminal(kept) && RunModel.IsTerminal(gone)
    requires Limit(spec, kept) >= 1 && Limit(spec, gone) == 0
    ensures !NeverRepeats(spec, true)
  {
    SecondDue(spec);
    var w := KeepsFirst(spec, kept);
    var w1 := SecondEnds(spec, w, kept, gone);
    var w2 := SecondPruned(spec, w1, kept, gone);
    RefreshToOnly(w2, [1], 1, First(spec));
    var w3 := Fires(spec, true, w2, [1], "run-3");
    Repeated(spec, true, w3, 2, 3);
  }
}
