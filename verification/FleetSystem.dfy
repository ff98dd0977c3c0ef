/**
  All Runs of a namespace on one cluster: Runs are added, reconciled in any order with any answers, their
  status writes stored or lost, and deleted once terminal, while the Job controller completes and fails indexes
  in between.

  A reconcile is one step, placed at its status write. Only the reconcile of a Run writes its status, and
  one worker handles a Run at a time, so a reconcile that overlaps others differs from this only in when it
  read the clock: at any time since the Run was last written.
*/
module FleetSystem {
  import opened Prelude
  import opened Slugs
  import opened ShardPlanner
  import opened Names
  import opened RunModel

  /** `launched` and `token`, kept for the proofs only, are what the attempt found and was given whose Job reference was stored. */
  datatype Run = Run(spec: RunSpec, status: Status, touched: int, launched: Option<seq<Slug>>, token: Option<string>)

  /**
    `runs` are the Runs ever created, of which those in `deleted` are no longer in store; a name is used once.
    `counted` is the terminal-Run counter; `stored` and `lost` count the terminal transitions whose status write
    succeeded and failed.
  */
  datatype World = World(
    clock: int,
    runs: map<string, Run>,
    deleted: set<string>,
    cluster: Cluster,
    counted: nat,
    stored: nat,
    lost: nat)

  datatype Step =
    | Tick(now: int)
    | AddRun(spec: RunSpec)
    | ReconcileRun(name: string, env: Env, persisted: bool)
    | DeleteRun(name: string)
    | CompleteIndex(job: string, index: nat)
    | FailJob(job: string, pods: nat)

  const EMPTY: World := World(0, map[], {}, Cluster(map[], map[], map[]), 0, 0, 0)

  predicate Enabled(w: World, s: Step) {
    match s
    case Tick(now) => w.clock <= now
    case AddRun(spec) => spec.name !in w.runs
    case ReconcileRun(name, env, _) =>
      name in w.runs && name !in w.deleted && env.ClockRuns() && w.runs[name].touched <= env.began && env.workersAt <= w.clock
    case DeleteRun(name) => name in w.runs && name !in w.deleted && IsTerminal(w.runs[name].status.phase)
    case CompleteIndex(job, index) => IndexCanComplete(w.cluster, job, index)
    case FailJob(job, _) => job in w.cluster.jobs
  }

  function Apply(w: World, s: Step): World
    requires Enabled(w, s)
  {
    match s
    case Tick(now) => w.(clock := now)
    case AddRun(spec) => w.(runs := w.runs[spec.name := Run(spec, INITIAL, w.clock, None, None)])
    case ReconcileRun(name, env, persisted) =>
      var run := w.runs[name];
      Settle(w, name, env, Reconcile(run.spec, run.status, w.cluster, env), persisted)
    case DeleteRun(name) => w.(deleted := w.deleted + {name})
    case CompleteIndex(job, index) => w.(cluster := WithIndexDone(w.cluster, job, index))
    case FailJob(job, pods) => w.(cluster := WithJobFailed(w.cluster, job, pods))
  }

  /** The end of a reconcile: the effects are in the cluster, the status is stored or lost. */
  function Settle(w: World, name: string, env: Env, o: Outcome, persisted: bool): World
    requires name in w.runs
  {
    var run := w.runs[name];
    var ended := if o.recorded.Some? then 1 else 0;
    var launches := persisted && run.status.workerJobRef.None? && o.status.workerJobRef.Some?;
    w.(runs := w.runs[name := Run(run.spec, if persisted then Persist(o.status) else run.status, w.clock,
                                  if launches then Attempt(run.spec, env) else run.launched,
                                  if launches then env.token else run.token)],
       cluster := o.cluster,
       counted := w.counted + ended,
       stored := w.stored + if persisted then ended else 0,
       lost := w.lost + if persisted then 0 else ended)
  }

  // ---------- histories ----------

  /** Each step is possible after the ones before it. */
  predicate Feasible(steps: seq<Step>)
    decreases |steps|, 0
  {
    steps == [] || (Feasible(steps[..|steps| - 1]) && Enabled(After(steps[..|steps| - 1]), steps[|steps| - 1]))
  }

  function After(steps: seq<Step>): World
    requires Feasible(steps)
    decreases |steps|, 1
  {
    if steps == [] then EMPTY else Apply(After(steps[..|steps| - 1]), steps[|steps| - 1])
  }

  // ---------- the invariant ----------

  predicate Bounds(spec: RunSpec) {
    Defaulted(spec.workers).Valid()
  }

  function WorkersFor(spec: RunSpec, repos: seq<Slug>): (n: nat)
    requires Bounds(spec)
    ensures n > 0
  {
    Workers(|repos|, Defaulted(spec.workers))
  }

  ghost predicate RunOk(w: World, n: string)
    requires n in w.runs
  {
    var run := w.runs[n];
    && run.spec.name == n && run.touched <= w.clock
    && WellFormed(run.status) && StampsBy(run.status, run.touched) && Persist(run.status) == run.status
    && (run.status.workerJobRef.Some? ==> run.status.workerJobRef.value == JobName(n) && JobName(n) in w.cluster.jobs)
    && (run.status.phase == Succeeded ==> |w.cluster.jobs[JobName(n)].done| >= w.cluster.jobs[JobName(n)].completions)
  }

  ghost predicate ShardsOk(w: World, k: string)
    requires k in w.cluster.configMaps
  {
    var cm := w.cluster.configMaps[k];
    && cm.owner in w.runs && k == ShardsName(cm.owner) && Bounds(w.runs[cm.owner].spec)
    && cm.origin != [] && cm.data == PlannedData(cm.origin, WorkersFor(w.runs[cm.owner].spec, cm.origin))
  }

  ghost predicate JobOk(w: World, k: string)
    requires k in w.cluster.jobs
  {
    var job := w.cluster.jobs[k];
    && job.owner in w.runs && k == JobName(job.owner) && Bounds(w.runs[job.owner].spec)
    && job.secret == MirrorName(job.owner) && job.configMap == ShardsName(job.owner) && job.configMap in w.cluster.configMaps
    && w.cluster.configMaps[job.configMap].owner == job.owner
    && job.origin != [] && job.completions == job.parallelism == WorkersFor(w.runs[job.owner].spec, job.origin)
    && forall i :: i in job.done ==>
         i < job.completions && Entrypoint(w.cluster.configMaps[job.configMap].data, i) == Some(job.done[i])
  }

  ghost predicate Inv(w: World) {
    && (forall n :: n in w.runs ==> RunOk(w, n))
    && (forall k :: k in w.cluster.configMaps ==> ShardsOk(w, k))
    && (forall k :: k in w.cluster.jobs ==> JobOk(w, k))
    && w.counted == w.stored + w.lost && w.stored == |Ended(w)| && w.deleted <= Ended(w)
  }

  /** The Runs whose stored phase is, or was until they were deleted, terminal. */
  ghost function Ended(w: World): set<string> {
    set n | n in w.runs && IsTerminal(w.runs[n].status.phase)
  }

  lemma SettleOwnRun(w: World, name: string, env: Env, o: Outcome, persisted: bool)
    requires name in w.runs && RunOk(w, name) && env.workersAt <= w.clock
    requires Sound(w.runs[name].spec, w.runs[name].status, w.cluster, env, o)
    ensures RunOk(Settle(w, name, env, o, persisted), name)
  {
    StampsLater(o.status, env.workersAt, w.clock);
    StampsLater(w.runs[name].status, w.runs[name].touched, w.clock);
    PersistKeepsWellFormed(o.status, w.clock);
    PersistIdempotent(o.status);
    JobsStay(w, env, o, name, JobName(name));
  }

  lemma SettleOtherRun(w: World, name: string, env: Env, o: Outcome, persisted: bool, n: string)
    requires name in w.runs && n in w.runs && n != name && RunOk(w, n)
    requires JobCreated(w.runs[name].spec, w.cluster, env, o.cluster)
    ensures RunOk(Settle(w, name, env, o, persisted), n)
  {
    JobsStay(w, env, o, name, JobName(n));
  }

  /** A Job that exists is the same after a reconcile. */
  lemma JobsStay(w: World, env: Env, o: Outcome, name: string, k: string)
    requires name in w.runs && JobCreated(w.runs[name].spec, w.cluster, env, o.cluster)
    ensures k in w.cluster.jobs ==> k in o.cluster.jobs && o.cluster.jobs[k] == w.cluster.jobs[k]
  {
  }

  /** A ConfigMap that exists is the same after a reconcile. */
  lemma ShardsStay(w: World, env: Env, o: Outcome, name: string, k: string)
    requires name in w.runs && ShardsCreated(w.runs[name].spec, w.cluster.configMaps, env, o.cluster.configMaps)
    ensures k in w.cluster.configMaps ==>
              k in o.cluster.configMaps && o.cluster.configMaps[k] == w.cluster.configMaps[k]
  {
  }

  lemma SettleShards(w: World, name: string, env: Env, o: Outcome, persisted: bool, k: string)
    requires name in w.runs && w.runs[name].spec.name == name
    requires ShardsCreated(w.runs[name].spec, w.cluster.configMaps, env, o.cluster.configMaps)
    requires k in o.cluster.configMaps && (k in w.cluster.configMaps ==> ShardsOk(w, k))
    ensures ShardsOk(Settle(w, name, env, o, persisted), k)
  {
    ShardsStay(w, env, o, name, k);
  }

  lemma SettleOldJob(w: World, name: string, env: Env, o: Outcome, persisted: bool, k: string)
    requires name in w.runs && k in w.cluster.jobs && JobOk(w, k)
    requires ShardsCreated(w.runs[name].spec, w.cluster.configMaps, env, o.cluster.configMaps)
    requires JobCreated(w.runs[name].spec, w.cluster, env, o.cluster)
    ensures k in o.cluster.jobs && JobOk(Settle(w, name, env, o, persisted), k)
  {
    JobsStay(w, env, o, name, k);
    ShardsStay(w, env, o, name, w.cluster.jobs[k].configMap);
  }

  lemma SettleNewJob(w: World, name: string, env: Env, o: Outcome, persisted: bool, k: string)
    requires name in w.runs && w.runs[name].spec.name == name
    requires k !in w.cluster.jobs && k in o.cluster.jobs && JobCreated(w.runs[name].spec, w.cluster, env, o.cluster)
    requires ShardsName(name) in o.cluster.configMaps ==> ShardsOk(Settle(w, name, env, o, persisted), ShardsName(name))
    ensures JobOk(Settle(w, name, env, o, persisted), k)
  {
    assert ShardsName(name) in o.cluster.configMaps;
    SharedExactlyWhen(name, o.cluster.configMaps[ShardsName(name)].owner);
  }

  lemma SettleCounts(w: World, name: string, env: Env, o: Outcome, persisted: bool)
    requires name in w.runs && w.stored == |Ended(w)|
    requires o.recorded.Some? <==> IsTerminal(o.status.phase) && !IsTerminal(w.runs[name].status.phase)
    requires Rank(w.runs[name].status.phase) <= Rank(o.status.phase)
    ensures Settle(w, name, env, o, persisted).stored == |Ended(Settle(w, name, env, o, persisted))|
    ensures Ended(w) <= Ended(Settle(w, name, env, o, persisted))
  {
    var w' := Settle(w, name, env, o, persisted);
    if persisted && o.recorded.Some? {
      assert Ended(w') == Ended(w) + {name};
    } else {
      assert Ended(w') == Ended(w);
    }
  }

  lemma SettleKeepsInv(w: World, name: string, env: Env, o: Outcome, persisted: bool)
    requires Inv(w) && name in w.runs && env.workersAt <= w.clock
    requires Sound(w.runs[name].spec, w.runs[name].status, w.cluster, env, o)
    ensures Inv(Settle(w, name, env, o, persisted))
  {
    var w' := Settle(w, name, env, o, persisted);
    assert RunOk(w, name);
    forall n | n in w'.runs ensures RunOk(w', n) {
      if n == name {
        SettleOwnRun(w, name, env, o, persisted);
      } else {
        SettleOtherRun(w, name, env, o, persisted, n);
      }
    }
    forall k | k in w'.cluster.configMaps ensures ShardsOk(w', k) {
      SettleShards(w, name, env, o, persisted, k);
    }
    forall k | k in w'.cluster.jobs ensures JobOk(w', k) {
      if k in w.cluster.jobs {
        SettleOldJob(w, name, env, o, persisted, k);
      } else {
        SettleNewJob(w, name, env, o, persisted, k);
      }
    }
    SettleCounts(w, name, env, o, persisted);
  }

  /** `w'` differs from `w` at most by a later clock, more Runs and Jobs with more of their indexes done. */
  ghost predicate Continues(w: World, w': World) {
    && w.clock <= w'.clock && w'.cluster.configMaps == w.cluster.configMaps
    && (forall n :: n in w.runs ==> n in w'.runs && w'.runs[n] == w.runs[n])
    && w'.cluster.jobs.Keys == w.cluster.jobs.Keys
    && (forall k :: k in w.cluster.jobs ==> JobMoved(w.cluster.jobs[k], w'.cluster.jobs[k]))
  }

  ghost predicate JobMoved(was: Job, now: Job) {
    && now.(done := was.done, failed := was.failed, failedPods := was.failedPods) == was
    && (forall i :: i in was.done ==> i in now.done && now.done[i] == was.done[i]) && |was.done| <= |now.done|
  }

  lemma RunContinues(w: World, w': World, n: string)
    requires Continues(w, w') && n in w.runs && RunOk(w, n)
    ensures RunOk(w', n)
  {
    assert JobName(n) in w.cluster.jobs ==> JobMoved(w.cluster.jobs[JobName(n)], w'.cluster.jobs[JobName(n)]);
  }

  lemma ShardsContinue(w: World, w': World, k: string)
    requires Continues(w, w') && k in w.cluster.configMaps && ShardsOk(w, k)
    ensures ShardsOk(w', k)
  {
  }

  lemma JobContinues(w: World, w': World, k: string)
    requires Continues(w, w') && k in w.cluster.jobs && JobOk(w, k)
    requires var job := w'.cluster.jobs[k];
             forall i :: i in job.done && i !in w.cluster.jobs[k].done ==>
               i < job.completions && Entrypoint(w.cluster.configMaps[job.configMap].data, i) == Some(job.done[i])
    ensures JobOk(w', k)
  {
    assert JobMoved(w.cluster.jobs[k], w'.cluster.jobs[k]);
  }

  lemma ContinueKeepsInv(w: World, w': World)
    requires Inv(w) && Continues(w, w')
    requires forall n :: n in w'.runs && n !in w.runs ==> RunOk(w', n) && w'.runs[n].status == INITIAL
    requires forall k :: k in w'.cluster.jobs ==> JobOk(w', k)
    requires w'.counted == w.counted && w'.stored == w.stored && w'.lost == w.lost && w'.deleted <= Ended(w)
    ensures Inv(w')
  {
    forall n | n in w'.runs ensures RunOk(w', n) {
      if n in w.runs {
        RunContinues(w, w', n);
      }
    }
    forall k | k in w'.cluster.configMaps ensures ShardsOk(w', k) {
      ShardsContinue(w, w', k);
    }
    assert Ended(w') == Ended(w);
  }

  /** Every step keeps the invariant. */
  lemma StepKeepsInv(w: World, s: Step)
    requires Inv(w) && Enabled(w, s)
    ensures Inv(Apply(w, s))
  {
    if s.ReconcileRun? {
      ReconcileStepKeepsInv(w, s);
    } else {
      var w' := Apply(w, s);
      OutsideContinues(w, s);
      forall k | k in w'.cluster.jobs ensures JobOk(w', k) {
        assert JobOk(w, k);
        OutsideJobs(w, s, k);
      }
      ContinueKeepsInv(w, w');
    }
  }

  lemma ReconcileStepKeepsInv(w: World, s: Step)
    requires Inv(w) && s.ReconcileRun? && Enabled(w, s)
    ensures Inv(Apply(w, s))
  {
    var run := w.runs[s.name];
    assert RunOk(w, s.name);
    StampsLater(run.status, run.touched, s.env.began);
    ReconcileSound(run.spec, run.status, w.cluster, s.env);
    SettleKeepsInv(w, s.name, s.env, Reconcile(run.spec, run.status, w.cluster, s.env), s.persisted);
  }

  lemma OutsideContinues(w: World, s: Step)
    requires !s.ReconcileRun? && Enabled(w, s)
    ensures Continues(w, Apply(w, s))
    ensures forall n :: n in Apply(w, s).runs && n !in w.runs ==>
              RunOk(Apply(w, s), n) && Apply(w, s).runs[n].status == INITIAL
  {
    match s
    case Tick(_) | DeleteRun(_) =>
    case AddRun(spec) =>
      FreshRunOk(Apply(w, s), spec);
    case CompleteIndex(job, index) =>
      var was := w.cluster.jobs[job];
      var repos := Entrypoint(w.cluster.configMaps[was.configMap].data, index).value;
      assert was.done[index := repos].Keys == was.done.Keys + {index};
      MovedContinues(w, job, was.(done := was.done[index := repos]));
    case FailJob(job, pods) =>
      MovedContinues(w, job, w.cluster.jobs[job].(failed := true, failedPods := pods));
  }

  lemma FreshRunOk(w: World, spec: RunSpec)
    requires spec.name in w.runs && w.runs[spec.name] == Run(spec, INITIAL, w.clock, None, None)
    ensures RunOk(w, spec.name)
  {
  }

  lemma MovedContinues(w: World, k: string, job: Job)
    requires k in w.cluster.jobs && JobMoved(w.cluster.jobs[k], job)
    ensures Continues(w, w.(cluster := w.cluster.(jobs := w.cluster.jobs[k := job])))
  {
  }

  lemma OutsideJobs(w: World, s: Step, k: string)
    requires !s.ReconcileRun? && Enabled(w, s) && k in w.cluster.jobs && JobOk(w, k)
    ensures k in Apply(w, s).cluster.jobs && JobOk(Apply(w, s), k)
  {
    OutsideContinues(w, s);
    JobContinues(w, Apply(w, s), k);
  }

  /** The invariant holds after every history. */
  lemma {:induction false} AlwaysInv(steps: seq<Step>)
    requires Feasible(steps)
    ensures Inv(After(steps))
  {
    if steps == [] {
      assert Ended(EMPTY) == {};
    } else {
      AlwaysInv(steps[..|steps| - 1]);
      StepKeepsInv(After(steps[..|steps| - 1]), steps[|steps| - 1]);
    }
  }
}
