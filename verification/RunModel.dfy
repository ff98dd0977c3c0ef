/**
  The Run controller's state machine (internal/controller/renovaterun_controller.go) on values: what one
  reconcile makes of the stored status and of the cluster, for every answer the platform and the
  API server can give.
*/
module RunModel {
  import opened Prelude
  import opened Slugs
  import opened ShardPlanner
  import opened Names
  import Cron

  // ---------- objects ----------

  datatype Phase = Unset | Pending | Discovering | Running | Succeeded | Failed | Unrecognized(text: string)

  predicate IsTerminal(p: Phase) {
    p == Succeeded || p == Failed
  }

  /** Position of a phase on the way from creation to the end. */
  function Rank(p: Phase): nat {
    match p
    case Unset => 0
    case Pending => 1
    case Discovering => 2
    case Running => 3
    case Succeeded | Failed => 4
    case Unrecognized(_) => 0
  }

  datatype ConditionType = TypeStarted | TypeDiscovered | TypeSucceeded | TypeFailed
  datatype Reason = Admitted | ReconcileError | DiscoveryFailed | DiscoveryComplete | JobComplete | JobFailed
  datatype Condition = Condition(holds: bool, reason: Reason)
  type Conditions = map<ConditionType, Condition>

  predicate IsTrue(cs: Conditions, t: ConditionType) {
    t in cs && cs[t].holds
  }

  datatype Status = Status(
    conditions: Conditions,
    phase: Phase,
    startTime: Option<int>,
    discoveryCompletionTime: Option<int>,
    workersStartTime: Option<int>,
    completionTime: Option<int>,
    discoveredRepos: int,
    actualWorkers: int,
    shardConfigMapRef: Option<string>,
    workerJobRef: Option<string>,
    succeededShards: int,
    failedShards: int)

  const INITIAL: Status := Status(map[], Unset, None, None, None, None, 0, 0, None, None, 0, 0)

  /** The part of the frozen snapshots that the controller's decisions depend on. */
  datatype RunSpec = RunSpec(name: string, workers: WorkerBounds, requireConfig: bool, configParses: bool)

  /** `owner` is the owner reference; `origin`, kept for the proofs only, is the repository list behind the object. */
  datatype ConfigMap = ConfigMap(owner: string, data: map<string, Blob>, origin: seq<Slug>)

  /** `done` holds what each index that completed had been given to work on. */
  datatype Job = Job(
    owner: string,
    configMap: string,
    secret: string,
    parallelism: nat,
    completions: nat,
    done: map<nat, seq<Slug>>,
    failedPods: nat,
    failed: bool,
    origin: seq<Slug>)

  datatype Cluster = Cluster(
    secrets: map<string, string>,
    configMaps: map<string, ConfigMap>,
    jobs: map<string, Job>)

  // ---------- what the outside answers ----------

  /** A write can also take effect although its reply is an error. */
  datatype Write = Applied | Rejected | ReplyLost

  datatype Probe = HasConfig | NoConfig | ProbeFails(transient: bool)
  datatype Candidate = Candidate(slug: Slug, probe: Probe)
  datatype Discovery = Found(candidates: seq<Candidate>) | DiscoverFails(transient: bool)

  /** All answers one reconcile can meet: clock readings in the order they are taken, then each call. */
  datatype Env = Env(
    began: int,
    stamped: int,
    workersAt: int,
    sourceOk: bool,
    clientOk: bool,
    token: Option<string>,
    secretRead: bool,
    secretWrite: Write,
    discovery: Discovery,
    shardsRead: bool,
    shardsWrite: Write,
    jobRead: bool,
    jobWrite: Write)
  {
    predicate ClockRuns() {
      began <= stamped <= workersAt
    }

    /** Every call that the reconcile makes succeeds. */
    predicate NothingFails() {
      && sourceOk && clientOk && token.Some? && token.value != ""
      && secretRead && secretWrite.Applied? && shardsRead && shardsWrite.Applied? && jobRead && jobWrite.Applied?
      && discovery.Found?
      && forall i :: 0 <= i < |discovery.candidates| ==> !discovery.candidates[i].probe.ProbeFails?
    }
  }

  datatype RunResult = ResultSucceeded | ResultFailed

  /** The new status in memory, the cluster, and the increment of the terminal-Run counter if there was one. */
  datatype Outcome = Outcome(status: Status, cluster: Cluster, recorded: Option<RunResult>)

  // ---------- the handlers ----------

  function MarkTransient(st: Status, reason: Reason): Status {
    st.(conditions := st.conditions[TypeStarted := Condition(false, reason)])
  }

  function MarkFailed(st: Status, now: int): Status {
    st.(completionTime := Some(now), phase := Failed,
        conditions := st.conditions[TypeFailed := Condition(true, DiscoveryFailed)])
  }

  /** Discovery, with the config probe of every repository in turn when the Scan asks for it. */
  function DiscoverRepos(requireConfig: bool, d: Discovery): Result<seq<Slug>, bool> {
    match d
    case DiscoverFails(transient) => Failure(transient)
    case Found(cs) =>
      if requireConfig then Probed(cs)
      else Success(seq(|cs|, i requires 0 <= i < |cs| => cs[i].slug))
  }

  /** The candidates with a config, in order; the first probe that fails decides. */
  function Probed(cs: seq<Candidate>): Result<seq<Slug>, bool> {
    if cs == [] then Success([])
    else
      var before := Probed(cs[..|cs| - 1]);
      if before.Failure? then before
      else
        match cs[|cs| - 1].probe
        case HasConfig => Success(before.value + [cs[|cs| - 1].slug])
        case NoConfig => before
        case ProbeFails(transient) => Failure(transient)
  }

  function MirrorCredential(spec: RunSpec, secrets: map<string, string>, env: Env): (bool, map<string, string>) {
    if env.token.None? || env.token.value == "" || !env.secretRead || env.secretWrite.Rejected? then (false, secrets)
    else (env.secretWrite.Applied?, secrets[MirrorName(spec.name) := env.token.value])
  }

  /** Zero in the snapshot means the default. */
  function Defaulted(b: WorkerBounds): WorkerBounds {
    WorkerBounds(
      if b.minWorkers == 0 then 1 else b.minWorkers,
      if b.maxWorkers == 0 then 10 else b.maxWorkers,
      if b.reposPerWorker == 0 then 50 else b.reposPerWorker)
  }

  /** Creates the shard ConfigMap unless it exists; the worker count is that of the present repository list. */
  function EnsureShards(spec: RunSpec, cms: map<string, ConfigMap>, env: Env, repos: seq<Slug>)
    : (Option<nat>, map<string, ConfigMap>)
  {
    var plan := PlanOf(repos, Defaulted(spec.workers));
    var name := ShardsName(spec.name);
    if plan.Failure? || !env.shardsRead then (None, cms)
    else if name in cms then (Some(plan.value.actualWorkers), cms)
    else if env.shardsWrite.Rejected? then (None, cms)
    else
      (if env.shardsWrite.Applied? then Some(plan.value.actualWorkers) else None,
       cms[name := ConfigMap(spec.name, plan.value.data, repos)])
  }

  function NewJob(spec: RunSpec, workers: nat, repos: seq<Slug>): Job {
    Job(spec.name, ShardsName(spec.name), MirrorName(spec.name), workers, workers, map[], 0, false, repos)
  }

  /** Creates the worker Job unless it exists. */
  function EnsureJob(spec: RunSpec, jobs: map<string, Job>, env: Env, workers: nat, repos: seq<Slug>)
    : (bool, map<string, Job>)
  {
    var name := JobName(spec.name);
    if workers < 1 || !spec.configParses || !env.jobRead then (false, jobs)
    else if name in jobs then (true, jobs)
    else if env.jobWrite.Rejected? then (false, jobs)
    else (env.jobWrite.Applied?, jobs[name := NewJob(spec, workers, repos)])
  }

  function Admit(st: Status, env: Env): Status {
    st.(startTime := if st.startTime.None? then Some(env.began) else st.startTime,
        conditions := st.conditions[TypeStarted := Condition(true, Admitted)],
        phase := Discovering)
  }

  function DiscoverAndDispatch(spec: RunSpec, st: Status, c: Cluster, env: Env): Outcome {
    var st1 := Admit(st, env);
    if !env.sourceOk then Outcome(MarkTransient(st1, ReconcileError), c, None)
    else if !env.clientOk then Outcome(MarkFailed(st1, env.stamped), c, Some(ResultFailed))
    else
      var (mirrored, secrets) := MirrorCredential(spec, c.secrets, env);
      var c1 := c.(secrets := secrets);
      if !mirrored then Outcome(MarkTransient(st1, ReconcileError), c1, None)
      else
        match DiscoverRepos(spec.requireConfig, env.discovery)
        case Failure(transient) =>
          if transient then Outcome(MarkTransient(st1, DiscoveryFailed), c1, None)
          else Outcome(MarkFailed(st1, env.stamped), c1, Some(ResultFailed))
        case Success(repos) =>
          if repos == [] then Outcome(MarkFailed(st1, env.stamped), c1, Some(ResultFailed))
          else Dispatch(spec, st1, c1, env, repos)
  }

  function Dispatch(spec: RunSpec, st1: Status, c1: Cluster, env: Env, repos: seq<Slug>): Outcome {
    var (workers, cms) := EnsureShards(spec, c1.configMaps, env, repos);
    var c2 := c1.(configMaps := cms);
    if workers.None? then Outcome(MarkTransient(st1, ReconcileError), c2, None)
    else Launch(spec, st1, c2, env, workers.value, repos)
  }

  function Launch(spec: RunSpec, st1: Status, c2: Cluster, env: Env, workers: nat, repos: seq<Slug>): Outcome {
    var st2 := st1.(discoveredRepos := Wrap32(|repos|), actualWorkers := workers,
                    shardConfigMapRef := Some(ShardsName(spec.name)));
    var (created, jobs) := EnsureJob(spec, c2.jobs, env, workers, repos);
    var c3 := c2.(jobs := jobs);
    if !created then Outcome(MarkTransient(st2, ReconcileError), c3, None)
    else Outcome(Launched(spec, st2, env), c3, None)
  }

  function Launched(spec: RunSpec, st: Status, env: Env): Status {
    st.(workerJobRef := Some(JobName(spec.name)),
        discoveryCompletionTime := if st.discoveryCompletionTime.None? then Some(env.stamped) else st.discoveryCompletionTime,
        workersStartTime := if st.workersStartTime.None? then Some(env.workersAt) else st.workersStartTime,
        conditions := st.conditions[TypeDiscovered := Condition(true, DiscoveryComplete)],
        phase := Running)
  }

  function ObserveJob(st: Status, c: Cluster, env: Env): Outcome {
    if st.workerJobRef.None? then Outcome(MarkFailed(st, env.stamped), c, Some(ResultFailed))
    else if !env.jobRead then Outcome(st, c, None)
    else if st.workerJobRef.value !in c.jobs then Outcome(MarkFailed(st, env.stamped), c, Some(ResultFailed))
    else
      var job := c.jobs[st.workerJobRef.value];
      var st1 := st.(succeededShards := |job.done|, failedShards := job.failedPods);
      if |job.done| >= job.completions then
        Outcome(st1.(completionTime := Some(env.stamped), phase := Succeeded,
                     conditions := st1.conditions[TypeSucceeded := Condition(true, JobComplete)]),
                c, Some(ResultSucceeded))
      else if job.failed then
        Outcome(st1.(completionTime := Some(env.stamped), phase := Failed,
                     conditions := st1.conditions[TypeFailed := Condition(true, JobFailed)]),
                c, Some(ResultFailed))
      else Outcome(st1, c, None)
  }

  /** One reconcile, up to but not including the status write. */
  function Reconcile(spec: RunSpec, st: Status, c: Cluster, env: Env): Outcome {
    match st.phase
    case Unset => DiscoverAndDispatch(spec, st.(phase := Pending), c, env)
    case Pending | Discovering => DiscoverAndDispatch(spec, st, c, env)
    case Running => ObserveJob(st, c, env)
    case Succeeded | Failed | Unrecognized(_) => Outcome(st, c, None)
  }

  function StoredTime(t: Option<int>): Option<int> {
    match t
    case None => None
    case Some(v) => Some(Cron.Stored(v))
  }

  /** What the API server keeps of a status. */
  function Persist(st: Status): Status {
    st.(startTime := StoredTime(st.startTime),
        discoveryCompletionTime := StoredTime(st.discoveryCompletionTime),
        workersStartTime := StoredTime(st.workersStartTime),
        completionTime := StoredTime(st.completionTime))
  }

  // ---------- the Job controller ----------

  /** A worker succeeds only if its entrypoint finds a readable shard in the mounted ConfigMap. */
  predicate IndexCanComplete(c: Cluster, job: string, index: nat) {
    && job in c.jobs && index < c.jobs[job].completions && index !in c.jobs[job].done
    && c.jobs[job].configMap in c.configMaps
    && Entrypoint(c.configMaps[c.jobs[job].configMap].data, index).Some?
  }

  function WithIndexDone(c: Cluster, job: string, index: nat): Cluster
    requires IndexCanComplete(c, job, index)
  {
    var j := c.jobs[job];
    var repos := Entrypoint(c.configMaps[j.configMap].data, index).value;
    c.(jobs := c.jobs[job := j.(done := j.done[index := repos])])
  }

  function WithJobFailed(c: Cluster, job: string, pods: nat): Cluster
    requires job in c.jobs
  {
    c.(jobs := c.jobs[job := c.jobs[job].(failed := true, failedPods := pods)])
  }

  // ---------- well-formed statuses ----------

  /** What every status the controller ever stores satisfies. */
  ghost predicate WellFormed(st: Status) {
    && (st.phase == Unset ==> st == INITIAL)
    && (st.phase == Unset || st.phase == Discovering || st.phase == Running || IsTerminal(st.phase))
    && (st.phase != Unset ==> st.startTime.Some? && TypeStarted in st.conditions)
    && (IsTrue(st.conditions, TypeSucceeded) <==> TypeSucceeded in st.conditions)
    && (IsTrue(st.conditions, TypeFailed) <==> TypeFailed in st.conditions)
    && (TypeSucceeded in st.conditions <==> st.phase == Succeeded)
    && (TypeFailed in st.conditions <==> st.phase == Failed)
    && (st.completionTime.Some? <==> IsTerminal(st.phase))
    && (IsTrue(st.conditions, TypeDiscovered) <==> st.workerJobRef.Some?)
    && (st.discoveryCompletionTime.Some? <==> st.workerJobRef.Some?)
    && (st.workersStartTime.Some? <==> st.workerJobRef.Some?)
    && (st.workerJobRef.Some? ==> st.phase == Running || IsTerminal(st.phase))
    && (st.phase == Running || st.phase == Succeeded ==> st.workerJobRef.Some?)
    && (st.phase == Running || IsTerminal(st.phase) ==> IsTrue(st.conditions, TypeStarted))
    && InOrder(st.startTime, st.discoveryCompletionTime) && InOrder(st.discoveryCompletionTime, st.workersStartTime)
    && InOrder(st.workersStartTime, st.completionTime) && InOrder(st.startTime, st.completionTime)
  }

  predicate InOrder(a: Option<int>, b: Option<int>) {
    a.Some? && b.Some? ==> a.value <= b.value
  }

  /** No stamp in the status is later than `t`. */
  predicate StampsBy(st: Status, t: int) {
    && InOrder(st.startTime, Some(t)) && InOrder(st.discoveryCompletionTime, Some(t))
    && InOrder(st.workersStartTime, Some(t)) && InOrder(st.completionTime, Some(t))
  }

  lemma StampsLater(st: Status, t: int, u: int)
    requires StampsBy(st, t) && t <= u
    ensures StampsBy(st, u)
  {
  }

  /**
    One reconcile keeps the status well formed, whether it is stored or stays in memory; the phase never moves
    back; a terminal status is never touched again and nothing else is either.
  */
  lemma ReconcileKeepsWellFormed(spec: RunSpec, st: Status, c: Cluster, env: Env)
    requires WellFormed(st) && env.ClockRuns() && StampsBy(st, env.began)
    ensures var st' := Reconcile(spec, st, c, env).status;
            WellFormed(st') && StampsBy(st', env.workersAt) && Rank(st.phase) <= Rank(st'.phase)
    ensures IsTerminal(st.phase) ==> Reconcile(spec, st, c, env) == Outcome(st, c, None)
  {
    if st.phase == Unset || st.phase == Discovering {
      var st0 := if st.phase == Unset then st.(phase := Pending) else st;
      AdmitKeeps(st, env);
      assert Admit(st, env) == Admit(st0, env);
      DispatchKeeps(spec, st0, c, env);
    }
  }

  /** A status between admission and launch. */
  ghost predicate Waiting(st: Status, env: Env) {
    && st.phase == Discovering && st.startTime.Some? && st.startTime.value <= env.began
    && IsTrue(st.conditions, TypeStarted)
    && TypeSucceeded !in st.conditions && TypeFailed !in st.conditions
    && !IsTrue(st.conditions, TypeDiscovered)
    && st.workerJobRef.None? && st.completionTime.None?
    && st.discoveryCompletionTime.None? && st.workersStartTime.None?
  }

  lemma AdmitKeeps(st: Status, env: Env)
    requires WellFormed(st) && (st.phase == Unset || st.phase == Discovering) && StampsBy(st, env.began)
    ensures Waiting(Admit(st, env), env)
  {
  }

  lemma DispatchKeeps(spec: RunSpec, st: Status, c: Cluster, env: Env)
    requires Waiting(Admit(st, env), env) && env.ClockRuns()
    ensures var st' := DiscoverAndDispatch(spec, st, c, env).status;
            WellFormed(st') && StampsBy(st', env.workersAt) && st'.phase != Unset
  {
    var st1 := Admit(st, env);
    var st' := DiscoverAndDispatch(spec, st, c, env).status;
    DispatchCases(spec, st, c, env);
    LaunchedKeeps(spec, st1, env);
  }

  /** The five ways a dispatch can end, as far as the status goes. */
  lemma DispatchCases(spec: RunSpec, st: Status, c: Cluster, env: Env)
    ensures var st1, st' := Admit(st, env), DiscoverAndDispatch(spec, st, c, env).status;
            || st' == MarkTransient(st1, ReconcileError)
            || st' == MarkTransient(st1, DiscoveryFailed)
            || st' == MarkFailed(st1, env.stamped)
            || exists n: int, w: int, ref ::
                 var st2 := st1.(discoveredRepos := n, actualWorkers := w, shardConfigMapRef := ref);
                 st' == MarkTransient(st2, ReconcileError) || st' == Launched(spec, st2, env)
  {
  }

  lemma LaunchedKeeps(spec: RunSpec, st: Status, env: Env)
    requires Waiting(st, env) && env.ClockRuns()
    ensures WellFormed(Launched(spec, st, env)) && StampsBy(Launched(spec, st, env), env.workersAt)
  {
  }

  /** Storing keeps a status well formed. */
  lemma PersistKeepsWellFormed(st: Status, t: int)
    requires WellFormed(st) && StampsBy(st, t)
    ensures WellFormed(Persist(st)) && StampsBy(Persist(st), t) && Persist(st).phase == st.phase
  {
    StoredInOrder(st.startTime, st.discoveryCompletionTime, t);
    StoredInOrder(st.discoveryCompletionTime, st.workersStartTime, t);
    StoredInOrder(st.workersStartTime, st.completionTime, t);
    StoredInOrder(st.startTime, st.completionTime, t);
  }

  /** Storing a stored status changes nothing. */
  lemma PersistIdempotent(st: Status)
    ensures Persist(Persist(st)) == Persist(st)
  {
  }

  lemma StoredInOrder(a: Option<int>, b: Option<int>, t: int)
    requires InOrder(a, b) && InOrder(a, Some(t)) && InOrder(b, Some(t))
    ensures InOrder(StoredTime(a), StoredTime(b)) && InOrder(StoredTime(a), Some(t)) && InOrder(StoredTime(b), Some(t))
  {
    if a.Some? && b.Some? {
      Cron.StoredMonotone(a.value, b.value);
    }
  }

  // ---------- what a reconcile does to the cluster ----------

  /** The repositories a reconcile in the discovering phase plans for, if it gets as far as planning. */
  function Attempt(spec: RunSpec, env: Env): Option<seq<Slug>> {
    match DiscoverRepos(spec.requireConfig, env.discovery)
    case Failure(_) => None
    case Success(repos) => if repos == [] then None else Some(repos)
  }

  /** At most one ConfigMap is created, only where there was none, from the repositories of this attempt. */
  ghost predicate ShardsCreated(spec: RunSpec, cms: map<string, ConfigMap>, env: Env, cms': map<string, ConfigMap>) {
    var name := ShardsName(spec.name);
    || cms' == cms
    || (&& name !in cms && Attempt(spec, env).Some? && Defaulted(spec.workers).Valid()
        && var repos := Attempt(spec, env).value;
           cms' == cms[name := ConfigMap(spec.name, PlannedData(repos, Workers(|repos|, Defaulted(spec.workers))), repos)])
  }

  /** At most one Job is created, only where there was none, with the worker count of this attempt. */
  ghost predicate JobCreated(spec: RunSpec, c: Cluster, env: Env, c': Cluster) {
    var name := JobName(spec.name);
    || c'.jobs == c.jobs
    || (&& name !in c.jobs && ShardsName(spec.name) in c'.configMaps
        && Attempt(spec, env).Some? && Defaulted(spec.workers).Valid()
        && var repos := Attempt(spec, env).value;
           c'.jobs == c.jobs[name := NewJob(spec, Workers(|repos|, Defaulted(spec.workers)), repos)])
  }

  lemma EnsureShardsEffects(spec: RunSpec, cms: map<string, ConfigMap>, env: Env, repos: seq<Slug>)
    requires Attempt(spec, env) == Some(repos)
    ensures var s := EnsureShards(spec, cms, env, repos);
            && ShardsCreated(spec, cms, env, s.1)
            && (s.0.Some? ==> && Defaulted(spec.workers).Valid() && ShardsName(spec.name) in s.1
                              && s.0.value == Workers(|repos|, Defaulted(spec.workers)))
  {
  }

  lemma LaunchEffects(spec: RunSpec, st: Status, c: Cluster, env: Env, repos: seq<Slug>, workers: nat)
    requires Attempt(spec, env) == Some(repos) && Defaulted(spec.workers).Valid()
    requires ShardsName(spec.name) in c.configMaps && workers == Workers(|repos|, Defaulted(spec.workers))
    ensures var o := Launch(spec, st, c, env, workers, repos);
            && o.cluster.secrets == c.secrets && o.cluster.configMaps == c.configMaps && JobCreated(spec, c, env, o.cluster)
            && (o.status.workerJobRef == st.workerJobRef ||
                (o.status.workerJobRef == Some(JobName(spec.name)) && JobName(spec.name) in o.cluster.jobs))
  {
  }

  lemma DispatchEffects(spec: RunSpec, st: Status, c: Cluster, env: Env, repos: seq<Slug>)
    requires Attempt(spec, env) == Some(repos)
    ensures var o := Dispatch(spec, st, c, env, repos);
            && o.cluster.secrets == c.secrets
            && ShardsCreated(spec, c.configMaps, env, o.cluster.configMaps) && JobCreated(spec, c, env, o.cluster)
            && (o.status.workerJobRef == st.workerJobRef ||
                (o.status.workerJobRef == Some(JobName(spec.name)) && JobName(spec.name) in o.cluster.jobs))
  {
    EnsureShardsEffects(spec, c.configMaps, env, repos);
    var s := EnsureShards(spec, c.configMaps, env, repos);
    if s.0.Some? {
      LaunchEffects(spec, st, c.(configMaps := s.1), env, repos, s.0.value);
    }
  }

  /** A dispatch launches the workers or leaves the Run waiting, and never counts it as terminal. */
  lemma DispatchPhase(spec: RunSpec, st: Status, c: Cluster, env: Env, repos: seq<Slug>)
    requires st.phase == Discovering && repos != []
    ensures var o := Dispatch(spec, st, c, env, repos);
            && o.recorded == None && (o.status.phase == Discovering || o.status.phase == Running)
            && (o.status.phase == Running <==>
                  && Defaulted(spec.workers).Valid() && spec.configParses
                  && env.shardsRead && (ShardsName(spec.name) in c.configMaps || env.shardsWrite.Applied?)
                  && env.jobRead && (JobName(spec.name) in c.jobs || env.jobWrite.Applied?))
  {
  }

  /** The other ways an attempt can end touch neither ConfigMaps nor Jobs nor the Job reference. */
  lemma DiscoverCases(spec: RunSpec, st: Status, c: Cluster, env: Env)
    ensures var o := DiscoverAndDispatch(spec, st, c, env);
            var st1, c1 := Admit(st, env), c.(secrets := MirrorCredential(spec, c.secrets, env).1);
            if env.sourceOk && env.clientOk && MirrorCredential(spec, c.secrets, env).0 && Attempt(spec, env).Some? then
              o == Dispatch(spec, st1, c1, env, Attempt(spec, env).value)
            else
              && (o.cluster == c || o.cluster == c1) && o.status.workerJobRef == st.workerJobRef
              && if MeetsTransient(spec, c, env) then o.status.phase == Discovering && o.recorded == None
                 else o.status == MarkFailed(st1, env.stamped) && o.recorded == Some(ResultFailed)
  {
  }

  lemma DiscoverEffects(spec: RunSpec, st: Status, c: Cluster, env: Env)
    ensures var o := DiscoverAndDispatch(spec, st, c, env);
            && ShardsCreated(spec, c.configMaps, env, o.cluster.configMaps) && JobCreated(spec, c, env, o.cluster)
            && (o.cluster.secrets == c.secrets || o.cluster.secrets == MirrorCredential(spec, c.secrets, env).1)
            && (o.status.workerJobRef == st.workerJobRef ||
                (o.status.workerJobRef == Some(JobName(spec.name)) && JobName(spec.name) in o.cluster.jobs))
            && o.status.phase != Succeeded
  {
    DiscoverCases(spec, st, c, env);
    if Attempt(spec, env).Some? {
      var c1 := c.(secrets := MirrorCredential(spec, c.secrets, env).1);
      DispatchEffects(spec, Admit(st, env), c1, env, Attempt(spec, env).value);
      DispatchPhase(spec, Admit(st, env), c1, env, Attempt(spec, env).value);
    }
  }

  /** Existing ConfigMaps and Jobs are never rewritten or removed by a reconcile. */
  lemma ReconcileEffects(spec: RunSpec, st: Status, c: Cluster, env: Env)
    ensures var o := Reconcile(spec, st, c, env);
            ShardsCreated(spec, c.configMaps, env, o.cluster.configMaps) && JobCreated(spec, c, env, o.cluster)
    ensures var o := Reconcile(spec, st, c, env);
            o.cluster.secrets == c.secrets || o.cluster.secrets == MirrorCredential(spec, c.secrets, env).1
    ensures Rank(st.phase) >= 3 ==> Reconcile(spec, st, c, env).cluster == c
  {
    if Rank(st.phase) <= 2 && !st.phase.Unrecognized? {
      DiscoverEffects(spec, if st.phase == Unset then st.(phase := Pending) else st, c, env);
    }
  }

  /** How a reconcile comes by a Job reference and by success. */
  lemma ReconcileRefs(spec: RunSpec, st: Status, c: Cluster, env: Env)
    ensures var o := Reconcile(spec, st, c, env);
            || o.status.workerJobRef == st.workerJobRef
            || (o.status.workerJobRef == Some(JobName(spec.name)) && JobName(spec.name) in o.cluster.jobs)
    ensures var o := Reconcile(spec, st, c, env);
            o.status.phase == Succeeded && st.phase != Succeeded ==>
              && st.phase == Running && o.status.workerJobRef == st.workerJobRef && st.workerJobRef.Some?
              && st.workerJobRef.value in c.jobs && |c.jobs[st.workerJobRef.value].done| >= c.jobs[st.workerJobRef.value].completions
  {
    if Rank(st.phase) <= 2 && !st.phase.Unrecognized? {
      DiscoverEffects(spec, if st.phase == Unset then st.(phase := Pending) else st, c, env);
    }
  }

  /** The counter is incremented exactly when the in-memory phase becomes terminal. */
  lemma RecordedExactlyOnTerminal(spec: RunSpec, st: Status, c: Cluster, env: Env)
    requires WellFormed(st)
    ensures var o := Reconcile(spec, st, c, env);
            && (o.recorded.Some? <==> IsTerminal(o.status.phase) && !IsTerminal(st.phase))
            && (o.recorded == Some(ResultSucceeded) ==> o.status.phase == Succeeded)
            && (o.recorded == Some(ResultFailed) ==> o.status.phase == Failed)
            && (o.recorded.Some? ==> o.status.completionTime == Some(env.stamped))
  {
    if st.phase == Unset || st.phase == Discovering {
      var st0 := if st.phase == Unset then st.(phase := Pending) else st;
      DiscoverCases(spec, st0, c, env);
      if Attempt(spec, env).Some? {
        var c1 := c.(secrets := MirrorCredential(spec, c.secrets, env).1);
        DispatchPhase(spec, Admit(st0, env), c1, env, Attempt(spec, env).value);
      }
    }
  }

  /** Everything the system-level proofs use about one reconcile. */
  ghost predicate Sound(spec: RunSpec, st: Status, c: Cluster, env: Env, o: Outcome) {
    && ShardsCreated(spec, c.configMaps, env, o.cluster.configMaps) && JobCreated(spec, c, env, o.cluster)
    && WellFormed(o.status) && StampsBy(o.status, env.workersAt) && Rank(st.phase) <= Rank(o.status.phase)
    && (IsTerminal(st.phase) ==> o == Outcome(st, c, None))
    && (o.recorded.Some? <==> IsTerminal(o.status.phase) && !IsTerminal(st.phase))
    && (o.recorded.Some? ==> o.status.completionTime == Some(env.stamped))
    && (|| o.status.workerJobRef == st.workerJobRef
        || (o.status.workerJobRef == Some(JobName(spec.name)) && JobName(spec.name) in o.cluster.jobs))
    && (o.status.phase == Succeeded && st.phase != Succeeded ==>
          && o.cluster == c && o.status.workerJobRef == st.workerJobRef && st.workerJobRef.Some?
          && st.workerJobRef.value in c.jobs && |c.jobs[st.workerJobRef.value].done| >= c.jobs[st.workerJobRef.value].completions)
  }

  lemma ReconcileSound(spec: RunSpec, st: Status, c: Cluster, env: Env)
    requires WellFormed(st) && env.ClockRuns() && StampsBy(st, env.began)
    ensures Sound(spec, st, c, env, Reconcile(spec, st, c, env))
  {
    ReconcileKeepsWellFormed(spec, st, c, env);
    ReconcileEffects(spec, st, c, env);
    ReconcileRefs(spec, st, c, env);
    RecordedExactlyOnTerminal(spec, st, c, env);
  }

  // ---------- what the status reports ----------

  /**
    The reported worker count is the one for the reported number of repositories; the ConfigMap is the Run's own,
    and whoever has a Job reference has that too.
  */
  ghost predicate Reports(spec: RunSpec, st: Status) {
    && (st.shardConfigMapRef.Some? ==>
          && st.shardConfigMapRef.value == ShardsName(spec.name) && Defaulted(spec.workers).Valid()
          && st.actualWorkers == ComputeActualWorkers(st.discoveredRepos, Defaulted(spec.workers)))
    && (st.workerJobRef.Some? ==> st.shardConfigMapRef.Some?)
  }

  /** The outcome reports the repositories of this attempt, and the Secret for their workers exists. */
  ghost predicate LaunchedNow(spec: RunSpec, o: Outcome, env: Env) {
    && MirrorName(spec.name) in o.cluster.secrets
    && Attempt(spec, env).Some? && o.status.discoveredRepos == Wrap32(|Attempt(spec, env).value|)
  }

  lemma LaunchReports(spec: RunSpec, st: Status, c: Cluster, env: Env, repos: seq<Slug>, workers: nat)
    requires Defaulted(spec.workers).Valid() && workers == Workers(|repos|, Defaulted(spec.workers))
    ensures var st' := Launch(spec, st, c, env, workers, repos).status;
            Reports(spec, st') && st'.discoveredRepos == Wrap32(|repos|)
  {
  }

  lemma DispatchReports(spec: RunSpec, st: Status, c: Cluster, env: Env, repos: seq<Slug>)
    requires Reports(spec, st) && Attempt(spec, env) == Some(repos)
    ensures var st' := Dispatch(spec, st, c, env, repos).status;
            Reports(spec, st') && (st'.workerJobRef == st.workerJobRef || st'.discoveredRepos == Wrap32(|repos|))
  {
    EnsureShardsEffects(spec, c.configMaps, env, repos);
    var s := EnsureShards(spec, c.configMaps, env, repos);
    if s.0.Some? {
      LaunchReports(spec, st, c.(configMaps := s.1), env, repos, s.0.value);
    }
  }

  /**
    What a reconcile reports: the counts and the reference agree; a Job reference is given only with the Secret in
    place and together with the number of repositories of this attempt; that number then stays; on success the
    number of completed indexes is reported.
  */
  ghost predicate Told(spec: RunSpec, st: Status, c: Cluster, env: Env, o: Outcome) {
    && Reports(spec, o.status)
    && (o.status.workerJobRef.Some? ==> st.workerJobRef.Some? || LaunchedNow(spec, o, env))
    && (Rank(st.phase) >= 3 ==> o.status.discoveredRepos == st.discoveredRepos)
    && (MirrorName(spec.name) in c.secrets ==> MirrorName(spec.name) in o.cluster.secrets)
    && (o.status.phase == Succeeded && st.phase != Succeeded ==>
          && st.workerJobRef.Some? && st.workerJobRef.value in c.jobs
          && o.status.succeededShards == |c.jobs[st.workerJobRef.value].done|)
  }

  lemma ReconcileReports(spec: RunSpec, st: Status, c: Cluster, env: Env)
    requires Reports(spec, st)
    ensures Told(spec, st, c, env, Reconcile(spec, st, c, env))
  {
    if Rank(st.phase) <= 2 && !st.phase.Unrecognized? {
      var st0 := if st.phase == Unset then st.(phase := Pending) else st;
      DiscoverReports(spec, st0, c, env);
      DiscoverEffects(spec, st0, c, env);
    }
  }

  lemma DiscoverReports(spec: RunSpec, st: Status, c: Cluster, env: Env)
    requires Reports(spec, st)
    ensures var o := DiscoverAndDispatch(spec, st, c, env);
            && Reports(spec, o.status)
            && (o.status.workerJobRef.Some? ==> st.workerJobRef.Some? || LaunchedNow(spec, o, env))
  {
    DispatchCases(spec, st, c, env);
    DiscoverCases(spec, st, c, env);
    if Attempt(spec, env).Some? {
      var c1 := c.(secrets := MirrorCredential(spec, c.secrets, env).1);
      DispatchReports(spec, Admit(st, env), c1, env, Attempt(spec, env).value);
      DispatchEffects(spec, Admit(st, env), c1, env, Attempt(spec, env).value);
    }
  }

  // ---------- isolation ----------

  /** Two clusters agree on everything that belongs to the Run called `n`. */
  ghost predicate SameView(c1: Cluster, c2: Cluster, n: string) {
    && SameEntry(c1.secrets, c2.secrets, MirrorName(n))
    && SameEntry(c1.configMaps, c2.configMaps, ShardsName(n))
    && SameEntry(c1.jobs, c2.jobs, JobName(n))
  }

  ghost predicate SameEntry<V>(m1: map<string, V>, m2: map<string, V>, k: string) {
    (k in m1 <==> k in m2) && (k in m1 ==> m1[k] == m2[k])
  }

  lemma MirrorLocal(spec: RunSpec, c1: Cluster, c2: Cluster, env: Env)
    requires SameView(c1, c2, spec.name)
    ensures var m1, m2 := MirrorCredential(spec, c1.secrets, env), MirrorCredential(spec, c2.secrets, env);
            m1.0 == m2.0 && SameEntry(m1.1, m2.1, MirrorName(spec.name))
  {
  }

  lemma EnsureShardsLocal(spec: RunSpec, m1: map<string, ConfigMap>, m2: map<string, ConfigMap>, env: Env, repos: seq<Slug>)
    requires SameEntry(m1, m2, ShardsName(spec.name))
    ensures var s1, s2 := EnsureShards(spec, m1, env, repos), EnsureShards(spec, m2, env, repos);
            s1.0 == s2.0 && SameEntry(s1.1, s2.1, ShardsName(spec.name))
  {
  }

  lemma EnsureJobLocal(spec: RunSpec, m1: map<string, Job>, m2: map<string, Job>, env: Env, workers: nat, repos: seq<Slug>)
    requires SameEntry(m1, m2, JobName(spec.name))
    ensures var j1, j2 := EnsureJob(spec, m1, env, workers, repos), EnsureJob(spec, m2, env, workers, repos);
            j1.0 == j2.0 && SameEntry(j1.1, j2.1, JobName(spec.name))
  {
  }

  lemma DispatchLocal(spec: RunSpec, st: Status, c1: Cluster, c2: Cluster, env: Env, repos: seq<Slug>)
    requires SameView(c1, c2, spec.name)
    ensures var o1, o2 := Dispatch(spec, st, c1, env, repos), Dispatch(spec, st, c2, env, repos);
            o1.status == o2.status && o1.recorded == o2.recorded && SameView(o1.cluster, o2.cluster, spec.name)
  {
    EnsureShardsLocal(spec, c1.configMaps, c2.configMaps, env, repos);
    var workers := EnsureShards(spec, c1.configMaps, env, repos).0;
    if workers.Some? {
      EnsureJobLocal(spec, c1.jobs, c2.jobs, env, workers.value, repos);
    }
  }

  lemma DiscoverLocal(spec: RunSpec, st: Status, c1: Cluster, c2: Cluster, env: Env)
    requires SameView(c1, c2, spec.name)
    ensures var o1, o2 := DiscoverAndDispatch(spec, st, c1, env), DiscoverAndDispatch(spec, st, c2, env);
            o1.status == o2.status && o1.recorded == o2.recorded && SameView(o1.cluster, o2.cluster, spec.name)
  {
    MirrorLocal(spec, c1, c2, env);
    if Attempt(spec, env).Some? {
      var d1 := c1.(secrets := MirrorCredential(spec, c1.secrets, env).1);
      var d2 := c2.(secrets := MirrorCredential(spec, c2.secrets, env).1);
      DispatchLocal(spec, Admit(st, env), d1, d2, env, Attempt(spec, env).value);
    }
  }

  /** A reconcile observes only its own Run's objects. */
  lemma ReconcileLocal(spec: RunSpec, st: Status, c1: Cluster, c2: Cluster, env: Env)
    requires SameView(c1, c2, spec.name)
    requires st.workerJobRef.Some? ==> st.workerJobRef.value == JobName(spec.name)
    ensures var o1, o2 := Reconcile(spec, st, c1, env), Reconcile(spec, st, c2, env);
            o1.status == o2.status && o1.recorded == o2.recorded && SameView(o1.cluster, o2.cluster, spec.name)
  {
    if st.phase == Unset || st.phase == Pending || st.phase == Discovering {
      DiscoverLocal(spec, if st.phase == Unset then st.(phase := Pending) else st, c1, c2, env);
    }
  }

  /** A reconcile of one Run leaves every object of another as it was, unless their names agree on 48 characters. */
  lemma ReconcileFrames(spec: RunSpec, st: Status, c: Cluster, env: Env, other: string)
    requires Take(spec.name, 48) != Take(other, 48)
    ensures SameView(c, Reconcile(spec, st, c, env).cluster, other)
  {
    ApartIsolated(spec.name, other);
    ReconcileEffects(spec, st, c, env);
  }

  /** No reconcile of the Run touches an object of the other. */
  ghost predicate LeavesAlone(spec: RunSpec, other: string) {
    forall st, c, env :: SameView(c, Reconcile(spec, st, c, env).cluster, other)
  }

  /** The condition is exact: Runs whose names agree on 48 characters overwrite each other's Secret. */
  lemma FramesExactlyWhen(spec: RunSpec, other: string)
    ensures LeavesAlone(spec, other) <==> Take(spec.name, 48) != Take(other, 48)
  {
    if Take(spec.name, 48) != Take(other, 48) {
      forall st, c, env ensures SameView(c, Reconcile(spec, st, c, env).cluster, other) {
        ReconcileFrames(spec, st, c, env, other);
      }
    } else {
      var c := Cluster(map[], map[], map[]);
      var env := Env(0, 0, 0, true, true, Some("token"), true, Applied, DiscoverFails(true), true, Applied, true, Applied);
      assert MirrorName(spec.name) == MirrorName(other);
      assert MirrorName(other) in Reconcile(spec, INITIAL, c, env).cluster.secrets;
      assert !SameView(c, Reconcile(spec, INITIAL, c, env).cluster, other);
    }
  }

  /** Hence the reconciles of two Runs commute: neither order can be told from the other. */
  lemma ReconcilesCommute(a: RunSpec, sa: Status, ea: Env, b: RunSpec, sb: Status, eb: Env, c: Cluster)
    requires Take(a.name, 48) != Take(b.name, 48)
    requires sa.workerJobRef.Some? ==> sa.workerJobRef.value == JobName(a.name)
    requires sb.workerJobRef.Some? ==> sb.workerJobRef.value == JobName(b.name)
    ensures var afterA, afterB := Reconcile(a, sa, c, ea), Reconcile(b, sb, c, eb);
            var ab, ba := Reconcile(b, sb, afterA.cluster, eb), Reconcile(a, sa, afterB.cluster, ea);
            && ab.status == afterB.status && ba.status == afterA.status
            && ab.recorded == afterB.recorded && ba.recorded == afterA.recorded
            && ab.cluster == ba.cluster
  {
    var afterA, afterB := Reconcile(a, sa, c, ea), Reconcile(b, sb, c, eb);
    ReconcileFrames(a, sa, c, ea, b.name);
    ReconcileFrames(b, sb, c, eb, a.name);
    ReconcileLocal(b, sb, c, afterA.cluster, eb);
    ReconcileLocal(a, sa, c, afterB.cluster, ea);
    var ab, ba := Reconcile(b, sb, afterA.cluster, eb), Reconcile(a, sa, afterB.cluster, ea);
    ReconcileFrames(b, sb, afterA.cluster, eb, a.name);
    ReconcileFrames(a, sa, afterB.cluster, ea, b.name);
    forall k: string
      ensures SameEntry(ab.cluster.secrets, ba.cluster.secrets, k)
      ensures SameEntry(ab.cluster.configMaps, ba.cluster.configMaps, k)
      ensures SameEntry(ab.cluster.jobs, ba.cluster.jobs, k)
    {
      OnlyOwnObjects(a, sa, c, ea, k);
      OnlyOwnObjects(b, sb, c, eb, k);
      OnlyOwnObjects(b, sb, afterA.cluster, eb, k);
      OnlyOwnObjects(a, sa, afterB.cluster, ea, k);
    }
    SameMap(ab.cluster.secrets, ba.cluster.secrets);
    SameMap(ab.cluster.configMaps, ba.cluster.configMaps);
    SameMap(ab.cluster.jobs, ba.cluster.jobs);
  }

  lemma OnlyOwnObjects(spec: RunSpec, st: Status, c: Cluster, env: Env, k: string)
    ensures var c' := Reconcile(spec, st, c, env).cluster;
            && (k != MirrorName(spec.name) ==> SameEntry(c.secrets, c'.secrets, k))
            && (k != ShardsName(spec.name) ==> SameEntry(c.configMaps, c'.configMaps, k))
            && (k != JobName(spec.name) ==> SameEntry(c.jobs, c'.jobs, k))
  {
    ReconcileEffects(spec, st, c, env);
  }

  lemma SameMap<V>(m1: map<string, V>, m2: map<string, V>)
    requires forall k: string :: SameEntry(m1, m2, k)
    ensures m1 == m2
  {
    assert forall k :: k in m1 ==> SameEntry(m1, m2, k);
    assert forall k :: k in m2 ==> SameEntry(m1, m2, k);
  }

  // ---------- progress ----------

  /** The outside gets in the way of this attempt in a way that may pass. */
  predicate MeetsTransient(spec: RunSpec, c: Cluster, env: Env) {
    || !env.sourceOk
    || (env.clientOk &&
        (|| !MirrorCredential(spec, c.secrets, env).0
         || DiscoverRepos(spec.requireConfig, env.discovery) == Failure(true)
         || (Attempt(spec, env).Some? &&
             (|| !env.shardsRead || (ShardsName(spec.name) !in c.configMaps && !env.shardsWrite.Applied?)
              || !env.jobRead || (JobName(spec.name) !in c.jobs && !env.jobWrite.Applied?)))))
  }

  /** With usable bounds and configuration, only a transient failure keeps a Run from being launched or failed. */
  lemma ProgressUnlessTransient(spec: RunSpec, st: Status, c: Cluster, env: Env)
    requires Rank(st.phase) <= 2 && !st.phase.Unrecognized?
    requires Defaulted(spec.workers).Valid() && spec.configParses
    ensures var p := Reconcile(spec, st, c, env).status.phase;
            if MeetsTransient(spec, c, env) then p == Discovering else p == Running || p == Failed
  {
    AttemptPhase(spec, st, c, env);
  }

  lemma AttemptPhase(spec: RunSpec, st: Status, c: Cluster, env: Env)
    requires Rank(st.phase) <= 2 && !st.phase.Unrecognized?
    ensures var p, usable := Reconcile(spec, st, c, env).status.phase, Defaulted(spec.workers).Valid() && spec.configParses;
            && (p == Discovering || p == Running || p == Failed)
            && (MeetsTransient(spec, c, env) ==> p == Discovering)
            && (usable && !MeetsTransient(spec, c, env) ==> p != Discovering)
            && (!usable ==> p != Running)
  {
    var st0 := if st.phase == Unset then st.(phase := Pending) else st;
    DiscoverCases(spec, st0, c, env);
    if Attempt(spec, env).Some? {
      var c1 := c.(secrets := MirrorCredential(spec, c.secrets, env).1);
      DispatchPhase(spec, Admit(st0, env), c1, env, Attempt(spec, env).value);
    }
  }

  /** Without them no attempt launches anything. */
  lemma NeverLaunched(spec: RunSpec, st: Status, c: Cluster, env: Env)
    requires Rank(st.phase) <= 2 && !st.phase.Unrecognized?
    requires !Defaulted(spec.workers).Valid() || !spec.configParses
    ensures var p := Reconcile(spec, st, c, env).status.phase; p == Discovering || p == Failed
  {
    AttemptPhase(spec, st, c, env);
  }

  /** What one reconcile meets: its answers, and the cluster as it is by then. */
  datatype Visit = Visit(env: Env, cluster: Cluster)

  /** The status after a series of reconciles whose status writes all succeed. */
  function AfterVisits(spec: RunSpec, st: Status, visits: seq<Visit>): Status {
    if visits == [] then st
    else
      AfterVisit(spec, AfterVisits(spec, st, visits[..|visits| - 1]), visits[|visits| - 1])
  }

  function AfterVisit(spec: RunSpec, st: Status, v: Visit): Status {
    Persist(Reconcile(spec, st, v.cluster, v.env).status)
  }

  function TransientVisits(spec: RunSpec, visits: seq<Visit>): nat {
    if visits == [] then 0
    else
      var last := visits[|visits| - 1];
      TransientVisits(spec, visits[..|visits| - 1]) + if MeetsTransient(spec, last.cluster, last.env) then 1 else 0
  }

  /** Bounded progress: more reconciles than transient failures, and the Run is launched or has failed. */
  lemma {:induction false} BoundedProgress(spec: RunSpec, visits: seq<Visit>)
    requires Defaulted(spec.workers).Valid() && spec.configParses
    ensures var p := AfterVisits(spec, INITIAL, visits).phase;
            && !p.Unrecognized?
            && (TransientVisits(spec, visits) < |visits| ==> Rank(p) >= 3)
            && TransientVisits(spec, visits) <= |visits|
  {
    if visits != [] {
      BoundedProgress(spec, visits[..|visits| - 1]);
      VisitProgress(spec, AfterVisits(spec, INITIAL, visits[..|visits| - 1]), visits[|visits| - 1]);
    }
  }

  /** The attempt gets as far as planning shards for some repositories. */
  predicate Plans(spec: RunSpec, c: Cluster, env: Env) {
    env.sourceOk && env.clientOk && MirrorCredential(spec, c.secrets, env).0 && Attempt(spec, env).Some?
  }

  /**
    The two conditions of bounded progress are needed: with unusable bounds or configuration, a Run whose every
    attempt finds repositories is retried for ever, although nothing transient is in the way.
  */
  lemma {:induction false} RetriedForever(spec: RunSpec, visits: seq<Visit>)
    requires !Defaulted(spec.workers).Valid() || !spec.configParses
    requires forall i :: 0 <= i < |visits| ==> Plans(spec, visits[i].cluster, visits[i].env)
    ensures AfterVisits(spec, INITIAL, visits).phase == if visits == [] then Unset else Discovering
  {
    if visits != [] {
      var before, last := AfterVisits(spec, INITIAL, visits[..|visits| - 1]), visits[|visits| - 1];
      RetriedForever(spec, visits[..|visits| - 1]);
      var st0 := if before.phase == Unset then before.(phase := Pending) else before;
      DiscoverCases(spec, st0, last.cluster, last.env);
      var c1 := last.cluster.(secrets := MirrorCredential(spec, last.cluster.secrets, last.env).1);
      DispatchPhase(spec, Admit(st0, last.env), c1, last.env, Attempt(spec, last.env).value);
    }
  }

  lemma VisitProgress(spec: RunSpec, st: Status, v: Visit)
    requires Defaulted(spec.workers).Valid() && spec.configParses && !st.phase.Unrecognized?
    ensures var p := AfterVisit(spec, st, v).phase;
            && !p.Unrecognized?
            && (Rank(st.phase) >= 3 || !MeetsTransient(spec, v.cluster, v.env) ==> Rank(p) >= 3)
  {
    if Rank(st.phase) <= 2 {
      AttemptPhase(spec, st, v.cluster, v.env);
    }
  }
}
