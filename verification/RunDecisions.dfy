/**
  What a Run reconcile decides, in terms of the answers it gets and not of the handlers that compute it: which
  repositories discovery yields, which token ends up in the Secret, and how each attempt and each look at the
  Job ends.
*/
module RunDecisions {
  import opened Prelude
  import opened Slugs
  import opened ShardPlanner
  import opened Names
  import opened RunModel
  import Cron

  // ---------- discovery ----------

  predicate WithConfig(c: Candidate) {
    c.probe.HasConfig?
  }

  /** The first probe that fails. */
  ghost predicate FirstFailure(cs: seq<Candidate>, i: nat) {
    i < |cs| && cs[i].probe.ProbeFails? && forall j :: 0 <= j < i ==> !cs[j].probe.ProbeFails?
  }

  ghost predicate NoFailure(cs: seq<Candidate>) {
    forall j :: 0 <= j < |cs| ==> !cs[j].probe.ProbeFails?
  }

  /** The slugs of the candidates at these positions, in order. */
  ghost predicate SlugsAt(cs: seq<Candidate>, idx: seq<nat>, repos: seq<Slug>) {
    |repos| == |idx| && forall k :: 0 <= k < |idx| ==> idx[k] < |cs| && repos[k] == cs[idx[k]].slug
  }

  /** Without a failing probe, the result holds exactly the candidates with a config, each in its place. */
  lemma {:induction false} ProbedKeeps(cs: seq<Candidate>) returns (idx: seq<nat>)
    requires NoFailure(cs)
    ensures Probed(cs).Success? && Picks(cs, WithConfig, idx) && SlugsAt(cs, idx, Probed(cs).value)
  {
    if cs == [] {
      idx := [];
    } else {
      var last := |cs| - 1;
      var before := ProbedKeeps(cs[..last]);
      idx := if WithConfig(cs[last]) then before + [last] else before;
      PicksSnoc(cs, WithConfig, before, idx);
      SlugsAtSnoc(cs, before, Probed(cs[..last]).value, idx, Probed(cs).value);
    }
  }

  lemma SlugsAtSnoc(cs: seq<Candidate>, before: seq<nat>, repos: seq<Slug>, idx: seq<nat>, repos': seq<Slug>)
    requires cs != [] && SlugsAt(cs[..|cs| - 1], before, repos)
    requires (idx == before && repos' == repos) || (idx == before + [|cs| - 1] && repos' == repos + [cs[|cs| - 1].slug])
    ensures SlugsAt(cs, idx, repos')
  {
  }

  /** Otherwise the first failing probe decides. */
  lemma {:induction false} ProbedFails(cs: seq<Candidate>, i: nat)
    requires FirstFailure(cs, i)
    ensures Probed(cs) == Failure(cs[i].probe.transient)
  {
    var last := |cs| - 1;
    if i < last {
      ProbedFails(cs[..last], i);
    } else {
      var idx := ProbedKeeps(cs[..last]);
    }
  }

  lemma {:induction false} FindFailure(cs: seq<Candidate>) returns (i: nat)
    requires !NoFailure(cs)
    ensures FirstFailure(cs, i)
  {
    var last := |cs| - 1;
    if NoFailure(cs[..last]) {
      i := last;
    } else {
      i := FindFailure(cs[..last]);
    }
  }

  /** What discovery with the config probe yields. */
  lemma DiscoveryProbed(cs: seq<Candidate>)
    ensures var r := DiscoverRepos(true, Found(cs));
            && (r.Success? <==> NoFailure(cs))
            && (r.Success? ==>
                  exists idx: seq<nat> :: Picks(cs, WithConfig, idx) && SlugsAt(cs, idx, r.value))
            && (forall t :: r == Failure(t) <==> exists i: nat :: FirstFailure(cs, i) && cs[i].probe.transient == t)
  {
    if NoFailure(cs) {
      var idx := ProbedKeeps(cs);
    } else {
      var i := FindFailure(cs);
      ProbedFails(cs, i);
      assert forall j: nat :: FirstFailure(cs, j) ==> j == i;
    }
  }

  /** Without the probe every candidate is taken; a discovery that fails is reported as it failed. */
  lemma DiscoveryPlain(requireConfig: bool, d: Discovery)
    ensures d.DiscoverFails? ==> DiscoverRepos(requireConfig, d) == Failure(d.transient)
    ensures d.Found? && !requireConfig ==>
              var r := DiscoverRepos(requireConfig, d);
              r.Success? && |r.value| == |d.candidates| && forall i :: 0 <= i < |r.value| ==> r.value[i] == d.candidates[i].slug
  {
  }

  // ---------- the Secret ----------

  /** There is a token to store. */
  predicate HasToken(env: Env) {
    env.token.Some? && env.token.value != ""
  }

  /** The token is stored and the controller knows it. */
  predicate Mirrored(env: Env) {
    HasToken(env) && env.secretRead && env.secretWrite.Applied?
  }

  /** Exactly the Run's own Secret is written, whether or not it existed, and exactly when there is a token and the write goes through. */
  lemma MirrorWrites(spec: RunSpec, secrets: map<string, string>, env: Env)
    ensures MirrorCredential(spec, secrets, env).0 <==> Mirrored(env)
    ensures var after := MirrorCredential(spec, secrets, env).1;
            if HasToken(env) && env.secretRead && !env.secretWrite.Rejected?
            then && after.Keys == secrets.Keys + {MirrorName(spec.name)} && after[MirrorName(spec.name)] == env.token.value
                 && forall k :: k in secrets && k != MirrorName(spec.name) ==> after[k] == secrets[k]
            else after == secrets
  {
  }

  // ---------- how an attempt ends ----------

  predicate Attempts(st: Status) {
    st.phase == Unset || st.phase == Pending || st.phase == Discovering
  }

  /** The attempt gets a list of repositories to plan for. */
  predicate Plannable(spec: RunSpec, env: Env) {
    && env.sourceOk && env.clientOk && Mirrored(env)
    && var found := DiscoverRepos(spec.requireConfig, env.discovery); found.Success? && found.value != []
  }

  predicate ShardsReady(spec: RunSpec, c: Cluster, env: Env) {
    && Plannable(spec, env) && Defaulted(spec.workers).Valid() && env.shardsRead
    && (ShardsName(spec.name) in c.configMaps || env.shardsWrite.Applied?)
  }

  predicate Launches(spec: RunSpec, c: Cluster, env: Env) {
    && ShardsReady(spec, c, env) && spec.configParses && env.jobRead
    && (JobName(spec.name) in c.jobs || env.jobWrite.Applied?)
  }

  /** What is permanent: no client for the platform, a permanent discovery error, or nothing to do. */
  predicate Hopeless(spec: RunSpec, env: Env) {
    && env.sourceOk
    && (|| !env.clientOk
        || (Mirrored(env) &&
            var found := DiscoverRepos(spec.requireConfig, env.discovery); found == Failure(false) || found == Success([])))
  }

  /** Discovery failed for the time being. */
  predicate DiscoveryHiccup(spec: RunSpec, env: Env) {
    env.sourceOk && env.clientOk && Mirrored(env) && DiscoverRepos(spec.requireConfig, env.discovery) == Failure(true)
  }

  /** The outcome of an attempt by its cause: the phase, the counter, and the conditions with their reasons. */
  ghost predicate EndsAs(spec: RunSpec, st: Status, c: Cluster, env: Env, o: Outcome) {
    if Launches(spec, c, env) then
      && o.status.phase == Running && o.recorded == None
      && o.status.conditions == st.conditions[TypeStarted := Condition(true, Admitted)][TypeDiscovered := Condition(true, DiscoveryComplete)]
    else if Hopeless(spec, env) then
      && o.status.phase == Failed && o.recorded == Some(ResultFailed)
      && o.status.conditions == st.conditions[TypeStarted := Condition(true, Admitted)][TypeFailed := Condition(true, DiscoveryFailed)]
    else
      && o.status.phase == Discovering && o.recorded == None
      && o.status.conditions ==
         st.conditions[TypeStarted := Condition(false, if DiscoveryHiccup(spec, env) then DiscoveryFailed else ReconcileError)]
  }

  /** The stamps: the start is that of the first attempt, launch and failure are stamped when they happen. */
  ghost predicate StampedAs(spec: RunSpec, st: Status, c: Cluster, env: Env, st': Status) {
    && st'.startTime == (if st.startTime.Some? then st.startTime else Some(env.began))
    && st'.completionTime == (if Hopeless(spec, env) then Some(env.stamped) else st.completionTime)
    && st'.discoveryCompletionTime ==
       (if Launches(spec, c, env) && st.discoveryCompletionTime.None? then Some(env.stamped) else st.discoveryCompletionTime)
    && st'.workersStartTime ==
       (if Launches(spec, c, env) && st.workersStartTime.None? then Some(env.workersAt) else st.workersStartTime)
  }

  /** The counts and references: set once the shards are there, the Job's once it is. */
  ghost predicate CountedAs(spec: RunSpec, st: Status, c: Cluster, env: Env, st': Status) {
    && st'.succeededShards == st.succeededShards && st'.failedShards == st.failedShards
    && (if ShardsReady(spec, c, env) then
          var repos := DiscoverRepos(spec.requireConfig, env.discovery).value;
          && st'.discoveredRepos == Wrap32(|repos|) && st'.actualWorkers == ComputeActualWorkers(Wrap32(|repos|), Defaulted(spec.workers))
          && st'.shardConfigMapRef == Some(ShardsName(spec.name))
        else
          && st'.discoveredRepos == st.discoveredRepos && st'.actualWorkers == st.actualWorkers
          && st'.shardConfigMapRef == st.shardConfigMapRef)
    && st'.workerJobRef == if Launches(spec, c, env) then Some(JobName(spec.name)) else st.workerJobRef
  }

  /** Which objects exist afterwards, and which token the Secret holds. */
  ghost predicate LeavesObjects(spec: RunSpec, c: Cluster, env: Env, c': Cluster) {
    && c'.secrets == (if env.sourceOk && env.clientOk && HasToken(env) && env.secretRead && !env.secretWrite.Rejected?
                      then c.secrets[MirrorName(spec.name) := env.token.value] else c.secrets)
    && (ShardsName(spec.name) in c'.configMaps <==>
          || ShardsName(spec.name) in c.configMaps
          || (Plannable(spec, env) && Defaulted(spec.workers).Valid() && env.shardsRead && !env.shardsWrite.Rejected?))
    && (JobName(spec.name) in c'.jobs <==>
          || JobName(spec.name) in c.jobs
          || (ShardsReady(spec, c, env) && spec.configParses && env.jobRead && !env.jobWrite.Rejected?))
    && (JobName(spec.name) in c'.jobs && JobName(spec.name) !in c.jobs ==> FreshJob(spec, env, c'.jobs[JobName(spec.name)]))
  }

  /** A new Job: on the Run's own ConfigMap and Secret, as many completions as workers at once, nothing done and nothing failed. */
  ghost predicate FreshJob(spec: RunSpec, env: Env, job: Job) {
    && job.owner == spec.name && job.configMap == ShardsName(spec.name) && job.secret == MirrorName(spec.name)
    && job.done == map[] && !job.failed && job.failedPods == 0
    && Plannable(spec, env) && Defaulted(spec.workers).Valid()
    && job.completions == job.parallelism ==
       ComputeActualWorkers(Wrap32(|DiscoverRepos(spec.requireConfig, env.discovery).value|), Defaulted(spec.workers))
  }

  /** The same for the part of an attempt that follows admission and discovery. */
  ghost predicate DispatchedAs(spec: RunSpec, st: Status, c: Cluster, env: Env, o: Outcome) {
    && CountedAs(spec, st, c, env, o.status) && o.cluster.secrets == c.secrets && o.recorded == None
    && o.status.startTime == st.startTime && o.status.completionTime == st.completionTime
    && (ShardsName(spec.name) in o.cluster.configMaps <==>
          || ShardsName(spec.name) in c.configMaps
          || (Defaulted(spec.workers).Valid() && env.shardsRead && !env.shardsWrite.Rejected?))
    && (JobName(spec.name) in o.cluster.jobs <==>
          || JobName(spec.name) in c.jobs
          || (ShardsReady(spec, c, env) && spec.configParses && env.jobRead && !env.jobWrite.Rejected?))
    && (JobName(spec.name) in o.cluster.jobs && JobName(spec.name) !in c.jobs ==> FreshJob(spec, env, o.cluster.jobs[JobName(spec.name)]))
    && (if Launches(spec, c, env) then
          && o.status.phase == Running
          && o.status.conditions == st.conditions[TypeDiscovered := Condition(true, DiscoveryComplete)]
          && o.status.discoveryCompletionTime ==
             (if st.discoveryCompletionTime.None? then Some(env.stamped) else st.discoveryCompletionTime)
          && o.status.workersStartTime == (if st.workersStartTime.None? then Some(env.workersAt) else st.workersStartTime)
        else
          && o.status.phase == Discovering
          && o.status.conditions == st.conditions[TypeStarted := Condition(false, ReconcileError)]
          && o.status.discoveryCompletionTime == st.discoveryCompletionTime && o.status.workersStartTime == st.workersStartTime)
  }

  lemma LaunchDecided(spec: RunSpec, st: Status, c: Cluster, c2: Cluster, env: Env, workers: nat, repos: seq<Slug>)
    requires ShardsReady(spec, c, env) && Attempt(spec, env) == Some(repos) && st.phase == Discovering
    requires workers == Workers(|repos|, Defaulted(spec.workers)) && c2 == c.(configMaps := c2.configMaps)
    requires ShardsName(spec.name) in c2.configMaps
    ensures DispatchedAs(spec, st, c, env, Launch(spec, st, c2, env, workers, repos))
  {
  }

  lemma DispatchDecided(spec: RunSpec, st: Status, c: Cluster, env: Env, repos: seq<Slug>)
    requires Plannable(spec, env) && Attempt(spec, env) == Some(repos) && st.phase == Discovering
    ensures DispatchedAs(spec, st, c, env, Dispatch(spec, st, c, env, repos))
  {
    var s := EnsureShards(spec, c.configMaps, env, repos);
    assert s.0.Some? <==> ShardsReady(spec, c, env);
    if s.0.Some? {
      EnsureShardsEffects(spec, c.configMaps, env, repos);
      LaunchDecided(spec, st, c, c.(configMaps := s.1), env, s.0.value, repos);
    }
  }

  /** Everything an attempt does, by what it met. */
  ghost predicate Decided(spec: RunSpec, st: Status, c: Cluster, env: Env, o: Outcome) {
    && EndsAs(spec, st, c, env, o) && StampedAs(spec, st, c, env, o.status) && CountedAs(spec, st, c, env, o.status)
    && LeavesObjects(spec, c, env, o.cluster)
  }

  /** An attempt that does not get as far as the platform's token. */
  lemma UnconnectedDecided(spec: RunSpec, st: Status, c: Cluster, env: Env)
    requires !env.sourceOk || !env.clientOk
    ensures Decided(spec, st, c, env, DiscoverAndDispatch(spec, st, c, env))
  {
  }

  /** An attempt that does, but gets nothing to plan for. */
  lemma UnplannedDecided(spec: RunSpec, st: Status, c: Cluster, env: Env)
    requires env.sourceOk && env.clientOk && !Plannable(spec, env)
    ensures Decided(spec, st, c, env, DiscoverAndDispatch(spec, st, c, env))
  {
    MirrorWrites(spec, c.secrets, env);
  }

  lemma DiscoverDecided(spec: RunSpec, st: Status, c: Cluster, env: Env)
    ensures Decided(spec, st, c, env, DiscoverAndDispatch(spec, st, c, env))
  {
    if !env.sourceOk || !env.clientOk {
      UnconnectedDecided(spec, st, c, env);
    } else if !Plannable(spec, env) {
      UnplannedDecided(spec, st, c, env);
    } else {
      var st1, c1, repos := Admit(st, env), c.(secrets := MirrorCredential(spec, c.secrets, env).1), Attempt(spec, env).value;
      MirrorWrites(spec, c.secrets, env);
      DiscoverCases(spec, st, c, env);
      DispatchDecided(spec, st1, c1, env, repos);
      PlannedDecided(spec, st, c, env, st1, c1, Dispatch(spec, st1, c1, env, repos));
    }
  }

  lemma AttemptDecided(spec: RunSpec, st: Status, c: Cluster, env: Env)
    requires Attempts(st)
    ensures Decided(spec, st, c, env, Reconcile(spec, st, c, env))
  {
    var st0 := if st.phase == Unset then st.(phase := Pending) else st;
    DiscoverDecided(spec, st0, c, env);
    PhaseIrrelevant(spec, st, st0, c, env, DiscoverAndDispatch(spec, st0, c, env));
  }

  lemma PhaseIrrelevant(spec: RunSpec, st: Status, st0: Status, c: Cluster, env: Env, o: Outcome)
    requires Decided(spec, st0, c, env, o) && st0 == st.(phase := st0.phase)
    ensures Decided(spec, st, c, env, o)
  {
  }

  lemma PlannedDecided(spec: RunSpec, st: Status, c: Cluster, env: Env, st1: Status, c1: Cluster, o: Outcome)
    requires Plannable(spec, env) && DispatchedAs(spec, st1, c1, env, o) && c1 == c.(secrets := c1.secrets)
    requires c1.secrets == c.secrets[MirrorName(spec.name) := env.token.value]
    requires st1 == st.(phase := st1.phase, conditions := st.conditions[TypeStarted := Condition(true, Admitted)],
                        startTime := if st.startTime.Some? then st.startTime else Some(env.began))
    ensures Decided(spec, st, c, env, o)
  {
    assert Launches(spec, c1, env) == Launches(spec, c, env) && ShardsReady(spec, c1, env) == ShardsReady(spec, c, env);
  }

  // ---------- how a look at the Job ends ----------

  /** The outcome of observing a Job with these counts. */
  ghost predicate ObservedAs(st: Status, job: Job, env: Env, o: Outcome) {
    && o.status.succeededShards == |job.done| && o.status.failedShards == job.failedPods
    && (if |job.done| >= job.completions then
          && o.status.phase == Succeeded && o.recorded == Some(ResultSucceeded) && o.status.completionTime == Some(env.stamped)
          && o.status.conditions == st.conditions[TypeSucceeded := Condition(true, JobComplete)]
        else if job.failed then
          && o.status.phase == Failed && o.recorded == Some(ResultFailed) && o.status.completionTime == Some(env.stamped)
          && o.status.conditions == st.conditions[TypeFailed := Condition(true, JobFailed)]
        else
          && o.status.phase == Running && o.recorded == None && o.status.completionTime == st.completionTime
          && o.status.conditions == st.conditions)
  }

  /** What a reconcile of a running Run leaves as it was. */
  ghost predicate OnlyObserved(st: Status, st': Status) {
    && st'.startTime == st.startTime && st'.discoveryCompletionTime == st.discoveryCompletionTime
    && st'.workersStartTime == st.workersStartTime && st'.discoveredRepos == st.discoveredRepos
    && st'.actualWorkers == st.actualWorkers && st'.shardConfigMapRef == st.shardConfigMapRef && st'.workerJobRef == st.workerJobRef
  }

  /**
    A running Run succeeds exactly when its Job has as many completed indexes as completions, fails exactly when
    the Job failed short of that or is gone, and otherwise stays as it is. The cluster is only read.
  */
  lemma RunningDecided(spec: RunSpec, st: Status, c: Cluster, env: Env)
    requires st.phase == Running
    ensures var o := Reconcile(spec, st, c, env);
            && o.cluster == c && OnlyObserved(st, o.status)
            && (if st.workerJobRef.Some? && !env.jobRead then o == Outcome(st, c, None)
                else if st.workerJobRef.Some? && st.workerJobRef.value in c.jobs then
                  ObservedAs(st, c.jobs[st.workerJobRef.value], env, o)
                else
                  && o.status.phase == Failed && o.recorded == Some(ResultFailed) && o.status.completionTime == Some(env.stamped)
                  && o.status.conditions == st.conditions[TypeFailed := Condition(true, DiscoveryFailed)]
                  && o.status.succeededShards == st.succeededShards && o.status.failedShards == st.failedShards)
  {
  }

  /** In every other phase nothing happens. */
  lemma RestDecided(spec: RunSpec, st: Status, c: Cluster, env: Env)
    requires !Attempts(st) && st.phase != Running
    ensures Reconcile(spec, st, c, env) == Outcome(st, c, None)
  {
  }

  // ---------- defaults and storage ----------

  /** Zero means the documented default; everything else is taken as it is. */
  lemma DefaultsFilledIn(b: WorkerBounds)
    ensures var d := Defaulted(b);
            && (b.minWorkers == 0 ==> d.minWorkers == 1) && (b.maxWorkers == 0 ==> d.maxWorkers == 10)
            && (b.reposPerWorker == 0 ==> d.reposPerWorker == 50)
            && (b.minWorkers != 0 ==> d.minWorkers == b.minWorkers) && (b.maxWorkers != 0 ==> d.maxWorkers == b.maxWorkers)
            && (b.reposPerWorker != 0 ==> d.reposPerWorker == b.reposPerWorker)
    ensures Defaulted(b).Valid() <==>
              && b.minWorkers >= 0 && b.maxWorkers >= 0 && b.reposPerWorker >= 0
              && (b.maxWorkers == 0 ==> b.minWorkers <= 10) && (b.maxWorkers > 0 ==> b.minWorkers <= b.maxWorkers)
  {
  }

  /** Storing loses the fractions of seconds of the four stamps and nothing else. */
  lemma PersistLosesFractions(st: Status)
    ensures Persist(st).(startTime := st.startTime, discoveryCompletionTime := st.discoveryCompletionTime,
                         workersStartTime := st.workersStartTime, completionTime := st.completionTime) == st
    ensures WithinSecond(Persist(st).startTime, st.startTime)
    ensures WithinSecond(Persist(st).discoveryCompletionTime, st.discoveryCompletionTime)
    ensures WithinSecond(Persist(st).workersStartTime, st.workersStartTime)
    ensures WithinSecond(Persist(st).completionTime, st.completionTime)
  {
  }

  predicate WithinSecond(stored: Option<int>, t: Option<int>) {
    && (stored.Some? <==> t.Some?)
    && (t.Some? ==> stored.value % Cron.SECOND == 0 && stored.value <= t.value < stored.value + Cron.SECOND)
  }
}
