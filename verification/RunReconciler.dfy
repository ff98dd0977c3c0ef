/**
  The Run controller as the source writes it: methods that update the Run's status field by field and
  create objects in the API server, each proved to do what `RunModel` says.
*/
module RunReconciler {
  import opened Prelude
  import opened Slugs
  import opened ShardPlanner
  import opened Names
  import opened RunModel
  import opened RunDecisions

  class RenovateRun {
    const spec: RunSpec
    var status: Status

    constructor (spec: RunSpec)
      ensures this.spec == spec && status == INITIAL
    {
      this.spec := spec;
      status := INITIAL;
    }
  }

  class ApiServer {
    var secrets: map<string, string>
    var configMaps: map<string, ConfigMap>
    var jobs: map<string, Job>

    function Value(): Cluster
      reads this
    {
      Cluster(secrets, configMaps, jobs)
    }
  }

  class Reconciler {
    /** The counter of Runs that reached a terminal phase, by result. */
    var runsTotal: multiset<RunResult>

    constructor ()
      ensures runsTotal == multiset{}
    {
      runsTotal := multiset{};
    }

    ghost function Counted(before: multiset<RunResult>, recorded: Option<RunResult>): multiset<RunResult> {
      if recorded.None? then before else before + multiset{recorded.value}
    }

    method MarkCondition(run: RenovateRun, t: ConditionType, holds: bool, reason: Reason)
      modifies run`status
      ensures run.status == old(run.status).(conditions := old(run.status).conditions[t := Condition(holds, reason)])
    {
      run.status := run.status.(conditions := run.status.conditions[t := Condition(holds, reason)]);
    }

    method MarkFailed(run: RenovateRun, now: int)
      modifies this`runsTotal, run`status
      ensures run.status == RunModel.MarkFailed(old(run.status), now)
      ensures runsTotal == Counted(old(runsTotal), Some(ResultFailed))
    {
      run.status := run.status.(completionTime := Some(now));
      run.status := run.status.(phase := Failed);
      MarkCondition(run, TypeFailed, true, DiscoveryFailed);
      runsTotal := runsTotal + multiset{ResultFailed};
    }

    method MarkTransient(run: RenovateRun, reason: Reason)
      modifies run`status
      ensures run.status == RunModel.MarkTransient(old(run.status), reason)
    {
      MarkCondition(run, TypeStarted, false, reason);
    }

    /** The probe loop: keeps the repositories that have a config, stops at the first error. */
    method DiscoverRepos(requireConfig: bool, d: Discovery) returns (r: Result<seq<Slug>, bool>)
      ensures r == RunModel.DiscoverRepos(requireConfig, d)
    {
      if d.DiscoverFails? {
        return Failure(d.transient);
      }
      var all := d.candidates;
      if !requireConfig {
        return Success(seq(|all|, i requires 0 <= i < |all| => all[i].slug));
      }
      var out: seq<Slug> := [];
      for i := 0 to |all|
        invariant NoFailure(all[..i]) && Probed(all[..i]) == Success(out)
      {
        assert all[..i + 1][..i] == all[..i];
        match all[i].probe
        case ProbeFails(transient) =>
          ProbedFails(all, i);
          return Failure(transient);
        case HasConfig =>
          out := out + [all[i].slug];
        case NoConfig =>
      }
      assert all[..|all|] == all;
      r := Success(out);
    }

    method MirrorCredential(run: RenovateRun, api: ApiServer, env: Env) returns (ok: bool)
      modifies api`secrets
      ensures (ok, api.secrets) == RunModel.MirrorCredential(run.spec, old(api.secrets), env)
    {
      if env.token.None? || env.token.value == "" || !env.secretRead {
        return false;
      }
      if !env.secretWrite.Rejected? {
        api.secrets := api.secrets[MirrorName(run.spec.name) := env.token.value];
      }
      ok := env.secretWrite.Applied?;
    }

    method EnsureShardConfigMap(run: RenovateRun, api: ApiServer, env: Env, repos: seq<Slug>) returns (workers: Option<nat>)
      modifies api`configMaps
      ensures (workers, api.configMaps) == EnsureShards(run.spec, old(api.configMaps), env, repos)
    {
      var plan := Build(repos, Defaulted(run.spec.workers));
      if plan.Failure? || !env.shardsRead {
        return None;
      }
      var name := ShardsName(run.spec.name);
      if name in api.configMaps {
        return Some(plan.value.actualWorkers);
      }
      if !env.shardsWrite.Rejected? {
        api.configMaps := api.configMaps[name := ConfigMap(run.spec.name, plan.value.data, repos)];
      }
      workers := if env.shardsWrite.Applied? then Some(plan.value.actualWorkers) else None;
    }

    method EnsureWorkerJob(run: RenovateRun, api: ApiServer, env: Env, workers: nat, repos: seq<Slug>) returns (ok: bool)
      modifies api`jobs
      ensures (ok, api.jobs) == EnsureJob(run.spec, old(api.jobs), env, workers, repos)
    {
      if workers < 1 || !run.spec.configParses || !env.jobRead {
        return false;
      }
      var name := JobName(run.spec.name);
      if name in api.jobs {
        return true;
      }
      if !env.jobWrite.Rejected? {
        api.jobs := api.jobs[name := NewJob(run.spec, workers, repos)];
      }
      ok := env.jobWrite.Applied?;
    }

    method DiscoverAndDispatch(run: RenovateRun, api: ApiServer, env: Env)
      modifies this`runsTotal, run`status, api
      ensures var o := RunModel.DiscoverAndDispatch(run.spec, old(run.status), old(api.Value()), env);
              run.status == o.status && api.Value() == o.cluster && runsTotal == Counted(old(runsTotal), o.recorded)
    {
      if run.status.startTime.None? {
        run.status := run.status.(startTime := Some(env.began));
      }
      MarkCondition(run, TypeStarted, true, Admitted);
      run.status := run.status.(phase := Discovering);
      assert run.status == Admit(old(run.status), env);

      if !env.sourceOk {
        MarkTransient(run, ReconcileError);
        return;
      }
      if !env.clientOk {
        MarkFailed(run, env.stamped);
        return;
      }
      var mirrored := MirrorCredential(run, api, env);
      if !mirrored {
        MarkTransient(run, ReconcileError);
        return;
      }
      var discovered := DiscoverRepos(run.spec.requireConfig, env.discovery);
      if discovered.Failure? {
        if discovered.error {
          MarkTransient(run, DiscoveryFailed);
        } else {
          MarkFailed(run, env.stamped);
        }
        return;
      }
      if |discovered.value| == 0 {
        MarkFailed(run, env.stamped);
        return;
      }
      DispatchWorkers(run, api, env, discovered.value);
    }

    method DispatchWorkers(run: RenovateRun, api: ApiServer, env: Env, repos: seq<Slug>)
      modifies run`status, api`configMaps, api`jobs
      ensures var o := Dispatch(run.spec, old(run.status), old(api.Value()), env, repos);
              run.status == o.status && api.Value() == o.cluster && o.recorded == None
    {
      var workers := EnsureShardConfigMap(run, api, env, repos);
      if workers.None? {
        MarkTransient(run, ReconcileError);
        return;
      }
      run.status := run.status.(discoveredRepos := Wrap32(|repos|));
      run.status := run.status.(actualWorkers := workers.value);
      run.status := run.status.(shardConfigMapRef := Some(ShardsName(run.spec.name)));
      var created := EnsureWorkerJob(run, api, env, workers.value, repos);
      if !created {
        MarkTransient(run, ReconcileError);
        return;
      }
      run.status := run.status.(workerJobRef := Some(JobName(run.spec.name)));
      if run.status.discoveryCompletionTime.None? {
        run.status := run.status.(discoveryCompletionTime := Some(env.stamped));
      }
      if run.status.workersStartTime.None? {
        run.status := run.status.(workersStartTime := Some(env.workersAt));
      }
      MarkCondition(run, TypeDiscovered, true, DiscoveryComplete);
      run.status := run.status.(phase := Running);
    }

    method ObserveJob(run: RenovateRun, api: ApiServer, env: Env)
      modifies this`runsTotal, run`status
      ensures var o := RunModel.ObserveJob(old(run.status), api.Value(), env);
              run.status == o.status && api.Value() == o.cluster && runsTotal == Counted(old(runsTotal), o.recorded)
    {
      if run.status.workerJobRef.None? {
        MarkFailed(run, env.stamped);
        return;
      }
      if !env.jobRead {
        return;
      }
      if run.status.workerJobRef.value !in api.jobs {
        MarkFailed(run, env.stamped);
        return;
      }
      var job := api.jobs[run.status.workerJobRef.value];
      run.status := run.status.(succeededShards := |job.done|);
      run.status := run.status.(failedShards := job.failedPods);
      if |job.done| >= job.completions {
        run.status := run.status.(completionTime := Some(env.stamped));
        run.status := run.status.(phase := Succeeded);
        MarkCondition(run, TypeSucceeded, true, JobComplete);
        runsTotal := runsTotal + multiset{ResultSucceeded};
      } else if job.failed {
        run.status := run.status.(completionTime := Some(env.stamped));
        run.status := run.status.(phase := Failed);
        MarkCondition(run, TypeFailed, true, JobFailed);
        runsTotal := runsTotal + multiset{ResultFailed};
      }
    }

    /** The phase switch. */
    method Reconcile(run: RenovateRun, api: ApiServer, env: Env)
      modifies this`runsTotal, run`status, api
      ensures var o := RunModel.Reconcile(run.spec, old(run.status), old(api.Value()), env);
              run.status == o.status && api.Value() == o.cluster && runsTotal == Counted(old(runsTotal), o.recorded)
    {
      if run.status.phase == Unset {
        run.status := run.status.(phase := Pending);
      }
      match run.status.phase
      case Pending | Discovering =>
        DiscoverAndDispatch(run, api, env);
      case Running =>
        ObserveJob(run, api, env);
      case _ =>
    }
  }
}
