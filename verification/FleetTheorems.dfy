/** What holds of every history of a fleet of Runs. */
module FleetTheorems {
  import opened Prelude
  import opened ShardPlanner
  import opened Names
  import opened RunModel
  import opened FleetSystem

  // ---------- nothing is undone ----------

  /** What can have happened between an earlier and a later state; a deleted Run is no longer in store, but on record. */
  ghost predicate Grown(w: World, w': World) {
    && w.deleted <= w'.deleted
    && (forall n :: n in w.runs ==> n in w'.runs && RunGrown(w.runs[n], w'.runs[n]))
    && (forall k :: k in w.cluster.configMaps ==>
          k in w'.cluster.configMaps && w'.cluster.configMaps[k] == w.cluster.configMaps[k])
    && (forall k :: k in w.cluster.jobs ==> k in w'.cluster.jobs && JobMoved(w.cluster.jobs[k], w'.cluster.jobs[k]))
  }

  ghost predicate RunGrown(r: Run, r': Run) {
    && r'.spec == r.spec && Rank(r.status.phase) <= Rank(r'.status.phase)
    && (IsTerminal(r.status.phase) ==> r'.status == r.status)
  }

  lemma GrownTransitive(a: World, b: World, c: World)
    requires Grown(a, b) && Grown(b, c)
    ensures Grown(a, c)
  {
    forall n | n in a.runs ensures n in c.runs && RunGrown(a.runs[n], c.runs[n]) {
      assert RunGrown(a.runs[n], b.runs[n]) && RunGrown(b.runs[n], c.runs[n]);
    }
    forall k | k in a.cluster.jobs ensures k in c.cluster.jobs && JobMoved(a.cluster.jobs[k], c.cluster.jobs[k]) {
      assert JobMoved(a.cluster.jobs[k], b.cluster.jobs[k]) && JobMoved(b.cluster.jobs[k], c.cluster.jobs[k]);
    }
  }

  lemma SettleGrows(w: World, name: string, env: Env, o: Outcome, persisted: bool)
    requires name in w.runs && RunOk(w, name) && Sound(w.runs[name].spec, w.runs[name].status, w.cluster, env, o)
    ensures Grown(w, Settle(w, name, env, o, persisted))
  {
    forall k | k in w.cluster.configMaps
      ensures k in o.cluster.configMaps && o.cluster.configMaps[k] == w.cluster.configMaps[k]
    {
      ShardsStay(w, env, o, name, k);
    }
    forall k | k in w.cluster.jobs ensures k in o.cluster.jobs && o.cluster.jobs[k] == w.cluster.jobs[k] {
      JobsStay(w, env, o, name, k);
    }
  }

  lemma StepGrows(w: World, s: Step)
    requires Inv(w) && Enabled(w, s)
    ensures Grown(w, Apply(w, s))
  {
    if s.ReconcileRun? {
      var run := w.runs[s.name];
      assert RunOk(w, s.name);
      StampsLater(run.status, run.touched, s.env.began);
      ReconcileSound(run.spec, run.status, w.cluster, s.env);
      SettleGrows(w, s.name, s.env, Reconcile(run.spec, run.status, w.cluster, s.env), s.persisted);
    } else {
      OutsideContinues(w, s);
    }
  }

  /**
    Over any history, with retries, lost writes and failures in any order: a phase never moves back, a
    terminal status never changes, a shard ConfigMap never changes once it exists, and a Job keeps its
    completions and what its indexes already done were given.
  */
  lemma {:induction false} HistoryOnlyGrows(steps: seq<Step>, k: nat)
    requires Feasible(steps) && k <= |steps|
    ensures Feasible(steps[..k]) && Grown(After(steps[..k]), After(steps))
  {
    if k == |steps| {
      assert steps[..k] == steps;
    } else {
      var before := steps[..|steps| - 1];
      HistoryOnlyGrows(before, k);
      assert before[..k] == steps[..k];
      AlwaysInv(before);
      StepGrows(After(before), steps[|steps| - 1]);
      GrownTransitive(After(steps[..k]), After(before), After(steps));
    }
  }

  /** A state some history leads to. */
  ghost predicate Reachable(w: World) {
    exists steps: seq<Step> :: Feasible(steps) && After(steps) == w
  }

  lemma ReachableInv(w: World)
    requires Reachable(w)
    ensures Inv(w)
  {
    var steps: seq<Step> :| Feasible(steps) && After(steps) == w;
    AlwaysInv(steps);
  }

  /** Some history passes through `w` and ends in `w'`. */
  ghost predicate Leads(w: World, w': World) {
    exists steps: seq<Step>, k: nat ::
      k <= |steps| && Feasible(steps[..k]) && Feasible(steps) && After(steps[..k]) == w && After(steps) == w'
  }

  lemma LeadsSelf(w: World)
    requires Reachable(w)
    ensures Leads(w, w)
  {
    var steps: seq<Step> :| Feasible(steps) && After(steps) == w;
    assert steps[..|steps|] == steps;
  }

  lemma LeadsNext(w: World, w1: World, s: Step)
    requires Leads(w, w1) && Enabled(w1, s)
    ensures Leads(w, Apply(w1, s))
  {
    var steps: seq<Step>, k: nat :|
      k <= |steps| && Feasible(steps[..k]) && Feasible(steps) && After(steps[..k]) == w && After(steps) == w1;
    var more := steps + [s];
    assert more[..|more| - 1] == steps && more[|more| - 1] == s && more[..k] == steps[..k];
    assert Feasible(more) && After(more) == Apply(w1, s);
  }

  lemma LeadsGrows(w: World, w': World)
    requires Leads(w, w')
    ensures Grown(w, w') && Reachable(w) && Reachable(w')
  {
    var steps: seq<Step>, k: nat :|
      k <= |steps| && Feasible(steps[..k]) && Feasible(steps) && After(steps[..k]) == w && After(steps) == w';
    HistoryOnlyGrows(steps, k);
  }

  /** Every status ever stored is well formed. */
  lemma StoredStatusesWellFormed(w: World, n: string)
    requires Reachable(w) && n in w.runs
    ensures WellFormed(w.runs[n].status)
  {
    ReachableInv(w);
    assert RunOk(w, n);
  }

  /**
    The terminal-Run counter is the number of Runs ever stored as terminal plus the terminal transitions whose write
    was lost. It is the number of terminal Runs in store exactly when none was lost and none deleted, and never
    less than it.
  */
  lemma CounterConserved(w: World)
    requires Reachable(w)
    ensures w.counted == |Ended(w)| + w.lost
    ensures w.counted == |Ended(w)| <==> w.lost == 0
    ensures w.counted == |Ended(w) - w.deleted| <==> w.lost == 0 && w.deleted == {}
    ensures |Ended(w) - w.deleted| + |w.deleted| + w.lost == w.counted
  {
    ReachableInv(w);
    SubsetSize(w.deleted, Ended(w));
  }

  // ---------- what a status says is so ----------

  /** The counts and references in a Run's stored status agree with each other and with the cluster. */
  ghost predicate Truthful(w: World, n: string) {
    && n in w.runs && Reports(w.runs[n].spec, w.runs[n].status)
    && (w.runs[n].status.workerJobRef.Some? ==> MirrorName(n) in w.cluster.secrets && Remembers(w.runs[n]))
    && (w.runs[n].status.phase == Succeeded ==>
          JobName(n) in w.cluster.jobs && w.runs[n].status.succeededShards == w.cluster.jobs[JobName(n)].completions)
  }

  /** The reported number of repositories is that of the attempt that launched the workers. */
  ghost predicate Remembers(run: Run) {
    && run.launched.Some? && run.launched.value != []
    && run.status.discoveredRepos == Wrap32(|run.launched.value|)
  }

  /** A Job never completes more indexes than it has. */
  lemma NoMoreThanAll(w: World, k: string)
    requires k in w.cluster.jobs && JobOk(w, k)
    ensures |w.cluster.jobs[k].done| <= w.cluster.jobs[k].completions
  {
    var job := w.cluster.jobs[k];
    var all := Below(job.completions);
    assert job.done.Keys <= all;
    SubsetSize(job.done.Keys, all);
    assert |job.done.Keys| == |job.done|;
  }

  lemma SettleTruthful(w: World, n: string, env: Env, o: Outcome, persisted: bool)
    requires n in w.runs && RunOk(w, n) && Truthful(w, n) && (JobName(n) in w.cluster.jobs ==> JobOk(w, JobName(n)))
    requires Sound(w.runs[n].spec, w.runs[n].status, w.cluster, env, o) && Told(w.runs[n].spec, w.runs[n].status, w.cluster, env, o)
    ensures Truthful(Settle(w, n, env, o, persisted), n)
  {
    JobsStay(w, env, o, n, JobName(n));
    if JobName(n) in w.cluster.jobs {
      NoMoreThanAll(w, JobName(n));
    }
  }

  /** Secrets are overwritten but never removed. */
  lemma SecretsStay(spec: RunSpec, st: Status, c: Cluster, env: Env, k: string)
    requires k in c.secrets
    ensures k in Reconcile(spec, st, c, env).cluster.secrets
  {
    ReconcileEffects(spec, st, c, env);
  }

  lemma OwnTruthful(w: World, s: Step)
    requires Inv(w) && s.ReconcileRun? && Enabled(w, s) && Truthful(w, s.name)
    ensures Truthful(Apply(w, s), s.name)
  {
    var n, run := s.name, w.runs[s.name];
    assert RunOk(w, n);
    StampsLater(run.status, run.touched, s.env.began);
    ReconcileSound(run.spec, run.status, w.cluster, s.env);
    ReconcileReports(run.spec, run.status, w.cluster, s.env);
    SettleTruthful(w, n, s.env, Reconcile(run.spec, run.status, w.cluster, s.env), s.persisted);
  }

  lemma OthersTruthful(w: World, name: string, env: Env, o: Outcome, persisted: bool, n: string)
    requires name in w.runs && name != n && Truthful(w, n) && JobCreated(w.runs[name].spec, w.cluster, env, o.cluster)
    requires MirrorName(n) in w.cluster.secrets ==> MirrorName(n) in o.cluster.secrets
    ensures Truthful(Settle(w, name, env, o, persisted), n)
  {
    JobsStay(w, env, o, name, JobName(n));
  }

  lemma ReconcileTruthful(w: World, s: Step, n: string)
    requires Inv(w) && s.ReconcileRun? && Enabled(w, s) && Truthful(w, n)
    ensures Truthful(Apply(w, s), n)
  {
    if s.name == n {
      OwnTruthful(w, s);
    } else {
      var run := w.runs[s.name];
      ReconcileEffects(run.spec, run.status, w.cluster, s.env);
      if MirrorName(n) in w.cluster.secrets {
        SecretsStay(run.spec, run.status, w.cluster, s.env, MirrorName(n));
      }
      OthersTruthful(w, s.name, s.env, Reconcile(run.spec, run.status, w.cluster, s.env), s.persisted, n);
    }
  }

  lemma OutsideTruthful(w: World, s: Step, n: string)
    requires !s.ReconcileRun? && Enabled(w, s) && Truthful(w, n)
    ensures Truthful(Apply(w, s), n)
  {
    OutsideContinues(w, s);
    assert JobName(n) in w.cluster.jobs ==> JobMoved(w.cluster.jobs[JobName(n)], Apply(w, s).cluster.jobs[JobName(n)]);
  }

  /**
    In every history the stored worker count is the one for the stored number of repositories, which is what the
    launching attempt found; a Run with a Job
    reference has its Secret and its ConfigMap reference, and a Run that succeeded reports each completion exactly once.
  */
  lemma {:induction false} StatusesTruthful(steps: seq<Step>, n: string)
    requires Feasible(steps) && n in After(steps).runs
    ensures Truthful(After(steps), n)
  {
    var before := steps[..|steps| - 1];
    var w, s := After(before), steps[|steps| - 1];
    AlwaysInv(before);
    if n in w.runs {
      StatusesTruthful(before, n);
      if s.ReconcileRun? {
        ReconcileTruthful(w, s, n);
      } else {
        OutsideTruthful(w, s, n);
      }
    }
  }

  // ---------- counting ----------

  lemma {:induction false} Below(c: nat) returns (all: set<nat>)
    ensures |all| == c && forall i: nat :: i in all <==> i < c
  {
    if c == 0 {
      all := {};
    } else {
      var some := Below(c - 1);
      all := some + {c - 1};
    }
  }
}
