/** What the workers of a Run that succeeded were given, compared with what its attempts discovered. */
module FleetDelivery {
  import opened Prelude
  import opened Slugs
  import opened ShardPlanner
  import opened Names
  import opened RunModel
  import opened RunDecisions
  import opened FleetSystem
  import opened FleetTheorems

  // ---------- shards and Jobs agree, or not ----------

  /** There is a Job under the Run's Job name, with the Run that created it and the ConfigMap its workers mount. */
  ghost predicate HasJob(w: World, n: string) {
    && n in w.runs && JobName(n) in w.cluster.jobs
    && var job := w.cluster.jobs[JobName(n)];
       job.owner in w.runs && Bounds(w.runs[job.owner].spec) && job.configMap in w.cluster.configMaps
  }

  /** The worker count that the Job's creator gets for a repository list. */
  function WorkersOf(w: World, n: string, repos: seq<Slug>): nat
    requires HasJob(w, n)
  {
    WorkersFor(w.runs[w.cluster.jobs[JobName(n)].owner].spec, repos)
  }

  ghost function JobOf(w: World, n: string): Job
    requires HasJob(w, n)
  {
    w.cluster.jobs[JobName(n)]
  }

  ghost function ShardsOf(w: World, n: string): ConfigMap
    requires HasJob(w, n)
  {
    w.cluster.configMaps[w.cluster.jobs[JobName(n)].configMap]
  }

  /** Completions and data are those planned for the lists behind the two objects. */
  lemma JobIsPlanned(w: World, n: string)
    requires Inv(w) && n in w.runs && JobName(n) in w.cluster.jobs
    ensures HasJob(w, n)
    ensures var job, cm := JobOf(w, n), ShardsOf(w, n);
            && job.completions == WorkersOf(w, n, job.origin) > 0 && WorkersOf(w, n, cm.origin) > 0
            && cm.data == PlannedData(cm.origin, WorkersOf(w, n, cm.origin))
            && |cm.data| == WorkersOf(w, n, cm.origin)
            && forall i :: i in job.done ==> i < job.completions && Entrypoint(cm.data, i) == Some(job.done[i])
  {
    assert JobOk(w, JobName(n));
    assert ShardsOk(w, JobOf(w, n).configMap);
    PlannedDataServes(ShardsOf(w, n).origin, WorkersOf(w, n, ShardsOf(w, n).origin), 0);
  }

  /**
    The Job has one completion per shard key exactly when the repository list behind the Job and the one
    behind the ConfigMap call for the same number of workers; the same repositories in any order do.
  */
  lemma CompletionsMatchKeysExactlyWhen(w: World, n: string)
    requires Reachable(w) && n in w.runs && JobName(n) in w.cluster.jobs
    ensures HasJob(w, n)
    ensures var job, cm := JobOf(w, n), ShardsOf(w, n);
            && (job.completions == |cm.data| <==> WorkersOf(w, n, job.origin) == WorkersOf(w, n, cm.origin))
            && (multiset(job.origin) == multiset(cm.origin) ==> job.completions == |cm.data|)
  {
    ReachableInv(w);
    JobIsPlanned(w, n);
    SameLength(JobOf(w, n).origin, ShardsOf(w, n).origin);
  }

  lemma SameLength(s: seq<Slug>, t: seq<Slug>)
    ensures multiset(s) == multiset(t) ==> |s| == |t|
  {
    assert |multiset(s)| == |s| && |multiset(t)| == |t|;
  }

  /**
    An index can complete exactly when its shard exists and is stored uncompressed, so a Job with a compressed
    shard, or with more completions than there are shards, never completes.
  */
  lemma IndexCompletesExactlyWhen(w: World, n: string, i: nat)
    requires Reachable(w) && n in w.runs && JobName(n) in w.cluster.jobs
    requires i < w.cluster.jobs[JobName(n)].completions && i !in w.cluster.jobs[JobName(n)].done
    ensures HasJob(w, n) && WorkersOf(w, n, ShardsOf(w, n).origin) > 0
    ensures var repos := ShardsOf(w, n).origin;
            var keys := WorkersOf(w, n, repos);
            IndexCanComplete(w.cluster, JobName(n), i) <==> i < keys && !Oversize(Shards(Sort(repos), keys)[i])
  {
    ReachableInv(w);
    JobIsPlanned(w, n);
    PlannedDataServes(ShardsOf(w, n).origin, WorkersOf(w, n, ShardsOf(w, n).origin), i);
  }

  // ---------- delivery ----------

  /** All slugs the first `k` indexes of a Job worked on. */
  ghost function Delivered(done: map<nat, seq<Slug>>, k: nat): multiset<Slug>
    requires forall i: nat :: i < k ==> i in done
  {
    if k == 0 then multiset{} else Delivered(done, k - 1) + multiset(done[k - 1])
  }

  ghost predicate DoneByStride(done: map<nat, seq<Slug>>, k: nat, s: seq<Slug>, n: nat) {
    n > 0 && forall i: nat {:trigger i in done} :: i < k ==> i in done && done[i] == Stride(s, i, n)
  }

  lemma {:induction false} DeliveredIsGathered(done: map<nat, seq<Slug>>, k: nat, s: seq<Slug>, n: nat)
    requires DoneByStride(done, k, s, n)
    ensures Delivered(done, k) == Gathered(s, n, k)
  {
    if k > 0 {
      DeliveredIsGathered(done, k - 1, s, n);
      assert k - 1 in done;
    }
  }

  /** Enough distinct indexes below a bound are all of them. */
  lemma AllIndexes(done: map<nat, seq<Slug>>, c: nat)
    requires (forall i :: i in done ==> i < c) && |done| >= c
    ensures forall i: nat :: i < c ==> i in done
  {
    var all := Below(c);
    assert done.Keys <= all;
    SubsetSize(done.Keys, all);
    assert |done.Keys| == |done|;
  }

  lemma DoneIsPlanned(done: map<nat, seq<Slug>>, c: nat, repos: seq<Slug>, n: nat)
    requires n > 0 && c > 0 && forall i: nat :: i < c ==> i in done
    requires forall i :: i in done ==> Entrypoint(PlannedData(repos, n), i) == Some(done[i])
    ensures c <= n && DoneByStride(done, c, Sort(repos), n)
    ensures forall i: nat :: i < c ==> !Oversize(Shards(Sort(repos), n)[i])
  {
    assert c - 1 in done;
    forall i: nat | i < c ensures i < n && done[i] == Stride(Sort(repos), i, n) && !Oversize(Shards(Sort(repos), n)[i]) {
      assert i in done;
      PlannedDataServes(repos, n, i);
    }
  }

  /** The Run's Job has all its indexes done, as planned for the list behind the ConfigMap. */
  ghost predicate AllDone(w: World, n: string) {
    && HasJob(w, n)
    && var job, cm := JobOf(w, n), ShardsOf(w, n);
       && 0 < job.completions <= |cm.data|
       && DoneByStride(job.done, job.completions, Sort(cm.origin), |cm.data|)
  }

  lemma SucceededAllDone(w: World, n: string)
    requires Reachable(w) && n in w.runs && w.runs[n].status.phase == Succeeded
    ensures AllDone(w, n)
    ensures forall i: nat :: i < JobOf(w, n).completions ==> !Oversize(Shards(Sort(ShardsOf(w, n).origin), |ShardsOf(w, n).data|)[i])
  {
    ReachableInv(w);
    assert RunOk(w, n);
    JobIsPlanned(w, n);
    AllIndexes(JobOf(w, n).done, JobOf(w, n).completions);
    DoneIsPlanned(JobOf(w, n).done, JobOf(w, n).completions, ShardsOf(w, n).origin, |ShardsOf(w, n).data|);
  }

  /** Everything the Job of a Run that succeeded worked on. */
  ghost function Processed(w: World, n: string): multiset<Slug>
    requires AllDone(w, n)
  {
    Delivered(JobOf(w, n).done, JobOf(w, n).completions)
  }

  /**
    A Run that succeeded, whatever its name: every index below the completions was given that index's stride of
    the sorted repository list behind the ConfigMap. Together they worked on all of that list, each slug as often
    as it is in it, exactly when there is one completion per key or none of the missing shards has a repository
    in it.
  */
  lemma SucceededDelivers(w: World, n: string)
    requires Reachable(w) && n in w.runs && w.runs[n].status.phase == Succeeded
    ensures AllDone(w, n)
    ensures var job, cm := JobOf(w, n), ShardsOf(w, n);
            && Processed(w, n) == Gathered(Sort(cm.origin), |cm.data|, job.completions)
            && Processed(w, n) <= multiset(cm.origin)
            && (Processed(w, n) == multiset(cm.origin) <==> job.completions == |cm.data| || |cm.origin| <= job.completions)
  {
    SucceededAllDone(w, n);
    var job, cm := JobOf(w, n), ShardsOf(w, n);
    DeliveredIsGathered(job.done, job.completions, Sort(cm.origin), |cm.data|);
    SortCorrect(cm.origin);
    GatheredPrefix(Sort(cm.origin), |cm.data|, job.completions);
  }

  /** What the attempt that launched the workers found: the list whose length the status reports. */
  ghost predicate LaunchedFor(w: World, n: string, found: seq<Slug>) {
    n in w.runs && w.runs[n].launched == Some(found) && w.runs[n].status.discoveredRepos == Wrap32(|found|)
  }

  /**
    Three lists play a part in a Run that succeeded: the one behind the ConfigMap, the one behind the Job and the
    one the status reports. All of each was processed, and nothing else, exactly when the three hold the same
    slugs equally often. The reported list alone was processed exactly when the leading shards of the ConfigMap,
    as many as there are completions, hold it, which can be seen before the Job is created.
  */
  lemma DeliversDiscoveryExactlyWhen(w: World, n: string) returns (found: seq<Slug>)
    requires Reachable(w) && n in w.runs && w.runs[n].status.phase == Succeeded
    ensures AllDone(w, n) && LaunchedFor(w, n, found) && WorkersOf(w, n, ShardsOf(w, n).origin) > 0
    ensures var job, cm := JobOf(w, n), ShardsOf(w, n);
            Processed(w, n) == multiset(cm.origin) == multiset(job.origin) == multiset(found) <==>
            multiset(cm.origin) == multiset(job.origin) == multiset(found)
    ensures var job, cm := JobOf(w, n), ShardsOf(w, n);
            multiset(found) <= Processed(w, n) <==>
            multiset(found) <= Gathered(Sort(cm.origin), WorkersOf(w, n, cm.origin), WorkersOf(w, n, job.origin))
  {
    SucceededDelivers(w, n);
    CompletionsMatchKeysExactlyWhen(w, n);
    ReachableInv(w);
    JobIsPlanned(w, n);
    found := SucceededRemembers(w, n);
  }

  lemma SucceededRemembers(w: World, n: string) returns (found: seq<Slug>)
    requires Reachable(w) && n in w.runs && w.runs[n].status.phase == Succeeded
    ensures LaunchedFor(w, n, found)
  {
    ReachableInv(w);
    assert RunOk(w, n);
    var steps: seq<Step> :| Feasible(steps) && After(steps) == w;
    StatusesTruthful(steps, n);
    found := w.runs[n].launched.value;
  }

  /** A Run whose Job has an index with a compressed shard never succeeds. */
  lemma OversizedNeverSucceeds(w: World, n: string, i: nat)
    requires Reachable(w) && HasJob(w, n) && i < JobOf(w, n).completions && i < |ShardsOf(w, n).data|
    requires Oversize(Shards(Sort(ShardsOf(w, n).origin), |ShardsOf(w, n).data|)[i])
    ensures w.runs[n].status.phase != Succeeded
  {
    if w.runs[n].status.phase == Succeeded {
      SucceededAllDone(w, n);
      assert false;
    }
  }

  /** Every index of the Job finds a shard that it can read. */
  ghost predicate AllReadable(w: World, n: string)
    requires HasJob(w, n)
  {
    var job, cm := JobOf(w, n), ShardsOf(w, n);
    && 0 < job.completions <= |cm.data|
    && forall i: nat :: i < job.completions ==> !Oversize(Shards(Sort(cm.origin), |cm.data|)[i])
  }

  ghost predicate CanSucceed(w: World, n: string) {
    exists w': World :: Leads(w, w') && n in w'.runs && w'.runs[n].status.phase == Succeeded
  }

  /** A Run that is running, with the first `i` indexes of its Job done. */
  ghost predicate Underway(w: World, n: string, i: nat) {
    && n in w.runs && w.runs[n].status.phase == Running && HasJob(w, n) && AllReadable(w, n)
    && i <= JobOf(w, n).completions && forall j: nat :: j < i ==> j in JobOf(w, n).done
  }

  lemma CompletesNext(w0: World, w: World, n: string, i: nat) returns (w': World)
    requires Leads(w0, w) && Underway(w, n, i) && i < JobOf(w, n).completions && i !in JobOf(w, n).done
    ensures Leads(w0, w') && Underway(w', n, i + 1) && JobOf(w', n).completions == JobOf(w, n).completions
  {
    LeadsGrows(w0, w);
    ReachableInv(w);
    JobIsPlanned(w, n);
    IndexCompletesExactlyWhen(w, n, i);
    LeadsNext(w0, w, CompleteIndex(JobName(n), i));
    w' := Apply(w, CompleteIndex(JobName(n), i));
  }

  lemma {:induction false} CompletesRest(w0: World, w: World, n: string, i: nat) returns (w': World)
    requires Leads(w0, w) && Underway(w, n, i)
    ensures Leads(w0, w') && HasJob(w', n) && Underway(w', n, JobOf(w', n).completions)
    decreases JobOf(w, n).completions - i
  {
    if i == JobOf(w, n).completions {
      w' := w;
    } else if i in JobOf(w, n).done {
      w' := CompletesRest(w0, w, n, i + 1);
    } else {
      var w1 := CompletesNext(w0, w, n, i);
      w' := CompletesRest(w0, w1, n, i + 1);
    }
  }

  lemma EnoughDone(done: map<nat, seq<Slug>>, c: nat)
    requires forall j: nat :: j < c ==> j in done
    ensures |done| >= c
  {
    var all := Below(c);
    assert all <= done.Keys;
    SubsetSize(all, done.Keys);
    assert |done.Keys| == |done|;
  }

  /** A reconcile that reads the completed Job makes the Run succeed. */
  lemma ObservesSuccess(spec: RunSpec, st: Status, c: Cluster, env: Env, job: string)
    requires st.phase == Running && st.workerJobRef == Some(job) && job in c.jobs && env.jobRead
    requires |c.jobs[job].done| >= c.jobs[job].completions
    ensures Reconcile(spec, st, c, env).status.phase == Succeeded && Reconcile(spec, st, c, env).cluster == c
  {
  }

  lemma ObservedDone(w0: World, w: World, n: string) returns (w': World)
    requires Leads(w0, w) && HasJob(w, n) && Underway(w, n, JobOf(w, n).completions)
    ensures Leads(w0, w') && n in w'.runs && w'.runs[n].status.phase == Succeeded
  {
    LeadsGrows(w0, w);
    ReachableInv(w);
    assert RunOk(w, n);
    var env := Env(w.clock, w.clock, w.clock, true, true, None, true, Applied, Found([]), true, Applied, true, Applied);
    EnoughDone(JobOf(w, n).done, JobOf(w, n).completions);
    ObservesSuccess(w.runs[n].spec, w.runs[n].status, w.cluster, env, JobName(n));
    LeadsNext(w0, w, ReconcileRun(n, env, true));
    w' := Apply(w, ReconcileRun(n, env, true));
  }

  /** The objects of a Job do not change on the way, so a Run that succeeds later had readable shards before. */
  lemma ReadableBefore(w: World, w': World, n: string)
    requires Leads(w, w') && HasJob(w, n) && n in w'.runs && w'.runs[n].status.phase == Succeeded
    ensures AllReadable(w, n)
  {
    LeadsGrows(w, w');
    SucceededAllDone(w', n);
    assert JobMoved(w.cluster.jobs[JobName(n)], w'.cluster.jobs[JobName(n)]);
  }

  /**
    A Run that is running can still succeed if and only if its Job has no more completions than there are shards
    and none of the shards below the completions is compressed. It cannot after a retry that called for more workers
    than the existing ConfigMap has shards.
  */
  lemma SucceedsExactlyWhenReadable(w: World, n: string)
    requires Reachable(w) && n in w.runs && w.runs[n].status.phase == Running
    ensures HasJob(w, n) && (CanSucceed(w, n) <==> AllReadable(w, n))
  {
    ReachableInv(w);
    assert RunOk(w, n);
    JobIsPlanned(w, n);
    if AllReadable(w, n) {
      LeadsSelf(w);
      var w1 := CompletesRest(w, w, n, 0);
      var w2 := ObservedDone(w, w1, n);
    }
    if CanSucceed(w, n) {
      var w': World :| Leads(w, w') && n in w'.runs && w'.runs[n].status.phase == Succeeded;
      ReadableBefore(w, w', n);
    }
  }

  /** What any stored reconcile that reads the Job makes of a running Run. */
  lemma LookDecides(w: World, n: string, env: Env)
    requires Reachable(w) && n in w.runs && w.runs[n].status.phase == Running
    requires env.jobRead && Enabled(w, ReconcileRun(n, env, true))
    ensures HasJob(w, n)
    ensures var job, p := JobOf(w, n), Apply(w, ReconcileRun(n, env, true)).runs[n].status.phase;
            && (p == Succeeded <==> |job.done| >= job.completions)
            && (p == Failed <==> job.failed && |job.done| < job.completions)
            && (p == Running <==> !job.failed && |job.done| < job.completions)
  {
    ReachableInv(w);
    assert RunOk(w, n);
    JobIsPlanned(w, n);
    RunningDecided(w.runs[n].spec, w.runs[n].status, w.cluster, env);
  }

  /** So a running Run whose Job failed short of its completions can reach Failed, by its next look. */
  lemma FailedJobFailsRun(w: World, n: string) returns (w': World)
    requires Reachable(w) && n in w.runs && w.runs[n].status.phase == Running
    requires HasJob(w, n) && JobOf(w, n).failed && |JobOf(w, n).done| < JobOf(w, n).completions
    ensures Leads(w, w') && n in w'.runs && w'.runs[n].status.phase == Failed && w'.counted == w.counted + 1
  {
    ReachableInv(w);
    assert RunOk(w, n);
    var env := Env(w.clock, w.clock, w.clock, true, true, None, true, Applied, Found([]), true, Applied, true, Applied);
    LookDecides(w, n, env);
    RunningDecided(w.runs[n].spec, w.runs[n].status, w.cluster, env);
    LeadsSelf(w);
    LeadsNext(w, w, ReconcileRun(n, env, true));
    w' := Apply(w, ReconcileRun(n, env, true));
  }

  // ---------- whose Job it is ----------

  /** No other Run has the same Job name: by `SharedExactlyWhen`, none agrees with this one on 56 characters. */
  ghost predicate Alone(w: World, n: string) {
    forall m :: m in w.runs && m != n ==> JobName(m) != JobName(n)
  }

  lemma AloneExactlyWhen(w: World, n: string)
    ensures Alone(w, n) <==> forall m :: m in w.runs && m != n ==> Take(m, 56) != Take(n, 56)
  {
    forall m ensures JobName(m) == JobName(n) <==> Take(m, 56) == Take(n, 56) {
      SharedExactlyWhen(m, n);
    }
  }

  /** A Run whose Job name is its own alone observes the Job it created, on the ConfigMap it created. */
  lemma OwnObjects(w: World, n: string)
    requires Reachable(w) && n in w.runs && JobName(n) in w.cluster.jobs && Alone(w, n)
    ensures HasJob(w, n) && JobOf(w, n).owner == n && JobOf(w, n).configMap == ShardsName(n) && ShardsOf(w, n).owner == n
  {
    ReachableInv(w);
    assert JobOk(w, JobName(n));
  }

  // ---------- stable discovery ----------

  /** Every attempt of the Run that found repositories found the same ones. */
  ghost predicate StableDiscovery(steps: seq<Step>, spec: RunSpec, found: multiset<Slug>) {
    forall i :: 0 <= i < |steps| && steps[i].ReconcileRun? && steps[i].name == spec.name ==>
      (Attempt(spec, steps[i].env).Some? ==> multiset(Attempt(spec, steps[i].env).value) == found)
  }

  ghost predicate OriginsAre(c: Cluster, n: string, found: multiset<Slug>) {
    && (ShardsName(n) in c.configMaps ==> multiset(c.configMaps[ShardsName(n)].origin) == found)
    && (JobName(n) in c.jobs ==> multiset(c.jobs[JobName(n)].origin) == found)
  }

  lemma ReconcileKeepsOrigins(spec: RunSpec, c: Cluster, env: Env, c': Cluster, found: multiset<Slug>)
    requires OriginsAre(c, spec.name, found) && ShardsCreated(spec, c.configMaps, env, c'.configMaps) && JobCreated(spec, c, env, c')
    requires Attempt(spec, env).Some? ==> multiset(Attempt(spec, env).value) == found
    ensures OriginsAre(c', spec.name, found)
  {
  }

  lemma OthersKeepOrigins(spec: RunSpec, c: Cluster, env: Env, c': Cluster, n: string, found: multiset<Slug>)
    requires OriginsAre(c, n, found) && ShardsCreated(spec, c.configMaps, env, c'.configMaps) && JobCreated(spec, c, env, c')
    requires spec.name != n && JobName(spec.name) != JobName(n)
    ensures OriginsAre(c', n, found)
  {
    SharedExactlyWhen(spec.name, n);
  }

  lemma {:induction false} StableOrigins(steps: seq<Step>, spec: RunSpec, found: multiset<Slug>)
    requires Feasible(steps) && StableDiscovery(steps, spec, found)
    requires spec.name in After(steps).runs && After(steps).runs[spec.name].spec == spec && Alone(After(steps), spec.name)
    ensures OriginsAre(After(steps).cluster, spec.name, found)
  {
    var before := steps[..|steps| - 1];
    var w, s, n := After(before), steps[|steps| - 1], spec.name;
    AlwaysInv(before);
    StepGrows(w, s);
    StaysAlone(w, After(steps), n);
    if n in w.runs {
      assert RunGrown(w.runs[n], After(steps).runs[n]);
      StableOrigins(before, spec, found);
      OriginsStep(w, s, spec, found);
    } else {
      NoObjectsYet(w, s, spec);
    }
  }

  lemma StaysAlone(w: World, w': World, n: string)
    requires Grown(w, w') && Alone(w', n)
    ensures Alone(w, n)
  {
  }

  lemma NoObjectsYet(w: World, s: Step, spec: RunSpec)
    requires Inv(w) && Enabled(w, s) && spec.name !in w.runs && spec.name in Apply(w, s).runs && Alone(w, spec.name)
    ensures ShardsName(spec.name) !in Apply(w, s).cluster.configMaps && JobName(spec.name) !in Apply(w, s).cluster.jobs
  {
    var n := spec.name;
    if ShardsName(n) in w.cluster.configMaps {
      assert ShardsOk(w, ShardsName(n));
      SharedExactlyWhen(n, w.cluster.configMaps[ShardsName(n)].owner);
      assert false;
    }
    assert JobName(n) in w.cluster.jobs ==> JobOk(w, JobName(n));
  }

  lemma OriginsStep(w: World, s: Step, spec: RunSpec, found: multiset<Slug>)
    requires Inv(w) && Enabled(w, s) && spec.name in w.runs && w.runs[spec.name].spec == spec && Alone(w, spec.name)
    requires OriginsAre(w.cluster, spec.name, found)
    requires s.ReconcileRun? && s.name == spec.name && Attempt(spec, s.env).Some? ==> multiset(Attempt(spec, s.env).value) == found
    ensures OriginsAre(Apply(w, s).cluster, spec.name, found)
  {
    if s.ReconcileRun? {
      assert RunOk(w, s.name);
      var run := w.runs[s.name];
      OriginsReconcile(run.spec, run.status, w.cluster, s.env, spec, found);
    } else {
      OutsideContinues(w, s);
      OriginsContinue(w, Apply(w, s), spec.name, found);
    }
  }

  lemma OriginsContinue(w: World, w': World, n: string, found: multiset<Slug>)
    requires OriginsAre(w.cluster, n, found) && Continues(w, w')
    ensures OriginsAre(w'.cluster, n, found)
  {
    assert JobName(n) in w.cluster.jobs ==> JobMoved(w.cluster.jobs[JobName(n)], w'.cluster.jobs[JobName(n)]);
  }

  lemma OriginsReconcile(actor: RunSpec, st: Status, c: Cluster, env: Env, spec: RunSpec, found: multiset<Slug>)
    requires OriginsAre(c, spec.name, found) && (actor.name != spec.name ==> JobName(actor.name) != JobName(spec.name))
    requires actor.name == spec.name ==> actor == spec && (Attempt(spec, env).Some? ==> multiset(Attempt(spec, env).value) == found)
    ensures OriginsAre(Reconcile(actor, st, c, env).cluster, spec.name, found)
  {
    var c' := Reconcile(actor, st, c, env).cluster;
    ReconcileEffects(actor, st, c, env);
    if actor.name == spec.name {
      ReconcileKeepsOrigins(spec, c, env, c', found);
    } else {
      OthersKeepOrigins(actor, c, env, c', spec.name, found);
    }
  }

  /**
    With stable discovery and a Job name of its own, a Run that succeeded worked on exactly what it discovered,
    through any number of partial failures, retries and lost writes.
  */
  lemma SucceededDeliversDiscovery(steps: seq<Step>, spec: RunSpec, found: multiset<Slug>)
    requires Feasible(steps) && StableDiscovery(steps, spec, found)
    requires spec.name in After(steps).runs && After(steps).runs[spec.name].spec == spec && Alone(After(steps), spec.name)
    requires After(steps).runs[spec.name].status.phase == Succeeded
    ensures AllDone(After(steps), spec.name) && JobOf(After(steps), spec.name).owner == spec.name
    ensures Processed(After(steps), spec.name) == found
  {
    var w, n := After(steps), spec.name;
    StableOrigins(steps, spec, found);
    SucceededDelivers(w, n);
    OwnObjects(w, n);
    CompletionsMatchKeysExactlyWhen(w, n);
  }
}
