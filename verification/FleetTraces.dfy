/**
  Histories in which a Run succeeds although repositories it discovered were never processed: discovery that
  changes between attempts, and a Run that finds another Run's Job under its own Job name.
*/
module FleetTraces {
  import opened Prelude
  import opened Slugs
  import opened ShardPlanner
  import opened Names
  import opened RunModel
  import opened FleetSystem
  import opened FleetTheorems
  import opened FleetDelivery
  import FleetSecrets

  /** At most `most` workers, one per repository up to that. */
  function Spec(name: string, most: nat): RunSpec {
    RunSpec(name, WorkerBounds(1, most, 1), false, true)
  }

  function Answers(repos: seq<Slug>, jobWrite: Write): Env {
    Env(0, 0, 0, true, true, Some("token"), true, Applied,
        Found(seq(|repos|, i requires 0 <= i < |repos| => Candidate(repos[i], HasConfig))), true, Applied, true, jobWrite)
  }

  // ---------- one attempt ----------

  /** A Run that takes what discovery finds and can be launched. */
  predicate Usable(spec: RunSpec) {
    Bounds(spec) && spec.configParses && !spec.requireConfig
  }

  lemma AttemptsAll(spec: RunSpec, repos: seq<Slug>, jobWrite: Write)
    requires Usable(spec) && repos != []
    ensures Attempt(spec, Answers(repos, jobWrite)) == Some(repos)
  {
    var env := Answers(repos, jobWrite);
    var cs := env.discovery.candidates;
    assert seq(|cs|, i requires 0 <= i < |cs| => cs[i].slug) == repos;
  }

  /** What the ConfigMaps are after an attempt of the Run. */
  ghost function ShardsAfter(c: Cluster, spec: RunSpec, repos: seq<Slug>): map<string, ConfigMap>
    requires Usable(spec)
  {
    if ShardsName(spec.name) in c.configMaps then c.configMaps
    else c.configMaps[ShardsName(spec.name) := ConfigMap(spec.name, PlannedData(repos, WorkersFor(spec, repos)), repos)]
  }

  ghost function JobsAfter(c: Cluster, spec: RunSpec, repos: seq<Slug>, jobWrite: Write): map<string, Job>
    requires Usable(spec)
  {
    if JobName(spec.name) in c.jobs || jobWrite.Rejected? then c.jobs
    else c.jobs[JobName(spec.name) := NewJob(spec, WorkersFor(spec, repos), repos)]
  }

  ghost predicate AttemptDone(spec: RunSpec, st: Status, c: Cluster, repos: seq<Slug>, jobWrite: Write, o: Outcome)
    requires Usable(spec)
  {
    && o.cluster.configMaps == ShardsAfter(c, spec, repos) && o.cluster.jobs == JobsAfter(c, spec, repos, jobWrite)
    && if JobName(spec.name) in c.jobs || jobWrite.Applied?
       then o.status.phase == Running && o.status.workerJobRef == Some(JobName(spec.name))
       else o.status.phase == Discovering && o.status.workerJobRef == st.workerJobRef
  }

  lemma DispatchOutcome(spec: RunSpec, st: Status, c: Cluster, repos: seq<Slug>, jobWrite: Write)
    requires Usable(spec) && repos != [] && st.phase == Discovering
    ensures AttemptDone(spec, st, c, repos, jobWrite, Dispatch(spec, st, c, Answers(repos, jobWrite), repos))
  {
    var env := Answers(repos, jobWrite);
    var s := EnsureShards(spec, c.configMaps, env, repos);
    assert s == (Some(WorkersFor(spec, repos)), ShardsAfter(c, spec, repos));
    assert EnsureJob(spec, c.jobs, env, WorkersFor(spec, repos), repos).1 == JobsAfter(c, spec, repos, jobWrite);
  }

  lemma AttemptOutcome(spec: RunSpec, st: Status, c: Cluster, repos: seq<Slug>, jobWrite: Write)
    requires Usable(spec) && repos != [] && (st.phase == Unset || st.phase == Discovering)
    ensures AttemptDone(spec, st, c, repos, jobWrite, Reconcile(spec, st, c, Answers(repos, jobWrite)))
  {
    var st0 := if st.phase == Unset then st.(phase := Pending) else st;
    var env := Answers(repos, jobWrite);
    AttemptsAll(spec, repos, jobWrite);
    DiscoverCases(spec, st0, c, env);
    var c1 := c.(secrets := MirrorCredential(spec, c.secrets, env).1);
    DispatchOutcome(spec, Admit(st0, env), c1, repos, jobWrite);
  }

  // ---------- steps ----------

  lemma ReachableNext(w: World, s: Step)
    requires Reachable(w) && Enabled(w, s)
    ensures Reachable(Apply(w, s))
  {
    var steps: seq<Step> :| Feasible(steps) && After(steps) == w;
    var more := steps + [s];
    assert more[..|more| - 1] == steps && more[|more| - 1] == s;
    assert Feasible(more) && After(more) == Apply(w, s);
  }

  /** A reachable state at the very first instant, with every Run usable and in store. */
  ghost predicate Early(w: World) {
    && Reachable(w) && w.clock == 0 && w.deleted == {} && w.lost == 0
    && forall n :: n in w.runs ==> Usable(w.runs[n].spec) && w.runs[n].spec.name == n && w.runs[n].touched == 0
  }

  lemma StartsEarly()
    ensures Early(EMPTY)
  {
    assert Feasible([]) && After([]) == EMPTY;
  }

  lemma Adds(w: World, spec: RunSpec) returns (w': World)
    requires Early(w) && spec.name !in w.runs && Usable(spec)
    ensures Early(w') && w'.cluster == w.cluster && w'.runs == w.runs[spec.name := Run(spec, INITIAL, 0, None, None)]
  {
    ReachableNext(w, AddRun(spec));
    w' := Apply(w, AddRun(spec));
  }

  lemma Tries(w: World, name: string, repos: seq<Slug>, jobWrite: Write) returns (w': World)
    requires Early(w) && name in w.runs && repos != [] && w.runs[name].status.workerJobRef.None?
    requires w.runs[name].status.phase == Unset || w.runs[name].status.phase == Discovering
    ensures Early(w') && name in w'.runs && w'.runs == w.runs[name := w'.runs[name]] && w'.runs[name].spec == w.runs[name].spec
    ensures w'.cluster.configMaps == ShardsAfter(w.cluster, w.runs[name].spec, repos)
    ensures w'.cluster.jobs == JobsAfter(w.cluster, w.runs[name].spec, repos, jobWrite)
    ensures var run := w'.runs[name];
            if JobName(name) in w.cluster.jobs || jobWrite.Applied?
            then && run.status.phase == Running && run.status.workerJobRef == Some(JobName(name))
                 && run.launched == Some(repos) && run.token == Some("token")
            else run.status.phase == Discovering && run.status.workerJobRef.None?
  {
    var spec, st, env := w.runs[name].spec, w.runs[name].status, Answers(repos, jobWrite);
    AttemptsAll(spec, repos, jobWrite);
    AttemptOutcome(spec, st, w.cluster, repos, jobWrite);
    ReachableNext(w, ReconcileRun(name, env, true));
    w' := Tried(w, name, env, repos, jobWrite, Reconcile(spec, st, w.cluster, env));
  }

  lemma Tried(w: World, name: string, env: Env, repos: seq<Slug>, jobWrite: Write, o: Outcome) returns (w': World)
    requires name in w.runs && Usable(w.runs[name].spec) && w.runs[name].spec.name == name && w.clock == 0
    requires AttemptDone(w.runs[name].spec, w.runs[name].status, w.cluster, repos, jobWrite, o)
    requires Attempt(w.runs[name].spec, env) == Some(repos) && w.runs[name].status.workerJobRef.None? && env.token == Some("token")
    ensures w' == Settle(w, name, env, o, true) && w'.deleted == w.deleted && w'.lost == w.lost && w'.clock == 0
    ensures w'.cluster == o.cluster && name in w'.runs && w'.runs == w.runs[name := w'.runs[name]]
    ensures w'.runs[name].spec == w.runs[name].spec && w'.runs[name].touched == 0
    ensures var run := w'.runs[name];
            if JobName(name) in w.cluster.jobs || jobWrite.Applied?
            then && run.status.phase == Running && run.status.workerJobRef == Some(JobName(name))
                 && run.launched == Some(repos) && run.token == Some("token")
            else run.status.phase == Discovering && run.status.workerJobRef.None?
  {
    w' := Settle(w, name, env, o, true);
  }

  // ---------- one worker per repository ----------

  /** Few enough repositories, with short enough slugs, for one small shard each. */
  ghost predicate Few(repos: seq<Slug>) {
    1 <= |repos| <= 9 && forall i :: 0 <= i < |repos| ==> |repos[i]| <= 10
  }

  lemma OneWorkerEach(name: string, repos: seq<Slug>)
    requires 1 <= |repos| <= 9
    ensures Usable(Spec(name, 10)) && WorkersFor(Spec(name, 10), repos) == |repos|
  {
  }

  /** The Job called `job` is served one shard per index; the first `k` indexes are done. */
  ghost predicate Serving(c: Cluster, job: string, k: nat, repos: seq<Slug>) {
    && job in c.jobs && c.jobs[job].configMap in c.configMaps && Few(repos)
    && c.configMaps[c.jobs[job].configMap].data == PlannedData(repos, |repos|)
    && k <= c.jobs[job].completions <= |repos|
    && |c.jobs[job].done| == k && forall i :: i in c.jobs[job].done ==> i < k
  }

  lemma CompletesOne(w: World, job: string, k: nat, repos: seq<Slug>) returns (w': World)
    requires Early(w) && Serving(w.cluster, job, k, repos) && k < w.cluster.jobs[job].completions
    ensures Early(w') && w'.runs == w.runs && w'.cluster.configMaps == w.cluster.configMaps
    ensures Serving(w'.cluster, job, k + 1, repos) && w'.cluster.jobs == w.cluster.jobs[job := w'.cluster.jobs[job]]
    ensures w'.cluster.jobs[job] == w.cluster.jobs[job].(done := w'.cluster.jobs[job].done)
  {
    Readable(repos, k);
    ReachableNext(w, CompleteIndex(job, k));
    w' := Apply(w, CompleteIndex(job, k));
    assert w'.cluster.jobs[job].done.Keys == w.cluster.jobs[job].done.Keys + {k};
  }

  lemma {:induction false} Completes(w: World, job: string, k: nat, repos: seq<Slug>) returns (w': World)
    requires Early(w) && Serving(w.cluster, job, k, repos)
    ensures Early(w') && w'.runs == w.runs && w'.cluster.configMaps == w.cluster.configMaps
    ensures job in w'.cluster.jobs && w'.cluster.jobs == w.cluster.jobs[job := w'.cluster.jobs[job]]
    ensures var was, now := w.cluster.jobs[job], w'.cluster.jobs[job];
            now == was.(done := now.done) && |now.done| >= now.completions
    decreases w.cluster.jobs[job].completions - k
  {
    if k == w.cluster.jobs[job].completions {
      w' := w;
    } else {
      var w1 := CompletesOne(w, job, k, repos);
      w' := Completes(w1, job, k + 1, repos);
    }
  }

  lemma Readable(repos: seq<Slug>, i: nat)
    requires Few(repos) && i < |repos|
    ensures Entrypoint(PlannedData(repos, |repos|), i).Some?
  {
    var sorted := Sort(repos);
    SortCorrect(repos);
    assert sorted[i] in multiset(repos);
    assert Stride(sorted, i, |repos|) == [sorted[i]];
    OneSlugShort(Payload(i, |repos|, [sorted[i]]));
    PlannedDataServes(repos, |repos|, i);
  }

  lemma OneSlugShort(p: Payload)
    requires p.index < 10 && p.total < 10 && |p.repos| == 1 && |p.repos[0]| <= 10
    ensures !Oversize(p)
  {
    assert p.repos[..0] == [];
    assert ReposSize(p.repos) <= 13;
  }

  lemma Observes(w: World, name: string) returns (w': World)
    requires Early(w) && name in w.runs && w.runs[name].status.phase == Running
    requires w.runs[name].status.workerJobRef == Some(JobName(name)) && JobName(name) in w.cluster.jobs
    requires |w.cluster.jobs[JobName(name)].done| >= w.cluster.jobs[JobName(name)].completions
    ensures Early(w') && w'.cluster == w.cluster && name in w'.runs && w'.runs[name].status.phase == Succeeded
    ensures w'.runs.Keys == w.runs.Keys && w'.runs[name].launched == w.runs[name].launched
  {
    var observe := ReconcileRun(name, Answers([], Applied), true);
    ObservesSuccess(w.runs[name].spec, w.runs[name].status, w.cluster, observe.env, JobName(name));
    ReachableNext(w, observe);
    w' := Apply(w, observe);
  }

  // ---------- discovery that changes ----------

  /** The Run called "r" succeeded; these are the lists behind its ConfigMap, its Job and its status. */
  ghost predicate EndedWith(w: World, shards: seq<Slug>, job: seq<Slug>, reported: seq<Slug>) {
    && Reachable(w) && AllDone(w, "r") && w.runs["r"].status.phase == Succeeded
    && ShardsOf(w, "r").origin == shards && JobOf(w, "r").origin == job && LaunchedFor(w, "r", reported)
  }

  /** The first attempt creates the ConfigMap and is told that the Job was not created; the second finds other repositories. */
  lemma TwoAttempts(first: seq<Slug>, jobWrite: Write, second: seq<Slug>) returns (w: World)
    requires Few(first) && Few(second) && !jobWrite.Applied?
    ensures Early(w) && "r" in w.runs && w.runs["r"].status.phase == Running
    ensures w.runs["r"].status.workerJobRef == Some(JobName("r")) && w.runs["r"].launched == Some(second)
    ensures var list := if jobWrite.Rejected? then second else first;
            w.cluster.jobs == map[JobName("r") := NewJob(Spec("r", 10), |list|, list)]
    ensures w.cluster.configMaps == map[ShardsName("r") := ConfigMap("r", PlannedData(first, |first|), first)]
  {
    OneWorkerEach("r", first);
    OneWorkerEach("r", second);
    StartsEarly();
    var w1 := Adds(EMPTY, Spec("r", 10));
    var w2 := Tries(w1, "r", first, jobWrite);
    w := Tries(w2, "r", second, Applied);
  }

  lemma EndsAnyway(first: seq<Slug>, jobWrite: Write, second: seq<Slug>) returns (w: World)
    requires Few(first) && Few(second) && !jobWrite.Applied? && (jobWrite.Rejected? ==> |second| <= |first|)
    ensures var list := if jobWrite.Rejected? then second else first;
            EndedWith(w, first, list, second) && JobOf(w, "r").completions == |list| && |ShardsOf(w, "r").data| == |first|
  {
    var w1 := TwoAttempts(first, jobWrite, second);
    var w2 := Completes(w1, JobName("r"), 0, first);
    w := Observes(w2, "r");
    SucceededDelivers(w, "r");
    var found := DeliversDiscoveryExactlyWhen(w, "r");
    PlannedDataServes(first, |first|, 0);
  }

  /** Discovery shrank before the Job was created: a repository of the ConfigMap is never worked on. */
  lemma ShrunkDiscovery() returns (w: World)
    ensures EndedWith(w, ["a", "b"], ["a"], ["a"]) && Processed(w, "r") < multiset(["a", "b"])
  {
    w := EndsAnyway(["a", "b"], Rejected, ["a"]);
    SucceededDelivers(w, "r");
  }

  /** One repository replaced another: there is one completion per key, and still a reported repository is left out. */
  lemma ReplacedDiscovery() returns (w: World)
    ensures EndedWith(w, ["a", "b"], ["a", "c"], ["a", "c"]) && JobOf(w, "r").completions == |ShardsOf(w, "r").data|
    ensures "c" !in Processed(w, "r")
  {
    w := EndsAnyway(["a", "b"], Rejected, ["a", "c"]);
    LeavesOut(w, "c");
  }

  lemma LeavesOut(w: World, slug: Slug)
    requires Reachable(w) && AllDone(w, "r") && w.runs["r"].status.phase == Succeeded && slug !in ShardsOf(w, "r").origin
    ensures slug !in Processed(w, "r")
  {
    SucceededDelivers(w, "r");
    assert slug !in multiset(ShardsOf(w, "r").origin);
  }

  /**
    The Job was created although its creation seemed to fail: ConfigMap and Job agree, but the status reports
    the repositories of the retry, none of which is worked on.
  */
  lemma ReportedDiscovery() returns (w: World)
    ensures EndedWith(w, ["a"], ["a"], ["b"]) && "b" !in Processed(w, "r")
  {
    w := EndsAnyway(["a"], ReplyLost, ["b"]);
    LeavesOut(w, "b");
  }

  /** Discovery grew before the Job was created: there are more completions than shards, and the Run can never succeed. */
  lemma GrownDiscovery() returns (w: World)
    ensures Reachable(w) && "r" in w.runs && w.runs["r"].status.phase == Running && HasJob(w, "r")
    ensures JobOf(w, "r").completions == 2 && |ShardsOf(w, "r").data| == 1 && !CanSucceed(w, "r")
  {
    w := TwoAttempts(["a"], Rejected, ["a", "b"]);
    PlannedDataServes(["a"], 1, 0);
    SucceedsExactlyWhenReadable(w, "r");
  }

  /** The only Run there is has succeeded. */
  lemma OneSucceeds() returns (w: World)
    ensures Early(w) && w.runs.Keys == {"r"} && w.runs["r"].status.phase == Succeeded
  {
    StartsEarly();
    OneWorkerEach("r", ["a"]);
    var w1 := Adds(EMPTY, Spec("r", 10));
    var w2 := Tries(w1, "r", ["a"], Applied);
    var w3 := Completes(w2, JobName("r"), 0, ["a"]);
    w := Observes(w3, "r");
  }

  /** A Run that was counted and then pruned is no longer among the Runs in store. */
  lemma PrunedStillCounted() returns (w: World)
    ensures Reachable(w) && w.counted == 1 && w.lost == 0 && Ended(w) - w.deleted == {}
  {
    var w1 := OneSucceeds();
    ReachableNext(w1, DeleteRun("r"));
    w := Apply(w1, DeleteRun("r"));
    CounterConserved(w);
    assert Ended(w) == {"r"};
  }

  // ---------- a shard that cannot be read ----------

  /**
    A Run with one worker and many repositories is launched with a compressed shard, by `SucceedsExactlyWhenReadable`
    without a chance to succeed.
  */
  lemma LaunchedUnreadable() returns (w: World)
    ensures Reachable(w) && "r" in w.runs && w.runs["r"].status.phase == Running && HasJob(w, "r")
    ensures JobOf(w, "r").completions == |ShardsOf(w, "r").data| == 1 && ShardsOf(w, "r").origin == Numbered(40070)
    ensures !CanSucceed(w, "r")
  {
    var repos := Numbered(40070);
    StartsEarly();
    assert WorkersFor(Spec("r", 1), repos) == 1;
    var w1 := Adds(EMPTY, Spec("r", 1));
    w := Tries(w1, "r", repos, Applied);
    NumberedOversized();
    PlannedDataServes(repos, 1, 0);
    SucceedsExactlyWhenReadable(w, "r");
  }

  // ---------- another Run's Job ----------

  /** A Run called `a` can succeed on the Job of a Run called `b`. */
  ghost predicate CanAdopt(a: string, b: string) {
    exists w: World :: Reachable(w) && AllDone(w, a) && w.runs[a].status.phase == Succeeded && JobOf(w, a).owner == b
  }

  /** Two Runs whose names agree on 56 characters: the second finds the first one's finished Job under its own Job name. */
  lemma AdoptsJob(a: string, b: string) returns (w: World)
    requires a != b && JobName(a) == JobName(b)
    ensures Reachable(w) && AllDone(w, a) && w.runs[a].status.phase == Succeeded && JobOf(w, a).owner == b
    ensures LaunchedFor(w, a, ["a"]) && "a" !in Processed(w, a)
  {
    var w1 := OthersJobDone(a, b);
    var w2 := Tries(w1, a, ["a"], Applied);
    w := Observes(w2, a);
    SharedExactlyWhen(a, b);
    SucceededDelivers(w, a);
    var found := DeliversDiscoveryExactlyWhen(w, a);
  }

  /** Run `b` has launched its Job for one repository, and the Job is done; Run `a` is new. */
  lemma OthersJobDone(a: string, b: string) returns (w: World)
    requires a != b
    ensures Early(w) && a in w.runs && w.runs[a].status == INITIAL && w.runs[a].spec == Spec(a, 10) && JobName(b) in w.cluster.jobs
    ensures w.cluster.configMaps == map[ShardsName(b) := ConfigMap(b, PlannedData(["b"], 1), ["b"])]
    ensures var job := w.cluster.jobs[JobName(b)];
            job == NewJob(Spec(b, 10), 1, ["b"]).(done := job.done) && |job.done| >= job.completions
  {
    StartsEarly();
    OneWorkerEach(a, ["b"]);
    OneWorkerEach(b, ["b"]);
    var w1 := Adds(EMPTY, Spec(b, 10));
    var w2 := Tries(w1, b, ["b"], Applied);
    var w3 := Adds(w2, Spec(a, 10));
    w := Completes(w3, JobName(b), 0, ["b"]);
  }

  /** A Run can succeed on another one's Job exactly when their names agree on 56 characters. */
  lemma AdoptsExactlyWhenShared(a: string, b: string)
    requires a != b
    ensures CanAdopt(a, b) <==> Take(a, 56) == Take(b, 56)
  {
    SharedExactlyWhen(a, b);
    if JobName(a) == JobName(b) {
      var w := AdoptsJob(a, b);
    }
    if CanAdopt(a, b) {
      var w: World :| Reachable(w) && AllDone(w, a) && w.runs[a].status.phase == Succeeded && JobOf(w, a).owner == b;
      ReachableInv(w);
      assert JobOk(w, JobName(a));
    }
  }

  // ---------- another Run's Secret ----------

  /** An attempt that is given this token and then fails to discover anything for the time being. */
  function Interrupted(token: string): Env {
    Env(0, 0, 0, true, true, Some(token), true, Applied, DiscoverFails(true), true, Applied, true, Applied)
  }

  lemma InterruptedOutcome(spec: RunSpec, c: Cluster, token: string)
    requires token != ""
    ensures var o := Reconcile(spec, INITIAL, c, Interrupted(token));
            o.cluster == c.(secrets := c.secrets[MirrorName(spec.name) := token])
  {
  }

  /** Run `a` is launched with one token; an attempt of Run `b`, whose name agrees on 48 characters, stores another one. */
  lemma LosesToken(a: string, b: string) returns (w: World)
    requires a != b && MirrorName(a) == MirrorName(b)
    ensures Reachable(w) && w.runs.Keys == {a, b} && !FleetSecrets.TokenHeld(w, a)
  {
    StartsEarly();
    OneWorkerEach(a, ["a"]);
    OneWorkerEach(b, ["a"]);
    var w1 := Adds(EMPTY, Spec(a, 10));
    var w2 := Tries(w1, a, ["a"], Applied);
    var w3 := Adds(w2, Spec(b, 10));
    var write := ReconcileRun(b, Interrupted("other"), true);
    InterruptedOutcome(Spec(b, 10), w3.cluster, "other");
    ReachableNext(w3, write);
    w := Apply(w3, write);
  }

  /** A Run can lose its token to another exactly when their names agree on 48 characters. */
  lemma TokenLostExactlyWhenShared(a: string, b: string)
    requires a != b
    ensures FleetSecrets.CanLoseToken(a, b) <==> Take(a, 48) == Take(b, 48)
  {
    SharedExactlyWhen(a, b);
    if Take(a, 48) == Take(b, 48) {
      var w := LosesToken(a, b);
    } else if FleetSecrets.CanLoseToken(a, b) {
      var w: World :| Reachable(w) && w.runs.Keys == {a, b} && !FleetSecrets.TokenHeld(w, a);
      FleetSecrets.KeptApart(w, a, b);
    }
  }
}
