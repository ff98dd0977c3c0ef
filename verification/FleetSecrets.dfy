/** The tokens of the workers: which one the Secret of a launched Run holds. */
module FleetSecrets {
  import opened Prelude
  import opened Names
  import opened RunModel
  import opened RunDecisions
  import opened FleetSystem
  import opened FleetTheorems

  /** No other Run writes the Secret of this one: none agrees with it on 48 characters. */
  ghost predicate Undisturbed(w: World, n: string) {
    forall m :: m in w.runs && m != n ==> Take(m, 48) != Take(n, 48)
  }

  /** Once the Run is launched, its Secret holds the token of the attempt that launched it. */
  ghost predicate TokenHeld(w: World, n: string) {
    n in w.runs && (w.runs[n].status.workerJobRef.Some? ==>
      && w.runs[n].token.Some? && MirrorName(n) in w.cluster.secrets
      && w.cluster.secrets[MirrorName(n)] == w.runs[n].token.value)
  }

  /** A reconcile that launches leaves the token it was given in the Secret, over whatever was there. */
  lemma LaunchStoresToken(spec: RunSpec, st: Status, c: Cluster, env: Env)
    requires WellFormed(st) && st.workerJobRef.None? && Reconcile(spec, st, c, env).status.workerJobRef.Some?
    ensures var o := Reconcile(spec, st, c, env);
            && o.status.phase == Running && env.token.Some? && MirrorName(spec.name) in o.cluster.secrets
            && o.cluster.secrets[MirrorName(spec.name)] == env.token.value
  {
    if Attempts(st) {
      AttemptDecided(spec, st, c, env);
    } else {
      RestDecided(spec, st, c, env);
    }
  }

  lemma OwnKeepsToken(w: World, s: Step)
    requires Inv(w) && s.ReconcileRun? && Enabled(w, s) && TokenHeld(w, s.name)
    ensures TokenHeld(Apply(w, s), s.name)
  {
    var run := w.runs[s.name];
    assert RunOk(w, s.name);
    var o := Reconcile(run.spec, run.status, w.cluster, s.env);
    if run.status.workerJobRef.Some? {
      ReconcileEffects(run.spec, run.status, w.cluster, s.env);
    } else if o.status.workerJobRef.Some? {
      LaunchStoresToken(run.spec, run.status, w.cluster, s.env);
    }
  }

  lemma OthersKeepToken(w: World, s: Step, n: string)
    requires Inv(w) && s.ReconcileRun? && Enabled(w, s) && s.name != n && TokenHeld(w, n) && Undisturbed(w, n)
    ensures TokenHeld(Apply(w, s), n)
  {
    var run := w.runs[s.name];
    assert RunOk(w, s.name);
    ApartIsolated(s.name, n);
    OnlyOwnObjects(run.spec, run.status, w.cluster, s.env, MirrorName(n));
  }

  lemma StepKeepsToken(w: World, s: Step, n: string)
    requires Inv(w) && Enabled(w, s) && TokenHeld(w, n) && Undisturbed(w, n)
    ensures TokenHeld(Apply(w, s), n)
  {
    if s.ReconcileRun? {
      if s.name == n {
        OwnKeepsToken(w, s);
      } else {
        OthersKeepToken(w, s, n);
      }
    }
  }

  /**
    In every history, the Secret of a launched Run holds the token that its launching attempt was given, unless
    another Run agrees with it on 48 characters.
  */
  lemma {:induction false} LaunchTokenKept(steps: seq<Step>, n: string)
    requires Feasible(steps) && n in After(steps).runs && Undisturbed(After(steps), n)
    ensures TokenHeld(After(steps), n)
  {
    var before := steps[..|steps| - 1];
    var w, s := After(before), steps[|steps| - 1];
    AlwaysInv(before);
    StepGrows(w, s);
    if n in w.runs {
      LaunchTokenKept(before, n);
      StepKeepsToken(w, s, n);
    }
  }

  /** A Job's workers mount the Secret of the Run that created it. */
  lemma JobsMountOwnSecret(w: World, k: string)
    requires Reachable(w) && k in w.cluster.jobs
    ensures w.cluster.jobs[k].secret == MirrorName(w.cluster.jobs[k].owner)
  {
    ReachableInv(w);
    assert JobOk(w, k);
  }

  /** With just these two Runs, the Secret of the launched one can come to hold another token. */
  ghost predicate CanLoseToken(a: string, b: string) {
    exists w: World :: Reachable(w) && w.runs.Keys == {a, b} && !TokenHeld(w, a)
  }

  lemma KeptApart(w: World, a: string, b: string)
    requires Reachable(w) && w.runs.Keys == {a, b} && Take(a, 48) != Take(b, 48)
    ensures TokenHeld(w, a)
  {
    var steps: seq<Step> :| Feasible(steps) && After(steps) == w;
    LaunchTokenKept(steps, a);
  }
}
