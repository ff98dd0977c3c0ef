/**
  What a Scan reconcile decides, in terms of its inputs and of the Runs and not of the functions that compute it:
  whether it looks at its Runs at all, what it makes of them, what the Runs it creates carry, and which it prunes.
*/
module ScanDecisions {
  import opened Prelude
  import opened Cron
  import opened ScanModel
  import opened SchedulerSystem
  import SchedulerOrder
  import opened SchedulerHistory
  import opened SchedulerTraces
  import RunModel

  // ---------- the gate ----------

  /** Why the Ready condition is false, if the reconcile says so. */
  predicate Held(spec: ScanSpec, platform: Platform, reason: Reason) {
    match reason
    case Suspended => spec.suspend
    case PlatformNotReady => !spec.suspend && (platform.Missing? || platform.NotReady?)
    case InvalidSchedule => !spec.suspend && platform.Ready? && spec.schedule.None?
    case NextRunComputed => false
  }

  predicate Gated(spec: ScanSpec, platform: Platform) {
    spec.suspend || !platform.Ready? || spec.schedule.None?
  }

  /** The two statuses differ at most in the Ready condition. */
  ghost predicate OnlyReady(st: ScanStatus, st': ScanStatus) {
    && st'.(conditions := st.conditions) == st
    && st'.conditions.Keys <= st.conditions.Keys + {TypeReady}
    && forall t :: t in st.conditions && t != TypeReady ==> t in st'.conditions && st'.conditions[t] == st.conditions[t]
  }

  /**
    A reconcile goes on to its Runs exactly for a Scan that is not suspended, on a ready platform, with a valid
    schedule. Otherwise it changes the Ready condition at most, to false with the reason.
  */
  lemma GateDecides(w: World, s: Step)
    requires s.ScanRead? && Enabled(w, s)
    ensures var pc := Apply(w, s).pc;
            && (pc.Admitted? <==> !s.spec.suspend && s.platform.Ready? && s.spec.schedule.Some?)
            && (pc.Admitted? ==> pc == Admitted(s.spec, w.clock, w.status))
            && (!pc.Admitted? ==> pc.Writing? && OnlyReady(w.status, pc.local))
            && (forall r :: Held(s.spec, s.platform, r) ==> pc.Writing? && pc.local.conditions[TypeReady := Condition(false, r)] == pc.local.conditions)
            && (!s.spec.suspend && s.platform.Unreadable? ==> pc == Writing(w.status))
  {
  }

  /** From an idle state on, the Scan has created and deleted nothing and changed its Ready condition at most. */
  ghost predicate Stilled(w0: World, w: World) {
    && w.fires == w0.fires && OnlyReady(w0.status, w.status)
    && (w.pc.Idle? || (w.pc.Writing? && OnlyReady(w0.status, w.pc.local)))
    && forall u :: Owned(w.runs, SCAN, u) <==> Owned(w0.runs, SCAN, u)
  }

  lemma OnlyReadyTwice(a: ScanStatus, b: ScanStatus, c: ScanStatus)
    requires OnlyReady(a, b) && OnlyReady(b, c)
    ensures OnlyReady(a, c)
  {
  }

  lemma ScanStepStills(w0: World, w: World, s: Step)
    requires Stilled(w0, w) && Enabled(w, s) && !SchedulerOrder.Outside(s) && !s.RunReconcile?
    requires s.ScanRead? ==> Gated(s.spec, s.platform)
    ensures Stilled(w0, Apply(w, s))
  {
    if s.ScanRead? {
      GateDecides(w, s);
      OnlyReadyTwice(w0.status, w.status, Apply(w, s).pc.local);
    }
  }

  /** The Runs of the Scan are the same ones. */
  ghost predicate SameOwned(w: World, w': World) {
    forall u :: Owned(w'.runs, SCAN, u) <==> Owned(w.runs, SCAN, u)
  }

  lemma OutsideSameOwned(w: World, s: Step)
    requires Enabled(w, s) && SchedulerOrder.Outside(s) && (w.nextUid in w.runs ==> RunOk(w, w.nextUid))
    ensures SameOwned(w, Apply(w, s))
  {
  }

  lemma SameStills(w0: World, w: World, w': World)
    requires Stilled(w0, w) && SameOwned(w, w') && w'.fires == w.fires && w'.status == w.status && w'.pc == w.pc
    ensures Stilled(w0, w')
  {
  }

  lemma OutsideStills(w0: World, w: World, s: Step)
    requires Stilled(w0, w) && Enabled(w, s) && SchedulerOrder.Outside(s) && Base(w)
    ensures Stilled(w0, Apply(w, s))
  {
    OutsideSameOwned(w, s);
    SameStills(w0, w, Apply(w, s));
  }

  lemma MoveStills(w0: World, w: World, w': World, r: Uid)
    requires Stilled(w0, w) && Moved(w, w', r)
    ensures Stilled(w0, w')
  {
    SameStills(w0, w, w');
  }

  /** Every reconcile of the Scan from position `k` on is stopped at the gate. */
  ghost predicate GatedFrom(steps: seq<Step>, k: nat) {
    forall i :: k <= i < |steps| && steps[i].ScanRead? ==> Gated(steps[i].spec, steps[i].platform)
  }

  /**
    While a Scan is suspended, without a ready platform or without a valid schedule, it creates no Run, deletes
    none, and its stored status changes in the Ready condition at most, whatever else happens.
  */
  lemma {:induction false} GatedScanStaysIdle(steps: seq<Step>, k: nat)
    requires Feasible(steps) && k <= |steps| && GatedFrom(steps, k)
    requires Feasible(steps[..k]) && After(steps[..k]).pc.Idle?
    ensures Stilled(After(steps[..k]), After(steps))
  {
    if k == |steps| {
      assert steps[..k] == steps;
    } else {
      var before := steps[..|steps| - 1];
      var w0, w, s := After(steps[..k]), After(before), steps[|steps| - 1];
      assert before[..k] == steps[..k];
      assert GatedFrom(before, k);
      GatedScanStaysIdle(before, k);
      AlwaysBase(before);
      if s.RunReconcile? {
        assert RunOk(w, s.run);
        RunStepMoves(w, s);
        MoveStills(w0, w, Apply(w, s), s.run);
      } else if SchedulerOrder.Outside(s) {
        OutsideStills(w0, w, s);
      } else {
        ScanStepStills(w0, w, s);
      }
    }
  }

  /** So a Scan that was never let through has never created a Run. */
  lemma NeverLetThrough(steps: seq<Step>)
    requires Feasible(steps) && GatedFrom(steps, 0)
    ensures After(steps).fires == map[] && OnlyReady(NEW_SCAN, After(steps).status)
  {
    assert steps[..0] == [];
    GatedScanStaysIdle(steps, 0);
  }

  // ---------- what the listing tells ----------

  /** The instant after which fires count as missed. */
  function Since(local: ScanStatus, now: int): int {
    if local.lastRunTime.Some? then local.lastRunTime.value else now - MINUTE
  }

  /** `t` is the latest completion among the Runs that count, or what it was if none does. */
  ghost predicate IsLatest(runs: Runs, onlySucceeded: bool, was: Option<int>, t: Option<int>) {
    if exists u :: Counts(runs, SCAN, onlySucceeded, u) then
      && (exists u :: Counts(runs, SCAN, onlySucceeded, u) && runs[u].status.completionTime == t)
      && (forall u :: Counts(runs, SCAN, onlySucceeded, u) ==> NoLater(runs[u].status.completionTime, t))
    else t == was
  }

  lemma LatestDecided(runs: Runs, listing: seq<Uid>, onlySucceeded: bool, was: Option<int>)
    requires IsListing(runs, listing)
    ensures var r := LatestOf(runs, SCAN, onlySucceeded, listing);
            IsLatest(runs, onlySucceeded, was, if r.Some? then r else was)
  {
    LatestOfMeaning(runs, SCAN, onlySucceeded, listing);
    forall u | Counts(runs, SCAN, onlySucceeded, u) ensures u in listing {
    }
  }

  /** Exactly the active Runs, each once, in the order of the list. */
  lemma {:induction false} ActiveInOrder(runs: Runs, listing: seq<Uid>) returns (idx: seq<nat>)
    ensures Picks(listing, u => Active(runs, SCAN, u), idx) && |ActiveOf(runs, SCAN, listing)| == |idx|
    ensures forall k :: 0 <= k < |idx| ==> idx[k] < |listing| && ActiveOf(runs, SCAN, listing)[k] == listing[idx[k]]
  {
    if listing == [] {
      idx := [];
    } else {
      var last := |listing| - 1;
      var before := ActiveInOrder(runs, listing[..last]);
      idx := if Active(runs, SCAN, listing[last]) then before + [last] else before;
      PicksSnoc(listing, u => Active(runs, SCAN, u), before, idx);
    }
  }

  /** What the refresh makes of the status. */
  lemma RefreshDecided(st: ScanStatus, runs: Runs, listing: seq<Uid>)
    requires IsListing(runs, listing)
    ensures var st' := Refreshed(st, runs, SCAN, listing);
            && IsLatest(runs, false, st.lastRunTime, st'.lastRunTime)
            && IsLatest(runs, true, st.lastSuccessfulRunTime, st'.lastSuccessfulRunTime)
            && (forall u :: u in st'.activeRuns <==> Active(runs, SCAN, u))
            && st'.conditions == st.conditions && st'.nextRunTime == st.nextRunTime && st'.lastRunRef == st.lastRunRef
  {
    LatestDecided(runs, listing, false, st.lastRunTime);
    LatestDecided(runs, listing, true, st.lastSuccessfulRunTime);
    ActiveOfMeaning(runs, SCAN, listing);
  }

  /** The status a reconcile holds after listing. */
  ghost predicate Informed(w: World, local: ScanStatus)
    requires w.pc.Admitted? && w.pc.spec.schedule.Some?
  {
    var schedule, now := w.pc.spec.schedule.value, w.pc.now;
    && IsLatest(w.runs, false, w.pc.local.lastRunTime, local.lastRunTime)
    && IsLatest(w.runs, true, w.pc.local.lastSuccessfulRunTime, local.lastSuccessfulRunTime)
    && (forall u :: u in local.activeRuns <==> Active(w.runs, SCAN, u))
    && local.lastRunRef == w.pc.local.lastRunRef
    && local.nextRunTime == Some(schedule.next(if Since(local, now) < now then now else Since(local, now)))
  }

  /** The Scan has a fire to run: there was one since the last run, and concurrency allows it. */
  ghost predicate ShouldFire(w: World, local: ScanStatus)
    requires w.pc.Admitted? && w.pc.spec.schedule.Some?
  {
    && (exists f :: w.pc.spec.schedule.value.IsFire(f) && Since(local, w.pc.now) < f <= w.pc.now)
    && (w.pc.spec.policy == Allow || forall u :: !Active(w.runs, SCAN, u))
  }

  /** The latest fire since the last run. */
  ghost predicate IsLatestFire(w: World, local: ScanStatus, fire: int)
    requires w.pc.Admitted? && w.pc.spec.schedule.Some?
  {
    var schedule := w.pc.spec.schedule.value;
    && schedule.IsFire(fire) && Since(local, w.pc.now) < fire <= w.pc.now
    && forall f :: schedule.IsFire(f) && fire < f ==> w.pc.now < f
  }

  lemma NextDecided(s: Schedule, start: int, now: int, next: int)
    requires s.Valid() && IsNext(s, start, now, next)
    ensures next == s.next(if start < now then now else start)
  {
    var t := if start < now then now else start;
    AfterNext(s, t);
    s.NextIsLeastFire(t, next);
  }

  /** There is a missed fire exactly if there is a fire in the window, and it is the latest. */
  lemma MissedDecided(w: World, local: ScanStatus, missed: Option<int>)
    requires w.pc.Admitted? && w.pc.spec.schedule.Some?
    requires IsMissed(w.pc.spec.schedule.value, Since(local, w.pc.now), w.pc.now, missed)
    ensures missed.Some? <==> exists f :: w.pc.spec.schedule.value.IsFire(f) && Since(local, w.pc.now) < f <= w.pc.now
    ensures missed.Some? ==> IsLatestFire(w, local, missed.value)
  {
  }

  /** How the reconcile goes on, given what it has read from the list. */
  ghost predicate GoesOn(w: World, pc: Pc)
    requires w.pc.Admitted? && w.pc.spec.schedule.Some?
  {
    && (pc.Due? || pc.Writing?) && Informed(w, pc.local)
    && (pc.Due? <==> ShouldFire(w, pc.local)) && (pc.Due? ==> pc.spec == w.pc.spec && IsLatestFire(w, pc.local, pc.fire))
    && pc.local.conditions ==
       (if pc.Due? then w.pc.local.conditions[TypeReady := Condition(true, NextRunComputed)]
        else w.pc.local.conditions[TypeReady := Condition(true, NextRunComputed)][TypeScheduled := Condition(true, NextRunComputed)])
  }

  lemma DecidedGoesOn(w: World, listing: seq<Uid>, missed: Option<int>, next: int)
    requires w.pc.Admitted? && w.pc.spec.schedule.Some? && IsListing(w.runs, listing)
    requires var local := Refreshed(w.pc.local, w.runs, SCAN, listing);
             && (missed.Some? <==> exists f :: w.pc.spec.schedule.value.IsFire(f) && Since(local, w.pc.now) < f <= w.pc.now)
             && (missed.Some? ==> IsLatestFire(w, local, missed.value))
             && next == w.pc.spec.schedule.value.next(if Since(local, w.pc.now) < w.pc.now then w.pc.now else Since(local, w.pc.now))
    ensures GoesOn(w, Decided(w.pc, w.runs, listing, missed, next))
  {
    RefreshDecided(w.pc.local, w.runs, listing);
    NoneMeansEmpty(Refreshed(w.pc.local, w.runs, SCAN, listing).activeRuns);
  }

  /**
    After listing, the status tells the latest completions, the active Runs and the next fire, and is Ready; the
    reconcile goes on to create exactly if it should fire, for the latest fire due, and is otherwise Scheduled.
  */
  lemma ListDecides(w: World, s: Step)
    requires Base(w) && s.ScanList? && Enabled(w, s)
    ensures GoesOn(w, Apply(w, s).pc)
  {
    var local := Refreshed(w.pc.local, w.runs, SCAN, s.listing);
    assert Since(local, w.pc.now) == StartFrom(local.lastRunTime, w.pc.now);
    NextDecided(w.pc.spec.schedule.value, Since(local, w.pc.now), w.pc.now, s.next);
    MissedDecided(w, local, s.missed);
    DecidedGoesOn(w, s.listing, s.missed, s.next);
  }

  // ---------- the Runs that are created ----------

  /** The spec that the latest reconcile of the Scan read. */
  function LastRead(steps: seq<Step>): Option<ScanSpec> {
    if steps == [] then None
    else if steps[|steps| - 1].ScanRead? then Some(steps[|steps| - 1].spec)
    else LastRead(steps[..|steps| - 1])
  }

  lemma {:induction false} PcHasLastRead(steps: seq<Step>)
    requires Feasible(steps)
    ensures var pc := After(steps).pc; pc.Admitted? || pc.Due? || pc.Created? ==> LastRead(steps) == Some(pc.spec)
  {
    if steps != [] {
      PcHasLastRead(steps[..|steps| - 1]);
      SpecCarried(After(steps[..|steps| - 1]), steps[|steps| - 1]);
    }
  }

  lemma SpecCarried(w: World, s: Step)
    requires Enabled(w, s)
    ensures var pc := Apply(w, s).pc;
            pc.Admitted? || pc.Due? || pc.Created? ==>
              if s.ScanRead? then pc.spec == s.spec else (w.pc.Admitted? || w.pc.Due? || w.pc.Created?) && pc.spec == w.pc.spec
  {
  }

  /** The Run carries the settings of the Scan, the Scan as its only owner, and the fire it is for. */
  ghost predicate Snapshot(run: RunObject, spec: ScanSpec, fire: int) {
    && run.spec.workers == spec.workers && run.spec.requireConfig == spec.requireConfig && run.spec.configParses == spec.configParses
    && run.owners == {SCAN} && run.scheduledFor == Some(fire)
  }

  /** Step `j` created Run `u` for the fire that was due. */
  ghost predicate CreatedAt(steps: seq<Step>, j: nat, u: Uid) {
    && j < |steps| && steps[j].ScanCreate? && Feasible(steps[..j])
    && After(steps[..j]).pc.Due? && After(steps[..j]).nextUid == u
  }

  /** What a creation puts into store. */
  lemma CreateDecides(w: World, s: Step)
    requires s.ScanCreate? && Enabled(w, s)
    ensures var w' := Apply(w, s);
            if s.write.Rejected? then w' == w.(pc := Writing(w.pc.local))
            else
              && w'.runs.Keys == w.runs.Keys + {w.nextUid} && (forall u :: u in w.runs && u != w.nextUid ==> w'.runs[u] == w.runs[u])
              && Snapshot(w'.runs[w.nextUid], w.pc.spec, w.pc.fire) && w'.runs[w.nextUid].status == RunModel.INITIAL
              && w'.runs[w.nextUid].spec.name == s.name && w'.runs[w.nextUid].created == Stored(w.clock)
              && w.nextUid in w'.fires && w'.fires[w.nextUid] == w.pc.fire && w'.nextUid == w.nextUid + 1
              && (s.write.Applied? ==>
                    && w'.pc.Created? && w'.pc.spec == w.pc.spec
                    && w'.pc.local == w.pc.local.(lastRunRef := Some(w.nextUid), lastRunTime := Some(w.pc.fire)))
              && (s.write.ReplyLost? ==> w'.pc == Writing(w.pc.local))
  {
  }

  /** A Run that exists keeps what it was created with. */
  lemma StepKeepsSnapshot(w: World, s: Step, u: Uid)
    requires Base(w) && Enabled(w, s) && u in w.runs && u in Apply(w, s).runs
    ensures var r, r' := w.runs[u], Apply(w, s).runs[u];
            r'.spec == r.spec && r'.owners == r.owners && r'.scheduledFor == r.scheduledFor && r'.created == r.created
    ensures u in w.fires ==> u in Apply(w, s).fires && Apply(w, s).fires[u] == w.fires[u]
  {
    assert RunOk(w, u);
    if s.RunReconcile? {
      assert RunOk(w, s.run);
      RunStepMoves(w, s);
      MoveKeepsSnapshot(w, Apply(w, s), s.run, u);
    } else {
      QuietStays(w, s);
      if u in w.fires {
        QuietKeepsFires(w, s, u);
      }
    }
  }

  lemma MoveKeepsSnapshot(w: World, w': World, r: Uid, u: Uid)
    requires Moved(w, w', r) && u in w.runs
    ensures var r, r' := w.runs[u], w'.runs[u];
            r'.spec == r.spec && r'.owners == r.owners && r'.scheduledFor == r.scheduledFor && r'.created == r.created
    ensures w'.fires == w.fires
  {
  }

  lemma QuietKeepsFires(w: World, s: Step, u: Uid)
    requires Enabled(w, s) && !s.RunReconcile? && u < w.nextUid && u in w.fires
    ensures u in Apply(w, s).fires && Apply(w, s).fires[u] == w.fires[u]
  {
  }

  /** A Run of the Scan comes into store only by a creation of the Scan. */
  lemma OnlyCreationAdds(w: World, s: Step, u: Uid)
    requires Enabled(w, s) && u !in w.runs && Owned(Apply(w, s).runs, SCAN, u)
    ensures s.ScanCreate? && !s.write.Rejected? && u == w.nextUid
  {
  }

  /**
    Every Run of the Scan carries the settings of the spec that the reconcile which created it had read, however the
    Scan is edited before or after, with the Scan as its only owner and the fire it is recorded for.
  */
  lemma {:induction false} RunsAreSnapshots(steps: seq<Step>, u: Uid) returns (j: nat)
    requires Feasible(steps) && Owned(After(steps).runs, SCAN, u)
    ensures CreatedAt(steps, j, u) && LastRead(steps[..j]).Some? && u in After(steps).fires
    ensures Snapshot(After(steps).runs[u], LastRead(steps[..j]).value, After(steps).fires[u])
    ensures After(steps).fires[u] == After(steps[..j]).pc.fire && After(steps).runs[u].spec.name == steps[j].name
  {
    var before := steps[..|steps| - 1];
    var w, s := After(before), steps[|steps| - 1];
    AlwaysBase(before);
    if u in w.runs {
      StepKeepsSnapshot(w, s, u);
      j := RunsAreSnapshots(before, u);
      assert before[..j] == steps[..j];
    } else {
      OnlyCreationAdds(w, s, u);
      CreateDecides(w, s);
      PcHasLastRead(before);
      j := |before|;
      assert steps[..j] == before;
    }
  }

  lemma {:induction false} LastReadUsed(steps: seq<Step>, spec: ScanSpec)
    requires Uses(steps, spec)
    ensures LastRead(steps).None? || LastRead(steps) == Some(spec)
  {
    if steps != [] {
      LastReadUsed(steps[..|steps| - 1], spec);
    }
  }

  /** With a spec that is not edited, these are its settings. */
  lemma RunsCarrySpec(steps: seq<Step>, spec: ScanSpec, u: Uid)
    requires Feasible(steps) && Uses(steps, spec) && Owned(After(steps).runs, SCAN, u)
    ensures u in After(steps).fires && Snapshot(After(steps).runs[u], spec, After(steps).fires[u])
  {
    var j := RunsAreSnapshots(steps, u);
    LastReadUsed(steps[..j], spec);
  }

  // ---------- pruning ----------

  /** The limits of a spec that does not set them, and of one that does. */
  lemma LimitsDecided(spec: ScanSpec)
    ensures spec.successfulRunsHistoryLimit.None? ==> spec.SuccessLimit() == 3
    ensures spec.failedRunsHistoryLimit.None? ==> spec.FailLimit() == 1
    ensures spec.successfulRunsHistoryLimit.Some? ==> spec.SuccessLimit() == spec.successfulRunsHistoryLimit.value
    ensures spec.failedRunsHistoryLimit.Some? ==> spec.FailLimit() == spec.failedRunsHistoryLimit.value
  {
  }

  /** The Runs of the Scan that ended one way. */
  ghost function ClassOf(w: World, phase: RunModel.Phase): set<Uid> {
    set u | u in w.runs && InClass(w.runs, SCAN, phase, u)
  }

  /** In any history, recency is the completion time; the creation time is never needed. */
  lemma RecencyIsCompletion(w: World, u: Uid)
    requires Base(w) && u in w.runs && w.runs[u].Terminal()
    ensures w.runs[u].status.completionTime == Some(w.runs[u].CompletionOrCreation())
  {
    assert RunOk(w, u);
  }

  lemma {:induction false} DistinctSize(s: seq<Uid>)
    requires forall i, j :: 0 <= i < j < |s| ==> s[i] != s[j]
    ensures |AsSet(s)| == |s|
  {
    if s != [] {
      var last := |s| - 1;
      DistinctSize(s[..last]);
      assert s[last] !in s[..last];
      assert AsSet(s) == AsSet(s[..last]) + {s[last]};
    } else {
      assert AsSet(s) == {};
    }
  }

  /** Of one class, the limit or all of it is kept, and what is kept completed no earlier than what is picked. */
  ghost predicate PrunedTo(w: World, phase: RunModel.Phase, keep: nat, picked: set<Uid>) {
    && |ClassOf(w, phase) - picked| == (if |ClassOf(w, phase)| <= keep then |ClassOf(w, phase)| else keep)
    && forall u, v :: u in ClassOf(w, phase) && u in picked && v in ClassOf(w, phase) && v !in picked ==>
         NoLater(w.runs[u].status.completionTime, w.runs[v].status.completionTime)
  }

  lemma ClassPruned(w: World, phase: RunModel.Phase, order: seq<Uid>, keep: nat, picked: set<Uid>)
    requires Base(w) && RunModel.IsTerminal(phase) && IsOrder(w.runs, SCAN, phase, order)
    requires forall u :: u in ClassOf(w, phase) ==> (u in picked <==> u in Excess(order, keep))
    ensures PrunedTo(w, phase, keep, picked)
  {
    var m := if |order| <= keep then |order| else keep;
    assert order == order[..m] + Excess(order, keep);
    assert ClassOf(w, phase) == AsSet(order);
    DistinctSize(order);
    DistinctSize(order[..m]);
    KeptIsPrefix(w, phase, order, keep, m, picked);
    ExcessIsOldest(w.runs, SCAN, phase, order, keep);
    forall u, v | u in ClassOf(w, phase) && u in picked && v in ClassOf(w, phase) && v !in picked
      ensures NoLater(w.runs[u].status.completionTime, w.runs[v].status.completionTime)
    {
      assert NoOlder(w.runs, v, u);
      RecencyIsCompletion(w, u);
      RecencyIsCompletion(w, v);
    }
  }

  lemma PrefixApart(order: seq<Uid>, m: nat, u: Uid)
    requires m <= |order| && forall i, j :: 0 <= i < j < |order| ==> order[i] != order[j]
    ensures !(u in order[..m] && u in order[m..])
  {
  }

  lemma KeptIsPrefix(w: World, phase: RunModel.Phase, order: seq<Uid>, keep: nat, m: nat, picked: set<Uid>)
    requires IsOrder(w.runs, SCAN, phase, order) && m == (if |order| <= keep then |order| else keep)
    requires forall u :: u in ClassOf(w, phase) ==> (u in picked <==> u in Excess(order, keep))
    ensures ClassOf(w, phase) - picked == AsSet(order[..m])
  {
    assert order == order[..m] + Excess(order, keep);
    forall u ensures u in ClassOf(w, phase) - picked <==> u in AsSet(order[..m]) {
      PrefixApart(order, m, u);
      assert u in order <==> u in order[..m] || u in Excess(order, keep);
      assert u in order <==> u in ClassOf(w, phase);
    }
  }

  lemma AsSetSum(s: seq<Uid>, f: seq<Uid>)
    ensures AsSet(s + f) == AsSet(s) + AsSet(f)
  {
  }

  /** What is picked from the other class does not matter to this one. */
  lemma ClassPrunedAmong(w: World, phase: RunModel.Phase, order: seq<Uid>, keep: nat, others: set<Uid>, picked: set<Uid>)
    requires Base(w) && RunModel.IsTerminal(phase) && IsOrder(w.runs, SCAN, phase, order)
    requires picked == AsSet(Excess(order, keep)) + others && forall u :: u in others ==> !InClass(w.runs, SCAN, phase, u)
    ensures PrunedTo(w, phase, keep, picked)
  {
    ClassPruned(w, phase, order, keep, picked);
  }

  lemma PickedInClass(w: World, phase: RunModel.Phase, order: seq<Uid>, keep: nat)
    requires IsOrder(w.runs, SCAN, phase, order)
    ensures AsSet(Excess(order, keep)) <= ClassOf(w, phase)
  {
    ExcessIsOldest(w.runs, SCAN, phase, order, keep);
  }

  lemma ClassesApart(w: World)
    ensures forall u :: u in ClassOf(w, RunModel.Succeeded) ==> !InClass(w.runs, SCAN, RunModel.Failed, u)
    ensures forall u :: u in ClassOf(w, RunModel.Failed) ==> !InClass(w.runs, SCAN, RunModel.Succeeded, u)
  {
  }

  /** Pruning picks only ended Runs of the Scan, and of each class the limit or all of it is kept, the most recent ones. */
  lemma PruneDecides(w: World, s: Step)
    requires Base(w) && s.ScanGcList? && Enabled(w, s)
    ensures var picked := AsSet(Apply(w, s).pc.excess);
            && picked <= ClassOf(w, RunModel.Succeeded) + ClassOf(w, RunModel.Failed)
            && PrunedTo(w, RunModel.Succeeded, w.pc.spec.SuccessLimit(), picked)
            && PrunedTo(w, RunModel.Failed, w.pc.spec.FailLimit(), picked)
  {
    var keep, keepFailed, picked := w.pc.spec.SuccessLimit(), w.pc.spec.FailLimit(), AsSet(Apply(w, s).pc.excess);
    var a, b := AsSet(Excess(s.succeeded, keep)), AsSet(Excess(s.failed, keepFailed));
    AsSetSum(Excess(s.succeeded, keep), Excess(s.failed, keepFailed));
    assert picked == a + b && picked == b + a;
    PickedInClass(w, RunModel.Succeeded, s.succeeded, keep);
    PickedInClass(w, RunModel.Failed, s.failed, keepFailed);
    ClassesApart(w);
    ClassPrunedAmong(w, RunModel.Succeeded, s.succeeded, keep, b, picked);
    ClassPrunedAmong(w, RunModel.Failed, s.failed, keepFailed, a, picked);
  }

  // ---------- how a reconcile ends ----------

  /**
    A reconcile that pruned to the end is Scheduled; one that fails on a list or a delete stores what it had so far. A
    delete removes exactly the first Run picked, unless it is rejected, and only one that is acknowledged goes on.
  */
  lemma FinishDecides(w: World, s: Step)
    requires Enabled(w, s) && (s.ScanPruned? || s.ScanListFails? || s.ScanGcListFails? || s.ScanDelete?)
    ensures var w' := Apply(w, s);
            && w'.status == w.status && w'.fires == w.fires
            && (s.ScanPruned? ==>
                  && w'.runs == w.runs && w'.pc.Writing?
                  && w'.pc.local == w.pc.local.(conditions := w.pc.local.conditions[TypeScheduled := Condition(true, NextRunComputed)]))
            && (s.ScanListFails? || s.ScanGcListFails? ==> w'.runs == w.runs && w'.pc == Writing(w.pc.local))
            && (s.ScanDelete? ==>
                  && (forall u :: u in w'.runs <==> u in w.runs && (u != w.pc.excess[0] || s.write.Rejected?))
                  && (forall u :: u in w'.runs ==> w'.runs[u] == w.runs[u])
                  && (if s.write.Applied? then w'.pc == Pruning(w.pc.local, w.pc.excess[1..]) else w'.pc == Writing(w.pc.local)))
  {
  }
}
