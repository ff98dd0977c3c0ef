/**
  The Scan controller as the source writes it: methods that update a copy of the Scan's status field by
  field and create and delete Runs in the API server. An undisturbed reconcile is shown to be a path of the
  transition system in `SchedulerSystem`.
*/
module ScanReconciler {
  import opened Prelude
  import opened Cron
  import opened ScanModel
  import opened SchedulerSystem
  import RunModel

  /** The in-memory copy of the Scan. */
  class RenovateScan {
    var status: ScanStatus

    constructor (status: ScanStatus)
      ensures this.status == status
    {
      this.status := status;
    }
  }

  class ApiServer {
    /** The stored status of the Scan. */
    var status: ScanStatus
    var runs: Runs
    var nextUid: Uid

    /** Lists all Runs, in no particular order. */
    method List() returns (listing: seq<Uid>)
      ensures IsListing(runs, listing)
    {
      listing := [];
      var rest := runs.Keys;
      while rest != {}
        invariant rest <= runs.Keys
        invariant forall i, j :: 0 <= i < j < |listing| ==> listing[i] != listing[j]
        invariant forall u :: u in listing <==> u in runs && u !in rest
        decreases |rest|
      {
        var u :| u in rest;
        listing := listing + [u];
        rest := rest - {u};
      }
    }
  }

  // ---------- paths of the transition system ----------

  /** What the outside answers to one reconcile: the inputs, each call that can fail, and the status write. */
  datatype Answers = Answers(
    spec: ScanSpec,
    platform: Platform,
    now: int,
    listOk: bool,
    name: string,
    create: RunModel.Write,
    gcListOk: bool,
    deleteSucceeded: nat -> RunModel.Write,
    deleteFailed: nat -> RunModel.Write,
    persisted: bool)

  /** Steps of an undisturbed reconcile that gets these answers. At each point there is only one kind. */
  ghost predicate Heeds(s: Step, a: Answers) {
    match s
    case ScanRead(spec, platform) => spec == a.spec && platform == a.platform
    case ScanList(_, _, _) => a.listOk
    case ScanListFails => !a.listOk
    case ScanCreate(name, write) => name == a.name && write == a.create
    case ScanGcList(_, _) => a.gcListOk
    case ScanGcListFails => !a.gcListOk
    case ScanDelete(write) => exists k: nat :: write == a.deleteSucceeded(k) || write == a.deleteFailed(k)
    case ScanPruned => true
    case ScanWrite(persisted) => persisted == a.persisted
    case _ => false
  }

  ghost predicate Path(a: Answers, w: World, w': World, steps: nat)
    decreases steps
  {
    if steps == 0 then w == w'
    else exists w1, s :: Path(a, w, w1, steps - 1) && Enabled(w1, s) && Heeds(s, a) && Apply(w1, s) == w'
  }

  ghost predicate LeadsTo(a: Answers, w: World, w': World) {
    exists steps: nat :: Path(a, w, w', steps)
  }

  lemma LeadsToSelf(a: Answers, w: World)
    ensures LeadsTo(a, w, w)
  {
    assert Path(a, w, w, 0);
  }

  lemma LeadsToNext(a: Answers, w: World, w1: World, s: Step)
    requires LeadsTo(a, w, w1) && Enabled(w1, s) && Heeds(s, a)
    ensures LeadsTo(a, w, Apply(w1, s))
    ensures exists steps: nat :: steps > 0 && Path(a, w, Apply(w1, s), steps)
  {
    var steps: nat :| Path(a, w, w1, steps);
    assert Path(a, w, Apply(w1, s), steps + 1);
  }

  lemma {:induction false} LeadsToTransitive(a: Answers, w: World, w1: World, w2: World, steps: nat)
    requires LeadsTo(a, w, w1) && Path(a, w1, w2, steps)
    ensures LeadsTo(a, w, w2)
    decreases steps
  {
    if steps > 0 {
      var w3, s :| Path(a, w1, w3, steps - 1) && Enabled(w3, s) && Heeds(s, a) && Apply(w3, s) == w2;
      LeadsToTransitive(a, w, w1, w3, steps - 1);
      LeadsToNext(a, w, w3, s);
    }
  }

  lemma LeadsToThrough(a: Answers, w: World, w1: World, w2: World)
    requires LeadsTo(a, w, w1) && LeadsTo(a, w1, w2)
    ensures LeadsTo(a, w, w2)
  {
    var steps: nat :| Path(a, w1, w2, steps);
    LeadsToTransitive(a, w, w1, w2, steps);
  }

  /**
    A path continues any history that leads to its start, by steps that the answers allow. So whatever holds of all
    histories holds of a reconcile, wherever it comes in one.
  */
  lemma {:induction false} PathIsHistory(steps: seq<Step>, a: Answers, w: World, w': World, k: nat) returns (longer: seq<Step>)
    requires Feasible(steps) && After(steps) == w && Path(a, w, w', k)
    ensures Feasible(longer) && After(longer) == w' && |longer| == |steps| + k && longer[..|steps|] == steps
    ensures forall i :: |steps| <= i < |longer| ==> Heeds(longer[i], a)
    decreases k
  {
    if k == 0 {
      longer := steps;
    } else {
      var w1, s :| Path(a, w, w1, k - 1) && Enabled(w1, s) && Heeds(s, a) && Apply(w1, s) == w';
      var before := PathIsHistory(steps, a, w, w1, k - 1);
      OneMoreStep(before, s);
      longer := before + [s];
    }
  }

  /** One delete of the pruning. */
  lemma DeleteStep(a: Answers, w: World, w1: World, answer: RunModel.Write) returns (w2: World)
    requires LeadsTo(a, w, w1) && w1.pc.Pruning? && w1.pc.excess != [] && Heeds(ScanDelete(answer), a)
    ensures LeadsTo(a, w, w2) && w2 == w1.(runs := w2.runs, pc := w2.pc)
    ensures w2.runs == if answer.Rejected? then w1.runs else w1.runs - {w1.pc.excess[0]}
    ensures w2.pc == if answer.Applied? then Pruning(w1.pc.local, w1.pc.excess[1..]) else Writing(w1.pc.local)
  {
    LeadsToNext(a, w, w1, ScanDelete(answer));
    w2 := Apply(w1, ScanDelete(answer));
  }

  /** The transition system's state is the one the methods work on, at the given point of the reconcile. */
  ghost predicate Tracks(w: World, api: ApiServer, pc: Pc)
    reads api
  {
    w.runs == api.runs && w.nextUid == api.nextUid && w.status == api.status && w.pc == pc
  }

  class Reconciler {
    /** The fold over the listed Runs. */
    method RefreshActiveRuns(scan: RenovateScan, runs: Runs, listing: seq<Uid>)
      requires forall u :: u in listing ==> u in runs
      modifies scan`status
      ensures scan.status == Refreshed(old(scan.status), runs, SCAN, listing)
    {
      var active: seq<Uid> := [];
      var lastRun: Option<int> := None;
      var lastSuccessfulRun: Option<int> := None;
      for i := 0 to |listing|
        invariant active == ActiveOf(runs, SCAN, listing[..i])
        invariant lastRun == LatestOf(runs, SCAN, false, listing[..i])
        invariant lastSuccessfulRun == LatestOf(runs, SCAN, true, listing[..i])
      {
        assert listing[..i + 1][..i] == listing[..i];
        var run := runs[listing[i]];
        if SCAN in run.owners {
          if RunModel.IsTerminal(run.status.phase) {
            if run.status.completionTime.Some? {
              var t := run.status.completionTime.value;
              if lastRun.None? || lastRun.value < t {
                lastRun := Some(t);
              }
              if run.status.phase == RunModel.Succeeded {
                if lastSuccessfulRun.None? || lastSuccessfulRun.value < t {
                  lastSuccessfulRun := Some(t);
                }
              }
            }
          } else {
            active := active + [listing[i]];
          }
        }
      }
      assert listing[..|listing|] == listing;
      scan.status := scan.status.(activeRuns := active);
      if lastRun.Some? {
        scan.status := scan.status.(lastRunTime := lastRun);
      }
      if lastSuccessfulRun.Some? {
        scan.status := scan.status.(lastSuccessfulRunTime := lastSuccessfulRun);
      }
    }

    method CreateRun(scan: RenovateScan, api: ApiServer, spec: ScanSpec, name: string, fire: int, now: int, write: RunModel.Write)
      returns (ok: bool)
      modifies scan`status, api`runs, api`nextUid
      ensures ok == write.Applied?
      ensures scan.status == if ok then Fired(old(scan.status), old(api.nextUid), fire) else old(scan.status)
      ensures api.runs == (if write.Rejected? then old(api.runs)
                           else old(api.runs)[old(api.nextUid) := NewRun(spec, SCAN, name, fire, now)])
      ensures api.nextUid == if write.Rejected? then old(api.nextUid) else old(api.nextUid) + 1
    {
      var uid := api.nextUid;
      if !write.Rejected? {
        api.runs := api.runs[uid := NewRun(spec, SCAN, name, fire, now)];
        api.nextUid := api.nextUid + 1;
      }
      if !write.Applied? {
        return false;
      }
      scan.status := scan.status.(lastRunRef := Some(uid));
      scan.status := scan.status.(lastRunTime := Some(fire));
      return true;
    }

    /** Splits the Scan's terminal Runs by how they ended. */
    method Partition(runs: Runs, listing: seq<Uid>) returns (succeeded: seq<Uid>, failed: seq<Uid>)
      requires IsListing(runs, listing)
      ensures IsOrder(runs, SCAN, RunModel.Succeeded, SortRecent(runs, succeeded))
      ensures IsOrder(runs, SCAN, RunModel.Failed, SortRecent(runs, failed))
      ensures |SortRecent(runs, succeeded)| == |succeeded| && |SortRecent(runs, failed)| == |failed|
    {
      succeeded, failed := [], [];
      for i := 0 to |listing|
        invariant forall j, k :: 0 <= j < k < |succeeded| ==> succeeded[j] != succeeded[k]
        invariant forall j, k :: 0 <= j < k < |failed| ==> failed[j] != failed[k]
        invariant forall u :: u in succeeded <==> u in listing[..i] && InClass(runs, SCAN, RunModel.Succeeded, u)
        invariant forall u :: u in failed <==> u in listing[..i] && InClass(runs, SCAN, RunModel.Failed, u)
      {
        var u := listing[i];
        assert listing[..i + 1] == listing[..i] + [u];
        assert u !in listing[..i];
        if SCAN in runs[u].owners {
          match runs[u].status.phase
          case Succeeded => succeeded := succeeded + [u];
          case Failed => failed := failed + [u];
          case _ =>
        }
      }
      assert listing[..|listing|] == listing;
      SortRecentCorrect(runs, succeeded);
      SortRecentCorrect(runs, failed);
    }

    /** Deletes what is beyond the limit, until a delete fails. */
    method DeleteOldest(ghost a: Answers, ghost w: World, api: ApiServer, snapshot: Runs, us: seq<Uid>, keep: nat,
                        answers: nat -> RunModel.Write, ghost rest: seq<Uid>)
      returns (ok: bool, ghost w': World)
      requires |SortRecent(snapshot, us)| == |us| && (answers == a.deleteSucceeded || answers == a.deleteFailed)
      requires w.pc.Pruning? && Tracks(w, api, Pruning(w.pc.local, Excess(SortRecent(snapshot, us), keep) + rest))
      modifies api`runs
      ensures LeadsTo(a, w, w') && w'.clock == w.clock
      ensures Tracks(w', api, if ok then Pruning(w.pc.local, rest) else Writing(w.pc.local))
    {
      w' := w;
      LeadsToSelf(a, w);
      if |us| <= keep {
        return true, w';
      }
      var order := SortRecent(snapshot, us);
      for i := keep to |order|
        invariant LeadsTo(a, w, w') && w'.clock == w.clock && Tracks(w', api, Pruning(w.pc.local, order[i..] + rest))
      {
        var answer := answers(i);
        assert (order[i..] + rest)[0] == order[i] && (order[i..] + rest)[1..] == order[i + 1..] + rest;
        assert answer == a.deleteSucceeded(i) || answer == a.deleteFailed(i);
        w' := DeleteStep(a, w, w', answer);
        if !answer.Rejected? {
          api.runs := api.runs - {order[i]};
        }
        if !answer.Applied? {
          return false, w';
        }
      }
      assert order[|order|..] + rest == rest;
      ok := true;
    }

    /** Prunes both classes; the first failed delete ends it. */
    method GcOldRuns(a: Answers, ghost w: World, api: ApiServer) returns (ok: bool, ghost w': World)
      requires w.pc.Created? && w.pc.spec == a.spec && Tracks(w, api, w.pc)
      modifies api`runs
      ensures LeadsTo(a, w, w') && w'.clock == w.clock
      ensures Tracks(w', api, if ok then Pruning(w.pc.local, []) else Writing(w.pc.local))
    {
      LeadsToSelf(a, w);
      if !a.gcListOk {
        LeadsToNext(a, w, w, ScanGcListFails);
        return false, Apply(w, ScanGcListFails);
      }
      var snapshot := api.runs;
      var listing := api.List();
      var succeeded, failed := Partition(snapshot, listing);
      ghost var s, f := SortRecent(snapshot, succeeded), SortRecent(snapshot, failed);
      LeadsToNext(a, w, w, ScanGcList(s, f));
      ghost var w1 := Apply(w, ScanGcList(s, f));
      ghost var w2;
      ok, w2 := DeleteOldest(a, w1, api, snapshot, succeeded, a.spec.SuccessLimit(), a.deleteSucceeded, Excess(f, a.spec.FailLimit()));
      LeadsToThrough(a, w, w1, w2);
      w' := w2;
      if !ok {
        return;
      }
      assert Excess(f, a.spec.FailLimit()) == Excess(f, a.spec.FailLimit()) + [];
      ok, w' := DeleteOldest(a, w2, api, snapshot, failed, a.spec.FailLimit(), a.deleteFailed, []);
      LeadsToThrough(a, w, w2, w');
    }

    method Mark(scan: RenovateScan, t: ConditionType, holds: bool, reason: Reason)
      modifies scan`status
      ensures scan.status == Marked(old(scan.status), t, holds, reason)
    {
      scan.status := scan.status.(conditions := scan.status.conditions[t := Condition(holds, reason)]);
    }

    /** The checks before any Run is looked at; false ends the reconcile. */
    method CheckReady(scan: RenovateScan, spec: ScanSpec, platform: Platform) returns (go: bool)
      modifies scan`status
      ensures go == Proceeds(spec, platform)
      ensures scan.status == if go then old(scan.status) else Stopped(old(scan.status), spec, platform)
    {
      if spec.suspend {
        Mark(scan, TypeReady, false, Suspended);
        return false;
      }
      match platform
      case Missing | NotReady =>
        Mark(scan, TypeReady, false, PlatformNotReady);
        return false;
      case Unreadable =>
        return false;
      case Ready =>
      if spec.schedule.None? {
        Mark(scan, TypeReady, false, InvalidSchedule);
        return false;
      }
      return true;
    }

    /** Refreshes, computes the fire times and decides; a result means there is a fire to run. */
    method DecideFire(ghost a: Answers, ghost w: World, scan: RenovateScan, api: ApiServer, spec: ScanSpec, now: int)
      returns (fire: Option<int>, ghost w': World)
      requires a.listOk && spec.schedule.Some? && spec.schedule.value.Valid() && Tracks(w, api, Admitted(spec, now, scan.status))
      modifies scan`status
      ensures LeadsTo(a, w, w') && w'.clock == w.clock
      ensures Tracks(w', api, if fire.Some? then Due(spec, scan.status, fire.value) else Writing(scan.status))
    {
      var listing := api.List();
      RefreshActiveRuns(scan, api.runs, listing);
      Mark(scan, TypeReady, true, NextRunComputed);
      var missed, next := ComputeFireTimes(spec.schedule.value, scan.status.lastRunTime, now);
      scan.status := scan.status.(nextRunTime := Some(next));
      LeadsToSelf(a, w);
      LeadsToNext(a, w, w, ScanList(listing, missed, next));
      w' := Apply(w, ScanList(listing, missed, next));
      if missed.None? || ShouldSkip(spec.policy, scan.status) {
        Mark(scan, TypeScheduled, true, NextRunComputed);
        return None, w';
      }
      fire := missed;
    }

    /** Creates the Run for a fire, then prunes. */
    method RunFire(a: Answers, ghost w: World, scan: RenovateScan, api: ApiServer, fire: int) returns (ghost w': World)
      requires Tracks(w, api, Due(a.spec, scan.status, fire)) && w.clock == a.now && (a.create.Rejected? || FreshName(api.runs, a.name))
      modifies scan`status, api`runs, api`nextUid
      ensures LeadsTo(a, w, w') && Tracks(w', api, Writing(scan.status))
    {
      LeadsToSelf(a, w);
      LeadsToNext(a, w, w, ScanCreate(a.name, a.create));
      ghost var w1 := Apply(w, ScanCreate(a.name, a.create));
      var created := CreateRun(scan, api, a.spec, a.name, fire, a.now, a.create);
      if !created {
        return w1;
      }
      var pruned;
      ghost var w2;
      pruned, w2 := GcOldRuns(a, w1, api);
      LeadsToThrough(a, w, w1, w2);
      if !pruned {
        return w2;
      }
      Mark(scan, TypeScheduled, true, NextRunComputed);
      LeadsToNext(a, w, w2, ScanPruned);
      w' := Apply(w2, ScanPruned);
    }

    /**
      A whole reconcile, from reading the Scan to writing its status back: what it does to Runs and status is the path
      of the transition system from idle to idle that these answers allow.
    */
    method Reconcile(a: Answers, ghost w: World, api: ApiServer) returns (ghost w': World)
      requires a.spec.Valid() && Tracks(w, api, Idle) && w.clock == a.now && (a.create.Rejected? || FreshName(api.runs, a.name))
      modifies api
      ensures Tracks(w', api, Idle)
      ensures exists steps: nat :: steps > 0 && Path(a, w, w', steps)
    {
      var scan := new RenovateScan(api.status);
      LeadsToSelf(a, w);
      LeadsToNext(a, w, w, ScanRead(a.spec, a.platform));
      w' := Apply(w, ScanRead(a.spec, a.platform));
      var go := CheckReady(scan, a.spec, a.platform);
      if go && !a.listOk {
        LeadsToNext(a, w, w', ScanListFails);
        w' := Apply(w', ScanListFails);
      } else if go {
        ghost var w1 := w';
        var fire;
        fire, w1 := DecideFire(a, w', scan, api, a.spec, a.now);
        LeadsToThrough(a, w, w', w1);
        w' := w1;
        if fire.Some? {
          w' := RunFire(a, w1, scan, api, fire.value);
          LeadsToThrough(a, w, w1, w');
        }
      }
      LeadsToNext(a, w, w', ScanWrite(a.persisted));
      w' := Apply(w', ScanWrite(a.persisted));
      if a.persisted {
        api.status := scan.status;
      }
    }
  }
}
