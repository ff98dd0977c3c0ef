/**
  The Scan controller's decisions (internal/controller/renovatescan_controller.go) on values: what a
  reconcile reads from the listed Runs, whether it fires, and which Runs its history limits delete.
*/
module ScanModel {
  import opened Prelude
  import opened Cron
  import RunModel
  import ShardPlanner

  /** Object identity; a number that grows with creation. */
  type Uid = nat

  /** `owners` are the owner references, `scheduledFor` the annotation with the fire time. */
  datatype RunObject = RunObject(
    spec: RunModel.RunSpec,
    owners: set<Uid>,
    created: int,
    scheduledFor: Option<int>,
    status: RunModel.Status,
    touched: int)
  {
    predicate Terminal() {
      RunModel.IsTerminal(status.phase)
    }

    /** What history is sorted by. */
    function CompletionOrCreation(): int {
      match status.completionTime
      case Some(t) => t
      case None => created
    }
  }

  type Runs = map<Uid, RunObject>

  datatype Policy = Allow | Forbid | Replace | Unspecified

  datatype ScanSpec = ScanSpec(
    suspend: bool,
    policy: Policy,
    schedule: Option<Schedule>,
    successfulRunsHistoryLimit: Option<nat>,
    failedRunsHistoryLimit: Option<nat>,
    workers: ShardPlanner.WorkerBounds,
    requireConfig: bool,
    configParses: bool)
  {
    function SuccessLimit(): nat {
      match successfulRunsHistoryLimit
      case Some(n) => n
      case None => 3
    }

    function FailLimit(): nat {
      match failedRunsHistoryLimit
      case Some(n) => n
      case None => 1
    }

    ghost predicate Valid() {
      schedule.Some? ==> schedule.value.Valid()
    }
  }

  datatype ConditionType = TypeReady | TypeScheduled
  datatype Reason = Suspended | PlatformNotReady | InvalidSchedule | NextRunComputed
  datatype Condition = Condition(holds: bool, reason: Reason)

  datatype ScanStatus = ScanStatus(
    conditions: map<ConditionType, Condition>,
    lastRunTime: Option<int>,
    lastSuccessfulRunTime: Option<int>,
    nextRunTime: Option<int>,
    lastRunRef: Option<Uid>,
    activeRuns: seq<Uid>)

  const NEW_SCAN: ScanStatus := ScanStatus(map[], None, None, None, None, [])

  datatype Platform = Missing | Unreadable | NotReady | Ready

  function Marked(st: ScanStatus, t: ConditionType, holds: bool, reason: Reason): ScanStatus {
    st.(conditions := st.conditions[t := Condition(holds, reason)])
  }

  // ---------- before the Runs are listed ----------

  /** Whether the reconcile gets as far as listing Runs. */
  predicate Proceeds(spec: ScanSpec, platform: Platform) {
    !spec.suspend && platform.Ready? && spec.schedule.Some?
  }

  /** The status when it does not. */
  function Stopped(st: ScanStatus, spec: ScanSpec, platform: Platform): ScanStatus {
    if spec.suspend then Marked(st, TypeReady, false, Suspended)
    else
      match platform
      case Missing | NotReady => Marked(st, TypeReady, false, PlatformNotReady)
      case Unreadable => st
      case Ready => if spec.schedule.None? then Marked(st, TypeReady, false, InvalidSchedule) else st
  }

  // ---------- what the listed Runs say ----------

  /** A list of all Runs, each once, in any order. */
  ghost predicate IsListing(runs: Runs, listing: seq<Uid>) {
    && (forall i, j :: 0 <= i < j < |listing| ==> listing[i] != listing[j])
    && (forall u :: u in listing <==> u in runs)
  }

  predicate Owned(runs: Runs, scan: Uid, u: Uid) {
    u in runs && scan in runs[u].owners
  }

  predicate Active(runs: Runs, scan: Uid, u: Uid) {
    Owned(runs, scan, u) && !runs[u].Terminal()
  }

  /** Terminal Runs of the Scan that count toward a latest time. */
  predicate Counts(runs: Runs, scan: Uid, onlySucceeded: bool, u: Uid) {
    && Owned(runs, scan, u) && runs[u].Terminal() && runs[u].status.completionTime.Some?
    && (onlySucceeded ==> runs[u].status.phase == RunModel.Succeeded)
  }

  function ActiveOf(runs: Runs, scan: Uid, listing: seq<Uid>): seq<Uid> {
    if listing == [] then []
    else
      var u := listing[|listing| - 1];
      ActiveOf(runs, scan, listing[..|listing| - 1]) + if Active(runs, scan, u) then [u] else []
  }

  function LatestOf(runs: Runs, scan: Uid, onlySucceeded: bool, listing: seq<Uid>): Option<int> {
    if listing == [] then None
    else
      var u := listing[|listing| - 1];
      var before := LatestOf(runs, scan, onlySucceeded, listing[..|listing| - 1]);
      if Counts(runs, scan, onlySucceeded, u) && (before.None? || before.value < runs[u].status.completionTime.value)
      then runs[u].status.completionTime
      else before
  }

  function Refreshed(st: ScanStatus, runs: Runs, scan: Uid, listing: seq<Uid>): ScanStatus {
    var lastRun := LatestOf(runs, scan, false, listing);
    var lastSuccessful := LatestOf(runs, scan, true, listing);
    st.(activeRuns := ActiveOf(runs, scan, listing),
        lastRunTime := if lastRun.Some? then lastRun else st.lastRunTime,
        lastSuccessfulRunTime := if lastSuccessful.Some? then lastSuccessful else st.lastSuccessfulRunTime)
  }

  /** The active list is empty exactly when no owned Run is active. */
  lemma {:induction false} ActiveOfMeaning(runs: Runs, scan: Uid, listing: seq<Uid>)
    ensures forall u :: u in ActiveOf(runs, scan, listing) <==> u in listing && Active(runs, scan, u)
  {
    if listing != [] {
      var last := |listing| - 1;
      ActiveOfMeaning(runs, scan, listing[..last]);
      assert listing == listing[..last] + [listing[last]];
    }
  }

  /** The latest time is one of those that count, and none that counts is later; the order of the list is irrelevant. */
  lemma {:induction false} LatestOfMeaning(runs: Runs, scan: Uid, onlySucceeded: bool, listing: seq<Uid>)
    ensures var r := LatestOf(runs, scan, onlySucceeded, listing);
            && (r.Some? ==> exists u :: u in listing && Counts(runs, scan, onlySucceeded, u) && runs[u].status.completionTime == r)
            && (forall u :: u in listing && Counts(runs, scan, onlySucceeded, u) ==> NoLater(runs[u].status.completionTime, r))
  {
    if listing != [] {
      var last := |listing| - 1;
      LatestOfMeaning(runs, scan, onlySucceeded, listing[..last]);
      assert listing == listing[..last] + [listing[last]];
      assert listing[last] in listing;
      assert forall u :: u in listing[..last] ==> u in listing;
    }
  }

  // ---------- the decision ----------

  /** A forbidding policy keeps the Scan from firing while a Run is active. */
  predicate ShouldSkip(policy: Policy, st: ScanStatus) {
    st.activeRuns != [] && policy != Allow
  }

  /** The status after listing, with the next fire filled in. */
  function Planned(st: ScanStatus, runs: Runs, scan: Uid, listing: seq<Uid>, next: int): ScanStatus {
    Marked(Refreshed(st, runs, scan, listing), TypeReady, true, NextRunComputed).(nextRunTime := Some(next))
  }

  function Fired(st: ScanStatus, run: Uid, fire: int): ScanStatus {
    st.(lastRunRef := Some(run), lastRunTime := Some(fire))
  }

  /** The child Run, with the Scan as owner and the specs as they are now. */
  function NewRun(spec: ScanSpec, scan: Uid, name: string, fire: int, now: int): RunObject {
    RunObject(RunModel.RunSpec(name, spec.workers, spec.requireConfig, spec.configParses),
              {scan}, Stored(now), Some(fire), RunModel.INITIAL, now)
  }

  // ---------- history ----------

  predicate InClass(runs: Runs, scan: Uid, phase: RunModel.Phase, u: Uid) {
    Owned(runs, scan, u) && runs[u].status.phase == phase
  }

  predicate NoOlder(runs: Runs, u: Uid, v: Uid) {
    u in runs && v in runs && runs[v].CompletionOrCreation() <= runs[u].CompletionOrCreation()
  }

  /** The Runs of one class, most recent first, in any order where they are equally recent. */
  ghost predicate IsOrder(runs: Runs, scan: Uid, phase: RunModel.Phase, order: seq<Uid>) {
    && (forall i, j :: 0 <= i < j < |order| ==> order[i] != order[j])
    && (forall u :: u in order <==> InClass(runs, scan, phase, u))
    && (forall i, j :: 0 <= i < j < |order| ==> NoOlder(runs, order[i], order[j]))
  }

  /** What is beyond the limit. */
  function Excess(order: seq<Uid>, keep: nat): seq<Uid> {
    if |order| <= keep then [] else order[keep..]
  }

  /**
    Pruning keeps as many of the class as the limit allows, and everything kept is at least as recent as
    everything deleted; only terminal Runs of this Scan are ever up for deletion.
  */
  lemma ExcessIsOldest(runs: Runs, scan: Uid, phase: RunModel.Phase, order: seq<Uid>, keep: nat)
    requires IsOrder(runs, scan, phase, order)
    ensures forall u :: u in Excess(order, keep) ==> InClass(runs, scan, phase, u)
    ensures |Excess(order, keep)| == if |order| <= keep then 0 else |order| - keep
    ensures forall u, v :: u in Excess(order, keep) && InClass(runs, scan, phase, v) && v !in Excess(order, keep) ==>
              NoOlder(runs, v, u)
    ensures keep > 0 && order != [] ==> order[0] !in Excess(order, keep)
  {
    if |order| > keep {
      forall u, v | u in Excess(order, keep) && InClass(runs, scan, phase, v) && v !in Excess(order, keep)
        ensures NoOlder(runs, v, u)
      {
        var i :| 0 <= i < |order[keep..]| && order[keep..][i] == u;
        assert v in order;
        var j :| 0 <= j < |order| && order[j] == v;
        assert v !in order[keep..];
        assert forall k :: keep <= k < |order| ==> order[k] == order[keep..][k - keep];
        assert NoOlder(runs, order[j], order[keep + i]);
      }
    }
  }

  /** Sorting by recency; the library's sort may order equally recent Runs differently. */
  function SortRecent(runs: Runs, us: seq<Uid>): seq<Uid> {
    if us == [] then [] else InsertRecent(runs, SortRecent(runs, us[..|us| - 1]), us[|us| - 1])
  }

  function InsertRecent(runs: Runs, us: seq<Uid>, u: Uid): seq<Uid> {
    if us == [] then [u]
    else if NoOlder(runs, us[|us| - 1], u) then us + [u]
    else InsertRecent(runs, us[..|us| - 1], u) + [us[|us| - 1]]
  }

  ghost predicate Recent(runs: Runs, us: seq<Uid>) {
    && (forall i, j :: 0 <= i < j < |us| ==> us[i] != us[j])
    && (forall i, j :: 0 <= i < j < |us| ==> NoOlder(runs, us[i], us[j]))
  }

  lemma {:induction false} InsertRecentCorrect(runs: Runs, us: seq<Uid>, u: Uid)
    requires Recent(runs, us) && u !in us && u in runs && forall v :: v in us ==> v in runs
    ensures Recent(runs, InsertRecent(runs, us, u))
    ensures forall v :: v in InsertRecent(runs, us, u) <==> v in us || v == u
  {
    if us != [] {
      var last := |us| - 1;
      assert us == us[..last] + [us[last]];
      if !NoOlder(runs, us[last], u) {
        InsertRecentCorrect(runs, us[..last], u);
        var r := InsertRecent(runs, us[..last], u);
        forall i | 0 <= i < |r| ensures r[i] != us[last] && NoOlder(runs, r[i], us[last]) {
          assert r[i] in r;
        }
      } else {
        forall i | 0 <= i < |us| ensures NoOlder(runs, us[i], u) {
          assert i < last ==> NoOlder(runs, us[i], us[last]);
        }
      }
    }
  }

  lemma {:induction false} SortRecentCorrect(runs: Runs, us: seq<Uid>)
    requires (forall i, j :: 0 <= i < j < |us| ==> us[i] != us[j]) && forall u :: u in us ==> u in runs
    ensures Recent(runs, SortRecent(runs, us)) && forall v :: v in SortRecent(runs, us) <==> v in us
    ensures |SortRecent(runs, us)| == |us|
  {
    if us != [] {
      var last := |us| - 1;
      assert us == us[..last] + [us[last]];
      SortRecentCorrect(runs, us[..last]);
      InsertRecentCorrect(runs, SortRecent(runs, us[..last]), us[last]);
      InsertRecentLength(runs, SortRecent(runs, us[..last]), us[last]);
    }
  }

  lemma {:induction false} InsertRecentLength(runs: Runs, us: seq<Uid>, u: Uid)
    ensures |InsertRecent(runs, us, u)| == |us| + 1
  {
    if us != [] && !NoOlder(runs, us[|us| - 1], u) {
      InsertRecentLength(runs, us[..|us| - 1], u);
    }
  }
}
