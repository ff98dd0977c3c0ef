/** Under a forbidding policy with history limits of at least one, the Runs of a Scan never overlap. */
module SchedulerOrder {
  import opened Prelude
  import opened Cron
  import opened ScanModel
  import opened SchedulerSystem
  import RunModel

  /** The specs under which the order holds; schedule, suspension and everything else may change at will. */
  predicate Strict(spec: ScanSpec) {
    spec.policy != Allow && spec.SuccessLimit() >= 1 && spec.FailLimit() >= 1
  }

  ghost predicate AlwaysStrict(steps: seq<Step>) {
    forall i :: 0 <= i < |steps| && steps[i].ScanRead? ==> Strict(steps[i].spec)
  }

  /** What is recorded about a Run that still exists agrees with its stored status. */
  ghost predicate Recorded(w: World, u: Uid) {
    && u in w.runs && u in w.fires && w.fires[u] <= w.runs[u].touched
    && (w.runs[u].Terminal() <==> u in w.done)
    && (w.runs[u].Terminal() ==> w.runs[u].status.completionTime == Some(w.done[u]))
  }

  /** The interval of a Run that ended. */
  ghost predicate Closed(w: World, u: Uid) {
    u in w.fires && u in w.done && w.fires[u] <= w.done[u]
  }

  /** Creation order is time order: an earlier Run ended before a later one was due. */
  ghost predicate Ordered(w: World) {
    forall u, v :: u in w.fires && v in w.fires && u < v ==> Closed(w, u) && w.done[u] < w.fires[v]
  }

  ghost predicate NewestKept(w: World) {
    match w.newest
    case None => w.fires == map[]
    case Some(n) => n in w.fires && n in w.runs && forall u :: u in w.fires ==> u <= n
  }

  ghost predicate Ledger(w: World) {
    && (forall u :: u in w.fires ==> u < w.nextUid && w.fires[u] % SECOND == 0)
    && (forall u :: u in w.done ==> Closed(w, u))
    && (forall u :: u in w.runs ==> (SCAN in w.runs[u].owners <==> u in w.fires))
    && (forall u :: u in w.runs && u in w.fires ==> Recorded(w, u))
    && Ordered(w) && NewestKept(w)
  }

  /** Every Run so far ended before `fire`. */
  ghost predicate AllEndedBefore(w: World, fire: int) {
    forall u :: u in w.fires ==> Closed(w, u) && w.done[u] < fire
  }

  ghost predicate PcOk(w: World) {
    match w.pc
    case Idle | Writing(_) => true
    case Admitted(spec, _, _) => Strict(spec)
    case Due(spec, _, fire) => Strict(spec) && fire % SECOND == 0 && fire <= w.clock && AllEndedBefore(w, fire)
    case Created(spec, _) => Strict(spec)
    case Pruning(_, excess) => w.newest.Some? ==> w.newest.value !in excess
  }

  ghost predicate Inv(w: World) {
    Base(w) && Ledger(w) && PcOk(w)
  }

  // ---------- the decision ----------

  /** With no Run active, the newest ended last of all, and the list shows it. */
  lemma NewestEndedLast(w: World)
    requires Ledger(w) && w.newest.Some? && forall u :: !Active(w.runs, SCAN, u)
    ensures var n := w.newest.value;
            Counts(w.runs, SCAN, false, n) && w.runs[n].status.completionTime == Some(w.done[n]) && AllEndedBefore(w, w.done[n] + 1)
  {
    var n := w.newest.value;
    assert Recorded(w, n) && !Active(w.runs, SCAN, n);
    forall u | u in w.fires ensures Closed(w, u) && w.done[u] < w.done[n] + 1 {
      if u != n {
        assert Closed(w, u) && w.done[u] < w.fires[n];
      }
      assert Closed(w, n);
    }
  }

  /** A fire that the decision lets through is later than the end of every Run so far. */
  lemma DueComesLast(w: World, s: Step)
    requires Inv(w) && s.ScanList? && Enabled(w, s) && Apply(w, s).pc.Due?
    ensures PcOk(Apply(w, s))
  {
    var fire := s.missed.value;
    DueMeansNoneActive(w, s);
    FireOnSecond(w.pc.spec.schedule.value, fire);
    if w.newest.Some? {
      NewestEndedLast(w);
      LatestOfMeaning(w.runs, SCAN, false, s.listing);
      assert w.newest.value in s.listing;
      assert w.done[w.newest.value] < fire;
    }
  }

  lemma FireOnSecond(s: Schedule, f: int)
    requires s.Valid() && s.IsFire(f)
    ensures f % SECOND == 0
  {
    assert s.next(f - 1) % SECOND == 0;
  }

  // ---------- the other steps ----------

  /** `w'` is `w` after the Run for `fire` was created. */
  ghost predicate Grew(w: World, w': World, run: RunObject, fire: int) {
    && w'.runs == w.runs[w.nextUid := run] && w'.nextUid == w.nextUid + 1 && w'.fires == w.fires[w.nextUid := fire]
    && w'.done == w.done && w'.newest == Some(w.nextUid)
    && SCAN in run.owners && run.status == RunModel.INITIAL && fire <= run.touched && fire % SECOND == 0
  }

  lemma CreateOrdered(w: World, w': World, run: RunObject, fire: int)
    requires Ledger(w) && Grew(w, w', run, fire) && AllEndedBefore(w, fire)
    ensures Ordered(w') && NewestKept(w') && (forall u :: u in w'.done ==> Closed(w', u))
  {
    forall u | u in w'.done ensures Closed(w', u) {
      assert Closed(w, u);
    }
    forall u, v | u in w'.fires && v in w'.fires && u < v ensures Closed(w', u) && w'.done[u] < w'.fires[v] {
      assert u in w.fires && Closed(w, u);
    }
  }

  lemma CreateRecorded(w: World, w': World, run: RunObject, fire: int, u: Uid)
    requires Base(w) && Ledger(w) && Grew(w, w', run, fire) && u in w'.runs
    ensures (SCAN in w'.runs[u].owners <==> u in w'.fires) && (u in w'.fires ==> Recorded(w', u))
  {
    assert w.nextUid in w.done ==> Closed(w, w.nextUid);
    if u in w.runs {
      assert RunOk(w, u);
      assert u in w.fires ==> Recorded(w, u);
    }
  }

  lemma CreateKeeps(w: World, w': World, run: RunObject, fire: int)
    requires Base(w) && Ledger(w) && Grew(w, w', run, fire) && AllEndedBefore(w, fire)
    ensures Ledger(w')
  {
    CreateOrdered(w, w', run, fire);
    forall u | u in w'.runs ensures (SCAN in w'.runs[u].owners <==> u in w'.fires) && (u in w'.fires ==> Recorded(w', u)) {
      CreateRecorded(w, w', run, fire, u);
    }
  }

  /** The newest Run is strictly more recent than any other terminal Run of the Scan. */
  lemma NewestMostRecent(w: World, u: Uid)
    requires Ledger(w) && w.newest.Some? && w.runs[w.newest.value].Terminal()
    requires Owned(w.runs, SCAN, u) && w.runs[u].Terminal() && u != w.newest.value
    ensures !NoOlder(w.runs, u, w.newest.value)
  {
    var n := w.newest.value;
    assert Recorded(w, u) && Recorded(w, n);
    assert Closed(w, n);
    assert w.done[u] < w.fires[n];
  }

  /** Pruning never reaches the newest Run: the limit keeps at least one. */
  lemma NewestNotExcess(w: World, phase: RunModel.Phase, order: seq<Uid>, keep: nat)
    requires Ledger(w) && w.newest.Some? && RunModel.IsTerminal(phase) && IsOrder(w.runs, SCAN, phase, order) && keep >= 1
    ensures w.newest.value !in Excess(order, keep)
  {
    ExcessIsOldest(w.runs, SCAN, phase, order, keep);
    if w.newest.value in Excess(order, keep) {
      assert order[0] in order;
      NewestMostRecent(w, order[0]);
      assert false;
    }
  }

  lemma DeleteKeeps(w: World, w': World, gone: Uid)
    requires Ledger(w) && w.newest != Some(gone)
    requires w' == w.(runs := w.runs - {gone}, pc := w'.pc)
    ensures Ledger(w')
  {
    forall u | u in w'.runs && u in w'.fires ensures Recorded(w', u) {
      assert Recorded(w, u);
    }
    forall u | u in w'.done ensures Closed(w', u) {
      assert Closed(w, u);
    }
    OrderedSame(w, w');
  }

  lemma OrderedSame(w: World, w': World)
    requires Ordered(w) && w'.fires == w.fires && w'.done == w.done
    ensures Ordered(w')
  {
    forall u, v | u in w'.fires && v in w'.fires && u < v ensures Closed(w', u) && w'.done[u] < w'.fires[v] {
      assert Closed(w, u);
    }
  }

  lemma ForeignCreateKeeps(w: World, w': World, run: RunObject)
    requires Ledger(w) && SCAN !in run.owners
    requires w' == w.(runs := w.runs[w.nextUid := run], nextUid := w.nextUid + 1)
    ensures Ledger(w')
  {
    forall u | u in w'.runs && u in w'.fires ensures Recorded(w', u) {
      assert u < w.nextUid;
      assert Recorded(w, u);
    }
    forall u | u in w'.done ensures Closed(w', u) {
      assert Closed(w, u);
    }
    OrderedSame(w, w');
  }

  lemma SameLedger(w: World, w': World)
    requires Ledger(w)
    requires w'.runs == w.runs && w'.fires == w.fires && w'.done == w.done && w'.newest == w.newest && w'.nextUid == w.nextUid
    ensures Ledger(w')
  {
    forall u | u in w'.runs && u in w'.fires ensures Recorded(w', u) {
      assert Recorded(w, u);
    }
    forall u | u in w'.done ensures Closed(w', u) {
      assert Closed(w, u);
    }
    OrderedSame(w, w');
  }

  /** When a Run ends, its end is no earlier than its fire, and no later Run exists yet. */
  lemma MoveOrdered(w: World, w': World, r: Uid)
    requires Ledger(w) && Moved(w, w', r)
    ensures Ordered(w') && (forall u :: u in w'.done ==> Closed(w', u))
  {
    assert r in w.fires ==> Recorded(w, r);
    if w'.done == w.done {
      OrderedSame(w, w');
      forall u | u in w'.done ensures Closed(w', u) {
        assert Closed(w, u);
      }
    } else {
      EndsAfterFire(w.runs[r], w'.runs[r], w.clock, w.fires[r]);
      forall u | u in w'.done ensures Closed(w', u) {
        assert u != r ==> Closed(w, u);
      }
      forall u, v | u in w'.fires && v in w'.fires && u < v ensures Closed(w', u) && w'.done[u] < w'.fires[v] {
        assert Closed(w, u) && w.done[u] < w.fires[v];
      }
    }
  }

  lemma MoveRecorded(w: World, w': World, r: Uid, u: Uid)
    requires Moved(w, w', r) && u in w.runs && Recorded(w, u) && RunOk(w, u) && SCAN in w.runs[u].owners
    ensures Recorded(w', u)
  {
  }

  lemma MoveKeeps(w: World, w': World, r: Uid)
    requires Base(w) && Ledger(w) && Moved(w, w', r)
    ensures Ledger(w')
  {
    MoveOrdered(w, w', r);
    forall u | u in w'.runs && u in w'.fires ensures Recorded(w', u) {
      assert Recorded(w, u) && RunOk(w, u);
      MoveRecorded(w, w', r, u);
    }
  }

  lemma EndsAfterFire(run: RunObject, run': RunObject, clock: int, fire: int)
    requires RunMoves(run, run', clock) && !run.Terminal() && run'.Terminal() && fire <= run.touched && fire % SECOND == 0
    ensures fire <= run'.status.completionTime.value
  {
    var t :| run.touched <= t <= clock && run'.status.completionTime.value == Stored(t);
    StoredMonotone(fire, t);
  }

  lemma MovePc(w: World, w': World, r: Uid)
    requires Ledger(w) && PcOk(w) && Moved(w, w', r)
    ensures PcOk(w')
  {
    if w.pc.Due? {
      assert r in w.fires ==> Recorded(w, r) && Closed(w, r);
      forall u | u in w'.fires ensures Closed(w', u) && w'.done[u] < w.pc.fire {
        assert Closed(w, u);
      }
    }
  }

  /** Every step keeps the invariant as long as the specs are strict. */
  lemma StepKeepsInv(w: World, s: Step)
    requires Inv(w) && Enabled(w, s) && (s.ScanRead? ==> Strict(s.spec))
    ensures Inv(Apply(w, s))
  {
    StepKeepsBase(w, s);
    if s.RunReconcile? {
      assert RunOk(w, s.run);
      RunStepMoves(w, s);
      MoveKeeps(w, Apply(w, s), s.run);
      MovePc(w, Apply(w, s), s.run);
    } else {
      QuietKeepsLedger(w, s);
      QuietKeepsPc(w, s);
    }
  }

  lemma CreateStepKeeps(w: World, s: Step)
    requires Inv(w) && Enabled(w, s) && s.ScanCreate?
    ensures Ledger(Apply(w, s))
  {
    var w' := Apply(w, s);
    if s.write.Rejected? {
      SameLedger(w, w');
    } else {
      CreateKeeps(w, w', w'.runs[w.nextUid], w.pc.fire);
    }
  }

  lemma DeleteStepKeeps(w: World, s: Step)
    requires Inv(w) && Enabled(w, s) && (s.ScanDelete? || s.ForeignDelete?)
    ensures Ledger(Apply(w, s))
  {
    var w' := Apply(w, s);
    if s.ForeignDelete? {
      DeleteKeeps(w, w', s.run);
    } else if s.write.Rejected? {
      SameLedger(w, w');
    } else {
      DeleteKeeps(w, w', w.pc.excess[0]);
    }
  }

  /** The steps that neither create, delete nor reconcile a Run. */
  predicate NoRunTouched(s: Step) {
    !s.RunReconcile? && !s.ScanCreate? && !s.ScanDelete? && !s.ForeignCreate? && !s.ForeignDelete?
  }

  lemma OtherStepKeeps(w: World, s: Step)
    requires Ledger(w) && Enabled(w, s) && NoRunTouched(s)
    ensures Ledger(Apply(w, s))
  {
    SameLedger(w, Apply(w, s));
  }

  lemma QuietKeepsLedger(w: World, s: Step)
    requires Inv(w) && Enabled(w, s) && !s.RunReconcile?
    ensures Ledger(Apply(w, s))
  {
    if s.ScanCreate? {
      CreateStepKeeps(w, s);
    } else if s.ScanDelete? || s.ForeignDelete? {
      DeleteStepKeeps(w, s);
    } else if s.ForeignCreate? {
      ForeignCreateKeeps(w, Apply(w, s), Apply(w, s).runs[w.nextUid]);
    } else {
      OtherStepKeeps(w, s);
    }
  }

  lemma PcSame(w: World, w': World)
    requires PcOk(w) && w'.pc == w.pc && w'.fires == w.fires && w'.done == w.done && w'.newest == w.newest && w.clock <= w'.clock
    ensures PcOk(w')
  {
    if w.pc.Due? {
      forall u | u in w'.fires ensures Closed(w', u) && w'.done[u] < w.pc.fire {
        assert Closed(w, u);
      }
    }
  }

  /** The steps of the outside do not move the Scan reconcile on. */
  predicate Outside(s: Step) {
    s.Tick? || s.IndexCompletes? || s.JobFails? || s.ForeignCreate? || s.ForeignDelete?
  }

  lemma OutsideKeepsPc(w: World, s: Step)
    requires PcOk(w) && Enabled(w, s) && Outside(s)
    ensures PcOk(Apply(w, s))
  {
    PcSame(w, Apply(w, s));
  }

  lemma GcListKeepsPc(w: World, s: Step)
    requires Ledger(w) && PcOk(w) && Enabled(w, s) && s.ScanGcList?
    ensures PcOk(Apply(w, s))
  {
    if w.newest.Some? {
      NewestNotExcess(w, RunModel.Succeeded, s.succeeded, w.pc.spec.SuccessLimit());
      NewestNotExcess(w, RunModel.Failed, s.failed, w.pc.spec.FailLimit());
    }
  }

  /** The remaining steps of the Scan lead to no new fire and pick nothing new to delete. */
  lemma ScanKeepsPc(w: World, s: Step)
    requires PcOk(w) && Enabled(w, s) && (s.ScanRead? ==> Strict(s.spec))
    requires !s.RunReconcile? && !Outside(s) && !s.ScanGcList? && (s.ScanList? ==> !Apply(w, s).pc.Due?)
    ensures PcOk(Apply(w, s))
  {
  }

  lemma QuietKeepsPc(w: World, s: Step)
    requires Inv(w) && Enabled(w, s) && !s.RunReconcile? && (s.ScanRead? ==> Strict(s.spec))
    ensures PcOk(Apply(w, s))
  {
    if Outside(s) {
      OutsideKeepsPc(w, s);
    } else if s.ScanGcList? {
      GcListKeepsPc(w, s);
    } else if s.ScanList? && Apply(w, s).pc.Due? {
      DueComesLast(w, s);
    } else {
      ScanKeepsPc(w, s);
    }
  }

  lemma {:induction false} AlwaysInv(steps: seq<Step>)
    requires Feasible(steps) && AlwaysStrict(steps)
    ensures Inv(After(steps))
  {
    if steps != [] {
      AlwaysInv(steps[..|steps| - 1]);
      StepKeepsInv(After(steps[..|steps| - 1]), steps[|steps| - 1]);
    }
  }

  /**
    The Runs a Scan ever creates occupy disjoint intervals in the order of their creation: each ends no
    earlier than it was due and strictly before the next one was due. So no fire is run twice, in any
    interleaving, whichever status writes are lost and wherever the controller crashes.
  */
  lemma IntervalsDisjoint(steps: seq<Step>, u: Uid, v: Uid)
    requires Feasible(steps) && AlwaysStrict(steps) && u < v && u in After(steps).fires && v in After(steps).fires
    ensures u in After(steps).done && After(steps).fires[u] <= After(steps).done[u] < After(steps).fires[v]
    ensures v in After(steps).done ==> After(steps).fires[v] <= After(steps).done[v]
  {
    AlwaysInv(steps);
    IntervalsDisjointIn(After(steps), u, v);
  }

  lemma IntervalsDisjointIn(w: World, u: Uid, v: Uid)
    requires Ledger(w) && u < v && u in w.fires && v in w.fires
    ensures u in w.done && w.fires[u] <= w.done[u] < w.fires[v] && (v in w.done ==> w.fires[v] <= w.done[v])
  {
    assert Closed(w, u) && (v in w.done ==> Closed(w, v));
  }
}
