/**
  Fire times of a schedule (internal/controller/renovatescan_controller.go). Instants are counted in
  nanoseconds.
*/
module Cron {
  import opened Prelude

  const SECOND: int := 1_000_000_000
  const MINUTE: int := 60 * SECOND
  const FIRST_FIRE_GRACE: int := MINUTE
  const REQUEUE_MAX: int := 5 * MINUTE

  /** What storing an instant in the API server keeps of it: whole seconds. */
  function Stored(t: int): (s: int)
    ensures s <= t < s + SECOND && s % SECOND == 0
  {
    t - t % SECOND
  }

  /** Storing keeps the order of instants, and an instant on a whole second stays a lower bound. */
  lemma StoredMonotone(t: int, u: int)
    requires t <= u
    ensures Stored(t) <= Stored(u)
    ensures t % SECOND == 0 ==> t <= Stored(u)
  {
  }

  /** A parsed cron expression: the library's function from an instant to the next fire. */
  datatype Schedule = Schedule(next: int -> int) {
    predicate IsFire(f: int) {
      next(f - 1) == f
    }

    /**
      The contract of the library: the result is the least fire strictly after the argument, and the
      fires of a five-field expression lie on whole seconds, at least a minute apart.
    */
    ghost predicate Valid() {
      && (forall t :: t < next(t) && next(t) % SECOND == 0)
      && (forall t, u :: t <= u < next(t) ==> next(u) == next(t))
      && (forall t :: next(t) + MINUTE <= next(next(t)))
    }

    lemma NextIsLeastFire(t: int, f: int)
      requires Valid()
      ensures IsFire(next(t))
      ensures t < f && IsFire(f) ==> next(t) <= f
    {
      assert next(next(t) - 1) == next(t);
      assert t <= f - 1 < next(t) ==> next(f - 1) == next(t);
    }
  }

  /** The expression `* * * * *`. */
  function EveryMinute(): Schedule {
    Schedule(NextMinute)
  }

  function NextMinute(t: int): int {
    t - t % MINUTE + MINUTE
  }

  lemma NextMinuteSteady(t: int, u: int)
    requires t <= u < NextMinute(t)
    ensures NextMinute(u) == NextMinute(t)
  {
    assert u == t / MINUTE * MINUTE + (u - (t - t % MINUTE));
    assert u / MINUTE == t / MINUTE;
  }

  lemma NextMinuteWhole(t: int)
    ensures NextMinute(t) % MINUTE == 0 && NextMinute(t) % SECOND == 0 && t < NextMinute(t)
    ensures NextMinute(NextMinute(t)) == NextMinute(t) + MINUTE
    ensures NextMinute(t - 1) == t <==> t % MINUTE == 0
  {
  }

  /** The contract can be met, and the fires of this schedule are exactly the whole minutes. */
  lemma EveryMinuteValid()
    ensures EveryMinute().Valid()
    ensures forall f :: EveryMinute().IsFire(f) <==> f % MINUTE == 0
  {
    var s := EveryMinute();
    forall t ensures t < s.next(t) && s.next(t) % SECOND == 0 && s.next(t) + MINUTE <= s.next(s.next(t)) {
      NextMinuteWhole(t);
    }
    forall t, u | t <= u < s.next(t) ensures s.next(u) == s.next(t) {
      NextMinuteSteady(t, u);
    }
    forall f ensures s.IsFire(f) <==> f % MINUTE == 0 {
      NextMinuteWhole(f);
    }
  }

  ghost predicate NoFireIn(s: Schedule, after: int, upTo: int) {
    forall f :: after < f <= upTo ==> !s.IsFire(f)
  }

  /** `missed` is the latest fire in the window after `start` up to `now`, if the window has one. */
  ghost predicate IsMissed(s: Schedule, start: int, now: int, missed: Option<int>) {
    match missed
    case Some(m) => s.IsFire(m) && start < m <= now && NoFireIn(s, m, now)
    case None => NoFireIn(s, start, now)
  }

  /** `next` is the first fire after both instants. */
  ghost predicate IsNext(s: Schedule, start: int, now: int, next: int) {
    s.IsFire(next) && start < next && now < next && NoFireIn(s, if start < now then now else start, next - 1)
  }

  /** Where the walk starts: at the last run, or one grace period back if there was none. */
  function StartFrom(lastRun: Option<int>, now: int): int {
    match lastRun
    case Some(t) => t
    case None => now - FIRST_FIRE_GRACE
  }

  /** The walk along the schedule; it ends because every fire is later than the one before. */
  method ComputeFireTimes(s: Schedule, lastRun: Option<int>, now: int) returns (missed: Option<int>, next: int)
    requires s.Valid()
    ensures IsMissed(s, StartFrom(lastRun, now), now, missed)
    ensures IsNext(s, StartFrom(lastRun, now), now, next)
  {
    var start := StartFrom(lastRun, now);
    missed := None;
    next := s.next(start);
    AfterNext(s, start);
    ghost var from := start;
    while next <= now
      invariant s.next(from) == next && s.IsFire(next) && NoFireIn(s, from, next - 1)
      invariant start <= from < next
      invariant if from == start then missed == None else missed == Some(from) && s.IsFire(from) && from <= now
      decreases now - next
    {
      missed, from := Some(next), next;
      next := s.next(next);
      AfterNext(s, from);
    }
  }

  lemma AfterNext(s: Schedule, t: int)
    requires s.Valid()
    ensures s.IsFire(s.next(t)) && NoFireIn(s, t, s.next(t) - 1)
  {
    s.NextIsLeastFire(t, t);
    forall f | t < f <= s.next(t) - 1 ensures !s.IsFire(f) {
      s.NextIsLeastFire(t, f);
    }
  }

  /** The two results are determined by the schedule, and between them there is no fire but `missed`. */
  lemma FireTimesUnique(s: Schedule, start: int, now: int, m1: Option<int>, n1: int, m2: Option<int>, n2: int)
    requires s.Valid()
    requires IsMissed(s, start, now, m1) && IsNext(s, start, now, n1)
    requires IsMissed(s, start, now, m2) && IsNext(s, start, now, n2)
    ensures m1 == m2 && n1 == n2
    ensures start <= now && m1.Some? ==> NoFireIn(s, m1.value, n1 - 1)
    ensures now < start ==> m1.None?
  {
  }

  /**
    If the library answered only with instants that are not after `now` (its answer for a schedule that
    never fires again is the zero time), the walk would never leave the loop, however often it goes round.
  */
  lemma {:induction false} WalkWithoutFuture(s: Schedule, start: int, now: int, rounds: nat)
    requires forall t :: s.next(t) <= now
    ensures Walked(s, start, rounds) <= now
  {
    if rounds > 0 {
      WalkWithoutFuture(s, start, now, rounds - 1);
    }
  }

  /** The loop variable after a number of rounds. */
  function Walked(s: Schedule, start: int, rounds: nat): int {
    if rounds == 0 then s.next(start) else s.next(Walked(s, start, rounds - 1))
  }

  /** A library that answers with the least later fire, or with a fixed instant if there is none within its reach. */
  ghost predicate LeastFireOr(s: Schedule, zero: int) {
    && (forall t :: t < s.next(t) || s.next(t) == zero)
    && (forall t, u :: t <= u < s.next(t) ==> s.next(u) == s.next(t))
    && (forall t, u :: s.next(t) <= t <= u ==> s.next(u) <= u)
  }

  lemma {:induction false} WalkStays(s: Schedule, zero: int, start: int, now: int, rounds: nat)
    requires LeastFireOr(s, zero) && zero <= now && s.next(now) <= now
    ensures Walked(s, start, rounds) <= now
  {
    var t := if rounds == 0 then start else Walked(s, start, rounds - 1);
    if rounds > 0 {
      WalkStays(s, zero, start, now, rounds - 1);
    }
    assert t <= now < s.next(t) ==> s.next(now) == s.next(t);
    assert s.next(now) <= now <= t ==> s.next(t) <= t;
  }

  lemma {:induction false} WalkEnds(s: Schedule, zero: int, start: int, now: int, rounds: nat) returns (last: nat)
    requires LeastFireOr(s, zero) && now < s.next(now)
    ensures Walked(s, start, last) > now
    decreases now - Walked(s, start, rounds)
  {
    var t := Walked(s, start, rounds);
    if t > now {
      last := rounds;
    } else {
      assert s.next(t) <= t <= now ==> s.next(now) <= now;
      last := WalkEnds(s, zero, start, now, rounds + 1);
    }
  }

  /** With such a library the walk ends if and only if there is a fire after `now`, wherever it starts. */
  lemma WalkEndsExactlyWhen(s: Schedule, zero: int, start: int, now: int)
    requires LeastFireOr(s, zero) && zero <= now
    ensures (exists rounds: nat :: Walked(s, start, rounds) > now) <==> s.next(now) > now
  {
    if s.next(now) > now {
      var last := WalkEnds(s, zero, start, now, 0);
    } else {
      forall rounds: nat ensures Walked(s, start, rounds) <= now {
        WalkStays(s, zero, start, now, rounds);
      }
    }
  }

  /** How long the controller asks to sleep before it looks again. */
  function CapRequeueAfter(d: int): (r: int)
    ensures 0 < r <= REQUEUE_MAX && (0 < d ==> r <= d)
  {
    if d <= 0 then SECOND else if d > REQUEUE_MAX then REQUEUE_MAX else d
  }

  /** The controller wakes up exactly at the next fire if that is within five minutes, and otherwise looks again after five. */
  lemma WakesAtFire(s: Schedule, now: int)
    requires s.Valid()
    ensures var wake := now + CapRequeueAfter(s.next(now) - now);
            if s.next(now) <= now + 5 * MINUTE then wake == s.next(now) else wake == now + 5 * MINUTE < s.next(now)
  {
  }

  /**
    Reconciles of a Scan that has never run: none is a minute or more later than the one before it
    asked for. Watches may trigger a reconcile at any earlier time.
  */
  ghost predicate Punctual(s: Schedule, ns: seq<int>) {
    forall k :: 0 <= k < |ns| - 1 ==>
      ns[k] <= ns[k + 1] < ns[k] + CapRequeueAfter(s.next(ns[k]) - ns[k]) + FIRST_FIRE_GRACE
  }

  /** What a reconcile of such a Scan reports as due. */
  ghost predicate Reports(s: Schedule, now: int, fire: int) {
    IsMissed(s, StartFrom(None, now), now, Some(fire))
  }

  /** The first boundary is reported by the first reconcile at or after it. */
  lemma FirstBoundaryNotJumped(s: Schedule, ns: seq<int>, k: nat)
    requires s.Valid() && Punctual(s, ns) && 0 < k < |ns|
    requires ns[k - 1] < s.next(ns[0]) <= ns[k]
    ensures Reports(s, ns[k], s.next(ns[0]))
  {
    var boundary := s.next(ns[0]);
    NonDecreasing(s, ns, k - 1);
    assert ns[0] <= ns[k - 1] < s.next(ns[0]);
    assert s.next(ns[k - 1]) == boundary;
    ReportedWithinGrace(s, ns[k], boundary);
  }

  lemma {:induction false} NonDecreasing(s: Schedule, ns: seq<int>, k: nat)
    requires Punctual(s, ns) && k < |ns|
    ensures ns[0] <= ns[k]
  {
    if k > 0 {
      NonDecreasing(s, ns, k - 1);
      assert ns[k - 1] <= ns[k - 1 + 1];
    }
  }

  /** The grace period is exact: a past boundary is reported if and only if it is less than a minute old. */
  lemma ReportedWithinGrace(s: Schedule, now: int, boundary: int)
    requires s.Valid() && s.IsFire(boundary) && boundary <= now
    ensures Reports(s, now, boundary) <==> now < boundary + FIRST_FIRE_GRACE
  {
    if now < boundary + FIRST_FIRE_GRACE {
      assert s.next(boundary - 1) == boundary;
      assert s.next(boundary - 1) + MINUTE <= s.next(s.next(boundary - 1));
      AfterNext(s, boundary);
    }
  }
}
