/** Types shared by every part of the model. */
module Prelude {

  datatype Option<+T> = None | Some(value: T)

  datatype Result<+T, +E> = Success(value: T) | Failure(error: E)

  /** The order on optional instants in which an absent instant comes before every instant. */
  predicate NoLater(a: Option<int>, b: Option<int>) {
    a.None? || (b.Some? && a.value <= b.value)
  }

  /** A subset is no larger, and as large only if it is the whole set. */
  lemma SubsetSize<T>(a: set<T>, b: set<T>)
    requires a <= b
    ensures |a| <= |b| && (|a| == |b| ==> a == b) && |b - a| == |b| - |a|
  {
    assert b == a + (b - a);
    assert |b| == |a| + |b - a|;
  }

  /** The increasing positions of exactly the elements that satisfy `keep`. */
  ghost predicate Picks<T(!new)>(s: seq<T>, keep: T -> bool, idx: seq<nat>) {
    && (forall j, k :: 0 <= j < k < |idx| ==> idx[j] < idx[k])
    && (forall k :: 0 <= k < |idx| ==> idx[k] < |s|)
    && (forall i: nat :: i in idx <==> i < |s| && keep(s[i]))
  }

  lemma PicksSnoc<T(!new)>(s: seq<T>, keep: T -> bool, before: seq<nat>, idx: seq<nat>)
    requires s != [] && Picks(s[..|s| - 1], keep, before)
    requires idx == if keep(s[|s| - 1]) then before + [|s| - 1] else before
    ensures Picks(s, keep, idx)
  {
    var last := |s| - 1;
    forall i: nat ensures i in idx <==> i < |s| && keep(s[i]) {
      assert i in before <==> i < last && keep(s[..last][i]);
    }
  }
}
