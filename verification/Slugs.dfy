/** Repository slugs, Go's byte-wise string order on them, and sorting by it. */
module Slugs {

  type Slug = string

  /** Go's `<` on strings. */
  predicate Less(a: Slug, b: Slug) {
    if b == [] then false
    else if a == [] then true
    else a[0] < b[0] || (a[0] == b[0] && Less(a[1..], b[1..]))
  }

  lemma {:induction false} LessTransitive(a: Slug, b: Slug, c: Slug)
    requires !Less(b, a) && !Less(c, b)
    ensures !Less(c, a)
  {
    if a != [] && b != [] && c != [] && a[0] == b[0] == c[0] {
      LessTransitive(a[1..], b[1..], c[1..]);
    }
  }

  lemma {:induction false} LessTotal(a: Slug, b: Slug)
    requires !Less(a, b) && !Less(b, a)
    ensures a == b
  {
    if a != [] && b != [] {
      LessTotal(a[1..], b[1..]);
      assert a == [a[0]] + a[1..] && b == [b[0]] + b[1..];
    }
  }

  lemma {:induction false} LessAsymmetric(a: Slug, b: Slug)
    requires Less(a, b)
    ensures !Less(b, a)
  {
    if a != [] && a[0] == b[0] {
      LessAsymmetric(a[1..], b[1..]);
    }
  }

  /** No slug is strictly less than one before it. */
  ghost predicate Sorted(s: seq<Slug>) {
    forall i, j :: 0 <= i < j < |s| ==> !Less(s[j], s[i])
  }

  /** A sorted sequence is determined by how often each slug occurs in it. */
  lemma {:induction false} SortedUnique(s: seq<Slug>, t: seq<Slug>)
    requires Sorted(s) && Sorted(t) && multiset(s) == multiset(t)
    ensures s == t
  {
    assert |multiset(s)| == |multiset(t)|;
    if s != [] {
      SameFirst(s, t);
      SameFirst(t, s);
      LessTotal(s[0], t[0]);
      SplitFirst(s);
      SplitFirst(t);
      SortedUnique(s[1..], t[1..]);
    }
  }

  lemma SplitFirst(s: seq<Slug>)
    requires s != []
    ensures s == [s[0]] + s[1..] && multiset(s[1..]) == multiset(s) - multiset{s[0]}
  {
    assert s == [s[0]] + s[1..];
  }

  lemma SameFirst(s: seq<Slug>, t: seq<Slug>)
    requires Sorted(s) && multiset(s) == multiset(t) && s != [] && t != []
    ensures !Less(t[0], s[0])
  {
    assert t[0] in multiset(t);
    var j :| 0 <= j < |s| && s[j] == t[0];
    FirstIsLeast(s, j);
  }

  lemma FirstIsLeast(s: seq<Slug>, j: nat)
    requires Sorted(s) && j < |s|
    ensures !Less(s[j], s[0])
  {
    if j == 0 && Less(s[0], s[0]) {
      LessAsymmetric(s[0], s[0]);
    }
  }

  /** Insertion sort, the reference for the library's stable sort. */
  function Sort(s: seq<Slug>): seq<Slug> {
    if s == [] then [] else Insert(Sort(s[..|s| - 1]), s[|s| - 1])
  }

  /** Places `x` after the last element that is not greater than it. */
  function Insert(s: seq<Slug>, x: Slug): seq<Slug> {
    if s == [] then [x]
    else if Less(x, s[|s| - 1]) then Insert(s[..|s| - 1], x) + [s[|s| - 1]]
    else s + [x]
  }

  /** Sorting arranges exactly the given slugs in order. */
  lemma {:induction false} SortCorrect(s: seq<Slug>)
    ensures Sorted(Sort(s)) && multiset(Sort(s)) == multiset(s) && |Sort(s)| == |s|
  {
    if s != [] {
      var last := |s| - 1;
      SortCorrect(s[..last]);
      InsertCorrect(Sort(s[..last]), s[last]);
      assert s == s[..last] + [s[last]];
    }
  }

  lemma {:induction false} InsertCorrect(s: seq<Slug>, x: Slug)
    requires Sorted(s)
    ensures Sorted(Insert(s, x))
    ensures multiset(Insert(s, x)) == multiset(s) + multiset{x} && |Insert(s, x)| == |s| + 1
  {
    if s != [] {
      var last := |s| - 1;
      assert s == s[..last] + [s[last]];
      if Less(x, s[last]) {
        InsertCorrect(s[..last], x);
        InsertBelow(s, x, Insert(s[..last], x));
      } else {
        InsertAbove(s, x);
      }
    }
  }

  lemma InsertBelow(s: seq<Slug>, x: Slug, r: seq<Slug>)
    requires Sorted(s) && s != [] && Less(x, s[|s| - 1])
    requires Sorted(r) && multiset(r) == multiset(s[..|s| - 1]) + multiset{x}
    ensures Sorted(r + [s[|s| - 1]])
  {
    var last := |s| - 1;
    LessAsymmetric(x, s[last]);
    forall i | 0 <= i < |r| ensures !Less(s[last], r[i]) {
      assert r[i] in multiset(r);
      assert r[i] == x || r[i] in multiset(s[..last]);
      assert r[i] == x || r[i] in s[..last];
    }
  }

  lemma InsertAbove(s: seq<Slug>, x: Slug)
    requires Sorted(s) && s != [] && !Less(x, s[|s| - 1])
    ensures Sorted(s + [x])
  {
    var last := |s| - 1;
    forall i | 0 <= i < |s| ensures !Less(x, s[i]) {
      if i < last {
        LessTransitive(s[i], s[last], x);
      }
    }
  }

  /** Sorting depends only on how often each slug occurs. */
  lemma SortOrderIndependent(s: seq<Slug>, t: seq<Slug>)
    ensures Sort(s) == Sort(t) <==> multiset(s) == multiset(t)
  {
    SortCorrect(s);
    SortCorrect(t);
    if multiset(s) == multiset(t) {
      SortedUnique(Sort(s), Sort(t));
    }
  }

  /** Sorts an array in place, as the library sort does with the copied slice. */
  method SortInPlace(a: array<Slug>)
    modifies a
    ensures a[..] == Sort(old(a[..]))
  {
    ghost var was := a[..];
    var n := 0;
    while n < a.Length
      invariant n <= a.Length
      invariant a[..n] == Sort(was[..n])
      invariant a[n..] == was[n..]
    {
      assert was[..n + 1][..n] == was[..n];
      assert a[n] == a[n..][0] == was[n];
      ghost var rest := a[n + 1..];
      assert rest == a[n..][1..];
      InsertInPlace(a, n);
      n := n + 1;
    }
    assert a[..] == a[..n] && was == was[..n];
  }

  /** Moves `a[n]` left past every greater element of the prefix `a[..n]`. */
  method InsertInPlace(a: array<Slug>, n: nat)
    requires n < a.Length
    modifies a
    ensures a[..n + 1] == Insert(old(a[..n]), old(a[n]))
    ensures a[n + 1..] == old(a[n + 1..])
  {
    var x := a[n];
    ghost var prefix := a[..n];
    var j := ShiftGreater(a, n, x);
    a[j] := x;
    InsertAt(prefix, x, j);
    ghost var moved := prefix[..j] + [x] + prefix[j..];
    forall k | 0 <= k < n + 1 ensures a[..n + 1][k] == moved[k] {
      if k > j {
        assert moved[k] == prefix[j..][k - j - 1] == prefix[k - 1];
      }
    }
    assert a[..n + 1] == moved;
  }

  /** Shifts the elements greater than `x` at the end of `a[..n]` one place to the right. */
  method ShiftGreater(a: array<Slug>, n: nat, x: Slug) returns (j: nat)
    requires n < a.Length
    modifies a
    ensures j <= n && (j > 0 ==> !Less(x, old(a[j - 1])))
    ensures forall k :: j <= k < n ==> Less(x, old(a[k])) && a[k + 1] == old(a[k])
    ensures forall k :: 0 <= k < j || n < k < a.Length ==> a[k] == old(a[k])
  {
    j := n;
    while j > 0 && Less(x, a[j - 1])
      invariant j <= n
      invariant forall k :: j <= k < n ==> Less(x, old(a[k])) && a[k + 1] == old(a[k])
      invariant forall k :: 0 <= k < j || n < k < a.Length ==> a[k] == old(a[k])
    {
      a[j] := a[j - 1];
      j := j - 1;
    }
  }

  /** Where an insertion lands: after the last element that is not greater than `x`. */
  lemma {:induction false} InsertAt(s: seq<Slug>, x: Slug, j: nat)
    requires j <= |s|
    requires j > 0 ==> !Less(x, s[j - 1])
    requires forall k :: j <= k < |s| ==> Less(x, s[k])
    ensures Insert(s, x) == s[..j] + [x] + s[j..]
  {
    if j < |s| {
      var last := |s| - 1;
      InsertAt(s[..last], x, j);
      assert s[..last][..j] == s[..j];
      assert s[..last][j..] + [s[last]] == s[j..];
    }
  }
}
