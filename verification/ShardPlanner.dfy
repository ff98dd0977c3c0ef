/**
  The shard planner (internal/sharding): how many workers a Run gets, which repositories each
  of them gets, and the ConfigMap data that carries the assignment.
*/
module ShardPlanner {
  import opened Prelude
  import opened Slugs
  import opened ShardKeys

  // ---------- worker count ----------

  const INT32_MAX: int := 0x7FFF_FFFF
  const GZIP_THRESHOLD: nat := 900 * 1024

  datatype WorkerBounds = WorkerBounds(minWorkers: int, maxWorkers: int, reposPerWorker: int) {
    predicate IsInt32() {
      && -INT32_MAX - 1 <= minWorkers <= INT32_MAX
      && -INT32_MAX - 1 <= maxWorkers <= INT32_MAX
      && -INT32_MAX - 1 <= reposPerWorker <= INT32_MAX
    }

    predicate Valid() {
      1 <= minWorkers <= maxWorkers && 1 <= reposPerWorker
    }
  }

  datatype BuildError = NoRepositories | MinTooSmall | MaxTooSmall | MinAboveMax | ReposPerWorkerTooSmall

  /** What each error says of the bounds. */
  predicate Violates(b: WorkerBounds, e: BuildError) {
    match e
    case NoRepositories => false
    case MinTooSmall => b.minWorkers <= 0
    case MaxTooSmall => b.maxWorkers <= 0
    case MinAboveMax => b.maxWorkers < b.minWorkers
    case ReposPerWorkerTooSmall => b.reposPerWorker <= 0
  }

  /** Which of the four checks on the bounds fails first, if any does. */
  function ValidateBounds(b: WorkerBounds): (e: Option<BuildError>)
    ensures e.None? <==> b.Valid()
    ensures e.Some? ==> e.value != NoRepositories && Violates(b, e.value)
  {
    if b.minWorkers < 1 then Some(MinTooSmall)
    else if b.maxWorkers < 1 then Some(MaxTooSmall)
    else if b.minWorkers > b.maxWorkers then Some(MinAboveMax)
    else if b.reposPerWorker < 1 then Some(ReposPerWorkerTooSmall)
    else None
  }

  /** Two's-complement wrap-around of a 32-bit signed result. */
  function Wrap32(x: int): (r: int)
    ensures -INT32_MAX - 1 <= r <= INT32_MAX
    ensures -INT32_MAX - 1 <= x <= INT32_MAX ==> r == x
  {
    (x + INT32_MAX + 1) % 0x1_0000_0000 - INT32_MAX - 1
  }

  /** Go's integer division, which truncates toward zero. */
  function TruncDiv(a: int, b: int): int
    requires b > 0
  {
    if a >= 0 then a / b else -((-a) / b)
  }

  /** The expression of the source, in 32-bit arithmetic. */
  function ComputeActualWorkers(repoCount: int, b: WorkerBounds): (w: int)
    requires b.Valid()
    ensures b.minWorkers <= w <= b.maxWorkers
  {
    var target := TruncDiv(Wrap32(Wrap32(repoCount + b.reposPerWorker) - 1), b.reposPerWorker);
    if target < b.minWorkers then b.minWorkers
    else if target > b.maxWorkers then b.maxWorkers
    else target
  }

  /** The least number of groups of at most `size` that hold `n` items. */
  ghost predicate IsCeiling(n: int, size: int, c: int) {
    (c - 1) * size < n <= c * size
  }

  ghost function Clamp(x: int, lo: int, hi: int): int {
    if x < lo then lo else if x > hi then hi else x
  }

  /**
    The documented worker count is the mathematical clamp of the ceiling. The 32-bit expression
    meets it exactly when the sum stays in range or the ceiling does not exceed the minimum.
  */
  lemma ActualWorkersExact(n: int, b: WorkerBounds, c: int)
    requires 1 <= n <= INT32_MAX && b.IsInt32() && b.Valid() && IsCeiling(n, b.reposPerWorker, c)
    ensures ComputeActualWorkers(n, b) == Clamp(c, b.minWorkers, b.maxWorkers) <==>
            n + b.reposPerWorker - 1 <= INT32_MAX || c <= b.minWorkers || b.minWorkers == b.maxWorkers
  {
    var k := b.reposPerWorker;
    if n + k - 1 <= INT32_MAX {
      SumInRange(n, k, c);
    } else {
      SumOverflows(n, k);
      CeilingPositive(n, k, c);
    }
  }

  lemma SumInRange(n: int, k: int, c: int)
    requires 1 <= n && 1 <= k && n + k - 1 <= INT32_MAX && IsCeiling(n, k, c)
    ensures TruncDiv(Wrap32(Wrap32(n + k) - 1), k) == c
  {
    assert Wrap32(Wrap32(n + k) - 1) == n + k - 1;
    QuotientIsCeiling(n, k, c);
  }

  lemma QuotientIsCeiling(n: int, k: int, c: int)
    requires 1 <= k && IsCeiling(n, k, c)
    ensures (n + k - 1) / k == c
  {
    var q := (n + k - 1) / k;
    DivBounds(n + k - 1, k);
    assert (c - 1) * k == c * k - k && (c + 1) * k == c * k + k;
    MulOrder(q, c + 1, k);
    MulOrder(c, q + 1, k);
  }

  lemma DivBounds(x: int, k: int)
    requires k > 0
    ensures x / k * k <= x < (x / k + 1) * k
  {
  }

  /** Strict order of products by a positive factor gives strict order of the factors. */
  lemma MulOrder(a: int, b: int, k: int)
    requires k > 0 && a * k < b * k
    ensures a < b
  {
    if a >= b {
      MulMonotone(a, b, k);
      assert false;
    }
  }

  lemma MulMonotone(a: int, b: int, k: int)
    requires k > 0 && a >= b
    ensures a * k >= b * k
  {
    assert (a - b) * k == a * k - b * k;
  }

  lemma SumOverflows(n: int, k: int)
    requires 1 <= n <= INT32_MAX && 1 <= k <= INT32_MAX && n + k - 1 > INT32_MAX
    ensures TruncDiv(Wrap32(Wrap32(n + k) - 1), k) <= 0
  {
    var s := Wrap32(Wrap32(n + k) - 1);
    assert s == n + k - 1 - 0x1_0000_0000;
  }

  lemma CeilingPositive(n: int, k: int, c: int)
    requires 1 <= n && 1 <= k && IsCeiling(n, k, c)
    ensures 1 <= c
    ensures n <= k ==> c == 1
  {
    assert 0 * k < c * k;
    MulOrder(0, c, k);
    if n <= k {
      assert (c - 1) * k < 1 * k;
      MulOrder(c - 1, 1, k);
    }
  }

  /** Up to 2^30 repositories the 32-bit expression is the documented clamp for all valid bounds. */
  lemma ActualWorkersUpTo2Pow30(n: int, b: WorkerBounds, c: int)
    requires 1 <= n <= 0x4000_0000 && b.IsInt32() && b.Valid() && IsCeiling(n, b.reposPerWorker, c)
    ensures ComputeActualWorkers(n, b) == Clamp(c, b.minWorkers, b.maxWorkers)
  {
    ActualWorkersExact(n, b, c);
    CeilingPositive(n, b.reposPerWorker, c);
  }

  /** One repository more, and there are bounds for which the expression is wrong. */
  lemma ActualWorkersWrongBeyond2Pow30()
    ensures var n, b := 0x4000_0001, WorkerBounds(1, 10, 0x4000_0000);
            && b.IsInt32() && b.Valid() && IsCeiling(n, b.reposPerWorker, 2)
            && Clamp(2, b.minWorkers, b.maxWorkers) == 2 && ComputeActualWorkers(n, b) == 1
  {
    ActualWorkersExact(0x4000_0001, WorkerBounds(1, 10, 0x4000_0000), 2);
    SumOverflows(0x4000_0001, 0x4000_0000);
  }

  // ---------- round-robin assignment ----------

  /** The slice `s[j::n]`: every n-th element starting at index `j`. */
  function Stride(s: seq<Slug>, j: nat, n: nat): seq<Slug>
    requires n > 0
    decreases |s| - j
  {
    if j >= |s| then [] else [s[j]] + Stride(s, j + n, n)
  }

  /** What the slice holds at each position. */
  lemma {:induction false} StrideAt(s: seq<Slug>, j: nat, n: nat, k: nat)
    requires n > 0
    ensures k < |Stride(s, j, n)| <==> j + k * n < |s|
    ensures k < |Stride(s, j, n)| ==> Stride(s, j, n)[k] == s[j + k * n]
    decreases k
  {
    if j >= |s| {
      MulMonotone(k + 1, 1, n);
    } else if k > 0 {
      StrideAt(s, j + n, n, k - 1);
      assert j + n + (k - 1) * n == j + k * n by { NextMultiple(k - 1, n); }
    }
  }

  /** Appending an element extends exactly the slice whose turn it is. */
  lemma {:induction false} StrideSnoc(s: seq<Slug>, x: Slug, j: nat, n: nat)
    requires n > 0
    ensures Stride(s + [x], j, n) ==
            if j <= |s| && (|s| - j) % n == 0 then Stride(s, j, n) + [x] else Stride(s, j, n)
    decreases |s| - j
  {
    if j < |s| {
      StrideSnoc(s, x, j + n, n);
      TurnAhead(|s| - j, n);
    } else if j == |s| {
      assert Stride(s + [x], j, n) == [x] + Stride(s + [x], j + n, n);
    }
  }

  lemma TurnAhead(a: int, n: int)
    requires 0 < n && 0 < a
    ensures a % n == 0 <==> n <= a && (a - n) % n == 0
  {
    if n <= a {
      ModDrop(a, n);
    }
  }

  lemma ModDrop(a: int, n: int)
    requires n > 0
    ensures (a - n) % n == a % n
  {
    var q := a / n;
    assert a - n == (q - 1) * n + a % n by { assert (q - 1) * n == q * n - n; }
    ModUnique(a - n, q - 1, a % n, n);
  }

  lemma ModUnique(a: int, q: int, r: int, n: int)
    requires n > 0 && a == q * n + r && 0 <= r < n
    ensures a % n == r && a / n == q
  {
    var d := q - a / n;
    assert d * n == q * n - a / n * n == a % n - r;
    MulOrder(d, 1, n);
    MulOrder(-1, d, n);
  }

  /** For a shard index below `n`, the turn test is the source's `i % n`. */
  lemma TurnIsModulo(i: nat, j: nat, n: nat)
    requires j < n
    ensures i % n == j <==> j <= i && (i - j) % n == 0
  {
    var q, r := i / n, i % n;
    assert i == q * n + r;
    if r == j {
      assert 0 <= q * n;
      ModUnique(i - j, q, 0, n);
    } else if j <= i && (i - j) % n == 0 {
      ModUnique(i, (i - j) / n, j, n);
    }
  }

  lemma ShardSnoc(s: seq<Slug>, x: Slug, n: nat, j: nat)
    requires j < n
    ensures Stride(s + [x], j, n) == if |s| % n == j then Stride(s, j, n) + [x] else Stride(s, j, n)
  {
    StrideSnoc(s, x, j, n);
    TurnIsModulo(|s|, j, n);
  }

  /** The loop of the source: repository `i` goes to shard `i % n`. */
  method AssignRoundRobin(repos: seq<Slug>, n: nat) returns (shards: seq<seq<Slug>>)
    requires n > 0
    ensures |shards| == n
    ensures forall j {:trigger shards[j]} :: 0 <= j < n ==> shards[j] == Stride(repos, j, n)
  {
    shards := seq(n, _ => []);
    for i := 0 to |repos|
      invariant |shards| == n
      invariant forall j {:trigger shards[j]} :: 0 <= j < n ==> shards[j] == Stride(repos[..i], j, n)
    {
      var idx := i % n;
      assert repos[..i + 1] == repos[..i] + [repos[i]];
      forall j | 0 <= j < n
        ensures Stride(repos[..i + 1], j, n) == if j == idx then shards[j] + [repos[i]] else shards[j]
      {
        ShardSnoc(repos[..i], repos[i], n, j);
      }
      shards := shards[idx := shards[idx] + [repos[i]]];
    }
    assert repos[..|repos|] == repos;
  }

  /** All slugs of the first `k` shards, with multiplicity. */
  ghost function Gathered(s: seq<Slug>, n: nat, k: nat): multiset<Slug>
    requires n > 0
  {
    if k == 0 then multiset{} else Gathered(s, n, k - 1) + multiset(Stride(s, k - 1, n))
  }

  /** The same for any list of shards. */
  ghost function Together(ts: seq<seq<Slug>>, k: nat): multiset<Slug>
    requires k <= |ts|
  {
    if k == 0 then multiset{} else Together(ts, k - 1) + multiset(ts[k - 1])
  }

  ghost predicate AreStrides(ts: seq<seq<Slug>>, s: seq<Slug>, n: nat) {
    n > 0 && |ts| == n && forall j {:trigger ts[j]} :: 0 <= j < n ==> ts[j] == Stride(s, j, n)
  }

  lemma {:induction false} GatheredTogether(s: seq<Slug>, n: nat, k: nat, ts: seq<seq<Slug>>)
    requires AreStrides(ts, s, n) && k <= n
    ensures Gathered(s, n, k) == Together(ts, k)
  {
    if k > 0 {
      GatheredTogether(s, n, k - 1, ts);
    }
  }

  /** `c'` has one `x` more than `c`, or is the same. */
  ghost predicate OneMore(more: bool, x: Slug, c: multiset<Slug>, c': multiset<Slug>) {
    c' == if more then c + multiset{x} else c
  }

  /** Taking one more shard, when `x` was appended to it, to an earlier one, or to neither. */
  lemma AddOnce(a: multiset<Slug>, t: seq<Slug>, c: multiset<Slug>, a': multiset<Slug>, t': seq<Slug>, c': multiset<Slug>,
                x: Slug, before: bool, here: bool)
    requires c == a + multiset(t) && c' == a' + multiset(t') && !(before && here)
    requires OneMore(before, x, a, a') && t' == if here then t + [x] else t
    ensures OneMore(before || here, x, c, c')
  {
  }

  /** A slug appended to one shard is one more slug in all of them together. */
  lemma {:induction false} TogetherSnoc(ts: seq<seq<Slug>>, ts': seq<seq<Slug>>, k: nat, turn: nat, x: Slug)
    requires turn < |ts| == |ts'| && k <= |ts|
    requires forall j {:trigger ts'[j]} :: 0 <= j < |ts| ==> ts'[j] == if j == turn then ts[j] + [x] else ts[j]
    ensures OneMore(turn < k, x, Together(ts, k), Together(ts', k))
  {
    if k > 0 {
      TogetherSnoc(ts, ts', k - 1, turn, x);
      AddOnce(Together(ts, k - 1), ts[k - 1], Together(ts, k), Together(ts', k - 1), ts'[k - 1], Together(ts', k),
              x, turn < k - 1, turn == k - 1);
    }
  }

  lemma {:induction false} TogetherNothing(ts: seq<seq<Slug>>, k: nat)
    requires k <= |ts| && forall j :: 0 <= j < k ==> ts[j] == []
    ensures Together(ts, k) == multiset{}
  {
    if k > 0 {
      TogetherNothing(ts, k - 1);
    }
  }

  lemma MakeStrides(s: seq<Slug>, n: nat) returns (ts: seq<seq<Slug>>)
    requires n > 0
    ensures AreStrides(ts, s, n)
  {
    ts := seq(n, j requires 0 <= j < n => Stride(s, j, n));
  }

  lemma StridesSnoc(s: seq<Slug>, x: Slug, n: nat, ts: seq<seq<Slug>>, ts': seq<seq<Slug>>, j: nat)
    requires AreStrides(ts, s, n) && AreStrides(ts', s + [x], n) && j < n
    ensures ts'[j] == if j == |s| % n then ts[j] + [x] else ts[j]
  {
    ShardSnoc(s, x, n, j);
  }

  lemma {:induction false} StridesTogether(s: seq<Slug>, n: nat, ts: seq<seq<Slug>>)
    requires AreStrides(ts, s, n)
    ensures Together(ts, n) == multiset(s)
  {
    if s == [] {
      TogetherNothing(ts, n);
    } else {
      var last := |s| - 1;
      var before := MakeStrides(s[..last], n);
      StridesTogether(s[..last], n, before);
      assert s == s[..last] + [s[last]];
      forall j {:trigger ts[j]} | 0 <= j < n ensures ts[j] == if j == last % n then before[j] + [s[last]] else before[j] {
        StridesSnoc(s[..last], s[last], n, before, ts, j);
      }
      TogetherSnoc(before, ts, n, last % n, s[last]);
    }
  }

  /** Conservation: the shards together hold every repository exactly as often as the input does. */
  lemma GatheredAll(s: seq<Slug>, n: nat)
    requires n > 0
    ensures Gathered(s, n, n) == multiset(s)
  {
    var ts := MakeStrides(s, n);
    GatheredTogether(s, n, n, ts);
    StridesTogether(s, n, ts);
  }

  lemma AddShard(a: multiset<Slug>, b: multiset<Slug>, t: seq<Slug>, c: multiset<Slug>)
    requires a <= b && |a| <= |b| && c == b + multiset(t)
    ensures a <= c && |a| <= |c| && (t == [] ==> c == b)
    ensures |a| < |b| || t != [] ==> |a| < |c|
  {
    assert |multiset(t)| == |t|;
  }

  /** Taking more shards together only adds, and adds something exactly if one of them is not empty. */
  lemma {:induction false} TogetherGrows(ts: seq<seq<Slug>>, k: nat, m: nat)
    requires k <= m <= |ts|
    ensures Together(ts, k) <= Together(ts, m) && |Together(ts, k)| <= |Together(ts, m)|
    ensures if forall j :: k <= j < m ==> ts[j] == [] then Together(ts, k) == Together(ts, m)
            else |Together(ts, k)| < |Together(ts, m)|
  {
    if k < m {
      TogetherGrows(ts, k, m - 1);
      AddShard(Together(ts, k), Together(ts, m - 1), ts[m - 1], Together(ts, m));
    }
  }

  /** The first `k` shards hold everything exactly when no later shard has a repository in it. */
  lemma GatheredPrefix(s: seq<Slug>, n: nat, k: nat)
    requires 0 < n && k <= n
    ensures Gathered(s, n, k) <= multiset(s)
    ensures Gathered(s, n, k) == multiset(s) <==> k == n || |s| <= k
  {
    var ts := MakeStrides(s, n);
    StridesTogether(s, n, ts);
    GatheredTogether(s, n, k, ts);
    TogetherGrows(ts, k, n);
    assert k < n && k < |s| ==> ts[k] != [];
    assert |s| <= k ==> forall j :: k <= j < n ==> ts[j] == [];
  }

  /** The size of a shard that has any repository in it. */
  lemma {:induction false} StrideSize(s: seq<Slug>, j: nat, n: nat)
    requires n > 0 && j < |s|
    ensures var size := |Stride(s, j, n)|; (size - 1) * n < |s| - j <= size * n
    decreases |s| - j
  {
    if j + n < |s| {
      StrideSize(s, j + n, n);
      NextMultiple(|Stride(s, j + n, n)|, n);
    } else {
      assert Stride(s, j + n, n) == [];
    }
  }

  lemma NextMultiple(a: int, n: int)
    ensures (a + 1) * n == a * n + n && a * n == (a - 1) * n + n
  {
  }

  /** Balance: the sizes of two shards differ by at most one. */
  lemma ShardsBalanced(s: seq<Slug>, n: nat, i: nat, j: nat)
    requires i < n && j < n
    ensures |Stride(s, i, n)| <= |Stride(s, j, n)| + 1
  {
    var a, b := |Stride(s, i, n)|, |Stride(s, j, n)|;
    if i < |s| {
      StrideSize(s, i, n);
      if j < |s| {
        StrideSize(s, j, n);
      }
      assert (a - 1) * n < (b + 1) * n by { assert (b + 1) * n == b * n + n; }
      MulOrder(a - 1, b + 1, n);
    }
  }

  /** No shard exceeds a size exactly when there are at least as many shards as groups of that size. */
  lemma ShardsAtMost(s: seq<Slug>, k: int, c: int, n: nat)
    requires s != [] && 1 <= k && 0 < n && IsCeiling(|s|, k, c)
    ensures (forall j: nat {:trigger Stride(s, j, n)} :: j < n ==> |Stride(s, j, n)| <= k) <==> c <= n
  {
    if c <= n {
      forall j: nat {:trigger Stride(s, j, n)} | j < n ensures |Stride(s, j, n)| <= k {
        if j < |s| {
          StrideSize(s, j, n);
          MulMonotone(n, c, k);
          MulOrder(|Stride(s, j, n)| - 1, k, n);
        }
      }
    } else {
      StrideSize(s, 0, n);
      MulMonotone(c - 1, n, k);
      assert |Stride(s, 0, n)| * n > k * n;
      MulOrder(k, |Stride(s, 0, n)|, n);
    }
  }

  /**
    With the worker count the code computes, no shard exceeds the target size if and only if the ceiling is
    within the maximum and the 32-bit sum did not overflow, or the minimum alone is enough.
  */
  lemma ShardsWithinTarget(s: seq<Slug>, b: WorkerBounds, c: int)
    requires 1 <= |s| <= INT32_MAX && b.IsInt32() && b.Valid() && IsCeiling(|s|, b.reposPerWorker, c)
    ensures var k, n := b.reposPerWorker, Workers(|s|, b);
            (forall j: nat {:trigger Stride(s, j, n)} :: j < n ==> |Stride(s, j, n)| <= k) <==>
            c <= b.minWorkers || (c <= b.maxWorkers && |s| + k - 1 <= INT32_MAX)
  {
    ShardsAtMost(s, b.reposPerWorker, c, Workers(|s|, b));
    if |s| + b.reposPerWorker - 1 <= INT32_MAX {
      SumInRange(|s|, b.reposPerWorker, c);
    } else {
      SumOverflows(|s|, b.reposPerWorker);
    }
  }

  // ---------- ConfigMap data ----------

  /** The JSON object of one shard; a shard without repositories is `null` in JSON and empty here. */
  datatype Payload = Payload(index: nat, total: nat, repos: seq<Slug>)

  /** A ConfigMap value: the JSON text itself, or the base64 text of its gzip. */
  datatype Blob = Json(payload: Payload) | GzipBase64(payload: Payload)

  function ReposSize(repos: seq<Slug>): nat {
    if repos == [] then 0 else ReposSize(repos[..|repos| - 1]) + |repos[|repos| - 1]| + 3
  }

  /** Length of the JSON text, for slugs that need no escaping. */
  function JsonSize(p: Payload): nat
  {
    28 + |Decimal(p.index)| + |Decimal(p.total)| + if p.repos == [] then 4 else ReposSize(p.repos) + 1
  }

  predicate Oversize(p: Payload)
  {
    JsonSize(p) > GZIP_THRESHOLD
  }

  function Key(p: Payload): string
  {
    if Oversize(p) then KeyGzip(p.index) else KeyJson(p.index)
  }

  function Encode(p: Payload): Blob
  {
    if Oversize(p) then GzipBase64(p) else Json(p)
  }

  /** The payloads of the plan that spreads `sorted` over `n` workers. */
  function Shards(sorted: seq<Slug>, n: nat): seq<Payload>
    requires n > 0
  {
    seq(n, i requires 0 <= i < n => Payload(i, n, Stride(sorted, i, n)))
  }

  /** The map that results from storing the entries one after the other. */
  function TableOf<K, V>(es: seq<(K, V)>): map<K, V> {
    if es == [] then map[]
    else TableOf(es[..|es| - 1])[es[|es| - 1].0 := es[|es| - 1].1]
  }

  function Entries(ps: seq<Payload>): seq<(string, Blob)> {
    seq(|ps|, i requires 0 <= i < |ps| => (Key(ps[i]), Encode(ps[i])))
  }

  /** The data written for a list of payloads. */
  function DataOf(ps: seq<Payload>): map<string, Blob> {
    TableOf(Entries(ps))
  }

  /** Which shards are stored compressed. */
  function CompressedOf(ps: seq<Payload>): seq<bool> {
    seq(|ps|, i requires 0 <= i < |ps| => Oversize(ps[i]))
  }

  datatype Plan = Plan(actualWorkers: nat, data: map<string, Blob>, compressed: seq<bool>)

  /** The data that spreads `repos` over `n` workers. */
  function PlannedData(repos: seq<Slug>, n: nat): map<string, Blob>
    requires n > 0
  {
    DataOf(Shards(Sort(repos), n))
  }

  /** The whole plan as a value. */
  function PlanOf(repos: seq<Slug>, b: WorkerBounds): Result<Plan, BuildError> {
    if repos == [] then Failure(NoRepositories)
    else if !b.Valid() then Failure(ValidateBounds(b).value)
    else
      var n: nat := Workers(|repos|, b);
      Success(Plan(n, PlannedData(repos, n), CompressedOf(Shards(Sort(repos), n))))
  }

  /** The worker count of a repository list of the given length, which the source first narrows to 32 bits. */
  function Workers(count: nat, b: WorkerBounds): (n: nat)
    requires b.Valid()
    ensures b.minWorkers <= n <= b.maxWorkers
  {
    ComputeActualWorkers(Wrap32(count), b)
  }

  /** The builder as written: copy, sort in place, assign, then fill the data shard by shard. */
  method Build(repos: seq<Slug>, b: WorkerBounds) returns (r: Result<Plan, BuildError>)
    ensures r == PlanOf(repos, b)
  {
    if |repos| == 0 {
      return Failure(NoRepositories);
    }
    var invalid := ValidateBounds(b);
    if invalid.Some? {
      return Failure(invalid.value);
    }
    var sorted := SortedCopy(repos);
    var actual: nat := Workers(|repos|, b);
    var shards := AssignRoundRobin(sorted, actual);
    var ps := seq(actual, i requires 0 <= i < actual => Payload(i, actual, shards[i]));
    assert ps == Shards(sorted, actual);
    var data := FillTable(Entries(ps));
    r := Success(Plan(actual, data, CompressedOf(ps)));
  }

  /** The loop that stores every shard under its key. */
  method FillTable<K, V>(es: seq<(K, V)>) returns (data: map<K, V>)
    ensures data == TableOf(es)
  {
    data := map[];
    for i := 0 to |es|
      invariant data == TableOf(es[..i])
    {
      assert es[..i + 1][..i] == es[..i];
      data := data[es[i].0 := es[i].1];
    }
    assert es[..|es|] == es;
  }

  method SortedCopy(repos: seq<Slug>) returns (sorted: seq<Slug>)
    ensures sorted == Sort(repos)
  {
    var copy := new Slug[|repos|](i requires 0 <= i < |repos| => repos[i]);
    assert copy[..] == repos;
    SortInPlace(copy);
    sorted := copy[..];
  }

  /** The plan depends only on how often each slug was discovered, not on the order of discovery. */
  lemma BuildOrderIndependent(r1: seq<Slug>, r2: seq<Slug>, b: WorkerBounds)
    requires multiset(r1) == multiset(r2)
    ensures PlanOf(r1, b) == PlanOf(r2, b)
  {
    assert |multiset(r1)| == |multiset(r2)|;
    SortOrderIndependent(r1, r2);
  }

  ghost predicate DistinctKeys<K, V>(es: seq<(K, V)>) {
    forall i, j :: 0 <= i < j < |es| ==> es[i].0 != es[j].0
  }

  lemma {:induction false} TableHas<K, V>(es: seq<(K, V)>, i: nat)
    requires DistinctKeys(es) && i < |es|
    ensures es[i].0 in TableOf(es) && TableOf(es)[es[i].0] == es[i].1
  {
    if i < |es| - 1 {
      TableHas(es[..|es| - 1], i);
    }
  }

  lemma {:induction false} TableOnly<K, V>(es: seq<(K, V)>, key: K) returns (i: nat)
    requires key in TableOf(es)
    ensures i < |es| && key == es[i].0
  {
    i := |es| - 1;
    if key != es[i].0 {
      i := TableOnly(es[..i], key);
    }
  }

  lemma {:induction false} TableCount<K, V>(es: seq<(K, V)>)
    requires DistinctKeys(es)
    ensures |TableOf(es)| == |es|
  {
    if es != [] {
      var last := |es| - 1;
      var before := TableOf(es[..last]);
      TableCount(es[..last]);
      if es[last].0 in before {
        var i := TableOnly(es[..last], es[last].0);
        assert false;
      }
      assert TableOf(es).Keys == before.Keys + {es[last].0};
    }
  }

  ghost predicate Indexed(ps: seq<Payload>) {
    forall i :: 0 <= i < |ps| ==> ps[i].index == i
  }

  lemma EntriesDistinct(ps: seq<Payload>)
    requires Indexed(ps)
    ensures DistinctKeys(Entries(ps))
  {
    forall i, j | 0 <= i < j < |ps| ensures Key(ps[i]) != Key(ps[j]) {
      KeysDistinct(i, j);
      KeysDistinct(j, i);
    }
  }

  /** There are exactly as many keys as shards. */
  lemma DataCount(ps: seq<Payload>)
    requires Indexed(ps)
    ensures |DataOf(ps)| == |ps|
  {
    EntriesDistinct(ps);
    TableCount(Entries(ps));
  }

  // ---------- the worker's side ----------

  /**
    The repositories the entrypoint of the worker with the given index exports, if it gets that far:
    the plain file is read as it is; the compressed file is given to gunzip without undoing the
    base64, which is no gzip stream; without either file the worker exits.
  */
  function Entrypoint(data: map<string, Blob>, index: nat): Option<seq<Slug>> {
    if KeyJson(index) in data && data[KeyJson(index)].Json? then Some(data[KeyJson(index)].payload.repos)
    else None
  }

  /** Each worker gets exactly its own shard, except that no worker can read an oversized one. */
  lemma EntrypointFindsShard(ps: seq<Payload>, i: nat)
    requires Indexed(ps)
    ensures Entrypoint(DataOf(ps), i) == if i < |ps| && !Oversize(ps[i]) then Some(ps[i].repos) else None
  {
    EntriesDistinct(ps);
    if i < |ps| {
      TableHas(Entries(ps), i);
    }
    if KeyJson(i) in DataOf(ps) {
      var j := TableOnly(Entries(ps), KeyJson(i));
      KeysDistinct(i, j);
    }
  }

  /** The same in terms of the planned repositories: worker `i` of `n` gets the stride `sorted[i::n]` or nothing. */
  lemma PlannedDataServes(repos: seq<Slug>, n: nat, i: nat)
    requires n > 0
    ensures |PlannedData(repos, n)| == n
    ensures var got := Entrypoint(PlannedData(repos, n), i);
            got.Some? ==> i < n && got.value == Stride(Sort(repos), i, n)
    ensures i < n ==> (Entrypoint(PlannedData(repos, n), i).Some? <==> !Oversize(Shards(Sort(repos), n)[i]))
  {
    DataCount(Shards(Sort(repos), n));
    EntrypointFindsShard(Shards(Sort(repos), n), i);
  }

  // ---------- shards beyond the threshold ----------

  lemma {:induction false} ReposSizeAtLeast(repos: seq<Slug>, length: nat)
    requires forall i :: 0 <= i < |repos| ==> |repos[i]| >= length
    ensures ReposSize(repos) >= |repos| * (length + 3)
  {
    if repos != [] {
      var last := |repos| - 1;
      ReposSizeAtLeast(repos[..last], length);
      assert (last + 1) * (length + 3) == last * (length + 3) + length + 3;
    }
  }

  lemma {:induction false} StrideElements(s: seq<Slug>, j: nat, n: nat, length: nat)
    requires n > 0 && forall i :: 0 <= i < |s| ==> |s[i]| >= length
    ensures forall i :: 0 <= i < |Stride(s, j, n)| ==> |Stride(s, j, n)[i]| >= length
    decreases |s| - j
  {
    if j < |s| {
      StrideElements(s, j + n, n, length);
    }
  }

  lemma SortElements(repos: seq<Slug>, length: nat)
    requires forall i :: 0 <= i < |repos| ==> |repos[i]| >= length
    ensures forall i :: 0 <= i < |Sort(repos)| ==> |Sort(repos)[i]| >= length
  {
    SortCorrect(repos);
    forall i | 0 <= i < |Sort(repos)| ensures |Sort(repos)[i]| >= length {
      assert Sort(repos)[i] in multiset(repos);
    }
  }

  lemma StrideAtLeast(s: seq<Slug>, j: nat, n: nat, size: nat)
    requires j < n && |s| >= size * n && size > 0
    ensures |Stride(s, j, n)| >= size
  {
    MulMonotone(size, 1, n);
    StrideSize(s, j, n);
    assert (size - 1) * n == size * n - n;
    MulOrder(size - 1, |Stride(s, j, n)|, n);
  }

  /** With slugs of at least 20 characters, 40070 repositories per worker are too many for any of the workers. */
  lemma ManySlugsOversized(repos: seq<Slug>, n: nat, i: nat)
    requires i < n && |repos| >= 40070 * n && forall k :: 0 <= k < |repos| ==> |repos[k]| >= 20
    ensures Oversize(Shards(Sort(repos), n)[i]) && Entrypoint(PlannedData(repos, n), i) == None
  {
    SortCorrect(repos);
    SortElements(repos, 20);
    LongStride(Sort(repos), i, n);
    LargeOversized(Shards(Sort(repos), n)[i]);
    PlannedDataServes(repos, n, i);
  }

  lemma LongStride(s: seq<Slug>, i: nat, n: nat)
    requires i < n && |s| >= 40070 * n && forall k :: 0 <= k < |s| ==> |s[k]| >= 20
    ensures var t := Stride(s, i, n); t != [] && ReposSize(t) >= 40070 * 23
  {
    var t := Stride(s, i, n);
    StrideElements(s, i, n, 20);
    StrideAtLeast(s, i, n, 40070);
    ReposSizeAtLeast(t, 20);
    MulMonotone(|t|, 40070, 23);
  }

  lemma LargeOversized(p: Payload)
    requires p.repos != [] && ReposSize(p.repos) >= 40070 * 23
    ensures Oversize(p)
  {
  }

  /** Distinct slugs of an ordinary length. */
  function Numbered(count: nat): seq<Slug> {
    seq(count, i requires 0 <= i < count => "organisation/repo-" + Padded(i))
  }

  lemma NumberedOversized()
    ensures Oversize(Shards(Sort(Numbered(40070)), 1)[0]) && Entrypoint(PlannedData(Numbered(40070), 1), 0) == None
  {
    var repos := Numbered(40070);
    forall k | 0 <= k < |repos| ensures |repos[k]| >= 20 {
      assert |"organisation/repo-"| == 18 && |Padded(k)| >= 4;
    }
    ManySlugsOversized(repos, 1, 0);
  }

  // ---------- the plan in full ----------

  /** The JSON text of a slug that needs no escaping. */
  function Quoted(slug: Slug): string {
    "\"" + slug + "\""
  }

  function Joined(repos: seq<Slug>): string
    requires repos != []
  {
    if |repos| == 1 then Quoted(repos[0]) else Joined(repos[..|repos| - 1]) + "," + Quoted(repos[|repos| - 1])
  }

  /** The JSON text of a shard, as the library writes the struct: a nil list is `null`. */
  function JsonText(p: Payload): string {
    "{\"index\":" + Decimal(p.index) + ",\"total\":" + Decimal(p.total) + ",\"repos\":" +
    (if p.repos == [] then "null" else "[" + Joined(p.repos) + "]") + "}"
  }

  lemma {:induction false} JoinedSize(repos: seq<Slug>)
    requires repos != []
    ensures |Joined(repos)| == ReposSize(repos) - 1
  {
    if |repos| > 1 {
      JoinedSize(repos[..|repos| - 1]);
    } else {
      assert repos[..0] == [];
    }
  }

  /** The size that decides on compression is the length of that text. */
  lemma JsonSizeIsLength(p: Payload)
    ensures |JsonText(p)| == JsonSize(p)
  {
    assert |"{\"index\":"| == 9 && |",\"total\":"| == 9 && |",\"repos\":"| == 9;
    if p.repos != [] {
      JoinedSize(p.repos);
    }
  }

  /** Shard `p` is stored under its own key, in exactly one form: plain if its text has at most 900 KiB, and compressed if not. */
  ghost predicate StoredAs(data: map<string, Blob>, p: Payload) {
    if |JsonText(p)| <= 900 * 1024 then
      KeyJson(p.index) in data && data[KeyJson(p.index)] == Json(p) && KeyGzip(p.index) !in data
    else
      KeyGzip(p.index) in data && data[KeyGzip(p.index)] == GzipBase64(p) && KeyJson(p.index) !in data
  }

  lemma DataStores(ps: seq<Payload>, i: nat)
    requires Indexed(ps) && i < |ps|
    ensures StoredAs(DataOf(ps), ps[i])
  {
    JsonSizeIsLength(ps[i]);
    EntriesDistinct(ps);
    TableHas(Entries(ps), i);
    var other := if Oversize(ps[i]) then KeyJson(i) else KeyGzip(i);
    if other in DataOf(ps) {
      var j := TableOnly(Entries(ps), other);
      KeysDistinct(i, j);
      KeysDistinct(j, i);
      assert false;
    }
  }

  /** There is no plan exactly for no repositories or invalid bounds, and the error says which. */
  lemma PlanFailsExactlyWhen(repos: seq<Slug>, b: WorkerBounds)
    ensures PlanOf(repos, b) == Failure(NoRepositories) <==> repos == []
    ensures PlanOf(repos, b).Failure? <==> repos == [] || !b.Valid()
    ensures repos != [] && !b.Valid() ==> Violates(b, PlanOf(repos, b).error)
  {
  }

  /** Otherwise there is one key and one flag per worker. */
  lemma PlanCounts(repos: seq<Slug>, b: WorkerBounds)
    requires repos != [] && b.Valid()
    ensures PlanOf(repos, b).Success?
    ensures var plan := PlanOf(repos, b).value;
            plan.actualWorkers == |plan.data| == |plan.compressed| == ComputeActualWorkers(Wrap32(|repos|), b)
  {
    DataCount(Shards(Sort(repos), Workers(|repos|, b)));
  }

  /** Worker i's payload is numbered i of n, holds the stride from i of the sorted list, and is flagged if it is compressed. */
  lemma PlanShard(repos: seq<Slug>, b: WorkerBounds, i: nat)
    requires repos != [] && b.Valid() && i < ComputeActualWorkers(Wrap32(|repos|), b)
    ensures PlanOf(repos, b).Success? && i < |PlanOf(repos, b).value.compressed|
    ensures var plan, n := PlanOf(repos, b).value, ComputeActualWorkers(Wrap32(|repos|), b);
            var p := Payload(i, n, Stride(Sort(repos), i, n));
            StoredAs(plan.data, p) && (plan.compressed[i] <==> |JsonText(p)| > 900 * 1024)
  {
    var ps := Shards(Sort(repos), Workers(|repos|, b));
    DataStores(ps, i);
    JsonSizeIsLength(ps[i]);
  }
}
