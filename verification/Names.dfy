/** Names of the per-Run objects: the mirrored Secret, the shard ConfigMap and the worker Job. */
module Names {

  /** Longest DNS label (section 2.3.4 of RFC 1035). */
  const LABEL_MAX: nat := 63

  function Take(s: string, n: nat): string {
    if |s| > n then s[..n] else s
  }

  function MirrorName(run: string): string {
    "renovate-creds-" + Take(run, LABEL_MAX - 15)
  }

  function JobName(run: string): string {
    Take(run, LABEL_MAX - 7) + "-worker"
  }

  function ShardsName(run: string): string {
    run + "-shards"
  }

  /** Secret and Job names are labels, whatever the Run is called. */
  lemma NamesFit(run: string)
    ensures |MirrorName(run)| <= LABEL_MAX && |JobName(run)| <= LABEL_MAX
  {
    assert |"renovate-creds-"| == 15 && |"-worker"| == 7;
  }

  predicate Alphanumeric(c: char) {
    'a' <= c <= 'z' || '0' <= c <= '9'
  }

  /** Letters, digits and hyphens, with a letter or digit at both ends (section 2.1 of RFC 1123). */
  predicate LabelForm(s: string) {
    && s != [] && Alphanumeric(s[0]) && Alphanumeric(s[|s| - 1])
    && forall i :: 0 <= i < |s| ==> Alphanumeric(s[i]) || s[i] == '-'
  }

  predicate IsLabel(s: string) {
    LabelForm(s) && |s| <= LABEL_MAX
  }

  /**
    For a Run name in label form, of any length: the Job name is always a label, the Secret name exactly when
    the name is not cut right after a hyphen.
  */
  lemma LabelsExactlyWhen(run: string)
    requires LabelForm(run)
    ensures IsLabel(JobName(run))
    ensures IsLabel(MirrorName(run)) <==> |run| <= 48 || run[47] != '-'
  {
    NamesFit(run);
    var p, kept := "renovate-creds-", Take(run, 48);
    var m := MirrorName(run);
    assert forall i :: 0 <= i < |p| ==> m[i] == p[i];
    assert forall i :: |p| <= i < |m| ==> m[i] == kept[i - |p|] == run[i - |p|];
    assert |kept| > 0 && m[|m| - 1] == kept[|kept| - 1];
    var j, cut := JobName(run), Take(run, 56);
    assert forall i :: 0 <= i < |cut| ==> j[i] == run[i];
    assert forall i :: |cut| <= i < |j| ==> j[i] == "-worker"[i - |cut|];
  }

  /** Two Runs share a Secret exactly when they agree on 48 characters, and a Job exactly when on 56. */
  lemma SharedExactlyWhen(a: string, b: string)
    ensures MirrorName(a) == MirrorName(b) <==> Take(a, 48) == Take(b, 48)
    ensures JobName(a) == JobName(b) <==> Take(a, 56) == Take(b, 56)
    ensures ShardsName(a) == ShardsName(b) <==> a == b
  {
    SamePrefix("renovate-creds-", Take(a, 48), Take(b, 48));
    SameSuffix(Take(a, 56), Take(b, 56), "-worker");
    SameSuffix(a, b, "-shards");
  }

  lemma SamePrefix(p: string, a: string, b: string)
    ensures p + a == p + b <==> a == b
  {
    assert (p + a)[|p|..] == a && (p + b)[|p|..] == b;
  }

  lemma SameSuffix(a: string, b: string, p: string)
    ensures a + p == b + p <==> a == b
  {
    if a + p == b + p {
      assert |a| == |b|;
      assert (a + p)[..|a|] == a && (b + p)[..|b|] == b;
    }
  }

  /** Runs that do not agree on 48 characters share nothing, however long their names are. */
  lemma ApartIsolated(a: string, b: string)
    requires Take(a, 48) != Take(b, 48)
    ensures MirrorName(a) != MirrorName(b) && JobName(a) != JobName(b) && ShardsName(a) != ShardsName(b)
  {
    SharedExactlyWhen(a, b);
    assert Take(a, 48) == Take(Take(a, 56), 48) && Take(b, 48) == Take(Take(b, 56), 48);
  }

  /** In particular, different names of at most 48 characters share nothing. */
  lemma ShortNamesIsolated(a: string, b: string)
    requires |a| <= 48 && |b| <= 48 && a != b
    ensures MirrorName(a) != MirrorName(b) && JobName(a) != JobName(b) && ShardsName(a) != ShardsName(b)
  {
    ApartIsolated(a, b);
  }

  /** What the API server makes of a Scan's name as the prefix to generate from: the prefix, cut to 58, and a suffix. */
  function Generated(scan: string, suffix: string): string {
    Take(scan + "-", 58) + suffix
  }

  /** Every Run of a Scan with a 47-character name gets an invalid Secret name. */
  lemma LongScanNames(scan: string, suffix: string)
    requires |scan| == 47 && LabelForm(scan) && LabelForm(suffix)
    ensures LabelForm(Generated(scan, suffix)) && !IsLabel(MirrorName(Generated(scan, suffix)))
  {
    var run := Generated(scan, suffix);
    assert forall i :: 0 <= i < |run| ==> run[i] == if i < 47 then scan[i] else if i == 47 then '-' else suffix[i - 48];
    LabelsExactlyWhen(run);
  }

  lemma GeneratedCut(scan: string, suffix: string, n: nat)
    requires n <= 58
    ensures |scan| + 1 >= n ==> Take(Generated(scan, suffix), n) == (scan + "-")[..n]
    ensures |scan| + 1 + |suffix| <= n ==> Take(Generated(scan, suffix), n) == scan + "-" + suffix
  {
  }

  ghost predicate ShareSecret(scan: string) {
    forall s, t :: MirrorName(Generated(scan, s)) == MirrorName(Generated(scan, t))
  }

  ghost predicate ShareJob(scan: string) {
    forall s, t :: JobName(Generated(scan, s)) == JobName(Generated(scan, t))
  }

  /**
    All Runs of a Scan share one Secret exactly when the Scan's name has at least 47 characters, and one Job
    exactly when it has at least 55.
  */
  lemma ScansShareExactlyWhen(scan: string)
    ensures ShareSecret(scan) <==> |scan| >= 47
    ensures ShareJob(scan) <==> |scan| >= 55
  {
    forall s, t
      ensures |scan| >= 47 ==> MirrorName(Generated(scan, s)) == MirrorName(Generated(scan, t))
      ensures |scan| >= 55 ==> JobName(Generated(scan, s)) == JobName(Generated(scan, t))
    {
      SharedExactlyWhen(Generated(scan, s), Generated(scan, t));
      GeneratedCut(scan, s, 48);
      GeneratedCut(scan, t, 48);
      GeneratedCut(scan, s, 56);
      GeneratedCut(scan, t, 56);
    }
    ShortScansDiffer(scan);
  }

  lemma ShortScansDiffer(scan: string)
    ensures |scan| < 47 ==> MirrorName(Generated(scan, "a")) != MirrorName(Generated(scan, "b"))
    ensures |scan| < 55 ==> JobName(Generated(scan, "a")) != JobName(Generated(scan, "b"))
  {
    SharedExactlyWhen(Generated(scan, "a"), Generated(scan, "b"));
    SamePrefix(scan + "-", "a", "b");
    GeneratedCut(scan, "a", 48);
    GeneratedCut(scan, "b", 48);
    GeneratedCut(scan, "a", 56);
    GeneratedCut(scan, "b", 56);
  }
}
