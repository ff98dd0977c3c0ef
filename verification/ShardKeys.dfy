/** ConfigMap keys of the shards: zero-padded decimal indexes between a fixed prefix and suffix. */
module ShardKeys {

  /** The decimal digits of `n`, without leading zeros. */
  function Decimal(n: nat): string {
    if n < 10 then [Digit(n)] else Decimal(n / 10) + [Digit(n % 10)]
  }

  function Digit(d: nat): char
    requires d < 10
  {
    '0' + d as char
  }

  /** `printf("%04d")`: at least four digits, padded on the left with zeros. */
  function Padded(n: nat): string {
    var d := Decimal(n);
    if |d| >= 4 then d else seq(4 - |d|, _ => '0') + d
  }

  /** Key of an uncompressed shard. */
  function KeyJson(index: nat): string {
    "shard-" + Padded(index) + ".json"
  }

  /** Key of a compressed shard. */
  function KeyGzip(index: nat): string {
    KeyJson(index) + ".gz"
  }

  /** Reads a digit string back; the inverse of `Padded`. */
  function Parse(s: string): int {
    if s == [] then 0 else 10 * Parse(s[..|s| - 1]) + (s[|s| - 1] as int - '0' as int)
  }

  lemma {:induction false} ParseDecimal(n: nat)
    ensures Parse(Decimal(n)) == n
  {
    if n >= 10 {
      ParseDecimal(n / 10);
      assert Decimal(n)[..|Decimal(n)| - 1] == Decimal(n / 10);
    }
  }

  lemma {:induction false} ParseZeros(k: nat, s: string)
    ensures Parse(seq(k, _ => '0') + s) == Parse(s)
  {
    var z := seq(k, _ => '0');
    if s != [] {
      ParseZeros(k, s[..|s| - 1]);
      assert (z + s)[..|z + s| - 1] == z + s[..|s| - 1];
    } else if k > 0 {
      ParseZeros(k - 1, []);
      assert (z + s)[..k - 1] == seq(k - 1, _ => '0') + [];
    }
  }

  /** Padding loses nothing, for indexes of any size. */
  lemma PaddedRoundTrip(n: nat)
    ensures Parse(Padded(n)) == n
  {
    ParseDecimal(n);
    var d := Decimal(n);
    if |d| < 4 {
      ParseZeros(4 - |d|, d);
    }
  }

  /** Four digits at least: zeros in front of the decimal digits. */
  lemma PaddedShape(n: nat)
    ensures var d, p := Decimal(n), Padded(n);
            && |p| == (if |d| < 4 then 4 else |d|) && p[|p| - |d|..] == d
            && forall i :: 0 <= i < |p| - |d| ==> p[i] == '0'
    ensures KeyJson(7) == "shard-0007.json" && KeyGzip(7) == "shard-0007.json.gz"
  {
    assert Decimal(7) == "7";
    assert Padded(7) == "0007";
  }

  /** Distinct indexes have distinct keys, and no plain key is a compressed key. */
  lemma KeysDistinct(i: nat, j: nat)
    ensures KeyJson(i) == KeyJson(j) <==> i == j
    ensures KeyGzip(i) == KeyGzip(j) <==> i == j
    ensures KeyJson(i) != KeyGzip(j)
  {
    PaddedRoundTrip(i);
    PaddedRoundTrip(j);
    assert KeyJson(i)[|KeyJson(i)| - 1] == 'n' && KeyGzip(j)[|KeyGzip(j)| - 1] == 'z';
    assert KeyGzip(i)[..|KeyGzip(i)| - 3] == KeyJson(i) && KeyGzip(j)[..|KeyGzip(j)| - 3] == KeyJson(j);
    assert KeyJson(i)[6..|KeyJson(i)| - 5] == Padded(i) && KeyJson(j)[6..|KeyJson(j)| - 5] == Padded(j);
  }
}
