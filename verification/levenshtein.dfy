/** The edit-distance table behind the echo filter, and the similarity ratio
    built on it. */
module EditDistance {
  import opened Common

  function Min3(x: int, y: int, z: int): int { MinInt(MinInt(x, y), z) }

  /** Cell `(i, j)` of the table: row `i` runs over the first `i` characters of
      `b`, column `j` over the first `j` characters of `a`. Equal characters
      take the diagonal as it is; otherwise one more than the cheapest of
      substitution, insertion and deletion. */
  function Dist(a: string, b: string, i: nat, j: nat): nat
    requires i <= |b| && j <= |a|
    decreases i + j
  {
    if i == 0 then j
    else if j == 0 then i
    else if b[i - 1] == a[j - 1] then Dist(a, b, i - 1, j - 1)
    else 1 + Min3(Dist(a, b, i - 1, j - 1), Dist(a, b, i, j - 1), Dist(a, b, i - 1, j))
  }

  /** `levenshtein(a, b)`: the bottom-right cell. */
  function Levenshtein(a: string, b: string): (d: nat)
    ensures Abs(|a| - |b|) <= d <= MaxInt(|a|, |b|)
  {
    DistBounds(a, b, |b|, |a|);
    Dist(a, b, |b|, |a|)
  }

  /** Every cell lies between the length difference and the longer length of
      the two prefixes. */
  lemma {:induction false} DistBounds(a: string, b: string, i: nat, j: nat)
    requires i <= |b| && j <= |a|
    ensures Abs(i - j) <= Dist(a, b, i, j) <= MaxInt(i, j)
    decreases i + j
  {
    if i > 0 && j > 0 {
      DistBounds(a, b, i - 1, j - 1);
      DistBounds(a, b, i, j - 1);
      DistBounds(a, b, i - 1, j);
    }
  }

  /** The table is symmetric: swapping the strings transposes it. */
  lemma {:induction false} DistSymmetric(a: string, b: string, i: nat, j: nat)
    requires i <= |b| && j <= |a|
    ensures Dist(a, b, i, j) == Dist(b, a, j, i)
    decreases i + j
  {
    if i > 0 && j > 0 {
      DistSymmetric(a, b, i - 1, j - 1);
      DistSymmetric(a, b, i, j - 1);
      DistSymmetric(a, b, i - 1, j);
    }
  }

  /** A zero cell means the two prefixes are the same string, and equal
      prefixes give a zero cell. */
  lemma {:induction false} DistZeroIff(a: string, b: string, i: nat, j: nat)
    requires i <= |b| && j <= |a|
    ensures Dist(a, b, i, j) == 0 <==> (i == j && a[..j] == b[..i])
    decreases i + j
  {
    if i > 0 && j > 0 {
      if b[i - 1] == a[j - 1] {
        DistZeroIff(a, b, i - 1, j - 1);
        PrefixStep(a, b, i, j);
      } else {
        PrefixStep(a, b, i, j);
      }
    }
  }

  /** Two prefixes of the same length are equal exactly when the prefixes one
      shorter are and their last characters agree. */
  lemma PrefixStep(a: string, b: string, i: nat, j: nat)
    requires 0 < i <= |b| && 0 < j <= |a|
    ensures (i == j && a[..j] == b[..i]) <==> (i == j && a[..j - 1] == b[..i - 1] && a[j - 1] == b[i - 1])
  {
    assert a[..j] == a[..j - 1] + [a[j - 1]];
    assert b[..i] == b[..i - 1] + [b[i - 1]];
    if i == j && a[..j] == b[..i] {
      assert a[j - 1] == a[..j][j - 1] && b[i - 1] == b[..i][i - 1];
      assert a[..j - 1] == a[..j][..j - 1] && b[..i - 1] == b[..i][..i - 1];
    }
  }

  /** The distance is a metric's zero: it vanishes exactly on equal strings. */
  lemma LevenshteinZeroIff(a: string, b: string)
    ensures Levenshtein(a, b) == 0 <==> a == b
  {
    DistZeroIff(a, b, |b|, |a|);
    assert a[..|a|] == a && b[..|b|] == b;
  }

  /** The distance does not depend on the order of the arguments, and lies
      between the length difference and the longer length. */
  lemma LevenshteinFacts(a: string, b: string)
    ensures Levenshtein(a, b) == Levenshtein(b, a)
    ensures Abs(|a| - |b|) <= Levenshtein(a, b) <= MaxInt(|a|, |b|)
  {
    DistSymmetric(a, b, |b|, |a|);
    DistBounds(a, b, |b|, |a|);
  }

  /** The distance from the empty string is the length. */
  lemma LevenshteinEmpty(a: string)
    ensures Levenshtein(a, []) == |a| && Levenshtein([], a) == |a|
  {
  }

  /** The table filled row by row, as the nested loops of `levenshtein` do;
      only the previous row is kept. */
  method ComputeLevenshtein(a: string, b: string) returns (d: nat)
    ensures d == Levenshtein(a, b)
  {
    var prev := seq(|a| + 1, c requires 0 <= c <= |a| => c);
    var i := 1;
    while i <= |b|
      invariant 1 <= i <= |b| + 1
      invariant |prev| == |a| + 1
      invariant forall c :: 0 <= c <= |a| ==> prev[c] == Dist(a, b, i - 1, c)
    {
      prev := NextRow(a, b, i, prev);
      i := i + 1;
    }
    d := prev[|a|];
  }

  /** One pass of the inner loop: row `i` from row `i - 1`. */
  method NextRow(a: string, b: string, i: nat, prev: seq<nat>) returns (cur: seq<nat>)
    requires 1 <= i <= |b| && |prev| == |a| + 1
    requires forall c :: 0 <= c <= |a| ==> prev[c] == Dist(a, b, i - 1, c)
    ensures |cur| == |a| + 1
    ensures forall c :: 0 <= c <= |a| ==> cur[c] == Dist(a, b, i, c)
  {
    cur := [i];
    var j := 1;
    while j <= |a|
      invariant 1 <= j <= |a| + 1 && |cur| == j
      invariant forall c :: 0 <= c < j ==> cur[c] == Dist(a, b, i, c)
    {
      var cell: nat;
      if b[i - 1] == a[j - 1] {
        cell := prev[j - 1];
      } else {
        cell := Min3(prev[j - 1] + 1, cur[j - 1] + 1, prev[j] + 1);
      }
      cur := cur + [cell];
      j := j + 1;
    }
  }

  // ------------------------------------------------------------- similarity

  /** `similarity(a, b)`: one minus the distance relative to the longer string
      (the second argument when the lengths are equal); 1 for two empty strings,
      0 when only one is empty. */
  function Similarity(a: string, b: string): (r: real)
    ensures 0.0 <= r <= 1.0
    ensures r == 1.0 <==> a == b
    ensures (a == [] || b == []) && a != b ==> r == 0.0
  {
    if |a| == 0 && |b| == 0 then 1.0
    else if |a| == 0 || |b| == 0 then 0.0
    else
      var longer := if |a| > |b| then a else b;
      var shorter := if |a| > |b| then b else a;
      var dist := Levenshtein(longer, shorter);
      assert dist <= |longer| by { LevenshteinFacts(longer, shorter); }
      assert dist == 0 <==> a == b by { LevenshteinZeroIff(longer, shorter); }
      RatioFacts(|longer|, dist);
      (|longer| - dist) as real / |longer| as real
  }

  /** The share of `n` left after taking `d` away is a ratio in 0..1 that is
      1 exactly when nothing is taken. */
  lemma RatioFacts(n: nat, d: nat)
    requires 0 < n && d <= n
    ensures 0.0 <= (n - d) as real / n as real <= 1.0
    ensures (n - d) as real / n as real == 1.0 <==> d == 0
  {
    var q := (n - d) as real / n as real;
    assert q * n as real == (n - d) as real;
  }

  /** The ratio does not depend on the order of the arguments. */
  lemma SimilaritySymmetric(a: string, b: string)
    ensures Similarity(a, b) == Similarity(b, a)
  {
    LevenshteinFacts(a, b);
  }
}
