/** The iteration histogram and the cumulative rank read from it.
    A histogram here is a sequence whose slot k holds how many pixels have
    iteration count k; counts is the per-pixel iteration grid. */
module Histogram {

  /** Sum of a sequence of counts, peeled from the back so that extending a
      prefix by one slot adds that slot. */
  function Sum(s: seq<nat>): nat
  {
    if |s| == 0 then 0 else Sum(s[..|s| - 1]) + s[|s| - 1]
  }

  /** Bumping one slot by one bumps the sum by one. */
  lemma {:induction false} SumIncrement(s: seq<nat>, k: nat)
    requires k < |s|
    ensures Sum(s[k := s[k] + 1]) == Sum(s) + 1
  {
    var t := s[k := s[k] + 1];
    var n := |s| - 1;
    if k == n {
      assert t[..n] == s[..n];
    } else {
      assert t[..n] == s[..n][k := s[k] + 1];
      SumIncrement(s[..n], k);
    }
  }

  /** A longer prefix never has a smaller sum. */
  lemma {:induction false} SumPrefixMonotone(s: seq<nat>, i: nat, j: nat)
    requires i <= j <= |s|
    ensures Sum(s[..i]) <= Sum(s[..j])
  {
    if i < j {
      SumPrefixMonotone(s, i, j - 1);
      assert s[..j][..j - 1] == s[..j - 1];
    }
  }

  /** Each slot is at most the whole sum. */
  lemma {:induction false} SlotAtMostSum(s: seq<nat>, k: nat)
    requires k < |s|
    ensures s[k] <= Sum(s[..k + 1]) <= Sum(s)
  {
    assert s[..k + 1][..k] == s[..k];
    SumPrefixMonotone(s, k + 1, |s|);
    assert s[..|s|] == s;
  }

  /** Reference definition of the cumulative rank: how many entries of
      counts are at most c. */
  function CountAtMost(counts: seq<nat>, c: nat): nat
  {
    if |counts| == 0 then 0
    else CountAtMost(counts[..|counts| - 1], c) + (if counts[|counts| - 1] <= c then 1 else 0)
  }

  /** Raising the threshold from c to c + 1 adds exactly the entries equal to
      c + 1; at threshold 0 only the zeros are counted. */
  lemma {:induction false} CountAtMostStep(counts: seq<nat>, c: nat)
    ensures CountAtMost(counts, 0) == multiset(counts)[0]
    ensures CountAtMost(counts, c + 1) == CountAtMost(counts, c) + multiset(counts)[c + 1]
  {
    if |counts| > 0 {
      var n := |counts| - 1;
      CountAtMostStep(counts[..n], c);
      assert counts == counts[..n] + [counts[n]];
      assert multiset(counts) == multiset(counts[..n]) + multiset{counts[n]};
    }
  }

  /** CountAtMost lies between 0 and the number of entries, counts at least
      the entry at any position whose value is at most c, and counts every
      entry once c bounds them all. */
  lemma {:induction false} CountAtMostBounds(counts: seq<nat>, c: nat)
    ensures CountAtMost(counts, c) <= |counts|
    ensures (exists i | 0 <= i < |counts| :: counts[i] <= c) ==> CountAtMost(counts, c) >= 1
    ensures (forall i | 0 <= i < |counts| :: counts[i] <= c) ==> CountAtMost(counts, c) == |counts|
  {
    if |counts| > 0 {
      var n := |counts| - 1;
      CountAtMostBounds(counts[..n], c);
      if exists i | 0 <= i < |counts| :: counts[i] <= c {
        var i :| 0 <= i < |counts| && counts[i] <= c;
        if i < n {
          assert counts[..n][i] <= c;
        }
      }
      if forall i | 0 <= i < |counts| :: counts[i] <= c {
        assert forall i | 0 <= i < n :: counts[..n][i] <= c;
      }
    }
  }

  /** CountAtMost never decreases as the threshold grows. */
  lemma {:induction false} CountAtMostMonotone(counts: seq<nat>, c1: nat, c2: nat)
    requires c1 <= c2
    ensures CountAtMost(counts, c1) <= CountAtMost(counts, c2)
  {
    if |counts| > 0 {
      CountAtMostMonotone(counts[..|counts| - 1], c1, c2);
    }
  }

  /** The histogram of counts: slot k holds the number of entries equal to k,
      for every k the histogram covers. */
  ghost predicate IsHistogramOf(histogram: seq<nat>, counts: seq<nat>)
  {
    forall k | 0 <= k < |histogram| :: histogram[k] == multiset(counts)[k]
  }

  /** Counting one more pixel with count c in slot c keeps the histogram
      exact and raises its sum by one. */
  lemma HistogramStep(histogram: seq<nat>, counts: seq<nat>, c: nat)
    requires IsHistogramOf(histogram, counts) && c < |histogram|
    ensures IsHistogramOf(histogram[c := histogram[c] + 1], counts + [c])
    ensures Sum(histogram[c := histogram[c] + 1]) == Sum(histogram) + 1
  {
    assert multiset(counts + [c]) == multiset(counts) + multiset{c};
    SumIncrement(histogram, c);
  }

  /** Summing the histogram's slots 0..c gives the number of entries that
      are at most c: the prefix sum is the cumulative rank. */
  lemma {:induction false} PrefixSumIsCountAtMost(histogram: seq<nat>, counts: seq<nat>, c: nat)
    requires IsHistogramOf(histogram, counts)
    requires c < |histogram|
    ensures Sum(histogram[..c + 1]) == CountAtMost(counts, c)
  {
    assert histogram[..c + 1][..c] == histogram[..c];
    CountAtMostStep(counts, if c == 0 then 0 else c - 1);
    if c > 0 {
      PrefixSumIsCountAtMost(histogram, counts, c - 1);
    }
  }

  /** The histogram of counts bounded by the last slot sums to the number of
      pixels. */
  lemma HistogramSumsToPixels(histogram: seq<nat>, counts: seq<nat>)
    requires IsHistogramOf(histogram, counts) && |histogram| > 0
    requires forall i | 0 <= i < |counts| :: counts[i] < |histogram|
    ensures Sum(histogram) == |counts|
  {
    var m := |histogram| - 1;
    PrefixSumIsCountAtMost(histogram, counts, m);
    CountAtMostBounds(counts, m);
    assert histogram[..m + 1] == histogram;
  }

  /** The rank loop of the normalising pass: add up slots 0..c inclusive. */
  method CumulativeRank(histogram: seq<nat>, c: nat) returns (rank: nat)
    requires c < |histogram|
    ensures rank == Sum(histogram[..c + 1])
    ensures histogram[c] <= rank <= Sum(histogram)
  {
    rank := 0;
    var i := 0;
    while i <= c
      invariant 0 <= i <= c + 1
      invariant rank == Sum(histogram[..i])
    {
      assert histogram[..i + 1][..i] == histogram[..i];
      rank := rank + histogram[i];
      i := i + 1;
    }
    SlotAtMostSum(histogram, c);
  }

  /** The cumulative rank of any pixel's count is between 1 and the number of
      pixels: at least 1 because the pixel counts itself. */
  lemma RankBounds(histogram: seq<nat>, counts: seq<nat>, i: nat)
    requires IsHistogramOf(histogram, counts)
    requires i < |counts| && counts[i] < |histogram|
    ensures 1 <= Sum(histogram[..counts[i] + 1]) <= |counts|
  {
    PrefixSumIsCountAtMost(histogram, counts, counts[i]);
    CountAtMostBounds(counts, counts[i]);
  }

  /** The cumulative rank is non-decreasing in the iteration count. */
  lemma RankMonotone(histogram: seq<nat>, c1: nat, c2: nat)
    requires c1 <= c2 < |histogram|
    ensures Sum(histogram[..c1 + 1]) <= Sum(histogram[..c2 + 1])
  {
    SumPrefixMonotone(histogram, c1 + 1, c2 + 1);
  }

  /** At the last slot (the cap) the cumulative rank counts every pixel. */
  lemma RankAtCap(histogram: seq<nat>, counts: seq<nat>)
    requires IsHistogramOf(histogram, counts) && |histogram| > 0
    requires forall i | 0 <= i < |counts| :: counts[i] < |histogram|
    ensures Sum(histogram[..|histogram|]) == |counts|
  {
    HistogramSumsToPixels(histogram, counts);
    assert histogram[..|histogram|] == histogram;
  }
}
