/** Totals, running sums and first differences of integer series: the
    arithmetic behind the day-over-day deltas of the country series and the
    cumulative sums of the city series. */
module Sums {

  /** Sum of a series, accumulated from the front as a loop would. */
  function Total(xs: seq<int>): int
  {
    if |xs| == 0 then 0 else Total(xs[..|xs| - 1]) + xs[|xs| - 1]
  }

  /** Running sums (`cumsum`): entry `i` is the total of entries `0..i`. */
  function PrefixSums(xs: seq<int>): seq<int>
  {
    seq(|xs|, i requires 0 <= i < |xs| => Total(xs[..i + 1]))
  }

  /** `cumsum` as a running total: the first sum is the first count, and
      each later sum adds its count to the sum before it. */
  lemma PrefixSumsStep(xs: seq<int>)
    ensures |PrefixSums(xs)| == |xs|
    ensures |xs| > 0 ==> PrefixSums(xs)[0] == xs[0]
    ensures forall i :: 0 < i < |xs| ==> PrefixSums(xs)[i] == PrefixSums(xs)[i - 1] + xs[i]
  {
    var p := PrefixSums(xs);
    forall i | 0 < i < |xs| ensures p[i] == p[i - 1] + xs[i] {
      assert xs[..i + 1][..i] == xs[..i];
    }
    if |xs| > 0 {
      assert xs[..1][..0] == [];
      assert p[0] == Total(xs[..1]) == xs[0];
    }
  }

  /** First differences with the value before the first entry taken as 0:
      entry `i` is `c[i] - c[i-1]`, and entry 0 is `c[0]`. */
  function Differences(c: seq<int>): seq<int>
  {
    seq(|c|, i requires 0 <= i < |c| => c[i] - (if i == 0 then 0 else c[i - 1]))
  }

  predicate NonDecreasing(xs: seq<int>)
  {
    forall i, j :: 0 <= i <= j < |xs| ==> xs[i] <= xs[j]
  }

  predicate AllNonNegative(xs: seq<int>)
  {
    forall i :: 0 <= i < |xs| ==> xs[i] >= 0
  }

  lemma TotalAppend(xs: seq<int>, x: int)
    ensures Total(xs + [x]) == Total(xs) + x
  {
    assert (xs + [x])[..|xs|] == xs;
  }

  lemma {:induction false} TotalConcat(xs: seq<int>, ys: seq<int>)
    ensures Total(xs + ys) == Total(xs) + Total(ys)
    decreases |ys|
  {
    if |ys| > 0 {
      var init := ys[..|ys| - 1];
      assert xs + ys == (xs + init) + [ys[|ys| - 1]];
      TotalAppend(xs + init, ys[|ys| - 1]);
      TotalConcat(xs, init);
    } else {
      assert xs + ys == xs;
    }
  }

  /** The running sums of the first differences give back the series:
      the differences telescope. */
  lemma {:induction false} PrefixSumsOfDifferences(c: seq<int>)
    ensures PrefixSums(Differences(c)) == c
  {
    var d := Differences(c);
    forall i | 0 <= i < |c|
      ensures Total(d[..i + 1]) == c[i]
    {
      Telescope(c, i);
    }
  }

  lemma {:induction false} Telescope(c: seq<int>, i: nat)
    requires i < |c|
    ensures Total(Differences(c)[..i + 1]) == c[i]
    decreases i
  {
    var d := Differences(c);
    assert d[..i + 1][..i] == d[..i];
    if i > 0 {
      Telescope(c, i - 1);
    }
  }

  /** The first differences of the running sums give back the series. */
  lemma {:induction false} DifferencesOfPrefixSums(xs: seq<int>)
    ensures Differences(PrefixSums(xs)) == xs
  {
    var p := PrefixSums(xs);
    forall i | 0 <= i < |xs|
      ensures Differences(p)[i] == xs[i]
    {
      assert xs[..i + 1][..i] == xs[..i];
      assert p[i] == Total(xs[..i]) + xs[i];
      if i > 0 {
        assert p[i - 1] == Total(xs[..i]);
      } else {
        assert xs[..0] == [];
      }
    }
  }

  /** Running sums of non-negative counts never decrease, and the last one
      is the total. */
  lemma {:induction false} PrefixSumsMonotone(xs: seq<int>)
    requires AllNonNegative(xs)
    ensures NonDecreasing(PrefixSums(xs))
    ensures |xs| > 0 ==> PrefixSums(xs)[|xs| - 1] == Total(xs)
  {
    var p := PrefixSums(xs);
    assert |xs| > 0 ==> xs[..|xs|] == xs;
    forall i, j | 0 <= i <= j < |xs|
      ensures p[i] <= p[j]
    {
      PrefixTotalGrows(xs, i, j);
    }
  }

  lemma {:induction false} PrefixTotalGrows(xs: seq<int>, i: nat, j: nat)
    requires AllNonNegative(xs)
    requires i <= j < |xs|
    ensures Total(xs[..i + 1]) <= Total(xs[..j + 1])
    decreases j - i
  {
    if i < j {
      PrefixTotalGrows(xs, i, j - 1);
      assert xs[..j + 1][..j] == xs[..j];
    }
  }

  /** A series has non-negative first differences exactly when it starts
      at a non-negative value and never decreases. */
  lemma {:induction false} NonNegativeDifferences(c: seq<int>)
    ensures AllNonNegative(Differences(c)) <==> (NonDecreasing(c) && (|c| > 0 ==> c[0] >= 0))
  {
    var d := Differences(c);
    if AllNonNegative(d) {
      forall i, j | 0 <= i <= j < |c|
        ensures c[i] <= c[j]
      {
        StepsUp(c, i, j);
      }
      if |c| > 0 {
        assert d[0] >= 0;
      }
    }
    if NonDecreasing(c) && (|c| > 0 ==> c[0] >= 0) {
      forall i | 0 <= i < |d|
        ensures d[i] >= 0
      {
        if i > 0 {
          assert c[i - 1] <= c[i];
        }
      }
    }
  }

  lemma {:induction false} StepsUp(c: seq<int>, i: nat, j: nat)
    requires AllNonNegative(Differences(c))
    requires i <= j < |c|
    ensures c[i] <= c[j]
    decreases j - i
  {
    if i < j {
      StepsUp(c, i, j - 1);
      assert Differences(c)[j] >= 0;
    }
  }

  /** The first differences of a non-empty series add up to its last
      value. */
  lemma TotalOfDifferences(c: seq<int>)
    requires |c| > 0
    ensures Total(Differences(c)) == c[|c| - 1]
  {
    Telescope(c, |c| - 1);
    assert Differences(c)[..|c|] == Differences(c);
  }
}
