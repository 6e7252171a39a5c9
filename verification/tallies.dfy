/** Frequency tables in the manner of pandas' `value_counts`: the distinct
    values of a column with the number of times each occurs, missing cells
    ignored, most frequent first. Also the stable insertion sort the model
    uses for both orderings a derivation needs (by count, and by key). */
module Tallies {
  import opened Results
  import opened Sums

  /** One row of a frequency table. */
  datatype Tally<T> = Tally(value: T, count: int)

  function ValuesOf<T>(ts: seq<Tally<T>>): seq<T>
  {
    seq(|ts|, i requires 0 <= i < |ts| => ts[i].value)
  }

  function CountsOf<T>(ts: seq<Tally<T>>): seq<int>
  {
    seq(|ts|, i requires 0 <= i < |ts| => ts[i].count)
  }

  /** No row appears twice. */
  predicate NoRepeats<T(==)>(ts: seq<Tally<T>>)
  {
    forall i, j :: 0 <= i < j < |ts| ==> ts[i] != ts[j]
  }

  /** `ts` is a frequency table of `xs`: its rows are exactly the pairs
      (v, number of occurrences of v in `xs`) for the values v of `xs`,
      each once. */
  predicate IsTallyOf<T(==)>(ts: seq<Tally<T>>, xs: seq<T>)
  {
    && NoRepeats(ts)
    && (forall e :: e in ts ==> e.value in xs && e.count == multiset(xs)[e.value])
    && (forall v :: v in xs ==> Tally(v, multiset(xs)[v]) in ts)
  }

  /** What a frequency table promises row by row: distinct values, every
      count the value's multiplicity (so at least one), and a row for every
      value that occurs. */
  lemma TallyFacts<T>(ts: seq<Tally<T>>, xs: seq<T>)
    requires IsTallyOf(ts, xs)
    ensures forall i, j :: 0 <= i < j < |ts| ==> ts[i].value != ts[j].value
    ensures forall i :: 0 <= i < |ts| ==> ts[i].count == multiset(xs)[ts[i].value] >= 1
    ensures forall v :: v in xs <==> v in ValuesOf(ts)
  {
    forall i | 0 <= i < |ts|
      ensures ts[i].count == multiset(xs)[ts[i].value] >= 1
    {
      assert ts[i] in ts;
    }
    forall v | v in xs
      ensures v in ValuesOf(ts)
    {
      var e := Tally(v, multiset(xs)[v]);
      assert e in ts;
      var k :| 0 <= k < |ts| && ts[k] == e;
      assert ValuesOf(ts)[k] == v;
    }
    forall v | v in ValuesOf(ts)
      ensures v in xs
    {
      var k :| 0 <= k < |ts| && ValuesOf(ts)[k] == v;
      assert ts[k] in ts;
    }
  }

  /** Counting one more occurrence of `x`: its row goes up by one, or a new
      row (x, 1) is appended when `x` has not been seen yet. */
  function Bump<T(==)>(acc: seq<Tally<T>>, x: T): (r: seq<Tally<T>>)
    ensures x !in ValuesOf(acc) ==> r == acc + [Tally(x, 1)]
    ensures x in ValuesOf(acc) ==>
              var k := FirstIndex(ValuesOf(acc), x);
              r == acc[k := Tally(x, acc[k].count + 1)]
  {
    if |acc| == 0 then [Tally(x, 1)]
    else if acc[0].value == x then
      assert ValuesOf(acc)[0] == x;
      [Tally(x, acc[0].count + 1)] + acc[1..]
    else
      var rest := Bump(acc[1..], x);
      assert ValuesOf(acc) == [acc[0].value] + ValuesOf(acc[1..]);
      assert x in ValuesOf(acc[1..]) ==>
               FirstIndex(ValuesOf(acc), x) == FirstIndex(ValuesOf(acc[1..]), x) + 1;
      [acc[0]] + rest
  }

  lemma MultisetUpdate<T>(s: seq<T>, k: nat, y: T)
    requires k < |s|
    ensures multiset(s[k := y]) == multiset(s) - multiset{s[k]} + multiset{y}
  {
    assert s == s[..k] + [s[k]] + s[k + 1..];
    assert s[k := y] == s[..k] + [y] + s[k + 1..];
  }

  /** Counting a further occurrence keeps a frequency table exact. */
  lemma BumpTally<T>(acc: seq<Tally<T>>, xs: seq<T>, x: T)
    requires IsTallyOf(acc, xs)
    ensures IsTallyOf(Bump(acc, x), xs + [x])
  {
    TallyFacts(acc, xs);
    var r := Bump(acc, x);
    if x !in ValuesOf(acc) {
      BumpUnseen(acc, xs, x, r);
    } else {
      var k := FirstIndex(ValuesOf(acc), x);
      BumpSeen(acc, xs, x, k, r);
    }
  }

  lemma BumpUnseen<T>(acc: seq<Tally<T>>, xs: seq<T>, x: T, r: seq<Tally<T>>)
    requires IsTallyOf(acc, xs) && x !in xs
    requires r == acc + [Tally(x, 1)]
    ensures IsTallyOf(r, xs + [x])
  {
    var ys := xs + [x];
    assert multiset(ys) == multiset(xs) + multiset{x};
    forall e | e in r
      ensures e.value in ys && e.count == multiset(ys)[e.value]
    {
      if e != Tally(x, 1) {
        assert e in acc;
      }
    }
    forall v | v in ys
      ensures Tally(v, multiset(ys)[v]) in r
    {
      if v != x {
        assert Tally(v, multiset(xs)[v]) in acc;
      }
    }
    forall i, j | 0 <= i < j < |r| ensures r[i] != r[j] {
      if j < |acc| {
        assert acc[i] != acc[j];
      } else {
        assert acc[i] in acc;
      }
    }
  }

  lemma BumpSeen<T>(acc: seq<Tally<T>>, xs: seq<T>, x: T, k: nat, r: seq<Tally<T>>)
    requires IsTallyOf(acc, xs)
    requires k < |acc| && acc[k].value == x
    requires forall i, j :: 0 <= i < j < |acc| ==> acc[i].value != acc[j].value
    requires r == acc[k := Tally(x, acc[k].count + 1)]
    ensures IsTallyOf(r, xs + [x])
  {
    var ys := xs + [x];
    assert multiset(ys) == multiset(xs) + multiset{x};
    assert acc[k] in acc;
    forall e | e in r
      ensures e.value in ys && e.count == multiset(ys)[e.value]
    {
      var j :| 0 <= j < |r| && r[j] == e;
      if j != k {
        assert acc[j] in acc;
      }
    }
    forall v | v in ys
      ensures Tally(v, multiset(ys)[v]) in r
    {
      if v == x {
        assert r[k] == Tally(v, multiset(ys)[v]);
      } else {
        var e := Tally(v, multiset(xs)[v]);
        assert e in acc;
        var j :| 0 <= j < |acc| && acc[j] == e;
        assert r[j] == e;
      }
    }
    forall i, j | 0 <= i < j < |r| ensures r[i] != r[j] {
      if i != k && j != k {
        assert acc[i] != acc[j];
      }
    }
  }

  /** The rows in order of first appearance, each counted. */
  function FirstSeen<T(==)>(xs: seq<T>): (ts: seq<Tally<T>>)
    ensures IsTallyOf(ts, xs)
    ensures Total(CountsOf(ts)) == |xs|
  {
    if |xs| == 0 then []
    else
      var n := |xs| - 1;
      var acc := FirstSeen(xs[..n]);
      assert xs == xs[..n] + [xs[n]];
      BumpTally(acc, xs[..n], xs[n]);
      var r := Bump(acc, xs[n]);
      BumpTotal(acc, xs[n]);
      r
  }

  lemma BumpTotal<T>(acc: seq<Tally<T>>, x: T)
    ensures Total(CountsOf(Bump(acc, x))) == Total(CountsOf(acc)) + 1
  {
    var r := Bump(acc, x);
    if x !in ValuesOf(acc) {
      assert CountsOf(r) == CountsOf(acc) + [1];
      TotalAppend(CountsOf(acc), 1);
    } else {
      var k :| 0 <= k < |acc| && ValuesOf(acc)[k] == x;
      var k0 := FirstIndex(ValuesOf(acc), x);
      assert ValuesOf(acc[..k0]) == ValuesOf(acc)[..k0];
      var c := CountsOf(acc);
      assert CountsOf(r) == c[..k0] + [c[k0] + 1] + c[k0 + 1..];
      assert c == c[..k0] + [c[k0]] + c[k0 + 1..];
      TotalConcat(c[..k0] + [c[k0]], c[k0 + 1..]);
      TotalConcat(c[..k0] + [c[k0] + 1], c[k0 + 1..]);
      TotalAppend(c[..k0], c[k0]);
      TotalAppend(c[..k0], c[k0] + 1);
    }
  }

  /** The first position of `x` in `s`. */
  function FirstIndex<T(==)>(s: seq<T>, x: T): (k: nat)
    requires x in s
    ensures k < |s| && s[k] == x && x !in s[..k]
  {
    if s[0] == x then 0
    else
      var k := FirstIndex(s[1..], x);
      assert s[1..][..k] == s[1..k + 1];
      1 + k
  }

  /** Inserts `x` in front of the first row it `goesBefore`: rows it does
      not go before keep their place ahead of it (the sort is stable). */
  function InsertBy<T(==)>(s: seq<Tally<T>>, x: Tally<T>, goesBefore: (Tally<T>, Tally<T>) -> bool): (r: seq<Tally<T>>)
    ensures multiset(r) == multiset(s) + multiset{x}
    ensures Total(CountsOf(r)) == Total(CountsOf(s)) + x.count
  {
    if |s| == 0 then
      assert CountsOf([x]) == [] + [x.count];
      [x]
    else if goesBefore(x, s[0]) then
      TotalCons(x, s);
      [x] + s
    else
      var rest := InsertBy(s[1..], x, goesBefore);
      assert s == [s[0]] + s[1..];
      TotalCons(s[0], s[1..]);
      TotalCons(s[0], rest);
      [s[0]] + rest
  }

  lemma TotalCons<T>(x: Tally<T>, s: seq<Tally<T>>)
    ensures Total(CountsOf([x] + s)) == x.count + Total(CountsOf(s))
  {
    assert CountsOf([x] + s) == [x.count] + CountsOf(s);
    TotalConcat([x.count], CountsOf(s));
    assert Total([x.count]) == Total([]) + x.count;
  }

  /** Insertion sort by `goesBefore`; equal rows keep their order. */
  function SortBy<T(==)>(ts: seq<Tally<T>>, goesBefore: (Tally<T>, Tally<T>) -> bool): (r: seq<Tally<T>>)
    ensures multiset(r) == multiset(ts)
    ensures Total(CountsOf(r)) == Total(CountsOf(ts))
  {
    if |ts| == 0 then []
    else
      var n := |ts| - 1;
      assert ts == ts[..n] + [ts[n]];
      TotalAppend(CountsOf(ts[..n]), ts[n].count);
      assert CountsOf(ts) == CountsOf(ts[..n]) + [ts[n].count];
      InsertBy(SortBy(ts[..n], goesBefore), ts[n], goesBefore)
  }

  lemma RepeatedInMultiset<T>(s: seq<T>, i: nat, j: nat)
    requires i < j < |s| && s[i] == s[j]
    ensures multiset(s)[s[i]] >= 2
  {
    assert s == s[..j] + s[j..];
    assert s[i] in s[..j];
    assert s[j] in s[j..];
  }

  lemma {:induction false} OnceInMultiset<T>(s: seq<Tally<T>>, k: nat)
    requires NoRepeats(s) && k < |s|
    ensures multiset(s)[s[k]] == 1
  {
    assert s == [s[0]] + s[1..];
    if k == 0 {
      assert s[0] !in s[1..] by {
        forall i | 0 <= i < |s| - 1 ensures s[1..][i] != s[0] {
          assert s[1..][i] == s[i + 1];
        }
      }
    } else {
      OnceInMultiset(s[1..], k - 1);
      assert s[1..][k - 1] == s[k];
    }
  }

  /** Reordering the rows of a frequency table leaves a frequency table. */
  lemma PermutedTally<T>(ts: seq<Tally<T>>, us: seq<Tally<T>>, xs: seq<T>)
    requires IsTallyOf(ts, xs)
    requires multiset(us) == multiset(ts)
    ensures IsTallyOf(us, xs)
  {
    forall e | e in us ensures e in ts {
      assert e in multiset(us);
    }
    forall e | e in ts ensures e in us {
      assert e in multiset(ts);
    }
    forall i, j | 0 <= i < j < |us| ensures us[i] != us[j] {
      if us[i] == us[j] {
        RepeatedInMultiset(us, i, j);
        assert us[i] in ts;
        var k :| 0 <= k < |ts| && ts[k] == us[i];
        OnceInMultiset(ts, k);
      }
    }
  }

  /** Most frequent first. */
  predicate MoreFrequent<T>(a: Tally<T>, b: Tally<T>)
  {
    a.count > b.count
  }

  predicate NonIncreasing<T>(ts: seq<Tally<T>>)
  {
    forall i, j :: 0 <= i < j < |ts| ==> ts[i].count >= ts[j].count
  }

  /** Every row of an insertion comes from the sequence or is the row
      inserted. */
  lemma InsertByRows<T>(s: seq<Tally<T>>, x: Tally<T>, goesBefore: (Tally<T>, Tally<T>) -> bool)
    ensures forall e :: e in InsertBy(s, x, goesBefore) ==> e in s || e == x
  {
    var r := InsertBy(s, x, goesBefore);
    forall e | e in r ensures e in s || e == x {
      assert e in multiset(r);
    }
  }

  lemma {:induction false} InsertByCount<T>(s: seq<Tally<T>>, x: Tally<T>)
    requires NonIncreasing(s)
    ensures NonIncreasing(InsertBy(s, x, MoreFrequent))
  {
    if |s| == 0 {
    } else if MoreFrequent(x, s[0]) {
      assert InsertBy(s, x, MoreFrequent) == [x] + s;
      forall e | e in s ensures x.count >= e.count {
        var k :| 0 <= k < |s| && s[k] == e;
        assert k == 0 || s[0].count >= s[k].count;
      }
      ConsNonIncreasing(x, s);
    } else {
      var tail := s[1..];
      assert NonIncreasing(tail) by {
        forall i, j | 0 <= i < j < |tail| ensures tail[i].count >= tail[j].count {
          assert tail[i] == s[i + 1] && tail[j] == s[j + 1];
        }
      }
      var rest := InsertBy(tail, x, MoreFrequent);
      InsertByCount(tail, x);
      InsertByRows(tail, x, MoreFrequent);
      forall e | e in rest ensures s[0].count >= e.count {
        if e != x {
          var k :| 0 <= k < |tail| && tail[k] == e;
          assert s[k + 1] == e;
        }
      }
      ConsNonIncreasing(s[0], rest);
    }
  }

  /** A row no smaller than any row of a non-increasing sequence can lead
      it. */
  lemma ConsNonIncreasing<T>(h: Tally<T>, rest: seq<Tally<T>>)
    requires NonIncreasing(rest)
    requires forall e :: e in rest ==> h.count >= e.count
    ensures NonIncreasing([h] + rest)
  {
    var r := [h] + rest;
    forall i, j | 0 <= i < j < |r| ensures r[i].count >= r[j].count {
      assert r[j] == rest[j - 1];
      if i > 0 {
        assert r[i] == rest[i - 1];
      } else {
        assert rest[j - 1] in rest;
      }
    }
  }

  lemma {:induction false} SortByCountOrdered<T>(ts: seq<Tally<T>>)
    ensures NonIncreasing(SortBy(ts, MoreFrequent))
  {
    if |ts| > 0 {
      var n := |ts| - 1;
      SortByCountOrdered(ts[..n]);
      InsertByCount(SortBy(ts[..n], MoreFrequent), ts[n]);
    }
  }

  /** `value_counts`: the frequency table of the values present in `xs`,
      most frequent first, counts adding up to the number of values. */
  function ValueCounts<T(==)>(xs: seq<Option<T>>): (r: seq<Tally<T>>)
    ensures IsTallyOf(r, Values(xs))
    ensures NonIncreasing(r)
    ensures Total(CountsOf(r)) == |Values(xs)|
  {
    var seen := FirstSeen(Values(xs));
    var r := SortBy(seen, MoreFrequent);
    PermutedTally(seen, r, Values(xs));
    SortByCountOrdered(seen);
    r
  }
}
