/** Per-city series drawn from the line list: the number of cases (patients
    without a death date) or deaths (patients with one) notified on each
    date in one city, and their running totals.

    The notification date is the text of the file ("dd/mm/yyyy hh:mm:ss")
    and is never parsed before the series is sorted and summed, so the
    sort orders dates as text. `DateOrder` names the two orders the model
    can sort by: the text order the code uses, and the chronological order
    the writers restore afterwards. */
module CitySeries {
  import opened Results
  import opened Text
  import opened Sums
  import opened Tallies
  import opened LineList

  datatype Population = Cases | Deaths

  /** A record counts for `city` as a case while it has no death date, as a
      death once it has one. A record with no city belongs to no city. */
  predicate InPopulation(r: Record, city: string, p: Population)
  {
    && r.city == Some(city)
    && match p
       case Cases => r.deathDate.None?
       case Deaths => r.deathDate.Some?
  }

  /** The notification dates of the records of `city` in `p`, in file
      order, missing dates included. */
  function DateColumn(records: seq<Record>, city: string, p: Population): (r: seq<Option<string>>)
    ensures |r| <= |records|
  {
    if |records| == 0 then []
    else (if InPopulation(records[0], city, p) then [records[0].date] else [])
         + DateColumn(records[1..], city, p)
  }

  /** The date column holds the date of every record of `city` in `p`, and
      nothing else: each of its cells is the date of such a record. */
  lemma {:induction false} DateColumnSelects(records: seq<Record>, city: string, p: Population)
    ensures forall j :: 0 <= j < |records| && InPopulation(records[j], city, p) ==>
              records[j].date in DateColumn(records, city, p)
    ensures forall d :: d in DateColumn(records, city, p) ==>
              exists j :: 0 <= j < |records| && InPopulation(records[j], city, p) && records[j].date == d
    decreases |records|
  {
    if |records| > 0 {
      var rest := records[1..];
      DateColumnSelects(rest, city, p);
      assert forall j :: 1 <= j < |records| ==> records[j] == rest[j - 1];
      forall d | d in DateColumn(records, city, p)
        ensures exists j :: 0 <= j < |records| && InPopulation(records[j], city, p) && records[j].date == d
      {
        if !(InPopulation(records[0], city, p) && records[0].date == d) {
          assert d in DateColumn(rest, city, p);
          var j :| 0 <= j < |rest| && InPopulation(rest[j], city, p) && rest[j].date == d;
          assert records[j + 1] == rest[j];
        }
      }
    }
  }

  /** The notification dates of every record of `city`, dead or alive. */
  function CityDates(records: seq<Record>, city: string): (r: seq<Option<string>>)
    ensures |r| <= |records|
  {
    if |records| == 0 then []
    else (if records[0].city == Some(city) then [records[0].date] else [])
         + CityDates(records[1..], city)
  }

  lemma ValuesConcat<T>(xs: seq<Option<T>>, ys: seq<Option<T>>)
    ensures Values(xs + ys) == Values(xs) + Values(ys)
  {
    if |xs| > 0 {
      assert (xs + ys)[1..] == xs[1..] + ys;
      ValuesConcat(xs[1..], ys);
    } else {
      assert xs + ys == ys;
    }
  }

  /** Every dated record of a city is either a case or a death, never both:
      the two per-day tables of a city count its dated records exactly once
      between them. */
  lemma {:induction false} CasesAndDeathsPartition(records: seq<Record>, city: string)
    ensures |Values(DateColumn(records, city, Cases))| + |Values(DateColumn(records, city, Deaths))|
            == |Values(CityDates(records, city))|
  {
    if |records| > 0 {
      CasesAndDeathsPartition(records[1..], city);
      var head := [records[0].date];
      var none: seq<Option<string>> := [];
      var c := if InPopulation(records[0], city, Cases) then head else none;
      var d := if InPopulation(records[0], city, Deaths) then head else none;
      var a := if records[0].city == Some(city) then head else none;
      ValuesConcat(c, DateColumn(records[1..], city, Cases));
      ValuesConcat(d, DateColumn(records[1..], city, Deaths));
      ValuesConcat(a, CityDates(records[1..], city));
      assert Values(none) == [];
      assert |Values(c)| + |Values(d)| == |Values(a)|;
    }
  }

  datatype DateOrder = TextOrder | Chronological

  /** A "dd/mm/yyyy ..." date rewritten year first ("yyyy/mm/dd ..."), so
      that text order on the result is order by date. The day, month and
      year are taken at fixed positions, so the date must be zero padded; the
      time of day that follows is compared as text, which orders an unpadded
      "9:00:00" after "10:00:00". Shorter text is left as it is. */
  function ChronoKey(s: string): (r: string)
    ensures |r| == |s|
  {
    if |s| >= 10 then s[6..10] + [s[5]] + s[3..5] + [s[2]] + s[0..2] + s[10..]
    else s
  }

  lemma ChronoKeyInjective(a: string, b: string)
    requires ChronoKey(a) == ChronoKey(b)
    ensures a == b
  {
    if |a| >= 10 {
      var k := ChronoKey(a);
      assert k[0..4] == a[6..10] == b[6..10];
      assert k[4] == a[5] == b[5];
      assert k[5..7] == a[3..5] == b[3..5];
      assert k[7] == a[2] == b[2];
      assert k[8..10] == a[0..2] == b[0..2];
      assert k[10..] == a[10..] == b[10..];
      assert a == a[0..2] + [a[2]] + a[3..5] + [a[5]] + a[6..10] + a[10..];
      assert b == b[0..2] + [b[2]] + b[3..5] + [b[5]] + b[6..10] + b[10..];
    }
  }

  /** The text a date is compared by under order `o`. */
  function Rank(o: DateOrder, s: string): string
  {
    match o
    case TextOrder => s
    case Chronological => ChronoKey(s)
  }

  /** Date `a` sorts strictly before date `b` under order `o`. */
  predicate Before(o: DateOrder, a: string, b: string)
  {
    LexLess(Rank(o, a), Rank(o, b))
  }

  /** Both orders are strict total orders on dates. */
  lemma BeforeIsStrictTotal(o: DateOrder, a: string, b: string, c: string)
    ensures !Before(o, a, a)
    ensures Before(o, a, b) && Before(o, b, c) ==> Before(o, a, c)
    ensures a != b ==> (Before(o, a, b) <==> !Before(o, b, a))
  {
    LexLessIrreflexive(Rank(o, a));
    if Before(o, a, b) && Before(o, b, c) {
      LexLessTransitive(Rank(o, a), Rank(o, b), Rank(o, c));
    }
    LexLessTrichotomy(Rank(o, a), Rank(o, b));
    if a != b && Rank(o, a) == Rank(o, b) {
      ChronoKeyInjective(a, b);
    }
  }

  /** `sort_index`'s comparison on rows keyed by date. */
  function EarlierKey(o: DateOrder): (Tally<string>, Tally<string>) -> bool
  {
    (a: Tally<string>, b: Tally<string>) => Before(o, a.value, b.value)
  }

  /** Rows strictly ascending by date. */
  predicate Ascending(o: DateOrder, ts: seq<Tally<string>>)
  {
    forall i, j :: 0 <= i < j < |ts| ==> Before(o, ts[i].value, ts[j].value)
  }

  lemma {:induction false} InsertByKey(o: DateOrder, s: seq<Tally<string>>, x: Tally<string>)
    requires Ascending(o, s)
    requires x.value !in ValuesOf(s)
    ensures Ascending(o, InsertBy(s, x, EarlierKey(o)))
  {
    if |s| == 0 {
    } else if EarlierKey(o)(x, s[0]) {
      assert InsertBy(s, x, EarlierKey(o)) == [x] + s;
      AscendingCons(o, x, s);
    } else {
      var rest := InsertBy(s[1..], x, EarlierKey(o));
      assert ValuesOf(s) == [s[0].value] + ValuesOf(s[1..]);
      InsertByKey(o, s[1..], x);
      InsertByRows(s[1..], x, EarlierKey(o));
      BeforeIsStrictTotal(o, x.value, s[0].value, x.value);
      assert InsertBy(s, x, EarlierKey(o)) == [s[0]] + rest;
      forall e | e in rest ensures Before(o, s[0].value, e.value) {
        if e != x {
          var k :| 0 <= k < |s[1..]| && s[1..][k] == e;
          assert s[k + 1] == e;
        }
      }
      AscendingCons(o, s[0], rest);
    }
  }

  /** A row before every row of an ascending sequence may lead it. */
  lemma AscendingCons(o: DateOrder, x: Tally<string>, s: seq<Tally<string>>)
    requires Ascending(o, s)
    requires (|s| > 0 && Before(o, x.value, s[0].value)) || forall e :: e in s ==> Before(o, x.value, e.value)
    ensures Ascending(o, [x] + s)
  {
    var r := [x] + s;
    forall j | 0 < j < |r| ensures Before(o, x.value, r[j].value) {
      assert r[j] == s[j - 1] && s[j - 1] in s;
      if j > 1 && Before(o, x.value, s[0].value) {
        BeforeIsStrictTotal(o, x.value, s[0].value, s[j - 1].value);
      }
    }
    forall i, j | 0 <= i < j < |r| ensures Before(o, r[i].value, r[j].value) {
      if i > 0 {
        assert r[i] == s[i - 1] && r[j] == s[j - 1];
      }
    }
  }

  /** Sorting rows with distinct dates by date leaves them strictly
      ascending. */
  lemma {:induction false} SortByKeyOrdered(o: DateOrder, ts: seq<Tally<string>>)
    requires forall i, j :: 0 <= i < j < |ts| ==> ts[i].value != ts[j].value
    ensures Ascending(o, SortBy(ts, EarlierKey(o)))
  {
    if |ts| > 0 {
      var n := |ts| - 1;
      var sorted := SortBy(ts[..n], EarlierKey(o));
      SortByKeyOrdered(o, ts[..n]);
      LastValueNew(ts, sorted);
      InsertByKey(o, sorted, ts[n]);
      assert SortBy(ts, EarlierKey(o)) == InsertBy(sorted, ts[n], EarlierKey(o));
    }
  }

  lemma LastValueNew<T>(ts: seq<Tally<T>>, sorted: seq<Tally<T>>)
    requires |ts| > 0
    requires forall i, j :: 0 <= i < j < |ts| ==> ts[i].value != ts[j].value
    requires multiset(sorted) == multiset(ts[..|ts| - 1])
    ensures ts[|ts| - 1].value !in ValuesOf(sorted)
  {
    var n := |ts| - 1;
    forall k | 0 <= k < |sorted| ensures ValuesOf(sorted)[k] != ts[n].value {
      assert sorted[k] in multiset(ts[..n]);
      var m :| 0 <= m < n && ts[..n][m] == sorted[k];
      assert ts[m] == sorted[k];
    }
  }

  /** `value_counts().sort_index()` of the dates of `city` in `p`: how many
      records were notified on each date, dates ascending under `o`. */
  function PerDay(records: seq<Record>, city: string, p: Population, o: DateOrder): (r: seq<Tally<string>>)
    ensures IsTallyOf(r, Values(DateColumn(records, city, p)))
    ensures Ascending(o, r)
    ensures Total(CountsOf(r)) == |Values(DateColumn(records, city, p))|
  {
    var dates := Values(DateColumn(records, city, p));
    var counted := ValueCounts(DateColumn(records, city, p));
    TallyFacts(counted, dates);
    var r := SortBy(counted, EarlierKey(o));
    PermutedTally(counted, r, dates);
    SortByKeyOrdered(o, counted);
    r
  }

  /** The per-day table of a city as the code builds it: sorted by the date
      text. Every date of the population appears once, with the number of
      records notified on it, and the counts add up to the dated records. */
  function CityPerDay(records: seq<Record>, city: string, p: Population): (r: seq<Tally<string>>)
    ensures IsTallyOf(r, Values(DateColumn(records, city, p)))
    ensures Ascending(TextOrder, r)
    ensures Total(CountsOf(r)) == |Values(DateColumn(records, city, p))|
  {
    PerDay(records, city, p, TextOrder)
  }

  /** `cumsum`: each row's count replaced by the total of the counts up to
      and including it. The per-day counts are its successive differences,
      it never decreases, and its last row is the grand total. */
  function RunningSum(ts: seq<Tally<string>>): (r: seq<Tally<string>>)
    ensures ValuesOf(r) == ValuesOf(ts)
    ensures Differences(CountsOf(r)) == CountsOf(ts)
    ensures AllNonNegative(CountsOf(ts)) ==> NonDecreasing(CountsOf(r))
    ensures |ts| > 0 ==> r[|r| - 1].count == Total(CountsOf(ts))
  {
    var sums := PrefixSums(CountsOf(ts));
    var r := seq(|ts|, i requires 0 <= i < |ts| => Tally(ts[i].value, sums[i]));
    assert CountsOf(r) == sums;
    RunningTotals(CountsOf(ts));
    r
  }

  lemma RunningTotals(xs: seq<int>)
    ensures Differences(PrefixSums(xs)) == xs
    ensures AllNonNegative(xs) ==> NonDecreasing(PrefixSums(xs))
    ensures |xs| > 0 ==> PrefixSums(xs)[|xs| - 1] == Total(xs)
  {
    assert Differences(PrefixSums(xs)) == xs by { DifferencesOfPrefixSums(xs); }
    assert AllNonNegative(xs) ==> NonDecreasing(PrefixSums(xs)) by {
      if AllNonNegative(xs) {
        PrefixSumsMonotone(xs);
      }
    }
    assert |xs| > 0 ==> PrefixSums(xs)[|xs| - 1] == Total(xs) by {
      if |xs| > 0 {
        assert xs[..|xs|] == xs;
      }
    }
  }

  /** The running totals of a city exactly as the code computes them: summed
      in text order of the dates. */
  function CityProgressionAsWritten(records: seq<Record>, city: string, p: Population): (r: seq<Tally<string>>)
    ensures ValuesOf(r) == ValuesOf(CityPerDay(records, city, p))
    ensures Differences(CountsOf(r)) == CountsOf(CityPerDay(records, city, p))
  {
    RunningSum(CityPerDay(records, city, p))
  }

  /** Two records of one city, notified on 15 March and 2 April 2020. In text
      order "02/04/2020" comes first, so the running total credits 2 April
      with one case and 15 March with two: once the writer sorts the rows by
      date, the cumulative count falls from two to one. */
  lemma TextOrderProgressionFalls()
    ensures var rs := [Record(Some("15/03/2020 0:00:00"), None, Some("Cali"), None, None),
                       Record(Some("02/04/2020 0:00:00"), None, Some("Cali"), None, None)];
            var prog := CityProgressionAsWritten(rs, "Cali", Cases);
            && |prog| == 2
            && Before(Chronological, prog[1].value, prog[0].value)
            && prog[1].count > prog[0].count
  {
    var march, april := "15/03/2020 0:00:00", "02/04/2020 0:00:00";
    var rs := [Record(Some(march), None, Some("Cali"), None, None),
               Record(Some(april), None, Some("Cali"), None, None)];
    ExampleDates(rs, march, april);
    ExampleFirstSeen(march, april);
    ExampleByCount(march, april);
    LexLessAtDifference(april, march, 0);
    ExampleByDate(march, april);
    assert CityPerDay(rs, "Cali", Cases) == [Tally(april, 1), Tally(march, 1)];
    ExampleRunningSum(march, april);
    ExampleChronology(march, april);
  }

  lemma ExampleDates(rs: seq<Record>, march: string, april: string)
    requires rs == [Record(Some(march), None, Some("Cali"), None, None),
                    Record(Some(april), None, Some("Cali"), None, None)]
    ensures Values(DateColumn(rs, "Cali", Cases)) == [march, april]
  {
    assert rs[1..][1..] == [];
    assert DateColumn(rs, "Cali", Cases) == [Some(march), Some(april)];
    assert Values([Some(april)]) == [april] + Values([]);
  }

  lemma ExampleFirstSeen(march: string, april: string)
    requires march != april
    ensures FirstSeen([march, april]) == [Tally(march, 1), Tally(april, 1)]
  {
    var one := [Tally(march, 1)];
    assert [march][..0] == [];
    assert FirstSeen([march]) == Bump([], march) == one;
    assert [march, april][..1] == [march];
    assert FirstSeen([march, april]) == Bump(one, april);
    assert ValuesOf(one) == [march];
  }

  lemma ExampleByCount(march: string, april: string)
    ensures SortBy([Tally(march, 1), Tally(april, 1)], MoreFrequent) == [Tally(march, 1), Tally(april, 1)]
  {
    var seen := [Tally(march, 1), Tally(april, 1)];
    assert seen[..1] == [Tally(march, 1)];
    assert SortBy([Tally(march, 1)], MoreFrequent) == [Tally(march, 1)];
  }

  lemma ExampleByDate(march: string, april: string)
    requires Before(TextOrder, april, march)
    ensures SortBy([Tally(march, 1), Tally(april, 1)], EarlierKey(TextOrder)) == [Tally(april, 1), Tally(march, 1)]
  {
    var seen := [Tally(march, 1), Tally(april, 1)];
    assert seen[..1] == [Tally(march, 1)];
    assert SortBy([Tally(march, 1)], EarlierKey(TextOrder)) == [Tally(march, 1)];
    assert EarlierKey(TextOrder)(Tally(april, 1), Tally(march, 1));
  }

  lemma ExampleRunningSum(march: string, april: string)
    ensures RunningSum([Tally(april, 1), Tally(march, 1)]) == [Tally(april, 1), Tally(march, 2)]
  {
    var daily := [Tally(april, 1), Tally(march, 1)];
    assert CountsOf(daily) == [1, 1];
    assert [1, 1][..1] == [1] && [1, 1][..2] == [1, 1];
    assert Total([1]) == 1 && Total([1, 1]) == 2;
    assert PrefixSums([1, 1]) == [1, 2];
  }

  lemma ExampleChronology(march: string, april: string)
    requires march == "15/03/2020 0:00:00" && april == "02/04/2020 0:00:00"
    ensures Before(Chronological, march, april)
  {
    ChronoKeyFront(march);
    ChronoKeyFront(april);
    assert march[6..10] == april[6..10] && march[5] == april[5] && march[3] == april[3];
    assert march[4] < april[4];
    LexLessAtDifference(ChronoKey(march), ChronoKey(april), 6);
  }

  /** The year, separator and month's first digit lead the key. */
  lemma ChronoKeyFront(s: string)
    requires |s| >= 10
    ensures ChronoKey(s)[..6] == s[6..10] + [s[5]] + [s[3]]
    ensures ChronoKey(s)[6] == s[4]
  {
  }

  /** Non-negative counts: a frequency table's counts are all at least one. */
  lemma TallyCountsNonNegative(ts: seq<Tally<string>>, xs: seq<string>)
    requires IsTallyOf(ts, xs)
    ensures AllNonNegative(CountsOf(ts))
  {
    TallyFacts(ts, xs);
  }

  /** The running totals of a city summed in date order, as the output is
      meant to read: one row per date of the city's per-day table, a later
      date never has a smaller total, the daily counts are the differences,
      and the last total is the number of dated records of the city in
      `p`. */
  function CityProgression(records: seq<Record>, city: string, p: Population): (r: seq<Tally<string>>)
    ensures ValuesOf(r) == ValuesOf(PerDay(records, city, p, Chronological))
    ensures Ascending(Chronological, r)
    ensures forall i, j :: 0 <= i < |r| && 0 <= j < |r| && Before(Chronological, r[i].value, r[j].value) ==>
              r[i].count <= r[j].count
    ensures Differences(CountsOf(r)) == CountsOf(PerDay(records, city, p, Chronological))
    ensures |r| > 0 ==> r[|r| - 1].count == |Values(DateColumn(records, city, p))|
  {
    var daily := PerDay(records, city, p, Chronological);
    var r := RunningSum(daily);
    RunningSumOfDaily(Values(DateColumn(records, city, p)), daily, |Values(DateColumn(records, city, p))|, r);
    r
  }

  /** The running sum of a chronological per-day table of the `n` dates
      `xs`. */
  lemma RunningSumOfDaily(xs: seq<string>, daily: seq<Tally<string>>, n: nat, r: seq<Tally<string>>)
    requires IsTallyOf(daily, xs) && Ascending(Chronological, daily)
    requires Total(CountsOf(daily)) == n
    requires r == RunningSum(daily)
    ensures ValuesOf(r) == ValuesOf(daily)
    ensures Ascending(Chronological, r)
    ensures forall i, j :: 0 <= i < |r| && 0 <= j < |r| && Before(Chronological, r[i].value, r[j].value) ==>
              r[i].count <= r[j].count
    ensures Differences(CountsOf(r)) == CountsOf(daily)
    ensures |r| > 0 ==> r[|r| - 1].count == n
  {
    TallyCountsNonNegative(daily, xs);
    RunningSumAscending(daily);
  }

  lemma RunningSumAscending(daily: seq<Tally<string>>)
    requires Ascending(Chronological, daily)
    requires AllNonNegative(CountsOf(daily))
    ensures Ascending(Chronological, RunningSum(daily))
    ensures NonDecreasing(CountsOf(RunningSum(daily)))
    ensures var r := RunningSum(daily);
            forall i, j :: 0 <= i < |r| && 0 <= j < |r| && Before(Chronological, r[i].value, r[j].value) ==>
              r[i].count <= r[j].count
  {
    var r := RunningSum(daily);
    assert forall i :: 0 <= i < |r| ==> r[i].value == ValuesOf(r)[i] == daily[i].value;
    LaterNotSmaller(r);
  }

  /** Rows ascending by date with non-decreasing counts: whichever of two
      rows has the later date has the larger or equal count. */
  lemma LaterNotSmaller(r: seq<Tally<string>>)
    requires Ascending(Chronological, r)
    requires NonDecreasing(CountsOf(r))
    ensures forall i, j :: 0 <= i < |r| && 0 <= j < |r| && Before(Chronological, r[i].value, r[j].value) ==>
              r[i].count <= r[j].count
  {
    forall i, j | 0 <= i < |r| && 0 <= j < |r| && Before(Chronological, r[i].value, r[j].value)
      ensures r[i].count <= r[j].count
    {
      if j < i {
        BeforeIsStrictTotal(Chronological, r[i].value, r[j].value, r[i].value);
        assert false;
      } else {
        assert CountsOf(r)[i] <= CountsOf(r)[j];
      }
    }
  }
}
