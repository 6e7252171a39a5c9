/** Outbreak-aligned progressions: each country's cumulative series read
    from its own first-case (or first-death) day for at most a shared day
    budget, stopping at the first day without a column, and the table that
    lines these series up by "day since the outbreak began". */
module Progression {
  import opened Results
  import opened Dates
  import opened WideTables
  import opened CountrySeries

  /** The shared day budget: the days from the reference (Colombia's)
      start to the table's last column, plus two weeks, so that counted
      from the reference start it reaches 14 days past the last column. */
  function DayBudget(t: WideTable, referenceStart: Day): (b: int)
    ensures referenceStart + b == t.lastDay + 14
  {
    DaysBetween(t.lastDay, referenceStart) + 14
  }

  /** The series a progression may return: at most `budget` cells of row
      `row`, read at the keys of consecutive days from `start`, ending
      before the budget only at a day whose key is not a column. */
  predicate IsRun(t: WideTable, row: nat, key: Day -> string, start: Day, budget: int, s: seq<int>)
    requires WellFormed(t) && row < |t.countries|
  {
    var ks := Window(key, start, budget);
    && |s| <= |ks|
    && (forall i :: 0 <= i < |s| ==> ks[i] in t.columns && s[i] == t.columns[ks[i]][row])
    && (|s| < |ks| ==> ks[|s|] !in t.columns)
  }

  /** The loop of `__country_cases_progression`: for each key in turn,
      append its cell while the key is a column, and break at the first
      key that is not. */
  function Walk(t: WideTable, row: nat, ks: seq<string>): (r: seq<int>)
    requires WellFormed(t) && row < |t.countries|
    ensures |r| <= |ks|
    ensures forall i :: 0 <= i < |r| ==> ks[i] in t.columns && r[i] == t.columns[ks[i]][row]
    ensures |r| < |ks| ==> ks[|r|] !in t.columns
  {
    if |ks| == 0 || ks[0] !in t.columns then []
    else [t.columns[ks[0]][row]] + Walk(t, row, ks[1..])
  }

  /** There is exactly one run: the progression is determined by the
      table, and it stops at the first day without a column even when
      later days have one. */
  lemma {:induction false} RunIsUnique(t: WideTable, row: nat, key: Day -> string, start: Day, budget: int, s: seq<int>)
    requires WellFormed(t) && row < |t.countries|
    requires IsRun(t, row, key, start, budget, s)
    ensures s == Walk(t, row, Window(key, start, budget))
  {
    var ks := Window(key, start, budget);
    var w := Walk(t, row, ks);
    assert |s| == |w|;
  }

  /** Day `i` of a run is read at the key of day `start + i`. */
  lemma RunReadsDay(t: WideTable, row: nat, key: Day -> string, start: Day, budget: int, s: seq<int>, i: nat)
    requires WellFormed(t) && row < |t.countries|
    requires IsRun(t, row, key, start, budget, s)
    requires i < |s|
    ensures key(start + i) in t.columns && s[i] == t.columns[key(start + i)][row]
  {
    assert Window(key, start, budget)[i] == key(start + i);
  }

  /** Every day a run covers has a column, and a run that stops short of
      the budget stops at a day without one. */
  lemma RunDays(t: WideTable, row: nat, key: Day -> string, start: Day, budget: int, run: seq<int>)
    requires WellFormed(t) && row < |t.countries|
    requires IsRun(t, row, key, start, budget, run)
    ensures forall d :: start <= d < start + |run| ==> key(d) in t.columns
    ensures |run| < Iterations(budget) ==> key(start + |run|) !in t.columns
  {
    var ks := Window(key, start, budget);
    forall d | start <= d < start + |run|
      ensures key(d) in t.columns
    {
      assert ks[d - start] == key(d);
    }
    if |run| < |ks| {
      assert ks[|run|] == key(start + |run|);
    }
  }

  /** A run is as long as the stretch of days with columns from its start,
      cut at the budget. */
  lemma RunLength(t: WideTable, row: nat, key: Day -> string, start: Day, budget: int, covered: nat, run: seq<int>)
    requires WellFormed(t) && row < |t.countries|
    requires IsRun(t, row, key, start, budget, run)
    requires covered <= budget
    requires forall d :: start <= d < start + covered ==> key(d) in t.columns
    requires covered < budget ==> key(start + covered) !in t.columns
    ensures |run| == covered
  {
    RunDays(t, row, key, start, budget, run);
  }

  /** `__country_cases_progression` / `__country_deaths_progression`: the
      cumulative counts of the first row of country `name`, from `start`,
      for at most `budget` days. */
  function CountryProgression(t: WideTable, key: Day -> string, name: string, start: Day, budget: int)
    : (r: Result<seq<int>, SeriesError>)
    requires WellFormed(t)
    ensures r.Err? <==> name !in t.countries
    ensures r.Err? ==> r.error == CountryNotFound(name)
    ensures r.Ok? ==> IsRun(t, FindCountry(t.countries, name).value, key, start, budget, r.value)
  {
    match FindCountry(t.countries, name)
    case None => Err(CountryNotFound(name))
    case Some(row) => Ok(Walk(t, row, Window(key, start, budget)))
  }

  /** A country of interest and the day its series is anchored on. */
  datatype Profile = Profile(name: string, start: Day)

  /** One country's column of the aligned table; `None` is the missing
      marker (NaN) of days the country has no data for. */
  datatype Column = Column(country: string, values: seq<Option<int>>)

  /** `days` is the 1-based "day since outbreak" row label. */
  datatype AlignedTable = AlignedTable(days: seq<int>, columns: seq<Column>)

  /** The longest of the lists (0 when there are none). */
  function MaxLength(lists: seq<seq<int>>): (m: nat)
    ensures forall c :: 0 <= c < |lists| ==> |lists[c]| <= m
    ensures |lists| == 0 ==> m == 0
    ensures |lists| > 0 ==> exists c :: 0 <= c < |lists| && |lists[c]| == m
  {
    if |lists| == 0 then 0
    else
      var rest := MaxLength(lists[1..]);
      assert forall c :: 1 <= c < |lists| ==> lists[c] == lists[1..][c - 1];
      if |lists[0]| >= rest then |lists[0]| else rest
  }

  /** `xs` as a column of `n` cells: its values in place, then missing
      markers. */
  function Pad(xs: seq<int>, n: nat): (r: seq<Option<int>>)
    requires |xs| <= n
    ensures |r| == n
    ensures forall i :: 0 <= i < |xs| ==> r[i] == Some(xs[i])
    ensures forall i :: |xs| <= i < n ==> r[i] == None
  {
    if n == 0 then []
    else if |xs| == 0 then [None] + Pad([], n - 1)
    else [Some(xs[0])] + Pad(xs[1..], n - 1)
  }

  /** Padding loses nothing: the values present in a padded column are
      exactly the list it was padded from. */
  lemma {:induction false} ValuesOfPad(xs: seq<int>, n: nat)
    requires |xs| <= n
    ensures Values(Pad(xs, n)) == xs
    decreases n
  {
    if n > 0 {
      var p := Pad(xs, n);
      if |xs| == 0 {
        assert p == [None] + Pad([], n - 1);
        assert p[1..] == Pad([], n - 1);
        ValuesOfPad([], n - 1);
      } else {
        assert p == [Some(xs[0])] + Pad(xs[1..], n - 1);
        assert p[1..] == Pad(xs[1..], n - 1);
        ValuesOfPad(xs[1..], n - 1);
        assert Values(p) == [xs[0]] + xs[1..];
        assert [xs[0]] + xs[1..] == xs;
      }
    }
  }

  /** `pd.DataFrame({name: pd.Series(list)})` with its index shifted to
      start at 1: one column per list, in order, all as long as the longest
      list. Cell `i` of a column holds the list's `i`-th value while the list
      lasts and is missing after it; the values present in a column are
      exactly its list, and the longest list fills its column. */
  function Align(names: seq<string>, lists: seq<seq<int>>): (a: AlignedTable)
    requires |names| == |lists|
    ensures |a.days| == MaxLength(lists)
    ensures forall i :: 0 <= i < |a.days| ==> a.days[i] == i + 1
    ensures |a.columns| == |lists|
    ensures forall c :: 0 <= c < |lists| ==>
              && a.columns[c].country == names[c]
              && |a.columns[c].values| == |a.days|
              && Values(a.columns[c].values) == lists[c]
    ensures forall c, i :: 0 <= c < |lists| && 0 <= i < |a.days| ==>
              a.columns[c].values[i] == if i < |lists[c]| then Some(lists[c][i]) else None
    ensures |lists| > 0 ==> exists c :: 0 <= c < |lists| && None !in a.columns[c].values
  {
    var n := MaxLength(lists);
    var a := AlignedTable(seq(n, i => i + 1),
                          seq(|lists|, c requires 0 <= c < |lists| => Column(names[c], Pad(lists[c], n))));
    AlignedColumns(lists, a);
    a
  }

  function Names(profiles: seq<Profile>): (r: seq<string>)
    ensures |r| == |profiles|
    ensures forall c :: 0 <= c < |profiles| ==> r[c] == profiles[c].name
  {
    seq(|profiles|, c requires 0 <= c < |profiles| => profiles[c].name)
  }

  /** Every profile's country has a row. */
  predicate AllFound(t: WideTable, profiles: seq<Profile>)
  {
    forall c :: 0 <= c < |profiles| ==> profiles[c].name in t.countries
  }

  /** The progression of every profile, in order; the first country
      without a row aborts the whole computation. */
  function Progressions(t: WideTable, key: Day -> string, budget: int, profiles: seq<Profile>)
    : (r: Result<seq<seq<int>>, SeriesError>)
    requires WellFormed(t)
    ensures r.Ok? <==> AllFound(t, profiles)
    ensures r.Ok? ==> |r.value| == |profiles| &&
                      forall c :: 0 <= c < |profiles| ==>
                        IsRun(t, FindCountry(t.countries, profiles[c].name).value, key, profiles[c].start, budget, r.value[c])
    ensures r.Err? ==> exists c :: 0 <= c < |profiles| && profiles[c].name !in t.countries
                                   && r.error == CountryNotFound(profiles[c].name)
                                   && forall b :: 0 <= b < c ==> profiles[b].name in t.countries
  {
    if |profiles| == 0 then Ok([])
    else
      var p := profiles[0];
      match CountryProgression(t, key, p.name, p.start, budget)
      case Err(e) => Err(e)
      case Ok(first) =>
        match Progressions(t, key, budget, profiles[1..])
        case Err(e) =>
          assert forall c :: 1 <= c < |profiles| ==> profiles[c] == profiles[1..][c - 1];
          Err(e)
        case Ok(rest) =>
          assert forall c :: 1 <= c < |profiles| ==> profiles[c] == profiles[1..][c - 1];
          Ok([first] + rest)
  }

  /** `countries_cases_progression` / `countries_deaths_progression`: every
      profile's progression under the budget set by `referenceStart`,
      lined up by day since that country's own start. Every column is as
      long as the longest progression; a shorter one is its run followed by
      missing markers, never zeros; rows are labelled 1, 2, ... */
  function CountriesProgression(t: WideTable, key: Day -> string, referenceStart: Day, profiles: seq<Profile>)
    : (r: Result<AlignedTable, SeriesError>)
    requires WellFormed(t)
    ensures r.Ok? <==> AllFound(t, profiles)
    ensures r.Err? ==> exists c :: 0 <= c < |profiles| && r.error == CountryNotFound(profiles[c].name)
                                   && profiles[c].name !in t.countries
    ensures r.Ok? ==>
              var a := r.value;
              && |a.days| <= Iterations(DayBudget(t, referenceStart))
              && (forall i :: 0 <= i < |a.days| ==> a.days[i] == i + 1)
              && |a.columns| == |profiles|
              && (|profiles| == 0 ==> |a.days| == 0)
              && (|profiles| > 0 ==> exists c :: 0 <= c < |profiles| && None !in a.columns[c].values)
              && forall c :: 0 <= c < |profiles| ==>
                   var run := Values(a.columns[c].values);
                   && a.columns[c].country == profiles[c].name
                   && |run| <= |a.days|
                   && a.columns[c].values == Pad(run, |a.days|)
                   && IsRun(t, FindCountry(t.countries, profiles[c].name).value, key, profiles[c].start,
                            DayBudget(t, referenceStart), run)
  {
    var budget := DayBudget(t, referenceStart);
    match Progressions(t, key, budget, profiles)
    case Err(e) => Err(e)
    case Ok(lists) =>
      Ok(Align(Names(profiles), lists))
  }

  lemma AlignedColumns(lists: seq<seq<int>>, a: AlignedTable)
    requires |a.columns| == |lists| && |a.days| == MaxLength(lists)
    requires forall c :: 0 <= c < |lists| ==> a.columns[c].values == Pad(lists[c], |a.days|)
    ensures forall c :: 0 <= c < |lists| ==> Values(a.columns[c].values) == lists[c]
    ensures |lists| > 0 ==> exists c :: 0 <= c < |lists| && None !in a.columns[c].values
  {
    forall c | 0 <= c < |lists|
      ensures Values(a.columns[c].values) == lists[c]
    {
      ValuesOfPad(lists[c], |a.days|);
    }
    if |lists| > 0 {
      var c :| 0 <= c < |lists| && |lists[c]| == MaxLength(lists);
      PadFull(lists[c], a.columns[c].values);
    }
  }

  /** A list as long as the column it is padded to leaves no cell missing. */
  lemma PadFull(xs: seq<int>, vs: seq<Option<int>>)
    requires vs == Pad(xs, |xs|)
    ensures None !in vs
  {
    assert forall i :: 0 <= i < |vs| ==> vs[i] == Some(xs[i]);
  }
}
