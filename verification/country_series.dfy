/** Per-day derivation: the series of one country read off a wide
    cumulative table from a start day on, either as the raw cumulative
    cells (`total_cases_per_day`, `total_deaths_per_day`) or as day-over-day
    differences (`cases_per_day`, `deaths_per_day`). The cases and deaths
    variants differ only in the table and start day passed in. */
module CountrySeries {
  import opened Results
  import opened Dates
  import opened Sums
  import opened WideTables

  datatype Mode = Cumulative | Delta

  datatype SeriesError =
    | CountryNotFound(name: string)  // `.index[0]` of an empty selection
    | MissingColumn(key: string)     // a day whose key is not a column

  /** One `(date, count)` row of a derived series. */
  datatype Entry = Entry(date: string, count: int)

  const Colombia := "Colombia"

  function KeysOf(entries: seq<Entry>): seq<string>
  {
    seq(|entries|, i requires 0 <= i < |entries| => entries[i].date)
  }

  /** `d[k] = v` on an insertion-ordered dictionary held as its item list. */
  function Put(entries: seq<Entry>, k: string, v: int): seq<Entry>
  {
    if |entries| == 0 then [Entry(k, v)]
    else if entries[0].date == k then [Entry(k, v)] + entries[1..]
    else [entries[0]] + Put(entries[1..], k, v)
  }

  /** After `d[k] = v` the key `k` holds `v`, and every entry of another
      key is one there was before and is still there. */
  lemma {:induction false} PutWrites(entries: seq<Entry>, k: string, v: int)
    ensures Entry(k, v) in Put(entries, k, v)
    ensures forall e :: e in entries && e.date != k ==> e in Put(entries, k, v)
    ensures forall e :: e in Put(entries, k, v) && e.date != k ==> e in entries
    decreases |entries|
  {
    if |entries| > 0 && entries[0].date != k {
      PutWrites(entries[1..], k, v);
      assert entries == [entries[0]] + entries[1..];
    }
  }

  /** A key the dictionary does not hold is appended. */
  lemma {:induction false} PutNew(entries: seq<Entry>, k: string, v: int)
    requires k !in KeysOf(entries)
    ensures Put(entries, k, v) == entries + [Entry(k, v)]
    decreases |entries|
  {
    if |entries| > 0 {
      assert KeysOf(entries) == [entries[0].date] + KeysOf(entries[1..]);
      PutNew(entries[1..], k, v);
    }
  }

  /** A key the dictionary holds, first at position `j`, keeps its place
      and takes the new value. */
  lemma {:induction false} PutExisting(entries: seq<Entry>, k: string, v: int, j: nat)
    requires j < |entries| && entries[j].date == k && k !in KeysOf(entries[..j])
    ensures Put(entries, k, v) == entries[j := Entry(k, v)]
    decreases j
  {
    if j > 0 {
      assert KeysOf(entries[..j])[0] == entries[0].date;
      assert KeysOf(entries[1..][..j - 1]) == KeysOf(entries[..j])[1..];
      PutExisting(entries[1..], k, v, j - 1);
    }
  }

  /** The dictionary left by writing `vs[i]` under `ks[i]` for each `i` in
      turn, as its item list. */
  function Tabulate(ks: seq<string>, vs: seq<int>): seq<Entry>
    requires |ks| == |vs|
  {
    if |ks| == 0 then []
    else Put(Tabulate(ks[..|ks| - 1], vs[..|vs| - 1]), ks[|ks| - 1], vs[|vs| - 1])
  }

  /** With distinct keys the dictionary is exactly the list of writes, in
      order. */
  lemma {:induction false} TabulateDistinct(ks: seq<string>, vs: seq<int>)
    requires |ks| == |vs|
    requires DistinctKeys(ks)
    ensures |Tabulate(ks, vs)| == |ks|
    ensures forall i :: 0 <= i < |ks| ==> Tabulate(ks, vs)[i] == Entry(ks[i], vs[i])
    decreases |ks|
  {
    if |ks| > 0 {
      var n := |ks| - 1;
      var prefix := Tabulate(ks[..n], vs[..n]);
      assert DistinctKeys(ks[..n]);
      TabulateDistinct(ks[..n], vs[..n]);
      assert ks[n] !in KeysOf(prefix) by {
        assert KeysOf(prefix) == ks[..n];
      }
      PutNew(prefix, ks[n], vs[n]);
      assert Tabulate(ks, vs) == prefix + [Entry(ks[n], vs[n])];
    }
  }

  /** What the loop emits for the cumulative cells `cells`. */
  function Emitted(mode: Mode, cells: seq<int>): seq<int>
  {
    if mode == Delta then Differences(cells) else cells
  }

  predicate AllColumns(t: WideTable, ks: seq<string>)
  {
    forall j :: 0 <= j < |ks| ==> ks[j] in t.columns
  }

  /** `ks[j]` is the first key of `ks` that is not a column. */
  predicate FirstMissingAt(t: WideTable, ks: seq<string>, j: int)
  {
    0 <= j < |ks| && ks[j] !in t.columns && forall m :: 0 <= m < j ==> ks[m] in t.columns
  }

  lemma EmittedPrefix(t: WideTable, row: nat, ks: seq<string>, mode: Mode, i: nat)
    requires WellFormed(t) && row < |t.countries|
    requires i < |ks| && AllColumns(t, ks[..i + 1])
    ensures AllColumns(t, ks[..i])
    ensures Emitted(mode, Readings(t, row, ks[..i + 1]))[..i] == Emitted(mode, Readings(t, row, ks[..i]))
    ensures Emitted(mode, Readings(t, row, ks[..i + 1]))[i]
         == t.columns[ks[i]][row] - (if mode == Delta && i > 0 then t.columns[ks[i - 1]][row] else 0)
  {
    assert forall m :: 0 <= m < i ==> ks[..i][m] == ks[..i + 1][m];
  }

  /** One pass of the loop of `cases_per_day` and its siblings over the
      keys `ks` of the days in turn, from iteration `i` on. `past` is the
      cell read in the previous iteration (0 before the first), `entries`
      the dictionary built so far; the requires clauses are the loop
      invariant. */
  function Iterate(t: WideTable, row: nat, ks: seq<string>, mode: Mode,
                   i: nat, past: int, entries: seq<Entry>): (r: Result<seq<Entry>, SeriesError>)
    requires WellFormed(t) && row < |t.countries|
    requires i <= |ks|
    requires AllColumns(t, ks[..i])
    requires entries == Tabulate(ks[..i], Emitted(mode, Readings(t, row, ks[..i])))
    requires past == (if i == 0 then 0 else t.columns[ks[i - 1]][row])
    ensures r.Ok? <==> AllColumns(t, ks)
    ensures r.Ok? ==> AllColumns(t, ks) && r.value == Tabulate(ks, Emitted(mode, Readings(t, row, ks)))
    ensures r.Err? ==> exists j :: FirstMissingAt(t, ks, j) && r.error == MissingColumn(ks[j])
    decreases |ks| - i
  {
    if i == |ks| then
      assert ks[..i] == ks;
      Ok(entries)
    else if ks[i] !in t.columns then
      assert FirstMissingAt(t, ks, i);
      Err(MissingColumn(ks[i]))
    else
      var curr := t.columns[ks[i]][row];
      IterateStep(t, row, ks, mode, i, past, entries);
      Iterate(t, row, ks, mode, i + 1, curr, Put(entries, ks[i], if mode == Delta then curr - past else curr))
  }

  /** One iteration keeps the loop invariant: the dictionary with the new
      day's value written is the dictionary of one more day. */
  lemma IterateStep(t: WideTable, row: nat, ks: seq<string>, mode: Mode, i: nat, past: int, entries: seq<Entry>)
    requires WellFormed(t) && row < |t.countries|
    requires i < |ks| && ks[i] in t.columns
    requires AllColumns(t, ks[..i])
    requires entries == Tabulate(ks[..i], Emitted(mode, Readings(t, row, ks[..i])))
    requires past == (if i == 0 then 0 else t.columns[ks[i - 1]][row])
    ensures AllColumns(t, ks[..i + 1])
    ensures var curr := t.columns[ks[i]][row];
            Put(entries, ks[i], if mode == Delta then curr - past else curr)
            == Tabulate(ks[..i + 1], Emitted(mode, Readings(t, row, ks[..i + 1])))
  {
    var pre := ks[..i + 1];
    assert pre[..i] == ks[..i] && pre[i] == ks[i];
    assert AllColumns(t, pre);
    EmittedPrefix(t, row, ks, mode, i);
    var vs := Emitted(mode, Readings(t, row, pre));
    assert |vs| == i + 1;
    assert vs[..i] == Emitted(mode, Readings(t, row, ks[..i]));
  }

  /** The series of country `name` over the `count` days from `start`:
      the first row with that country is read at the key of each day in
      turn, and each key receives the cell (cumulative mode) or the cell
      minus the previous day's cell (delta mode). */
  function DailySeries(t: WideTable, key: Day -> string, name: string, start: Day, count: int, mode: Mode)
    : (r: Result<seq<Entry>, SeriesError>)
    requires WellFormed(t)
    ensures name !in t.countries ==> r == Err(CountryNotFound(name))
    ensures name in t.countries ==> (r.Ok? <==> AllColumns(t, Window(key, start, count)))
    ensures r.Ok? ==> name in t.countries && AllColumns(t, Window(key, start, count)) &&
                      r.value == Tabulate(Window(key, start, count),
                                          Emitted(mode, Readings(t, FindCountry(t.countries, name).value,
                                                                 Window(key, start, count))))
    ensures r.Err? && name in t.countries ==>
              exists j :: FirstMissingAt(t, Window(key, start, count), j)
                          && r.error == MissingColumn(Window(key, start, count)[j])
  {
    match FindCountry(t.countries, name)
    case None => Err(CountryNotFound(name))
    case Some(row) =>
      assert Window(key, start, count)[..0] == [];
      Iterate(t, row, Window(key, start, count), mode, 0, 0, [])
  }

  /** Every key of the window is a column exactly when every day from
      `start` on, for `count` days, has a column. */
  lemma WindowColumns(t: WideTable, key: Day -> string, start: Day, count: int)
    ensures AllColumns(t, Window(key, start, count))
            <==> forall d :: start <= d < start + count ==> key(d) in t.columns
  {
    var ks := Window(key, start, count);
    if AllColumns(t, ks) {
      forall d | start <= d < start + count
        ensures key(d) in t.columns
      {
        assert ks[d - start] == key(d);
      }
    }
  }

  function Counts(entries: seq<Entry>): seq<int>
  {
    seq(|entries|, i requires 0 <= i < |entries| => entries[i].count)
  }

  /** When the days of the window have distinct keys, entry `i` of a
      successful series is the key of day `start + i` with the value
      emitted for it. */
  lemma SeriesShape(t: WideTable, key: Day -> string, name: string, start: Day, count: int, mode: Mode)
    requires WellFormed(t)
    ensures var r := DailySeries(t, key, name, start, count, mode);
            var ks := Window(key, start, count);
            r.Ok? && DistinctKeys(ks) ==>
              && |r.value| == |ks|
              && forall i :: 0 <= i < |ks| ==>
                   r.value[i] == Entry(ks[i], Emitted(mode, Readings(t, FindCountry(t.countries, name).value, ks))[i])
  {
    var r := DailySeries(t, key, name, start, count, mode);
    var ks := Window(key, start, count);
    if r.Ok? && DistinctKeys(ks) {
      var row := FindCountry(t.countries, name).value;
      TabulateDistinct(ks, Emitted(mode, Readings(t, row, ks)));
    }
  }

  /** The delta series and the cumulative series of the same country and
      window succeed together, list the same days, and each is recovered
      from the other: the deltas are the first differences of the
      cumulative values, and their running sums give the cumulative values
      back. */
  lemma DeltaMatchesCumulative(t: WideTable, key: Day -> string, name: string, start: Day, count: int)
    requires WellFormed(t)
    ensures DailySeries(t, key, name, start, count, Delta).Ok?
            <==> DailySeries(t, key, name, start, count, Cumulative).Ok?
    ensures var d := DailySeries(t, key, name, start, count, Delta);
            var c := DailySeries(t, key, name, start, count, Cumulative);
            d.Ok? && DistinctKeys(Window(key, start, count)) ==>
              && KeysOf(d.value) == KeysOf(c.value)
              && Counts(d.value) == Differences(Counts(c.value))
              && PrefixSums(Counts(d.value)) == Counts(c.value)
  {
    var d := DailySeries(t, key, name, start, count, Delta);
    var c := DailySeries(t, key, name, start, count, Cumulative);
    SeriesShape(t, key, name, start, count, Delta);
    SeriesShape(t, key, name, start, count, Cumulative);
    if d.Ok? && DistinctKeys(Window(key, start, count)) {
      var ks := Window(key, start, count);
      var cells := Readings(t, FindCountry(t.countries, name).value, ks);
      assert KeysOf(d.value) == ks == KeysOf(c.value);
      assert Counts(c.value) == cells;
      assert Counts(d.value) == Differences(cells);
      PrefixSumsOfDifferences(cells);
    }
  }

  /** A Colombia series from `start` to the table's last day succeeds
      exactly when Colombia is a row and every day of the range has a
      column. */
  lemma PerDayOutcome(t: WideTable, key: Day -> string, start: Day, mode: Mode,
                      r: Result<seq<Entry>, SeriesError>)
    requires WellFormed(t)
    requires r == DailySeries(t, key, Colombia, start, DaysBetween(t.lastDay, start) + 1, mode)
    ensures Colombia !in t.countries ==> r == Err(CountryNotFound(Colombia))
    ensures r.Ok? <==> Colombia in t.countries
                       && forall d :: start <= d <= t.lastDay ==> key(d) in t.columns
  {
    WindowColumns(t, key, start, DaysBetween(t.lastDay, start) + 1);
  }

  /** The entries of a successful Colombia series from `start` to the
      table's last day, spelled out day by day. */
  lemma PerDayShape(t: WideTable, key: Day -> string, start: Day, mode: Mode,
                    r: Result<seq<Entry>, SeriesError>)
    requires WellFormed(t)
    requires r == DailySeries(t, key, Colombia, start, DaysBetween(t.lastDay, start) + 1, mode)
    ensures r.Ok? && DistinctKeys(Window(key, start, DaysBetween(t.lastDay, start) + 1)) ==>
              && Colombia in t.countries
              && (forall d :: start <= d <= t.lastDay ==> key(d) in t.columns)
              && var row := FindCountry(t.countries, Colombia).value;
                 && |r.value| == Iterations(DaysBetween(t.lastDay, start) + 1)
                 && (forall i :: 0 <= i < |r.value| ==>
                       r.value[i] == Entry(key(start + i), t.columns[key(start + i)][row]
                                           - (if mode == Delta && i > 0 then t.columns[key(start + i - 1)][row] else 0)))
                 && (mode == Delta && |r.value| > 0 ==>
                       Total(Counts(r.value)) == t.columns[key(t.lastDay)][row])
  {
    var count := DaysBetween(t.lastDay, start) + 1;
    if r.Ok? && DistinctKeys(Window(key, start, count)) {
      WindowColumns(t, key, start, count);
      SeriesShape(t, key, Colombia, start, count, mode);
      ShapeByDay(t, FindCountry(t.countries, Colombia).value, key, start, count, mode, r.value);
      assert start + count - 1 == t.lastDay;
    }
  }

  lemma ShapeByDay(t: WideTable, row: nat, key: Day -> string, start: Day, count: int, mode: Mode,
                   entries: seq<Entry>)
    requires WellFormed(t) && row < |t.countries|
    requires AllColumns(t, Window(key, start, count))
    requires |entries| == Iterations(count)
    requires forall i :: 0 <= i < |entries| ==>
               entries[i] == Entry(Window(key, start, count)[i],
                                   Emitted(mode, Readings(t, row, Window(key, start, count)))[i])
    ensures forall d :: start <= d < start + count ==> key(d) in t.columns
    ensures forall i :: 0 <= i < |entries| ==>
              entries[i] == Entry(key(start + i), t.columns[key(start + i)][row]
                                  - (if mode == Delta && i > 0 then t.columns[key(start + i - 1)][row] else 0))
    ensures mode == Delta && |entries| > 0 ==> Total(Counts(entries)) == t.columns[key(start + count - 1)][row]
  {
    WindowColumns(t, key, start, count);
    forall i | 0 <= i < |entries|
      ensures entries[i] == Entry(key(start + i), t.columns[key(start + i)][row]
                                  - (if mode == Delta && i > 0 then t.columns[key(start + i - 1)][row] else 0))
    {
      EmittedAt(t, row, key, start, count, mode, i);
    }
    if mode == Delta && |entries| > 0 {
      DeltaTotal(t, row, key, start, count, entries);
    }
  }

  lemma DeltaTotal(t: WideTable, row: nat, key: Day -> string, start: Day, count: int, entries: seq<Entry>)
    requires WellFormed(t) && row < |t.countries|
    requires AllColumns(t, Window(key, start, count))
    requires 0 < |entries| == Iterations(count)
    requires forall i :: 0 <= i < |entries| ==>
               entries[i] == Entry(Window(key, start, count)[i],
                                   Emitted(Delta, Readings(t, row, Window(key, start, count)))[i])
    ensures key(start + count - 1) in t.columns
    ensures Total(Counts(entries)) == t.columns[key(start + count - 1)][row]
  {
    var ks := Window(key, start, count);
    var cells := Readings(t, row, ks);
    assert ks[|ks| - 1] == key(start + count - 1);
    assert Counts(entries) == Differences(cells);
    TotalOfDifferences(cells);
  }

  lemma EmittedAt(t: WideTable, row: nat, key: Day -> string, start: Day, count: int, mode: Mode, i: nat)
    requires WellFormed(t) && row < |t.countries|
    requires AllColumns(t, Window(key, start, count))
    requires i < Iterations(count)
    ensures key(start + i) in t.columns && (i > 0 ==> key(start + i - 1) in t.columns)
    ensures Window(key, start, count)[i] == key(start + i)
    ensures Emitted(mode, Readings(t, row, Window(key, start, count)))[i]
            == t.columns[key(start + i)][row] - (if mode == Delta && i > 0 then t.columns[key(start + i - 1)][row] else 0)
  {
    var ks := Window(key, start, count);
    assert ks[i] == key(start + i);
    if i > 0 {
      assert ks[i - 1] == key(start + i - 1);
    }
  }

  /** `cases_per_day` and `deaths_per_day`: the new cases (or deaths) of
      Colombia on each day from `start` to the day of the table's last
      column, the first day's value being that day's cumulative count. */
  function NewPerDay(t: WideTable, key: Day -> string, start: Day): (r: Result<seq<Entry>, SeriesError>)
    requires WellFormed(t)
    ensures Colombia !in t.countries ==> r == Err(CountryNotFound(Colombia))
    ensures r.Ok? <==> Colombia in t.countries
                       && forall d :: start <= d <= t.lastDay ==> key(d) in t.columns
    ensures r.Ok? && DistinctKeys(Window(key, start, DaysBetween(t.lastDay, start) + 1)) ==>
              var row := FindCountry(t.countries, Colombia).value;
              && |r.value| == Iterations(DaysBetween(t.lastDay, start) + 1)
              && (forall i :: 0 <= i < |r.value| ==>
                    r.value[i] == Entry(key(start + i), t.columns[key(start + i)][row]
                                        - (if i == 0 then 0 else t.columns[key(start + i - 1)][row])))
              && (|r.value| > 0 ==> Total(Counts(r.value)) == t.columns[key(t.lastDay)][row])
  {
    var r := DailySeries(t, key, Colombia, start, DaysBetween(t.lastDay, start) + 1, Delta);
    PerDayOutcome(t, key, start, Delta, r);
    PerDayShape(t, key, start, Delta, r);
    r
  }

  /** `total_cases_per_day` and `total_deaths_per_day`: the cumulative
      cases (or deaths) of Colombia on each day from `start` to the day of
      the table's last column. */
  function TotalPerDay(t: WideTable, key: Day -> string, start: Day): (r: Result<seq<Entry>, SeriesError>)
    requires WellFormed(t)
    ensures Colombia !in t.countries ==> r == Err(CountryNotFound(Colombia))
    ensures r.Ok? <==> Colombia in t.countries
                       && forall d :: start <= d <= t.lastDay ==> key(d) in t.columns
    ensures r.Ok? && DistinctKeys(Window(key, start, DaysBetween(t.lastDay, start) + 1)) ==>
              var row := FindCountry(t.countries, Colombia).value;
              && |r.value| == Iterations(DaysBetween(t.lastDay, start) + 1)
              && forall i :: 0 <= i < |r.value| ==>
                   r.value[i] == Entry(key(start + i), t.columns[key(start + i)][row])
  {
    var r := DailySeries(t, key, Colombia, start, DaysBetween(t.lastDay, start) + 1, Cumulative);
    PerDayOutcome(t, key, start, Cumulative, r);
    PerDayShape(t, key, start, Cumulative, r);
    r
  }
}
