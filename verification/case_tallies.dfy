/** The two frequency tables drawn straight from the line list: cases per
    city and cases per age. */
module CaseTallies {
  import opened Results
  import opened Sums
  import opened Tallies
  import opened LineList
  import CitySeries

  /** `cases_per_city`: every city named in the line list with its number of
      records, most frequent first; records without a city are not counted. */
  function CasesPerCity(records: seq<Record>): (r: seq<Tally<string>>)
    ensures IsTallyOf(r, Values(CityColumn(records)))
    ensures NonIncreasing(r)
    ensures Total(CountsOf(r)) == |Values(CityColumn(records))|
  {
    ValueCounts(CityColumn(records))
  }

  /** `cases_per_age`: every age in the line list with its number of
      records, most frequent first; records without an age are not
      counted. Ages are raw values, not brackets. */
  function CasesPerAge(records: seq<Record>): (r: seq<Tally<int>>)
    ensures IsTallyOf(r, Values(AgeColumn(records)))
    ensures NonIncreasing(r)
    ensures Total(CountsOf(r)) == |Values(AgeColumn(records))|
  {
    ValueCounts(AgeColumn(records))
  }

  /** The records of a city, as many times as it occurs in the city column,
      are the records its per-day series draw their dates from. */
  lemma {:induction false} CityOccurrences(records: seq<Record>, city: string)
    ensures multiset(Values(CityColumn(records)))[city] == |CitySeries.CityDates(records, city)|
  {
    if |records| > 0 {
      var rest := records[1..];
      CityOccurrences(rest, city);
      assert CityColumn(records) == [records[0].city] + CityColumn(rest);
      assert CityColumn(records)[1..] == CityColumn(rest);
    }
  }

  /** A city's row in the city table counts its records; the dated ones
      among them are split between its cases and deaths per-day tables, so
      the two tables' totals never exceed the row, and equal it when every
      record of the city has a notification date. */
  lemma CityRowBoundsSeries(records: seq<Record>, i: nat)
    requires i < |CasesPerCity(records)|
    ensures var row := CasesPerCity(records)[i];
            var cases := CitySeries.CityPerDay(records, row.value, CitySeries.Cases);
            var deaths := CitySeries.CityPerDay(records, row.value, CitySeries.Deaths);
            && row.count == |CitySeries.CityDates(records, row.value)|
            && Total(CountsOf(cases)) + Total(CountsOf(deaths)) <= row.count
            && ((forall j :: 0 <= j < |records| && records[j].city == Some(row.value) ==> records[j].date.Some?) ==>
                  Total(CountsOf(cases)) + Total(CountsOf(deaths)) == row.count)
  {
    var r := CasesPerCity(records);
    TallyFacts(r, Values(CityColumn(records)));
    CityOccurrences(records, r[i].value);
    CitySeries.CasesAndDeathsPartition(records, r[i].value);
    ValuesShorter(CitySeries.CityDates(records, r[i].value));
    if forall j :: 0 <= j < |records| && records[j].city == Some(r[i].value) ==> records[j].date.Some? {
      AllDated(records, r[i].value);
    }
  }

  lemma {:induction false} AllDated(records: seq<Record>, city: string)
    requires forall j :: 0 <= j < |records| && records[j].city == Some(city) ==> records[j].date.Some?
    ensures |Values(CitySeries.CityDates(records, city))| == |CitySeries.CityDates(records, city)|
  {
    if |records| > 0 {
      AllDated(records[1..], city);
      var head: seq<Option<string>> := if records[0].city == Some(city) then [records[0].date] else [];
      CitySeries.ValuesConcat(head, CitySeries.CityDates(records[1..], city));
    }
  }

  lemma ValuesShorter<T>(xs: seq<Option<T>>)
    ensures |Values(xs)| <= |xs|
  {
  }
}
