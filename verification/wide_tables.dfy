/** The wide cumulative tables of global cases and deaths: one row per
    region, a `Country/Region` column naming the country of each row, and
    one column per calendar day holding cumulative counts. */
module WideTables {
  import opened Results
  import opened Dates

  /** `countries[r]` is the `Country/Region` cell of row `r`;
      `columns[k][r]` is the cell of row `r` under the date column headed
      `k`; `lastDay` is the day the table's final column header names. */
  datatype WideTable = WideTable(countries: seq<string>, columns: map<string, seq<int>>, lastDay: Day)

  /** Every date column has one cell per row, as in any data frame. */
  predicate WellFormed(t: WideTable)
  {
    forall k :: k in t.columns ==> |t.columns[k]| == |t.countries|
  }

  /** The position of the first row whose country equals `name` exactly,
      or `None` when no row does (`location[location == name].index[0]`). */
  function FindCountry(countries: seq<string>, name: string): (r: Option<nat>)
    ensures r.Some? <==> name in countries
    ensures r.Some? ==> r.value < |countries| && countries[r.value] == name
    ensures r.Some? ==> forall j :: 0 <= j < r.value ==> countries[j] != name
  {
    if |countries| == 0 then None
    else if countries[0] == name then Some(0)
    else match FindCountry(countries[1..], name)
      case None => None
      case Some(j) => Some(j + 1)
  }

  /** The cells of row `row` under the columns `ks`, in order. */
  function Readings(t: WideTable, row: nat, ks: seq<string>): (r: seq<int>)
    requires WellFormed(t) && row < |t.countries|
    requires forall i :: 0 <= i < |ks| ==> ks[i] in t.columns
    ensures |r| == |ks|
  {
    seq(|ks|, i requires 0 <= i < |ks| => t.columns[ks[i]][row])
  }
}
