/** Worked cases of the derivations on small inputs: Colombia's series read
    off a three-day table, the origin tables of three records, and two
    countries lined up under one day budget where one runs out of data.
    Literal days and strings enter through parameters pinned by `requires`,
    which keeps the verifier from evaluating the calendar from its epoch. */
module Scenarios {
  import opened Results
  import opened Text
  import opened Dates
  import opened Calendar
  import opened WideTables
  import opened CountrySeries
  import opened Progression
  import opened Origins

  /** The key of a day of March 2020 before the 10th is "3/d/20". */
  lemma MarchKey(n: Day, d: nat)
    requires 1 <= d <= 9 && CivilOf(n) == Civil(2020, 3, d)
    ensures Key(n) == ['3', '/', Digit(d), '/', '2', '0']
  {
    KeySpelling(n);
    MarchFields(3, d, 2020);
  }

  lemma MarchFields(m: nat, d: nat, y: int)
    requires m == 3 && 1 <= d <= 9 && y == 2020
    ensures NatText(m) + ['/'] + NatText(d) + ['/'] + TwoDigits(y % 100) == ['3', '/', Digit(d), '/', '2', '0']
  {
    assert NatText(m) == ['3'];
    assert NatText(d) == [Digit(d)];
    assert TwoDigits(y % 100) == ['2', '0'];
  }

  /** The day after a day of March is the next day of March. */
  lemma NextMarchDay(n: Day, d: nat)
    requires 1 <= d < 31 && CivilOf(n) == Civil(2020, 3, d)
    ensures CivilOf(n + 1) == Civil(2020, 3, d + 1)
  {
    CivilOfDayOf(Civil(2020, 3, d + 1));
  }

  /** Colombia's cumulative cases under the columns "3/6/20", "3/7/20" and
      "3/8/20"; `last` is the day the last column names. */
  function ColombiaTable(last: Day): (t: WideTable)
    ensures WellFormed(t)
  {
    WideTable(["Colombia"], map["3/6/20" := [1], "3/7/20" := [3], "3/8/20" := [3]], last)
  }

  lemma ColombiaKeys(start: Day)
    requires CivilOf(start) == Civil(2020, 3, 6)
    ensures Key(start) == "3/6/20" && Key(start + 1) == "3/7/20" && Key(start + 2) == "3/8/20"
  {
    NextMarchDay(start, 6);
    NextMarchDay(start + 1, 7);
    MarchKey(start, 6);
    MarchKey(start + 1, 7);
    MarchKey(start + 2, 8);
    assert Digit(6) == '6' && Digit(7) == '7' && Digit(8) == '8';
  }

  lemma ColombiaColumns(start: Day)
    requires CivilOf(start) == Civil(2020, 3, 6)
    ensures var t := ColombiaTable(start + 2);
            && FindCountry(t.countries, Colombia) == Some(0)
            && (forall d :: start <= d <= t.lastDay ==> Key(d) in t.columns)
            && t.columns[Key(start)][0] == 1
            && t.columns[Key(start + 1)][0] == 3
            && t.columns[Key(start + 2)][0] == 3
  {
    var t := ColombiaTable(start + 2);
    ColombiaKeys(start);
    forall d | start <= d <= t.lastDay
      ensures Key(d) in t.columns
    {
      assert d == start || d == start + 1 || d == start + 2;
    }
  }

  lemma ThreeEntries(r: Result<seq<Entry>, SeriesError>, e0: Entry, e1: Entry, e2: Entry)
    requires r.Ok? && |r.value| == 3 && r.value[0] == e0 && r.value[1] == e1 && r.value[2] == e2
    ensures r == Ok([e0, e1, e2])
  {
    assert r.value == [e0, e1, e2];
  }

  lemma ColombiaTotalByKey(start: Day)
    requires CivilOf(start) == Civil(2020, 3, 6)
    ensures var r := TotalPerDay(ColombiaTable(start + 2), Key, start);
            && r.Ok? && |r.value| == 3
            && r.value[0] == Entry(Key(start), 1)
            && r.value[1] == Entry(Key(start + 1), 3)
            && r.value[2] == Entry(Key(start + 2), 3)
  {
    var t := ColombiaTable(start + 2);
    ColombiaColumns(start);
    assert DistinctKeys(Window(Key, start, DaysBetween(t.lastDay, start) + 1)) by {
      WindowKeysDistinct(start, DaysBetween(t.lastDay, start) + 1);
    }
  }

  lemma ColombiaNewByKey(start: Day)
    requires CivilOf(start) == Civil(2020, 3, 6)
    ensures var r := NewPerDay(ColombiaTable(start + 2), Key, start);
            && r.Ok? && |r.value| == 3
            && r.value[0] == Entry(Key(start), 1)
            && r.value[1] == Entry(Key(start + 1), 2)
            && r.value[2] == Entry(Key(start + 2), 0)
  {
    var t := ColombiaTable(start + 2);
    ColombiaColumns(start);
    assert DistinctKeys(Window(Key, start, DaysBetween(t.lastDay, start) + 1)) by {
      WindowKeysDistinct(start, DaysBetween(t.lastDay, start) + 1);
    }
  }

  /** From 3/6/20 to the last column 3/8/20 the table reads as cumulative
      cases [1, 3, 3] ... */
  lemma ColombiaTotal(start: Day)
    requires CivilOf(start) == Civil(2020, 3, 6)
    ensures TotalPerDay(ColombiaTable(start + 2), Key, start)
            == Ok([Entry("3/6/20", 1), Entry("3/7/20", 3), Entry("3/8/20", 3)])
  {
    ColombiaTotalByKey(start);
    ColombiaKeys(start);
    ThreeEntries(TotalPerDay(ColombiaTable(start + 2), Key, start),
                 Entry("3/6/20", 1), Entry("3/7/20", 3), Entry("3/8/20", 3));
  }

  /** ... and as new cases per day [1, 2, 0]. */
  lemma ColombiaNew(start: Day)
    requires CivilOf(start) == Civil(2020, 3, 6)
    ensures NewPerDay(ColombiaTable(start + 2), Key, start)
            == Ok([Entry("3/6/20", 1), Entry("3/7/20", 2), Entry("3/8/20", 0)])
  {
    ColombiaNewByKey(start);
    ColombiaKeys(start);
    ThreeEntries(NewPerDay(ColombiaTable(start + 2), Key, start),
                 Entry("3/6/20", 1), Entry("3/7/20", 2), Entry("3/8/20", 0));
  }

  /** A transliteration that turns "España" into "Espana" and keeps the
      other names used below. */
  predicate FoldsExample(fold: string -> string)
  {
    fold("Italia") == "Italia" && fold("España") == "Espana" && fold("Madrid") == "Madrid"
  }

  lemma ItaliaEspanaSplit(v: string)
    requires v == "Italia - España"
    ensures Split(v, '-') == ["Italia ", " España"]
  {
    var pieces := ["Italia ", " España"];
    assert Join(pieces, '-') == v by {
      assert pieces[1..] == [" España"];
    }
    assert '-' !in pieces[0] && '-' !in pieces[1];
    SplitJoin(pieces, '-');
  }

  lemma NamesOfTwo(v: string, p0: string, p1: string, fold: string -> string)
    requires Split(v, '-') == [p0, p1]
    ensures PlaceNames(v, fold) == [fold(Strip(p0)), fold(Strip(p1))]
  {
    var r := PlaceNames(v, fold);
    assert |r| == 2 && r[0] == fold(Strip(p0)) && r[1] == fold(Strip(p1));
  }

  lemma ItaliaStrip()
    ensures Strip("Italia ") == "Italia"
  {
    assert "Italia " == [] + "Italia" + " ";
    StripPadded([], "Italia", " ");
  }

  lemma EspanaStrip()
    ensures Strip(" España") == "España"
  {
    assert " España" == " " + "España" + [];
    StripPadded(" ", "España", []);
  }

  /** "Italia - España" names Italia and Espana. */
  lemma ItaliaEspanaNames(v: string, fold: string -> string)
    requires v == "Italia - España" && FoldsExample(fold)
    ensures PlaceNames(v, fold) == ["Italia", "Espana"]
  {
    ItaliaEspanaSplit(v);
    NamesOfTwo(v, "Italia ", " España", fold);
    ItaliaStrip();
    EspanaStrip();
  }

  lemma BagsOfThree(origins: seq<Option<string>>, fold: string -> string)
    requires |origins| == 3
    ensures DefiniteBag(origins, fold)
            == DefiniteOf(origins[0], fold) + DefiniteOf(origins[1], fold) + DefiniteOf(origins[2], fold)
    ensures PossibleBag(origins, fold)
            == PossibleOf(origins[0], fold) + PossibleOf(origins[1], fold) + PossibleOf(origins[2], fold)
  {
    var two := origins[..2];
    var one := two[..1];
    assert two[1] == origins[1] && one[0] == origins[0] && one[..0] == [];
    assert DefiniteBag(one, fold) == DefiniteOf(origins[0], fold);
    assert DefiniteBag(two, fold) == DefiniteBag(one, fold) + DefiniteOf(origins[1], fold);
    assert DefiniteBag(origins, fold) == DefiniteBag(two, fold) + DefiniteOf(origins[2], fold);
    assert PossibleBag(one, fold) == PossibleOf(origins[0], fold);
    assert PossibleBag(two, fold) == PossibleBag(one, fold) + PossibleOf(origins[1], fold);
    assert PossibleBag(origins, fold) == PossibleBag(two, fold) + PossibleOf(origins[2], fold);
  }

  lemma ItaliaEspanaOrigin(v: string, fold: string -> string)
    requires v == "Italia - España" && FoldsExample(fold)
    ensures DefiniteOf(Some(v), fold) == multiset{}
    ensures PossibleOf(Some(v), fold) == multiset{"Italia", "Espana"}
  {
    ItaliaEspanaNames(v, fold);
    assert v[7] == '-';
  }

  lemma MadridOrigin(w: string, fold: string -> string)
    requires w == "Madrid" && FoldsExample(fold)
    ensures DefiniteOf(Some(w), fold) == multiset{"Madrid"}
    ensures PossibleOf(Some(w), fold) == multiset{}
  {
    assert forall i :: 0 <= i < |w| ==> w[i] != '-';
  }

  lemma OriginBags(v: string, w: string, fold: string -> string)
    requires v == "Italia - España" && w == "Madrid" && FoldsExample(fold)
    ensures DefiniteBag([Some(v), None, Some(w)], fold) == multiset{"Madrid"}
    ensures PossibleBag([Some(v), None, Some(w)], fold) == multiset{"Italia", "Espana", NanKey}
  {
    BagsOfThree([Some(v), None, Some(w)], fold);
    ItaliaEspanaOrigin(v, fold);
    MadridOrigin(w, fold);
  }

  lemma OneKey(m: Tally, a: string)
    requires forall k :: k in m <==> k == a
    requires Count(m, a) == 1
    ensures m == map[a := 1]
  {
  }

  lemma ThreeKeys(m: Tally, a: string, b: string, c: string)
    requires forall k :: k in m <==> k == a || k == b || k == c
    requires Count(m, a) == 1 && Count(m, b) == 1 && Count(m, c) == 1
    ensures m == map[a := 1, b := 1, c := 1]
  {
  }

  lemma DefiniteTally(origins: seq<Option<string>>, fold: string -> string)
    requires DefiniteBag(origins, fold) == multiset{"Madrid"}
    ensures GetLocations(origins, fold).locations == map["Madrid" := 1]
  {
    OneKey(GetLocations(origins, fold).locations, "Madrid");
  }

  lemma PossibleTally(origins: seq<Option<string>>, fold: string -> string)
    requires PossibleBag(origins, fold) == multiset{"Italia", "Espana", NanKey}
    ensures GetLocations(origins, fold).possible == map["Italia" := 1, "Espana" := 1, NanKey := 1]
  {
    var b := multiset{"Italia", "Espana", NanKey};
    assert b["Italia"] == 1 && b["Espana"] == 1 && b[NanKey] == 1;
    ThreeKeys(GetLocations(origins, fold).possible, "Italia", "Espana", NanKey);
  }

  /** Three origins: "Italia - España", a missing one and "Madrid". Italia
      and Espana are possible once each, the missing origin is possible
      under "Nan", and Madrid is definite once. */
  lemma OriginTallies(v: string, w: string, fold: string -> string)
    requires v == "Italia - España" && w == "Madrid" && FoldsExample(fold)
    ensures GetLocations([Some(v), None, Some(w)], fold).locations == map["Madrid" := 1]
    ensures GetLocations([Some(v), None, Some(w)], fold).possible
            == map["Italia" := 1, "Espana" := 1, NanKey := 1]
  {
    OriginBags(v, w, fold);
    DefiniteTally([Some(v), None, Some(w)], fold);
    PossibleTally([Some(v), None, Some(w)], fold);
  }

  /** Two countries under a budget of 20 days: `a` has columns for its
      first 15 days only, `b` for all 20. The table has 20 rows; `a`'s
      column holds 15 readings followed by 5 missing markers, and `b`'s
      holds 20 readings. */
  lemma ShortAndLongProgression(t: WideTable, key: Day -> string, referenceStart: Day, a: Profile, b: Profile)
    requires WellFormed(t) && a.name in t.countries && b.name in t.countries
    requires DayBudget(t, referenceStart) == 20
    requires forall d :: a.start <= d < a.start + 15 ==> key(d) in t.columns
    requires key(a.start + 15) !in t.columns
    requires forall d :: b.start <= d < b.start + 20 ==> key(d) in t.columns
    ensures var r := CountriesProgression(t, key, referenceStart, [a, b]);
            && r.Ok?
            && |r.value.days| == 20
            && (forall i :: 0 <= i < 15 ==> r.value.columns[0].values[i].Some?)
            && (forall i :: 15 <= i < 20 ==> r.value.columns[0].values[i] == None)
            && (forall i :: 0 <= i < 20 ==> r.value.columns[1].values[i].Some?)
  {
    var profiles := [a, b];
    assert AllFound(t, profiles);
    var r := CountriesProgression(t, key, referenceStart, profiles);
    RunLength(t, FindCountry(t.countries, a.name).value, key, a.start, 20, 15, Values(r.value.columns[0].values));
    RunLength(t, FindCountry(t.countries, b.name).value, key, b.start, 20, 20, Values(r.value.columns[1].values));
  }
}
