/** The origin tables: how many cases came from each country of origin, and
    how many more could have come from each country named in a multi-valued
    origin ("Italia - España"), with missing origins counted under "Nan".
    Names pass through a transliteration to plain ASCII, which is a
    parameter of the model (`fold`). */
module Origins {
  import opened Results
  import opened Text

  /** A name-to-count dictionary; a name that is not a key counts zero. */
  type Tally = map<string, nat>

  function Count(m: Tally, k: string): nat
  {
    if k in m then m[k] else 0
  }

  /** The key the missing origins are counted under. */
  const NanKey: string := "Nan"

  /** The character that separates the names of a multi-valued origin. */
  const Separator: char := '-'

  /** `d[k] += 1` when `k` is a key, `d[k] = 1` otherwise. */
  function Increment(m: Tally, k: string): (r: Tally)
    ensures Count(r, k) == Count(m, k) + 1
    ensures forall j :: j != k ==> Count(r, j) == Count(m, j)
    ensures r.Keys == m.Keys + {k}
    ensures Positive(m) ==> Positive(r)
  {
    if k in m then m[k := m[k] + 1] else m[k := 1]
  }

  /** Every key of the dictionary has a positive count. */
  predicate Positive(m: Tally)
  {
    forall k :: k in m ==> m[k] > 0
  }

  /** Counting each name of `names` once, in order. */
  function IncrementAll(m: Tally, names: seq<string>): (r: Tally)
    ensures forall k :: Count(r, k) == Count(m, k) + multiset(names)[k]
    ensures r.Keys == m.Keys + set k | k in names
    ensures Positive(m) ==> Positive(r)
    decreases |names|
  {
    if |names| == 0 then m
    else
      var n := |names| - 1;
      assert names == names[..n] + [names[n]];
      Increment(IncrementAll(m, names[..n]), names[n])
  }

  /** The names of a multi-valued origin: split at every separator, each
      piece trimmed of surrounding whitespace and transliterated. */
  function PlaceNames(v: string, fold: string -> string): (r: seq<string>)
    ensures |r| == |Split(v, Separator)| == Occurrences(v, Separator) + 1
    ensures forall i :: 0 <= i < |r| ==> r[i] == fold(Strip(Split(v, Separator)[i]))
  {
    var pieces := Split(v, Separator);
    SplitCount(v, Separator);
    seq(|pieces|, i requires 0 <= i < |pieces| => fold(Strip(pieces[i])))
  }

  /** `__resolve_nan`: one more missing origin. */
  function ResolveNan(possible: Tally): (r: Tally)
    ensures Count(r, NanKey) == Count(possible, NanKey) + 1
    ensures forall k :: k != NanKey ==> Count(r, k) == Count(possible, k)
    ensures Positive(possible) ==> Positive(r)
  {
    Increment(possible, NanKey)
  }

  /** `__add_possible_locations`: one more possible case for every name of a
      multi-valued origin (a name given twice counts twice). */
  function AddPossibleLocations(possible: Tally, v: string, fold: string -> string): (r: Tally)
    ensures forall k :: Count(r, k) == Count(possible, k) + multiset(PlaceNames(v, fold))[k]
    ensures Positive(possible) ==> Positive(r)
  {
    IncrementAll(possible, PlaceNames(v, fold))
  }

  /** `__add_location`: one more case from a single origin, transliterated
      but not trimmed. */
  function AddLocation(locations: Tally, v: string, fold: string -> string): (r: Tally)
    ensures Count(r, fold(v)) == Count(locations, fold(v)) + 1
    ensures forall k :: k != fold(v) ==> Count(r, k) == Count(locations, k)
    ensures Positive(locations) ==> Positive(r)
  {
    Increment(locations, fold(v))
  }

  /** The two dictionaries the origins are counted in. */
  datatype OriginTables = OriginTables(locations: Tally, possible: Tally)

  /** What one origin adds to the definite table: its transliterated name
      when it names a single place, nothing otherwise. */
  function DefiniteOf(o: Option<string>, fold: string -> string): multiset<string>
  {
    match o
    case None => multiset{}
    case Some(v) => if Separator in v then multiset{} else multiset{fold(v)}
  }

  /** What one origin adds to the possible table: "Nan" when it is missing,
      the names it lists when it lists several, nothing otherwise. */
  function PossibleOf(o: Option<string>, fold: string -> string): multiset<string>
  {
    match o
    case None => multiset{NanKey}
    case Some(v) => if Separator in v then multiset(PlaceNames(v, fold)) else multiset{}
  }

  /** `__resolve_locations`: a missing origin counts as possible under
      "Nan", one with a separator adds each of its names as possible, any
      other adds its name as definite. Exactly one table changes. */
  function ResolveLocation(t: OriginTables, o: Option<string>, fold: string -> string): (r: OriginTables)
    ensures forall k :: Count(r.locations, k) == Count(t.locations, k) + DefiniteOf(o, fold)[k]
    ensures forall k :: Count(r.possible, k) == Count(t.possible, k) + PossibleOf(o, fold)[k]
    ensures r.locations == t.locations || r.possible == t.possible
    ensures Positive(t.locations) && Positive(t.possible) ==> Positive(r.locations) && Positive(r.possible)
  {
    match o
    case None => OriginTables(t.locations, ResolveNan(t.possible))
    case Some(v) =>
      if Separator in v then OriginTables(t.locations, AddPossibleLocations(t.possible, v, fold))
      else OriginTables(AddLocation(t.locations, v, fold), t.possible)
  }

  /** Every definite name, over a column of origins. */
  function DefiniteBag(origins: seq<Option<string>>, fold: string -> string): multiset<string>
  {
    if |origins| == 0 then multiset{}
    else
      var n := |origins| - 1;
      DefiniteBag(origins[..n], fold) + DefiniteOf(origins[n], fold)
  }

  /** Every possible name, over a column of origins. */
  function PossibleBag(origins: seq<Option<string>>, fold: string -> string): multiset<string>
  {
    if |origins| == 0 then multiset{}
    else
      var n := |origins| - 1;
      PossibleBag(origins[..n], fold) + PossibleOf(origins[n], fold)
  }

  /** `__get_locations`: both tables, built by resolving the origins in
      column order from empty dictionaries. Each table counts every name
      exactly as often as the origins contribute it, and holds no key with
      a zero count. */
  function GetLocations(origins: seq<Option<string>>, fold: string -> string): (r: OriginTables)
    ensures forall k :: Count(r.locations, k) == DefiniteBag(origins, fold)[k]
    ensures forall k :: Count(r.possible, k) == PossibleBag(origins, fold)[k]
    ensures Positive(r.locations) && Positive(r.possible)
    ensures forall k :: k in r.locations <==> k in DefiniteBag(origins, fold)
    ensures forall k :: k in r.possible <==> k in PossibleBag(origins, fold)
  {
    if |origins| == 0 then OriginTables(map[], map[])
    else
      var n := |origins| - 1;
      ResolveLocation(GetLocations(origins[..n], fold), origins[n], fold)
  }

  /** How many names an origin contributes to the possible table: one for
      a missing origin, one more than it has separators for a multi-valued
      one, none for a single one. */
  function PossibleEntries(o: Option<string>): nat
  {
    match o
    case None => 1
    case Some(v) => if Separator in v then Occurrences(v, Separator) + 1 else 0
  }

  /** The origins naming a single place. */
  function SingleOrigins(origins: seq<Option<string>>): nat
  {
    if |origins| == 0 then 0
    else
      var n := |origins| - 1;
      SingleOrigins(origins[..n]) + (if origins[n].Some? && Separator !in origins[n].value then 1 else 0)
  }

  function TotalPossibleEntries(origins: seq<Option<string>>): nat
  {
    if |origins| == 0 then 0
    else
      var n := |origins| - 1;
      TotalPossibleEntries(origins[..n]) + PossibleEntries(origins[n])
  }

  /** The definite table counts one case per single origin; the possible
      table one per missing origin and one per name listed in the others. */
  lemma {:induction false} TableSizes(origins: seq<Option<string>>, fold: string -> string)
    ensures |DefiniteBag(origins, fold)| == SingleOrigins(origins)
    ensures |PossibleBag(origins, fold)| == TotalPossibleEntries(origins)
  {
    if |origins| > 0 {
      var n := |origins| - 1;
      TableSizes(origins[..n], fold);
      match origins[n]
      case None =>
      case Some(v) =>
        if Separator in v {
          assert |PlaceNames(v, fold)| == Occurrences(v, Separator) + 1;
        }
    }
  }
}
