/** Calendar days as integer ordinals, so that "the start date plus i days"
    is plain addition, and the column keys a run of days is looked up by. */
module Dates {

  /** A calendar day, counted in days from a fixed epoch. */
  type Day = int

  /** Whole days from `earlier` to `later` (`(later - earlier).days`);
      negative when `later` comes first. */
  function DaysBetween(later: Day, earlier: Day): int
  {
    later - earlier
  }

  /** The number of loop iterations `range(n)` performs: none when `n` is
      not positive. */
  function Iterations(n: int): nat
  {
    if n > 0 then n else 0
  }

  /** The keys of the days `start, start + 1, ...`, one per iteration of
      `range(count)`. */
  function Window(key: Day -> string, start: Day, count: int): (ks: seq<string>)
    ensures |ks| == Iterations(count)
  {
    seq(Iterations(count), i => key(start + i))
  }

  /** No two days of the window share a key. */
  predicate DistinctKeys(ks: seq<string>)
  {
    forall i, j :: 0 <= i < j < |ks| ==> ks[i] != ks[j]
  }
}
