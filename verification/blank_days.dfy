/** Completing a day-indexed series: every calendar day from the first row's
    day to the last row's day gets a row, the days that had none with a
    count of zero (a `reindex` over a `date_range` with `fill_value=0`). */
module BlankDays {
  import opened Results
  import opened Dates

  datatype DayCount = DayCount(day: Day, count: int)

  datatype FillError =
    | EmptySeries    // the series has no first row to start the range from
    | DuplicateDays  // a day labels two rows, which a reindex refuses

  predicate DistinctDays(s: seq<DayCount>)
  {
    forall i, j :: 0 <= i < j < |s| ==> s[i].day != s[j].day
  }

  predicate StrictlyAscending(s: seq<DayCount>)
  {
    forall i, j :: 0 <= i < j < |s| ==> s[i].day < s[j].day
  }

  /** The count a series gives day `d`: that of its row on `d`, zero when
      it has none. */
  function CountOn(s: seq<DayCount>, d: Day): (c: int)
    ensures (forall i :: 0 <= i < |s| ==> s[i].day != d) ==> c == 0
    ensures DistinctDays(s) ==> forall i :: 0 <= i < |s| && s[i].day == d ==> c == s[i].count
  {
    if |s| == 0 then 0
    else
      var n := |s| - 1;
      assert forall i :: 0 <= i < n ==> s[..n][i] == s[i];
      if s[n].day == d then s[n].count else CountOn(s[..n], d)
  }

  /** `n` consecutive days from `from`: a day with a row of `s` keeps that
      row's count, a day without one reads zero. */
  function Dense(s: seq<DayCount>, from: Day, n: nat): (r: seq<DayCount>)
    ensures |r| == n
    ensures forall i :: 0 <= i < n ==> r[i].day == from + i
    ensures forall i :: 0 <= i < n && (forall j :: 0 <= j < |s| ==> s[j].day != from + i) ==> r[i].count == 0
    ensures DistinctDays(s) ==>
              forall i, j :: 0 <= i < n && 0 <= j < |s| && s[j].day == from + i ==> r[i].count == s[j].count
  {
    var r := seq(n, i requires 0 <= i < n => DayCount(from + i, CountOn(s, from + i)));
    assert forall i :: 0 <= i < n ==> r[i].count == CountOn(s, from + i);
    r
  }

  /** `__fill_blank_days`: the series over the whole range of days between
      its first and last rows. Days of the range keep their count, days
      missing from the series read zero, and rows outside the range (only
      possible when the series is not in day order) are dropped. */
  function FillBlankDays(s: seq<DayCount>): (r: Result<seq<DayCount>, FillError>)
    ensures r == Err(EmptySeries) <==> |s| == 0
    ensures r == Err(DuplicateDays) <==> |s| > 0 && !DistinctDays(s)
    ensures r.Ok? ==>
              var first, last := s[0].day, s[|s| - 1].day;
              && |r.value| == Iterations(DaysBetween(last, first) + 1)
              && (forall i :: 0 <= i < |r.value| ==> r.value[i].day == first + i)
              && (forall j :: 0 <= j < |s| && first <= s[j].day <= last ==> r.value[s[j].day - first] == s[j])
              && (forall i :: 0 <= i < |r.value| && (forall j :: 0 <= j < |s| ==> s[j].day != first + i) ==>
                    r.value[i].count == 0)
  {
    if |s| == 0 then Err(EmptySeries)
    else if !DistinctDays(s) then Err(DuplicateDays)
    else
      var first := s[0].day;
      var r := Dense(s, first, Iterations(DaysBetween(s[|s| - 1].day, first) + 1));
      forall j | 0 <= j < |s| && first <= s[j].day <= s[|s| - 1].day
        ensures r[s[j].day - first] == s[j]
      {
        assert CountOn(s, s[j].day) == s[j].count;
      }
      Ok(r)
  }

  /** The rows with a non-zero count, in order. */
  function DropZeros(s: seq<DayCount>): (r: seq<DayCount>)
    ensures |r| <= |s|
  {
    if |s| == 0 then []
    else
      var n := |s| - 1;
      DropZeros(s[..n]) + (if s[n].count != 0 then [s[n]] else [])
  }

  /** Dropping the zero rows keeps only rows of the series, and none of
      them with a zero count; every non-zero row survives. */
  lemma {:induction false} DropZerosKeeps(s: seq<DayCount>)
    ensures forall i :: 0 <= i < |DropZeros(s)| ==> DropZeros(s)[i].count != 0 && DropZeros(s)[i] in s
    ensures forall x :: x in s && x.count != 0 ==> x in DropZeros(s)
    decreases |s|
  {
    if |s| > 0 {
      var n := |s| - 1;
      DropZerosKeeps(s[..n]);
      assert s == s[..n] + [s[n]];
    }
  }

  /** Filling in the blank days of a day-ordered series without zero rows
      and then dropping the zero rows gives the series back: the filled
      days are exactly the added ones, and nothing else changes. */
  lemma FillThenDrop(s: seq<DayCount>)
    requires |s| > 0
    requires StrictlyAscending(s)
    requires forall i :: 0 <= i < |s| ==> s[i].count != 0
    ensures FillBlankDays(s).Ok?
    ensures DropZeros(FillBlankDays(s).value) == s
  {
    var first, last := s[0].day, s[|s| - 1].day;
    var n := Iterations(DaysBetween(last, first) + 1);
    assert DistinctDays(s);
    assert FillBlankDays(s) == Ok(Dense(s, first, n)) by { FillIsDense(s); }
    assert DropZeros(Dense(s, first, n)) == s by {
      assert forall j :: 0 <= j < |s| ==> first <= s[j].day <= last;
      DenseDrop(s, first, n);
    }
  }

  lemma FillIsDense(s: seq<DayCount>)
    requires |s| > 0 && DistinctDays(s)
    ensures FillBlankDays(s) == Ok(Dense(s, s[0].day, Iterations(DaysBetween(s[|s| - 1].day, s[0].day) + 1)))
  {
  }

  lemma {:induction false} DenseDrop(s: seq<DayCount>, from: Day, n: nat)
    requires StrictlyAscending(s)
    requires forall i :: 0 <= i < |s| ==> s[i].count != 0
    requires forall i :: 0 <= i < |s| ==> from <= s[i].day < from + n
    ensures DropZeros(Dense(s, from, n)) == s
    decreases n, 1
  {
    if n == 0 {
      FirstRowInRange(s, from, n);
    } else if |s| > 0 && s[|s| - 1].day == from + n - 1 {
      DenseDropLastRow(s, from, n);
    } else {
      DenseDropBlankDay(s, from, n);
    }
  }

  /** The last day of the range carries the series' last row. */
  lemma {:induction false} DenseDropLastRow(s: seq<DayCount>, from: Day, n: nat)
    requires StrictlyAscending(s)
    requires forall i :: 0 <= i < |s| ==> s[i].count != 0
    requires forall i :: 0 <= i < |s| ==> from <= s[i].day < from + n
    requires n > 0 && |s| > 0 && s[|s| - 1].day == from + n - 1
    ensures DropZeros(Dense(s, from, n)) == s
    decreases n, 0
  {
    var d := from + n - 1;
    var front := s[..|s| - 1];
    var x := DayCount(d, CountOn(s, d));
    var a := Dense(s, from, n - 1);
    assert DropZeros(a) == front && x == s[|s| - 1] by {
      FrontInRange(s, from, n);
      DenseIgnoresLast(s, from, n - 1);
      DenseDrop(front, from, n - 1);
    }
    assert DropZeros(a + [x]) == front + [x] by {
      KeepRow(a, x, front);
    }
    assert Dense(s, from, n) == a + [x] by {
      DenseSnoc(s, from, n);
    }
    SplitLast(s);
  }

  lemma KeepRow(a: seq<DayCount>, x: DayCount, front: seq<DayCount>)
    requires DropZeros(a) == front && x.count != 0
    ensures DropZeros(a + [x]) == front + [x]
  {
    DropZerosSnoc(a, x);
  }

  /** The last day of the range is a blank day. */
  lemma {:induction false} DenseDropBlankDay(s: seq<DayCount>, from: Day, n: nat)
    requires StrictlyAscending(s)
    requires forall i :: 0 <= i < |s| ==> s[i].count != 0
    requires forall i :: 0 <= i < |s| ==> from <= s[i].day < from + n
    requires n > 0 && !(|s| > 0 && s[|s| - 1].day == from + n - 1)
    ensures DropZeros(Dense(s, from, n)) == s
    decreases n, 0
  {
    var d := from + n - 1;
    DenseSnoc(s, from, n);
    DropZerosSnoc(Dense(s, from, n - 1), DayCount(d, CountOn(s, d)));
    LastDayMissing(s, d);
    DenseDrop(s, from, n - 1);
  }

  lemma SplitLast<T>(s: seq<T>)
    requires |s| > 0
    ensures s == s[..|s| - 1] + [s[|s| - 1]]
  {
  }

  lemma FirstRowInRange(s: seq<DayCount>, from: Day, n: nat)
    requires forall i :: 0 <= i < |s| ==> from <= s[i].day < from + n
    ensures |s| > 0 ==> from <= s[0].day < from + n
  {
  }

  lemma FrontInRange(s: seq<DayCount>, from: Day, n: nat)
    requires |s| > 0 && StrictlyAscending(s)
    requires forall i :: 0 <= i < |s| ==> s[i].count != 0
    requires forall i :: 0 <= i < |s| ==> from <= s[i].day < from + n
    requires s[|s| - 1].day == from + n - 1
    ensures var front := s[..|s| - 1];
            && StrictlyAscending(front)
            && (forall i :: 0 <= i < |front| ==> front[i].count != 0)
            && (forall i :: 0 <= i < |front| ==> from <= front[i].day < from + (n - 1))
            && CountOn(s, from + n - 1) == s[|s| - 1].count
  {
    var front := s[..|s| - 1];
    forall i | 0 <= i < |front| ensures from <= front[i].day < from + (n - 1) {
      assert front[i] == s[i] && s[i].day < s[|s| - 1].day;
    }
  }

  lemma LastDayMissing(s: seq<DayCount>, d: Day)
    requires StrictlyAscending(s)
    requires forall i :: 0 <= i < |s| ==> s[i].day <= d
    requires !(|s| > 0 && s[|s| - 1].day == d)
    ensures forall i :: 0 <= i < |s| ==> s[i].day < d
    ensures CountOn(s, d) == 0
  {
    forall i | 0 <= i < |s| ensures s[i].day < d {
      if i < |s| - 1 {
        assert s[i].day < s[|s| - 1].day;
      }
    }
  }

  lemma DenseSnoc(s: seq<DayCount>, from: Day, n: nat)
    requires n > 0
    ensures Dense(s, from, n) == Dense(s, from, n - 1) + [DayCount(from + n - 1, CountOn(s, from + n - 1))]
  {
  }

  lemma DropZerosSnoc(a: seq<DayCount>, x: DayCount)
    ensures DropZeros(a + [x]) == DropZeros(a) + (if x.count != 0 then [x] else [])
  {
    assert (a + [x])[..|a|] == a;
  }

  /** A day range that stops short of the last row's day reads the same
      without that row. */
  lemma DenseIgnoresLast(s: seq<DayCount>, from: Day, m: nat)
    requires |s| > 0 && from + m <= s[|s| - 1].day
    ensures Dense(s, from, m) == Dense(s[..|s| - 1], from, m)
  {
    forall e | from <= e < from + m ensures CountOn(s, e) == CountOn(s[..|s| - 1], e) {
    }
  }
}
