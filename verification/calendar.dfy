/** The proleptic Gregorian calendar over day ordinals (day 0 is 1 January
    2000), and the column key of a day: month, day and two-digit year
    separated by slashes, month and day without leading zeros ("3/6/20"),
    the `strftime` pattern "%-m/%-d/%y". */
module Calendar {
  import opened Text
  import opened Results
  import opened Dates

  datatype Civil = Civil(year: int, month: nat, day: nat)

  predicate IsLeap(y: int)
  {
    (y % 4 == 0 && y % 100 != 0) || y % 400 == 0
  }

  function DaysInYear(y: int): nat
  {
    if IsLeap(y) then 366 else 365
  }

  function DaysInMonth(y: int, m: int): nat
  {
    if m == 2 then (if IsLeap(y) then 29 else 28)
    else if m == 4 || m == 6 || m == 9 || m == 11 then 30
    else 31
  }

  predicate Valid(c: Civil)
  {
    1 <= c.month <= 12 && 1 <= c.day <= DaysInMonth(c.year, c.month)
  }

  const EpochYear: int := 2000

  /** The day 1 January of year `y` falls on. */
  function YearStart(y: int): Day
    decreases if y < EpochYear then EpochYear - y else y - EpochYear
  {
    if y == EpochYear then 0
    else if y > EpochYear then YearStart(y - 1) + DaysInYear(y - 1)
    else YearStart(y + 1) - DaysInYear(y)
  }

  lemma YearStartStep(y: int)
    ensures YearStart(y + 1) == YearStart(y) + DaysInYear(y)
  {
  }

  /** Days of year `y` before the first of month `m` (13 stands for the
      end of the year). */
  function DaysBeforeMonth(y: int, m: int): nat
    requires 1 <= m <= 13
  {
    if m == 1 then 0 else DaysBeforeMonth(y, m - 1) + DaysInMonth(y, m - 1)
  }

  /** The months before `m` have the same length every year, except that
      February has a 29th day in leap years. */
  lemma {:induction false} DaysBeforeMonthValue(y: int, m: int)
    requires 1 <= m <= 13
    ensures DaysBeforeMonth(y, m) == DaysBeforeMonth(2001, m) + (if m > 2 && IsLeap(y) then 1 else 0)
    ensures DaysBeforeMonth(y, 13) == DaysInYear(y)
  {
    if m > 1 {
      DaysBeforeMonthValue(y, m - 1);
    }
    YearLength(y);
  }

  lemma YearLength(y: int)
    ensures DaysBeforeMonth(y, 13) == DaysInYear(y)
  {
    var f := if IsLeap(y) then 29 else 28;
    assert DaysBeforeMonth(y, 2) == 31;
    assert DaysBeforeMonth(y, 3) == 31 + f;
    assert DaysBeforeMonth(y, 4) == 62 + f;
    assert DaysBeforeMonth(y, 5) == 92 + f;
    assert DaysBeforeMonth(y, 6) == 123 + f;
    assert DaysBeforeMonth(y, 7) == 153 + f;
    assert DaysBeforeMonth(y, 8) == 184 + f;
    assert DaysBeforeMonth(y, 9) == 215 + f;
    assert DaysBeforeMonth(y, 10) == 245 + f;
    assert DaysBeforeMonth(y, 11) == 276 + f;
    assert DaysBeforeMonth(y, 12) == 306 + f;
  }

  /** The ordinal of a calendar date. */
  function DayOf(c: Civil): Day
    requires Valid(c)
  {
    YearStart(c.year) + DaysBeforeMonth(c.year, c.month) + c.day - 1
  }

  /** The year containing the day `offset` days after 1 January of `y`,
      and the day's position in that year. */
  function YearOf(offset: int, y: int): (p: (int, int))
    ensures 0 <= p.1 < DaysInYear(p.0)
    ensures YearStart(p.0) + p.1 == YearStart(y) + offset
    decreases if offset < 0 then 1 else 0, if offset < 0 then -offset else offset
  {
    YearStartStep(y - 1);
    YearStartStep(y);
    if offset < 0 then YearOf(offset + DaysInYear(y - 1), y - 1)
    else if offset < DaysInYear(y) then (y, offset)
    else YearOf(offset - DaysInYear(y), y + 1)
  }

  /** The month of year `y` holding its day number `rest` (counted from 0),
      searching from month `m`, and the day of that month. */
  function MonthOf(y: int, rest: int, m: int): (p: (int, int))
    requires 1 <= m <= 12
    requires DaysBeforeMonth(y, m) <= rest < DaysInYear(y)
    ensures 1 <= p.0 <= 12 && 1 <= p.1 <= DaysInMonth(y, p.0)
    ensures DaysBeforeMonth(y, p.0) + p.1 - 1 == rest
    decreases 12 - m
  {
    DaysBeforeMonthValue(y, m + 1);
    if rest < DaysBeforeMonth(y, m + 1) then (m, rest - DaysBeforeMonth(y, m) + 1)
    else MonthOf(y, rest, m + 1)
  }

  /** The calendar date of a day ordinal; its ordinal is the day itself. */
  function CivilOf(n: Day): (c: Civil)
    ensures Valid(c)
    ensures DayOf(c) == n
  {
    var (y, rest) := YearOf(n, EpochYear);
    var (m, d) := MonthOf(y, rest, 1);
    Civil(y, m, d)
  }

  /** Two valid dates with the same ordinal are the same date. */
  lemma DayOfInjective(a: Civil, b: Civil)
    requires Valid(a) && Valid(b) && DayOf(a) == DayOf(b)
    ensures a == b
  {
    if a.year < b.year {
      LaterYearLaterDay(a, b);
    } else if b.year < a.year {
      LaterYearLaterDay(b, a);
    } else if a.month < b.month {
      LaterMonthLaterDay(a.year, a.month, b.month);
    } else if b.month < a.month {
      LaterMonthLaterDay(a.year, b.month, a.month);
    }
  }

  lemma LaterMonthLaterDay(y: int, m1: int, m2: int)
    requires 1 <= m1 < m2 <= 13
    ensures DaysBeforeMonth(y, m2) >= DaysBeforeMonth(y, m1) + DaysInMonth(y, m1)
    decreases m2 - m1
  {
    if m2 > m1 + 1 {
      LaterMonthLaterDay(y, m1, m2 - 1);
    }
  }

  lemma {:induction false} YearsApart(y1: int, y2: int)
    requires y1 <= y2
    ensures YearStart(y2) - YearStart(y1) >= 365 * (y2 - y1)
    decreases y2 - y1
  {
    if y1 < y2 {
      YearsApart(y1, y2 - 1);
      YearStartStep(y2 - 1);
    }
  }

  /** A date in a later year has a larger ordinal, by at least 365 days per
      year between them less one (a 29 February against a 1 March). */
  lemma LaterYearLaterDay(a: Civil, b: Civil)
    requires Valid(a) && Valid(b) && a.year < b.year
    ensures DayOf(b) - DayOf(a) >= 365 * (b.year - a.year - 1) + 1
    ensures a.month == b.month && a.day == b.day ==> DayOf(b) - DayOf(a) >= 365 * (b.year - a.year) - 1
  {
    YearsApart(a.year + 1, b.year);
    YearStartStep(a.year);
    DaysBeforeMonthValue(a.year, a.month + 1);
    DaysBeforeMonthValue(a.year, a.month);
    DaysBeforeMonthValue(b.year, b.month);
    LaterMonthLaterDay(a.year, a.month, 13);
  }

  function Digit(k: int): char
    requires 0 <= k < 10
  {
    (('0' as int) + k) as char
  }

  function DigitValue(c: char): int
  {
    (c as int) - ('0' as int)
  }

  predicate AllDigits(s: string)
  {
    forall i :: 0 <= i < |s| ==> '0' <= s[i] <= '9'
  }

  /** Decimal text of `n` without leading zeros ("%-m", "%-d"). */
  function NatText(n: nat): (r: string)
    ensures |r| >= 1 && AllDigits(r)
  {
    if n < 10 then [Digit(n)] else NatText(n / 10) + [Digit(n % 10)]
  }

  /** Unpadded decimal text starts with a non-zero digit unless the
      number is zero. */
  lemma {:induction false} NatTextLead(n: nat)
    requires n >= 1
    ensures NatText(n)[0] != '0'
  {
    if n >= 10 {
      NatTextLead(n / 10);
    }
  }

  /** Two-digit decimal text of `n`, zero padded ("%y"). */
  function TwoDigits(n: nat): (r: string)
    requires n < 100
    ensures |r| == 2 && AllDigits(r)
  {
    [Digit(n / 10), Digit(n % 10)]
  }

  /** The number a string of decimal digits denotes. */
  function ParseNat(s: string): int
  {
    if |s| == 0 then 0 else ParseNat(s[..|s| - 1]) * 10 + DigitValue(s[|s| - 1])
  }

  lemma {:induction false} ParseNatText(n: nat)
    ensures ParseNat(NatText(n)) == n
  {
    if n >= 10 {
      ParseNatText(n / 10);
      var t := NatText(n);
      assert t[..|t| - 1] == NatText(n / 10);
    } else {
      assert NatText(n)[..0] == [];
    }
  }

  lemma ParseTwoDigits(n: nat)
    requires n < 100
    ensures ParseNat(TwoDigits(n)) == n
  {
    var t := TwoDigits(n);
    assert t[..1] == [Digit(n / 10)] && t[..1][..0] == [];
    assert ParseNat(t[..1]) == n / 10;
    assert ParseNat(t) == (n / 10) * 10 + n % 10;
  }

  /** The column key of a day (`strftime("%-m/%-d/%y")`), e.g. "3/6/20"
      for 6 March 2020. */
  function Key(n: Day): string
  {
    var c := CivilOf(n);
    Join([NatText(c.month), NatText(c.day), TwoDigits(c.year % 100)], '/')
  }

  /** What `strftime("%-m/%-d/%y")` writes: three slash-separated fields of
      digits, the first two of one or two digits without a leading zero
      reading as the month and the day, the last of exactly two reading as
      the year within its century. */
  lemma KeyFieldValues(n: Day)
    ensures var c := CivilOf(n);
            var f := Split(Key(n), '/');
            && |f| == 3 && Field(f[0], 2) && Field(f[1], 2) && Field(f[2], 2) && |f[2]| == 2
            && ParseNat(f[0]) == c.month && ParseNat(f[1]) == c.day && ParseNat(f[2]) == c.year % 100
            && f[0][0] != '0' && f[1][0] != '0'
  {
    var c := CivilOf(n);
    var p := [NatText(c.month), NatText(c.day), TwoDigits(c.year % 100)];
    NatTextLead(c.month);
    NatTextLead(c.day);
    SlashFree(p);
    SplitJoin(p, '/');
    NatTextShort(c.month);
    NatTextShort(c.day);
    ParseNatText(c.month);
    ParseNatText(c.day);
    ParseTwoDigits(c.year % 100);
  }

  /** The key spelled out: month, slash, day, slash, two-digit year. */
  lemma KeySpelling(n: Day)
    ensures var c := CivilOf(n);
            Key(n) == NatText(c.month) + ['/'] + NatText(c.day) + ['/'] + TwoDigits(c.year % 100)
  {
    var c := CivilOf(n);
    var p := [NatText(c.month), NatText(c.day), TwoDigits(c.year % 100)];
    assert p[1..] == [p[1], p[2]] && p[1..][1..] == [p[2]];
    assert Join([p[2]], '/') == p[2];
    assert Join([p[1], p[2]], '/') == p[1] + ['/'] + p[2];
  }

  /** Two days less than a century apart never share a key: the key spells
      out month, day and the year within its century. */
  lemma KeyInjective(n1: Day, n2: Day)
    requires -36499 < n1 - n2 < 36499
    requires Key(n1) == Key(n2)
    ensures n1 == n2
  {
    KeyFieldValues(n1);
    KeyFieldValues(n2);
    SameDateWithinCentury(CivilOf(n1), CivilOf(n2));
  }

  /** Two dates with the same month, day and year within the century are
      the same date when they are less than a century apart. */
  lemma SameDateWithinCentury(a: Civil, b: Civil)
    requires Valid(a) && Valid(b)
    requires a.month == b.month && a.day == b.day && a.year % 100 == b.year % 100
    requires -36499 < DayOf(a) - DayOf(b) < 36499
    ensures a == b
  {
    if a.year < b.year {
      CenturyApart(a.year, b.year);
      LaterYearLaterDay(a, b);
    } else if b.year < a.year {
      CenturyApart(b.year, a.year);
      LaterYearLaterDay(b, a);
    }
  }

  /** Distinct years with the same last two digits are a century or more
      apart, which is at least 36 500 days of 365. */
  lemma CenturyApart(x: int, y: int)
    requires x < y && x % 100 == y % 100
    ensures 365 * (y - x) - 1 >= 36499
  {
    var k := y / 100 - x / 100;
    assert y - x == 100 * k;
    assert k >= 1;
    assert 365 * (y - x) == 36500 * k;
  }

  lemma SlashFree(pieces: seq<string>)
    requires forall k :: 0 <= k < |pieces| ==> AllDigits(pieces[k])
    ensures forall k :: 0 <= k < |pieces| ==> '/' !in pieces[k]
  {
    forall k | 0 <= k < |pieces| ensures '/' !in pieces[k] {
      assert forall i :: 0 <= i < |pieces[k]| ==> pieces[k][i] != '/';
    }
  }

  /** Any run of fewer than 36 499 days (just under a century) has one
      key per day. */
  lemma WindowKeysDistinct(start: Day, count: int)
    requires count < 36499
    ensures DistinctKeys(Window(Key, start, count))
  {
    var ks := Window(Key, start, count);
    forall i, j | 0 <= i < j < |ks| ensures ks[i] != ks[j] {
      WindowPairDiffers(ks, start, count, i, j);
    }
  }

  lemma WindowPairDiffers(ks: seq<string>, start: Day, count: int, i: nat, j: nat)
    requires count < 36499 && ks == Window(Key, start, count)
    requires i < j < |ks|
    ensures ks[i] != ks[j]
  {
    KeysDiffer(start + i, start + j);
    assert ks[i] == Key(start + i) by { WindowAt(ks, start, count, i); }
    assert ks[j] == Key(start + j) by { WindowAt(ks, start, count, j); }
  }

  lemma WindowAt(ks: seq<string>, start: Day, count: int, i: nat)
    requires ks == Window(Key, start, count) && i < |ks|
    ensures ks[i] == Key(start + i)
  {
  }

  lemma KeysDiffer(n1: Day, n2: Day)
    requires n1 < n2 < n1 + 36499
    ensures Key(n1) != Key(n2)
  {
    if Key(n1) == Key(n2) {
      KeyInjective(n1, n2);
    }
  }

  /** A valid date is the date of its own ordinal. */
  lemma CivilOfDayOf(c: Civil)
    requires Valid(c)
    ensures CivilOf(DayOf(c)) == c
  {
    DayOfInjective(CivilOf(DayOf(c)), c);
  }

  /** The year `%y` reads from two digits: 69-99 are 1969-1999 and 00-68
      are 2000-2068, as `strptime` does. */
  function CenturyYear(yy: nat): (y: int)
    requires yy < 100
    ensures 1969 <= y <= 2068 && y % 100 == yy
  {
    if yy < 69 then 2000 + yy else 1900 + yy
  }

  /** A field of at most `width` decimal digits, and at least one. */
  predicate Field(s: string, width: nat)
  {
    1 <= |s| <= width && AllDigits(s)
  }

  lemma FieldValue(s: string)
    requires Field(s, 2)
    ensures 0 <= ParseNat(s) < 100
  {
    var a := s[..|s| - 1];
    assert 0 <= DigitValue(s[|s| - 1]) <= 9;
    if |s| == 2 {
      assert a == [s[0]] && a[..0] == [];
      assert 0 <= DigitValue(s[0]) <= 9;
      assert ParseNat(a) == ParseNat(a[..0]) * 10 + DigitValue(a[0]);
      assert ParseNat(s) == ParseNat(a) * 10 + DigitValue(s[1]);
    } else {
      assert a == [];
    }
  }

  /** `datetime.strptime(s, "%m/%d/%y")`: the day a column header names,
      or `None` where `strptime` raises: not three slash-separated digit
      fields, a year that is not two digits, or no such calendar date. */
  function ParseKey(s: string): (r: Option<Day>)
    ensures r.Some? ==> 1969 <= CivilOf(r.value).year <= 2068
  {
    var f := Split(s, '/');
    if |f| != 3 || !Field(f[0], 2) || !Field(f[1], 2) || !Field(f[2], 2) || |f[2]| != 2 then None
    else
      FieldValue(f[0]);
      FieldValue(f[1]);
      FieldValue(f[2]);
      var c := Civil(CenturyYear(ParseNat(f[2])), ParseNat(f[0]), ParseNat(f[1]));
      if Valid(c) then CivilOfDayOf(c); Some(DayOf(c)) else None
  }

  lemma NatTextShort(n: nat)
    requires n < 100
    ensures |NatText(n)| <= 2
  {
    if n >= 10 {
      assert NatText(n) == NatText(n / 10) + [Digit(n % 10)];
    }
  }

  /** Parsing a key gives back its day, for every day of the years
      1969-2068 that the two-digit year maps back to. */
  lemma ParseKeyOfKey(n: Day)
    requires 1969 <= CivilOf(n).year <= 2068
    ensures ParseKey(Key(n)) == Some(n)
  {
    KeyFieldValues(n);
    ParseOfFields(Key(n), CivilOf(n));
  }

  /** A string whose fields read as the month, day and two-digit year of a
      date of 1969-2068 parses as that date. */
  lemma ParseOfFields(s: string, c: Civil)
    requires Valid(c) && 1969 <= c.year <= 2068
    requires var f := Split(s, '/');
             && |f| == 3 && Field(f[0], 2) && Field(f[1], 2) && Field(f[2], 2) && |f[2]| == 2
             && ParseNat(f[0]) == c.month && ParseNat(f[1]) == c.day && ParseNat(f[2]) == c.year % 100
    ensures ParseKey(s) == Some(DayOf(c))
  {
    var f := Split(s, '/');
    assert CenturyYear(ParseNat(f[2])) == c.year;
  }

  /** `__days_since_first_case` / `__days_since_first_death`: the days
      from `first` to the day the last column header names, or `None`
      where reading that header as "%m/%d/%y" fails. */
  function DaysSinceFirst(lastHeader: string, first: Day): (r: Option<int>)
    ensures r.Some? <==> ParseKey(lastHeader).Some?
    ensures r.Some? ==> first + r.value == ParseKey(lastHeader).value
  {
    match ParseKey(lastHeader)
    case None => None
    case Some(last) => Some(DaysBetween(last, first))
  }

  /** When the last header is the key of a day of 1969-2068, the count is
      the distance from `first` to that day. */
  lemma DaysSinceKey(last: Day, first: Day)
    requires 1969 <= CivilOf(last).year <= 2068
    ensures DaysSinceFirst(Key(last), first) == Some(last - first)
  {
    ParseKeyOfKey(last);
  }
}
