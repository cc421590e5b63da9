/** Calendar dates as the range filter and the day count see them:
    `new Date("YYYY-MM-DD")` reads a date-only ISO 8601 string as midnight
    UTC of that day of the proleptic Gregorian calendar, so two such dates are
    a whole number of days apart. */
module Dates {
  import opened Wrappers
  import opened Strings
  import opened Numbers

  datatype Date = Date(year: int, month: int, day: int)

  const MsPerDay: nat := 1000 * 3600 * 24

  predicate IsLeapYear(y: int) {
    y % 4 == 0 && (y % 100 != 0 || y % 400 == 0)
  }

  function YearLength(y: int): int {
    if IsLeapYear(y) then 366 else 365
  }

  function DaysInMonth(y: int, m: int): int
    requires 1 <= m <= 12
  {
    if m == 2 then (if IsLeapYear(y) then 29 else 28)
    else if m == 4 || m == 6 || m == 9 || m == 11 then 30
    else 31
  }

  /** A day that exists, in year 0 or later. */
  predicate ValidDate(d: Date) {
    0 <= d.year && 1 <= d.month <= 12 && 1 <= d.day <= DaysInMonth(d.year, d.month)
  }

  /** The days of the years before `y`, counted from 1 January of year 0:
      365 a year plus one for each leap year (every fourth, except centuries
      not divisible by 400). */
  function DaysBeforeYear(y: nat): int {
    365 * y + (y + 3) / 4 - (y + 99) / 100 + (y + 399) / 400
  }

  /** The days of the months of year `y` before month `m`. */
  function DaysBeforeMonth(y: int, m: int): int
    requires 1 <= m <= 13
  {
    [0, 31, 59, 90, 120, 151, 181, 212, 243, 273, 304, 334, 365][m - 1]
      + (if IsLeapYear(y) && m > 2 then 1 else 0)
  }

  /** The days from 1 January of year 0 to `d`. */
  function DayNumber(d: Date): (n: int)
    requires ValidDate(d)
    ensures DaysBeforeYear(d.year) <= n < DaysBeforeYear(d.year) + YearLength(d.year)
  {
    MonthStep(d.year, d.month);
    DaysBeforeYear(d.year) + DaysBeforeMonth(d.year, d.month) + d.day - 1
  }

  /** The day after `d`. */
  function NextDay(d: Date): Date
    requires ValidDate(d)
  {
    if d.day < DaysInMonth(d.year, d.month) then Date(d.year, d.month, d.day + 1)
    else if d.month < 12 then Date(d.year, d.month + 1, 1)
    else Date(d.year + 1, 1, 1)
  }

  /** Chronological order of dates: year, then month, then day. */
  predicate DateLe(a: Date, b: Date) {
    a.year < b.year || (a.year == b.year && (a.month < b.month || (a.month == b.month && a.day <= b.day)))
  }

  /** Each of the three leap-year terms of `DaysBeforeYear` gains one
      from year `y` to year `y + 1` exactly when `y` is a multiple of its
      divisor. */
  lemma FourStep(y: nat)
    ensures (y + 4) / 4 == (y + 3) / 4 + (if y % 4 == 0 then 1 else 0)
  {
  }

  lemma CenturyStep(y: nat)
    ensures (y + 100) / 100 == (y + 99) / 100 + (if y % 100 == 0 then 1 else 0)
  {
  }

  lemma FourCenturyStep(y: nat)
    ensures (y + 400) / 400 == (y + 399) / 400 + (if y % 400 == 0 then 1 else 0)
  {
  }

  /** A multiple of 400 is a multiple of 100, which is a multiple of 4. */
  lemma DivisorChain(y: nat)
    ensures y % 400 == 0 ==> y % 100 == 0
    ensures y % 100 == 0 ==> y % 4 == 0
  {
    if y % 400 == 0 {
      var q := y / 400;
      assert y == 100 * (4 * q);
    }
    if y % 100 == 0 {
      var q := y / 100;
      assert y == 4 * (25 * q);
    }
  }

  lemma YearStep(y: nat)
    ensures DaysBeforeYear(y + 1) == DaysBeforeYear(y) + YearLength(y)
  {
    DivisorChain(y);
    FourStep(y);
    CenturyStep(y);
    FourCenturyStep(y);
  }

  lemma MonthStep(y: int, m: int)
    requires 1 <= m <= 12
    ensures DaysBeforeMonth(y, m + 1) == DaysBeforeMonth(y, m) + DaysInMonth(y, m)
    ensures DaysBeforeMonth(y, m + 1) <= DaysBeforeMonth(y, 13) == YearLength(y)
  {
  }

  lemma {:induction false} DaysBeforeYearMonotone(y: nat, z: nat)
    requires y <= z
    ensures DaysBeforeYear(y) <= DaysBeforeYear(z)
    decreases z - y
  {
    if y < z {
      YearStep(y);
      DaysBeforeYearMonotone(y + 1, z);
    }
  }

  /** Day numbers count from 1 January of year 0. */
  lemma FirstDayNumber()
    ensures DayNumber(Date(0, 1, 1)) == 0
  {
    assert DaysBeforeYear(0) == 0 && DaysBeforeMonth(0, 1) == 0;
  }

  /** Each next day has the next day number. */
  lemma NextDayNumber(d: Date)
    requires ValidDate(d)
    ensures ValidDate(NextDay(d)) && DayNumber(NextDay(d)) == DayNumber(d) + 1
  {
    var (y, m) := (d.year, d.month);
    if d.day < DaysInMonth(y, m) {
    } else if m < 12 {
      MonthStep(y, m);
      assert DayNumber(NextDay(d)) == DaysBeforeYear(y) + DaysBeforeMonth(y, m + 1);
    } else {
      YearStep(y);
      assert DayNumber(NextDay(d)) == DaysBeforeYear(y + 1);
      assert DaysBeforeMonth(y, 12) + 31 == YearLength(y);
    }
  }

  /** Later dates have larger day numbers. */
  lemma DayNumberIncreasing(a: Date, b: Date)
    requires ValidDate(a) && ValidDate(b)
    requires DateLe(a, b) && a != b
    ensures DayNumber(a) < DayNumber(b)
  {
    MonthStep(a.year, a.month);
    if a.year < b.year {
      YearStep(a.year);
      DaysBeforeYearMonotone(a.year + 1, b.year);
    } else if a.month < b.month {
      MonthStep(a.year, b.month - 1);
      assert DaysBeforeMonth(a.year, a.month + 1) <= DaysBeforeMonth(a.year, b.month);
    }
  }

  /** Day numbers order dates chronologically, both ways. */
  lemma DayNumberOrder(a: Date, b: Date)
    requires ValidDate(a) && ValidDate(b)
    ensures DateLe(a, b) <==> DayNumber(a) <= DayNumber(b)
  {
    if DateLe(a, b) && a != b {
      DayNumberIncreasing(a, b);
    } else if !DateLe(a, b) {
      DayNumberIncreasing(b, a);
    }
  }

  /** `YYYY-MM-DD`: four, two and two digits joined by hyphens. */
  predicate IsDateText(s: string) {
    && |s| == 10 && s[4] == '-' && s[7] == '-'
    && AllDigits(s[..4]) && AllDigits(s[5..7]) && AllDigits(s[8..])
  }

  function DateOfText(s: string): Date
    requires IsDateText(s)
  {
    Date(DigitsValue(s[..4]), DigitsValue(s[5..7]), DigitsValue(s[8..]))
  }

  /** The date a `YYYY-MM-DD` string names, when it names one; anything
      else is an invalid date. */
  function ParseDate(s: string): (r: Option<Date>)
    ensures r.Some? <==> IsDateText(s) && ValidDate(DateOfText(s))
    ensures r.Some? ==> ValidDate(r.value) && r.value == DateOfText(s)
  {
    if IsDateText(s) && ValidDate(DateOfText(s)) then Some(DateOfText(s)) else None
  }

  /** `getTime()` of that date at midnight UTC: milliseconds since
      1 January 1970. */
  function TimeValue(d: Date): int
    requires ValidDate(d)
  {
    (DayNumber(d) - DayNumber(Date(1970, 1, 1))) * MsPerDay
  }

  function Abs(x: int): nat {
    if x < 0 then -x else x
  }

  /** `Math.ceil(a / k)` for whole `a` and `k`: the least number of `k`s
      that reach `a`. */
  function CeilDiv(a: nat, k: nat): (r: nat)
    requires k > 0
    ensures a <= r * k < a + k
  {
    var q := (a + k - 1) / k;
    assert a + k - 1 == q * k + (a + k - 1) % k;
    q
  }

  /** `Math.ceil(Math.abs(end - start) / (1000 * 3600 * 24)) + 1` on the two
      time values; no number when either string is not a date. */
  function DayCount(start: string, end: string): (r: Option<int>)
    ensures r.Some? <==> ParseDate(start).Some? && ParseDate(end).Some?
    ensures r.Some? ==> r.value >= 1
    ensures r.Some? && start == end ==> r.value == 1
  {
    match (ParseDate(start), ParseDate(end))
    case (Some(s), Some(e)) => Some(CeilDiv(Abs(TimeValue(e) - TimeValue(s)), MsPerDay) + 1)
    case _ => None
  }

  /** A whole number of days in milliseconds, rounded up to days, is that
      number of days. */
  lemma WholeDays(x: int)
    ensures CeilDiv(Abs(x * MsPerDay), MsPerDay) == Abs(x)
  {
    var n := Abs(x);
    assert Abs(x * MsPerDay) == n * MsPerDay;
    assert n * MsPerDay + MsPerDay - 1 == MsPerDay * n + (MsPerDay - 1);
  }

  /** The two dates lie a whole number of days apart, so the count is the
      number of calendar days from the one to the other, both included. */
  lemma DayCountInDays(start: string, end: string)
    requires ParseDate(start).Some? && ParseDate(end).Some?
    ensures DayCount(start, end)
         == Some(Abs(DayNumber(ParseDate(end).value) - DayNumber(ParseDate(start).value)) + 1)
  {
    var s, e := ParseDate(start).value, ParseDate(end).value;
    var x := DayNumber(e) - DayNumber(s);
    assert TimeValue(e) - TimeValue(s) == x * MsPerDay;
    WholeDays(x);
  }

  /** The day count does not depend on which bound comes first. */
  lemma DayCountSymmetric(start: string, end: string)
    ensures DayCount(start, end) == DayCount(end, start)
  {
  }

  /** One more digit on each side: if the shorter strings compare as
      their values do, so do the longer ones. */
  lemma DigitsOrderStep(xs: string, ys: string, c: char, d: char)
    requires AllDigits(xs) && AllDigits(ys) && |xs| == |ys| && IsDigit(c) && IsDigit(d)
    requires xs == ys <==> DigitsValue(xs) == DigitsValue(ys)
    requires LexLe(xs, ys) <==> DigitsValue(xs) <= DigitsValue(ys)
    ensures AllDigits(xs + [c]) && AllDigits(ys + [d])
    ensures xs + [c] == ys + [d] <==> DigitsValue(xs + [c]) == DigitsValue(ys + [d])
    ensures LexLe(xs + [c], ys + [d]) <==> DigitsValue(xs + [c]) <= DigitsValue(ys + [d])
  {
    DigitsValueSnoc(xs, c);
    DigitsValueSnoc(ys, d);
    LexLeConcat(xs, [c], ys, [d]);
    LexLeSingle(c, d);
    assert xs + [c] == ys + [d] ==> xs == ys && c == d by {
      if xs + [c] == ys + [d] {
        assert (xs + [c])[..|xs|] == xs && (ys + [d])[..|ys|] == ys;
      }
    }
    PlaceValueOrder(DigitsValue(xs), DigitsValue(ys), DigitValue(c), DigitValue(d));
  }

  /** For equally long digit strings, character order is numeric order. */
  lemma {:induction false} DigitsOrder(x: string, y: string)
    requires AllDigits(x) && AllDigits(y) && |x| == |y|
    ensures x == y <==> DigitsValue(x) == DigitsValue(y)
    ensures LexLe(x, y) <==> DigitsValue(x) <= DigitsValue(y)
  {
    if x != [] {
      var n := |x| - 1;
      DigitsOrder(x[..n], y[..n]);
      DigitsOrderStep(x[..n], y[..n], x[n], y[n]);
      assert x == x[..n] + [x[n]] && y == y[..n] + [y[n]];
    }
  }

  /** Two `YYYY-MM-DD` strings compare as strings the way their dates
      compare: year, then month, then day. */
  lemma TextOrderIsDateOrder(a: string, b: string)
    requires IsDateText(a) && IsDateText(b)
    ensures LexLe(a, b) <==> DateLe(DateOfText(a), DateOfText(b))
  {
    assert a == a[..4] + ([a[4]] + (a[5..7] + ([a[7]] + a[8..])));
    assert b == b[..4] + ([b[4]] + (b[5..7] + ([b[7]] + b[8..])));
    LexLeConcat(a[..4], [a[4]] + (a[5..7] + ([a[7]] + a[8..])), b[..4], [b[4]] + (b[5..7] + ([b[7]] + b[8..])));
    LexLeConcat([a[4]], a[5..7] + ([a[7]] + a[8..]), [b[4]], b[5..7] + ([b[7]] + b[8..]));
    LexLeConcat(a[5..7], [a[7]] + a[8..], b[5..7], [b[7]] + b[8..]);
    LexLeConcat([a[7]], a[8..], [b[7]], b[8..]);
    DigitsOrder(a[..4], b[..4]);
    DigitsOrder(a[5..7], b[5..7]);
    DigitsOrder(a[8..], b[8..]);
  }

  /** For well-formed dates, comparing the strings (the range filter)
      agrees with comparing their time values (the sort comparator). */
  lemma StringOrderIsTimeOrder(a: string, b: string)
    requires ParseDate(a).Some? && ParseDate(b).Some?
    ensures LexLe(a, b) <==> TimeValue(ParseDate(a).value) <= TimeValue(ParseDate(b).value)
  {
    TextOrderIsDateOrder(a, b);
    DayNumberOrder(ParseDate(a).value, ParseDate(b).value);
  }
}
