/** Civil dates of the production schedule: the day number of section 21.4.1 of ECMA-262 over date strings, and its inverse. */
module CivilDate {
  import opened Wrappers
  import opened Text

  datatype Date = Date(year: int, month: int, day: int)

  // ---------------------------------------------------------------- the proleptic Gregorian calendar

  predicate IsLeap(y: int) { y % 4 == 0 && (y % 100 != 0 || y % 400 == 0) }

  function DaysInYear(y: int): int { if IsLeap(y) then 366 else 365 }

  function DayFromYear(y: int): int { 365 * (y - 1970) + (y - 1969) / 4 - (y - 1901) / 100 + (y - 1601) / 400 }

  /** Days of the year before month `m`, counting months from 0. */
  function MonthStart(y: int, m: int): int
    requires 0 <= m <= 12
  {
    var common := [0, 31, 59, 90, 120, 151, 181, 212, 243, 273, 304, 334, 365];
    common[m] + (if m >= 2 && IsLeap(y) then 1 else 0)
  }

  function DaysInMonth(y: int, m: int): int
    requires 1 <= m <= 12
  {
    MonthStart(y, m) - MonthStart(y, m - 1)
  }

  /** The month counts from 0 and may lie outside the year; the day may lie outside the month. */
  function MakeDay(y: int, m: int, d: int): int { DayFromYear(y + m / 12) + MonthStart(y + m / 12, m % 12) + d - 1 }

  predicate ValidDate(d: Date) { 0 <= d.year <= 9999 && 1 <= d.month <= 12 && 1 <= d.day <= DaysInMonth(d.year, d.month) }

  function DayOf(d: Date): int { MakeDay(d.year, d.month - 1, d.day) }

  /** The calendar's own successor. */
  function Next(d: Date): Date
    requires 1 <= d.month <= 12
  {
    if d.day < DaysInMonth(d.year, d.month) then Date(d.year, d.month, d.day + 1)
    else if d.month < 12 then Date(d.year, d.month + 1, 1)
    else Date(d.year + 1, 1, 1)
  }

  lemma FourthYears(y: int)
    ensures (y - 1968) / 4 == (y - 1969) / 4 + (if y % 4 == 0 then 1 else 0)
  {
  }

  lemma HundredthYears(y: int)
    ensures (y - 1900) / 100 == (y - 1901) / 100 + (if y % 100 == 0 then 1 else 0)
  {
  }

  lemma FourHundredthYears(y: int)
    ensures (y - 1600) / 400 == (y - 1601) / 400 + (if y % 400 == 0 then 1 else 0)
  {
  }

  lemma Multiples(y: int)
    ensures y % 400 == 0 ==> y % 100 == 0
    ensures y % 100 == 0 ==> y % 4 == 0
  {
  }

  lemma YearLength(y: int)
    ensures DayFromYear(y + 1) == DayFromYear(y) + DaysInYear(y)
  {
    FourthYears(y);
    HundredthYears(y);
    FourHundredthYears(y);
    Multiples(y);
  }

  lemma DayOfIs(d: Date)
    requires 1 <= d.month <= 12
    ensures DayOf(d) == DayFromYear(d.year) + MonthStart(d.year, d.month - 1) + d.day - 1
  {
    assert (d.month - 1) / 12 == 0 && (d.month - 1) % 12 == d.month - 1;
  }

  lemma MonthsOfTheYear(y: int, m: int)
    requires 1 <= m <= 12
    ensures 28 <= DaysInMonth(y, m) <= 31
    ensures MonthStart(y, 0) == 0 && MonthStart(y, 12) == DaysInYear(y)
    ensures MonthStart(y, m) == MonthStart(y, m - 1) + DaysInMonth(y, m)
  {
  }

  lemma NextInMonth(d: Date)
    requires ValidDate(d) && d.day < DaysInMonth(d.year, d.month)
    ensures DayOf(Next(d)) == DayOf(d) + 1
  {
    DayOfIs(d);
    DayOfIs(Next(d));
  }

  lemma NextMonthStarts(d: Date)
    requires ValidDate(d) && d.day == DaysInMonth(d.year, d.month) && d.month < 12
    ensures DayOf(Next(d)) == DayOf(d) + 1
  {
    DayOfIs(d);
    DayOfIs(Next(d));
    MonthsOfTheYear(d.year, d.month);
  }

  lemma NextYearStarts(d: Date)
    requires ValidDate(d) && d.day == DaysInMonth(d.year, d.month) && d.month == 12
    ensures DayOf(Next(d)) == DayOf(d) + 1
  {
    DayOfIs(d);
    DayOfIs(Next(d));
    MonthsOfTheYear(d.year, 12);
    YearLength(d.year);
    MonthsOfTheYear(d.year + 1, 1);
  }

  lemma NextIsValid(d: Date)
    requires ValidDate(d)
    ensures Next(d).year <= 9999 ==> ValidDate(Next(d))
  {
    MonthsOfTheYear(Next(d).year, Next(d).month);
  }

  /** The day after is one more: with the epoch this determines the day number of every date. */
  lemma NextDayIsOneMore(d: Date)
    requires ValidDate(d)
    ensures DayOf(Next(d)) == DayOf(d) + 1
    ensures Next(d).year <= 9999 ==> ValidDate(Next(d))
  {
    NextIsValid(d);
    if d.day < DaysInMonth(d.year, d.month) {
      NextInMonth(d);
    } else if d.month < 12 {
      NextMonthStarts(d);
    } else {
      NextYearStarts(d);
    }
  }

  lemma Epoch()
    ensures DayOf(Date(1970, 1, 1)) == 0
  {
    DayOfIs(Date(1970, 1, 1));
  }

  /** A month outside the year carries over: month 13 is January of the next year. */
  lemma MonthCarries(y: int, m: int, d: int)
    ensures MakeDay(y, m + 12, d) == MakeDay(y + 1, m, d)
  {
    assert (m + 12) / 12 == m / 12 + 1 && (m + 12) % 12 == m % 12;
  }

  /** A day outside the month carries over: the day after the last is the first of the next month. */
  lemma DayCarries(y: int, m: int, d: int)
    requires 1 <= m <= 12
    ensures DayOf(Date(y, m, d + DaysInMonth(y, m))) == DayOf(Date(y, m + 1, d))
  {
    DayOfIs(Date(y, m, d + DaysInMonth(y, m)));
    MonthsOfTheYear(y, m);
    if m < 12 {
      DayOfIs(Date(y, m + 1, d));
    } else {
      MonthCarries(y, 0, d);
      DayOfIs(Date(y + 1, 1, d));
      YearLength(y);
    }
  }

  // ---------------------------------------------------------------- order

  predicate DateLess(a: Date, b: Date) {
    a.year < b.year || (a.year == b.year && (a.month < b.month || (a.month == b.month && a.day < b.day)))
  }

  lemma {:induction false} YearsGrow(a: int, b: int)
    requires a < b
    ensures DayFromYear(a) + DaysInYear(a) <= DayFromYear(b)
    decreases b - a
  {
    YearLength(a);
    if a + 1 < b {
      YearsGrow(a + 1, b);
    }
  }

  lemma YearsOrdered(a: int, b: int)
    requires a <= b
    ensures DayFromYear(a) <= DayFromYear(b)
  {
    if a < b {
      YearsGrow(a, b);
    }
  }

  lemma {:induction false} MonthsGrow(y: int, a: int, b: int)
    requires 1 <= a < b <= 12
    ensures MonthStart(y, a - 1) + DaysInMonth(y, a) <= MonthStart(y, b - 1)
    decreases b - a
  {
    if a + 1 < b {
      MonthsGrow(y, a + 1, b);
      MonthsOfTheYear(y, a + 1);
    }
  }

  lemma DayInsideYear(d: Date)
    requires ValidDate(d)
    ensures DayFromYear(d.year) <= DayOf(d) < DayFromYear(d.year) + DaysInYear(d.year)
  {
    DayOfIs(d);
    MonthsOfTheYear(d.year, d.month);
    if d.month < 12 {
      MonthsGrow(d.year, d.month, 12);
      MonthsOfTheYear(d.year, 12);
    }
  }

  lemma EarlierYearEarlierDay(a: Date, b: Date)
    requires ValidDate(a) && ValidDate(b) && a.year < b.year
    ensures DayOf(a) < DayOf(b)
  {
    DayInsideYear(a);
    DayInsideYear(b);
    YearsGrow(a.year, b.year);
  }

  lemma EarlierMonthEarlierDay(a: Date, b: Date)
    requires ValidDate(a) && ValidDate(b) && a.year == b.year && a.month < b.month
    ensures DayOf(a) < DayOf(b)
  {
    DayOfIs(a);
    DayOfIs(b);
    MonthsOfTheYear(a.year, a.month);
    MonthsGrow(a.year, a.month, b.month);
  }

  lemma EarlierDateEarlierDay(a: Date, b: Date)
    requires ValidDate(a) && ValidDate(b) && DateLess(a, b)
    ensures DayOf(a) < DayOf(b)
  {
    if a.year < b.year {
      EarlierYearEarlierDay(a, b);
    } else if a.month < b.month {
      EarlierMonthEarlierDay(a, b);
    } else {
      DayOfIs(a);
      DayOfIs(b);
    }
  }

  // ---------------------------------------------------------------- the inverse

  function YearFrom(n: int, y: int): (r: int)
    requires DayFromYear(y) <= n
    ensures y <= r && DayFromYear(r) <= n < DayFromYear(r + 1)
    decreases n - DayFromYear(y)
  {
    YearLength(y);
    if DayFromYear(y + 1) <= n then YearFrom(n, y + 1) else y
  }

  function MonthFrom(y: int, rest: int, m: int): (r: int)
    requires 0 <= m <= 11 && MonthStart(y, m) <= rest < DaysInYear(y)
    ensures m <= r <= 11 && MonthStart(y, r) <= rest < MonthStart(y, r + 1)
    decreases 12 - m
  {
    MonthsOfTheYear(y, 12);
    if m < 11 && MonthStart(y, m + 1) <= rest then MonthFrom(y, rest, m + 1) else m
  }

  const FIRST_DAY := DayFromYear(0)
  const LAST_DAY := DayFromYear(10000) - 1

  function DateOfDay(n: int): (d: Date)
    requires FIRST_DAY <= n
  {
    var y := YearFrom(n, 0);
    YearLength(y);
    var m := MonthFrom(y, n - DayFromYear(y), 0);
    Date(y, m + 1, n - DayFromYear(y) - MonthStart(y, m) + 1)
  }

  lemma YearInRange(n: int)
    requires FIRST_DAY <= n <= LAST_DAY
    ensures YearFrom(n, 0) <= 9999
  {
    var y := YearFrom(n, 0);
    YearsOrdered(10000, if y > 10000 then y else 10000);
  }

  lemma DateOfDayHasDay(n: int)
    requires FIRST_DAY <= n
    ensures DayOf(DateOfDay(n)) == n && 1 <= DateOfDay(n).month <= 12 && 1 <= DateOfDay(n).day
    ensures DateOfDay(n).day <= DaysInMonth(DateOfDay(n).year, DateOfDay(n).month)
  {
    DayOfIs(DateOfDay(n));
  }

  /** Every day of the years 0000 to 9999 is the day of the date computed for it. */
  lemma DateOfDayIsInverse(n: int)
    requires FIRST_DAY <= n <= LAST_DAY
    ensures ValidDate(DateOfDay(n)) && DayOf(DateOfDay(n)) == n
  {
    YearInRange(n);
    DateOfDayHasDay(n);
  }

  lemma DayOfIsInjective(a: Date, b: Date)
    requires ValidDate(a) && ValidDate(b) && DayOf(a) == DayOf(b)
    ensures a == b
  {
    if DateLess(a, b) {
      EarlierDateEarlierDay(a, b);
    } else if DateLess(b, a) {
      EarlierDateEarlierDay(b, a);
    }
  }

  lemma DayInRange(d: Date)
    requires ValidDate(d)
    ensures FIRST_DAY <= DayOf(d) <= LAST_DAY
  {
    DayInsideYear(d);
    YearsGrow(d.year, 10000);
    if d.year > 0 {
      YearsGrow(0, d.year);
    }
  }

  // ---------------------------------------------------------------- date strings

  predicate InScheduleRange(s: string) { IsCivilDate(s) && 2000 <= Parse(s).year <= 2100 }

  function Digit(c: char): (n: int)
    requires IsDigit(c)
    ensures 0 <= n <= 9
  {
    (c as int) - ('0' as int)
  }

  function DigitChar(n: int): (c: char)
    requires 0 <= n <= 9
    ensures IsDigit(c) && Digit(c) == n
  {
    (n + ('0' as int)) as char
  }

  /** Four digits, a dash, two digits, a dash, two digits. */
  predicate Matches(s: string) {
    |s| == 10 && s[4] == '-' && s[7] == '-'
    && IsDigit(s[0]) && IsDigit(s[1]) && IsDigit(s[2]) && IsDigit(s[3]) && IsDigit(s[5]) && IsDigit(s[6]) && IsDigit(s[8]) && IsDigit(s[9])
  }

  function Parse(s: string): Date
    requires Matches(s)
  {
    Date(1000 * Digit(s[0]) + 100 * Digit(s[1]) + 10 * Digit(s[2]) + Digit(s[3]),
         10 * Digit(s[5]) + Digit(s[6]),
         10 * Digit(s[8]) + Digit(s[9]))
  }

  predicate Printable(d: Date) { 0 <= d.year <= 9999 && 0 <= d.month <= 99 && 0 <= d.day <= 99 }

  function Render(d: Date): string
    requires Printable(d)
  {
    [DigitChar(d.year / 1000), DigitChar(d.year / 100 % 10), DigitChar(d.year / 10 % 10), DigitChar(d.year % 10), '-',
     DigitChar(d.month / 10), DigitChar(d.month % 10), '-', DigitChar(d.day / 10), DigitChar(d.day % 10)]
  }

  /** The day number of any string in the format, even of a month or a day that does not exist; other strings are refused. */
  function CivilDayNumber(s: string): Option<int> {
    if Matches(s) then Some(DayOf(Parse(s))) else None
  }

  /** The string is read as a date and printed again; only a date that exists comes back unchanged. */
  predicate IsCivilDate(s: string) {
    Matches(s)
    && 1 <= Parse(s).month <= 12 && 1 <= Parse(s).day <= 31
    && FIRST_DAY <= DayOf(Parse(s)) <= LAST_DAY
    && var d := DateOfDay(DayOf(Parse(s)));
       Printable(d) && Render(d) == s
  }

  lemma ParseRender(d: Date)
    requires Printable(d)
    ensures Matches(Render(d)) && Parse(Render(d)) == d
  {
    var y := d.year;
    assert y / 100 == 10 * (y / 1000) + y / 100 % 10;
    assert y / 10 == 10 * (y / 100) + y / 10 % 10;
  }

  lemma SameFields(hi: int, lo: int, hi2: int, lo2: int)
    requires 0 <= lo <= 9 && 0 <= lo2 <= 9 && 10 * hi + lo == 10 * hi2 + lo2
    ensures hi == hi2 && lo == lo2
  {
  }

  lemma ParseIsInjective(a: string, b: string)
    requires Matches(a) && Matches(b) && Parse(a) == Parse(b)
    ensures a == b
  {
    var d, e := i requires 0 <= i < 10 && i != 4 && i != 7 => Digit(a[i]), i requires 0 <= i < 10 && i != 4 && i != 7 => Digit(b[i]);
    SameFields(100 * d(0) + 10 * d(1) + d(2), d(3), 100 * e(0) + 10 * e(1) + e(2), e(3));
    SameFields(10 * d(0) + d(1), d(2), 10 * e(0) + e(1), e(2));
    SameFields(d(0), d(1), e(0), e(1));
    SameFields(d(5), d(6), e(5), e(6));
    SameFields(d(8), d(9), e(8), e(9));
    assert forall i :: 0 <= i < 10 ==> a[i] == b[i];
  }

  /** The read-and-print test accepts exactly the dates of the calendar. */
  lemma CivilDatesAreTheCalendar(s: string)
    ensures IsCivilDate(s) <==> Matches(s) && ValidDate(Parse(s))
  {
    if IsCivilDate(s) {
      var d := DateOfDay(DayOf(Parse(s)));
      DateOfDayIsInverse(DayOf(Parse(s)));
      ParseRender(d);
    } else if Matches(s) && ValidDate(Parse(s)) {
      DayInRange(Parse(s));
      DateOfDayIsInverse(DayOf(Parse(s)));
      DayOfIsInjective(DateOfDay(DayOf(Parse(s))), Parse(s));
      MonthsOfTheYear(Parse(s).year, Parse(s).month);
      ParseRender(Parse(s));
      ParseIsInjective(Render(Parse(s)), s);
      assert false;
    }
  }

  // ---------------------------------------------------------------- string order

  lemma FirstDifference(a: string, b: string, k: nat) returns (m: nat)
    requires |a| == |b| && k < |a| && (forall i :: 0 <= i < k ==> a[i] == b[i]) && exists i :: k <= i < |a| && a[i] != b[i]
    ensures m < |a| && a[m] != b[m] && forall i :: 0 <= i < m ==> a[i] == b[i]
    decreases |a| - k
  {
    if a[k] != b[k] {
      m := k;
    } else {
      m := FirstDifference(a, b, k + 1);
    }
  }

  lemma FieldsByFirstDifference(a: string, b: string, k: nat)
    requires Matches(a) && Matches(b) && k < 10 && a[k] < b[k] && forall i :: 0 <= i < k ==> a[i] == b[i]
    ensures DateLess(Parse(a), Parse(b))
  {
    if k == 0 {
    } else if k == 1 {
    } else if k == 2 {
    } else if k == 3 {
    } else {
      assert Parse(a).year == Parse(b).year;
      if k == 5 || k == 6 {
      } else {
        assert k != 4 && k != 7;
        assert Parse(a).month == Parse(b).month;
      }
    }
  }

  lemma StringOrderIsDateOrder(a: string, b: string)
    requires Matches(a) && Matches(b)
    ensures StringLess(a, b) <==> DateLess(Parse(a), Parse(b))
  {
    if a == b {
      NotLessThanItself(a);
    } else {
      assert exists i :: 0 <= i < |a| && a[i] != b[i];
      var k := FirstDifference(a, b, 0);
      LessByFirstDifference(a, b, k);
      if a[k] < b[k] {
        FieldsByFirstDifference(a, b, k);
      } else {
        FieldsByFirstDifference(b, a, k);
      }
    }
  }

  /** On civil dates the order of strings is the order of days, which the string comparison of planned dates relies on. */
  lemma StringOrderIsDayOrder(a: string, b: string)
    requires IsCivilDate(a) && IsCivilDate(b)
    ensures StringLess(a, b) <==> CivilDayNumber(a).value < CivilDayNumber(b).value
    ensures CivilDayNumber(a) == CivilDayNumber(b) <==> a == b
  {
    CivilDatesAreTheCalendar(a);
    CivilDatesAreTheCalendar(b);
    StringOrderIsDateOrder(a, b);
    var d, e := Parse(a), Parse(b);
    if DateLess(d, e) {
      EarlierDateEarlierDay(d, e);
    } else if DateLess(e, d) {
      EarlierDateEarlierDay(e, d);
    } else {
      ParseIsInjective(a, b);
    }
  }

  /** Converting the day number back gives the same string, and every day of the range has one. */
  lemma DayNumberRoundTrip(s: string, n: int)
    ensures IsCivilDate(s) ==>
              && CivilDayNumber(s).Some? && FIRST_DAY <= CivilDayNumber(s).value <= LAST_DAY
              && ValidDate(DateOfDay(CivilDayNumber(s).value))
    ensures IsCivilDate(s) ==> Printable(DateOfDay(CivilDayNumber(s).value)) && Render(DateOfDay(CivilDayNumber(s).value)) == s
    ensures FIRST_DAY <= n <= LAST_DAY ==>
              && Printable(DateOfDay(n)) && IsCivilDate(Render(DateOfDay(n)))
              && CivilDayNumber(Render(DateOfDay(n))) == Some(n)
  {
    if IsCivilDate(s) {
      DateOfDayIsInverse(CivilDayNumber(s).value);
    }
    if FIRST_DAY <= n <= LAST_DAY {
      DateOfDayIsInverse(n);
      var d := DateOfDay(n);
      MonthsOfTheYear(d.year, d.month);
      ParseRender(d);
    }
  }

  /** A day between two dates is a date between them. */
  lemma DateBetween(low: string, high: string, n: int) returns (s: string)
    requires IsCivilDate(low) && IsCivilDate(high) && CivilDayNumber(low).value <= n < CivilDayNumber(high).value
    ensures IsCivilDate(s) && CivilDayNumber(s) == Some(n) && !StringLess(s, low) && StringLess(s, high)
  {
    DayNumberRoundTrip(low, n);
    DayNumberRoundTrip(high, n);
    s := Render(DateOfDay(n));
    StringOrderIsDayOrder(s, low);
    StringOrderIsDayOrder(s, high);
  }

  lemma NotBefore(s: string)
    requires Matches(s) && ValidDate(Parse(s))
    ensures !StringLess(s, "2000-01-01") <==> 2000 <= Parse(s).year
  {
    assert Matches("2000-01-01") && Parse("2000-01-01") == Date(2000, 1, 1);
    StringOrderIsDateOrder(s, "2000-01-01");
  }

  lemma NotAfter(s: string)
    requires Matches(s) && ValidDate(Parse(s))
    ensures !StringLess("2100-12-31", s) <==> Parse(s).year <= 2100
  {
    assert Matches("2100-12-31") && Parse("2100-12-31") == Date(2100, 12, 31);
    StringOrderIsDateOrder("2100-12-31", s);
    MonthsOfTheYear(Parse(s).year, Parse(s).month);
  }

  /** The schedule takes the dates of a hundred and one years, named by the first and the last. */
  lemma ScheduleRangeExactly(s: string)
    ensures InScheduleRange(s) <==> IsCivilDate(s) && !StringLess(s, "2000-01-01") && !StringLess("2100-12-31", s)
  {
    if IsCivilDate(s) {
      CivilDatesAreTheCalendar(s);
      NotBefore(s);
      NotAfter(s);
    }
  }
}
