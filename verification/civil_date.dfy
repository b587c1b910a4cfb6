/** A proleptic Gregorian civil date, standing in for the date arithmetic
    the helpers delegate to the moment library: leap years, month lengths,
    the next and previous day, "add one year", chronological order and the
    end of a month.
 */
module CivilDate {

  /** A calendar date with a one-based month and day, as written in
      MM/DD/YYYY. */
  datatype Date = Date(year: int, month: int, day: int)

  /** The Gregorian leap-year rule. */
  predicate IsLeapYear(y: int) {
    y % 4 == 0 && (y % 100 != 0 || y % 400 == 0)
  }

  function DaysInMonth(y: int, m: int): (n: int)
    requires 1 <= m <= 12
    ensures 28 <= n <= 31
  {
    if m == 2 then (if IsLeapYear(y) then 29 else 28)
    else if m == 4 || m == 6 || m == 9 || m == 11 then 30
    else 31
  }

  function YearLength(y: int): int {
    if IsLeapYear(y) then 366 else 365
  }

  /** A date that exists in the calendar. */
  predicate Valid(d: Date) {
    1 <= d.month <= 12 && 1 <= d.day <= DaysInMonth(d.year, d.month)
  }

  /** Days of all years before y, counted from 1 January of year 1 (a
      negative count for earlier years). */
  function DaysBeforeYear(y: int): int {
    var p := y - 1;
    365 * p + p / 4 - p / 100 + p / 400
  }

  /** Days of the months of year y before month m. */
  function DaysBeforeMonth(y: int, m: int): int
    requires 1 <= m <= 13
  {
    [0, 31, 59, 90, 120, 151, 181, 212, 243, 273, 304, 334, 365][m - 1]
      + (if m > 2 && IsLeapYear(y) then 1 else 0)
  }

  /** The day's position on a single line of days; this is what a moment's
      millisecond timestamp orders, for dates at midnight. */
  function DayNumber(d: Date): int
    requires Valid(d)
  {
    DaysBeforeYear(d.year) + DaysBeforeMonth(d.year, d.month) + d.day - 1
  }

  /** Chronological order read off the fields: year first, then month, then
      day. */
  predicate Before(a: Date, b: Date) {
    a.year < b.year
    || (a.year == b.year && a.month < b.month)
    || (a.year == b.year && a.month == b.month && a.day < b.day)
  }

  lemma MonthStep(y: int, m: int)
    requires 1 <= m <= 12
    ensures DaysBeforeMonth(y, m + 1) == DaysBeforeMonth(y, m) + DaysInMonth(y, m)
  {
  }

  lemma YearStep(y: int)
    ensures DaysBeforeYear(y + 1) == DaysBeforeYear(y) + YearLength(y)
  {
    var p := y - 1;
    Step4(p);
    Step100(p);
    Step400(p);
    Divides400(y);
  }

  lemma Step4(p: int)
    ensures (p + 1) / 4 == p / 4 + (if (p + 1) % 4 == 0 then 1 else 0)
  {
    var q := p / 4;
    assert 4 * q <= p < 4 * q + 4;
    if p == 4 * q + 3 {
      assert 4 * (q + 1) == p + 1;
    } else {
      assert 4 * q <= p + 1 < 4 * q + 4;
    }
  }

  lemma Step100(p: int)
    ensures (p + 1) / 100 == p / 100 + (if (p + 1) % 100 == 0 then 1 else 0)
  {
    var q := p / 100;
    assert 100 * q <= p < 100 * q + 100;
    if p == 100 * q + 99 {
      assert 100 * (q + 1) == p + 1;
    } else {
      assert 100 * q <= p + 1 < 100 * q + 100;
    }
  }

  lemma Step400(p: int)
    ensures (p + 1) / 400 == p / 400 + (if (p + 1) % 400 == 0 then 1 else 0)
  {
    var q := p / 400;
    assert 400 * q <= p < 400 * q + 400;
    if p == 400 * q + 399 {
      assert 400 * (q + 1) == p + 1;
    } else {
      assert 400 * q <= p + 1 < 400 * q + 400;
    }
  }

  /** Multiples of 400 are multiples of 100, and those of 4. */
  lemma Divides400(y: int)
    ensures y % 400 == 0 ==> y % 100 == 0
    ensures y % 100 == 0 ==> y % 4 == 0
  {
    if y % 400 == 0 {
      var q := y / 400;
      assert y == 400 * q;
      assert y / 100 == 4 * q;
    }
    if y % 100 == 0 {
      var q := y / 100;
      assert y == 100 * q;
      assert y / 4 == 25 * q;
    }
  }

  /** Later years start later. */
  lemma {:induction false} DaysBeforeYearMonotone(y1: int, y2: int)
    requires y1 <= y2
    ensures DaysBeforeYear(y1) + 365 * (y2 - y1) <= DaysBeforeYear(y2)
    decreases y2 - y1
  {
    if y1 < y2 {
      DaysBeforeYearMonotone(y1, y2 - 1);
      YearStep(y2 - 1);
    }
  }

  /** A valid date lies inside its own year. */
  lemma DayOfYearBounds(d: Date)
    requires Valid(d)
    ensures DaysBeforeYear(d.year) <= DayNumber(d) < DaysBeforeYear(d.year + 1)
  {
    YearStep(d.year);
    MonthStep(d.year, d.month);
    assert DaysBeforeMonth(d.year, d.month + 1) <= DaysBeforeMonth(d.year, 13);
  }

  /** The day number orders dates exactly as the calendar fields do. */
  lemma BeforeIffDayNumber(a: Date, b: Date)
    requires Valid(a) && Valid(b)
    ensures Before(a, b) <==> DayNumber(a) < DayNumber(b)
    ensures a == b <==> DayNumber(a) == DayNumber(b)
  {
    if a.year != b.year {
      EarlierYearEarlierDay(a, b);
      EarlierYearEarlierDay(b, a);
    } else {
      EarlierMonthEarlierDay(a, b);
      EarlierMonthEarlierDay(b, a);
    }
  }

  /** A date in an earlier year has a smaller day number. */
  lemma EarlierYearEarlierDay(a: Date, b: Date)
    requires Valid(a) && Valid(b)
    ensures a.year < b.year ==> DayNumber(a) < DayNumber(b)
  {
    if a.year < b.year {
      DayOfYearBounds(a);
      DayOfYearBounds(b);
      DaysBeforeYearMonotone(a.year + 1, b.year);
    }
  }

  /** Within one year, an earlier month, or the same month and an earlier
      day, gives a smaller day number. */
  lemma EarlierMonthEarlierDay(a: Date, b: Date)
    requires Valid(a) && Valid(b) && a.year == b.year
    ensures a.month < b.month ==> DayNumber(a) < DayNumber(b)
    ensures a.month == b.month ==> DayNumber(b) - DayNumber(a) == b.day - a.day
  {
    if a.month < b.month {
      MonthStep(a.year, a.month);
      assert DaysBeforeMonth(a.year, a.month + 1) <= DaysBeforeMonth(a.year, b.month);
    }
  }


  /** Dates no later than another lie in no later a year. */
  lemma YearMonotone(a: Date, b: Date)
    requires Valid(a) && Valid(b)
    requires DayNumber(a) <= DayNumber(b)
    ensures a.year <= b.year
  {
    BeforeIffDayNumber(a, b);
  }

  /** The following calendar day (moment's `add(1, 'days')`). */
  function NextDay(d: Date): (n: Date)
    requires Valid(d)
    ensures Valid(n)
    ensures DayNumber(n) == DayNumber(d) + 1
  {
    if d.day < DaysInMonth(d.year, d.month) then
      Date(d.year, d.month, d.day + 1)
    else if d.month < 12 then
      MonthStep(d.year, d.month);
      Date(d.year, d.month + 1, 1)
    else
      YearStep(d.year);
      Date(d.year + 1, 1, 1)
  }

  /** The preceding calendar day (moment's `subtract(1, 'day')`). */
  function PrevDay(d: Date): (p: Date)
    requires Valid(d)
    ensures Valid(p)
    ensures NextDay(p) == d
  {
    if d.day > 1 then
      Date(d.year, d.month, d.day - 1)
    else if d.month > 1 then
      Date(d.year, d.month - 1, DaysInMonth(d.year, d.month - 1))
    else
      Date(d.year - 1, 12, 31)
  }

  /** moment's `add(1, 'year')`: the same month and day one year on, with
      29 February falling back to the last day of February. */
  function AddOneYear(d: Date): (n: Date)
    requires Valid(d)
    ensures Valid(n)
    ensures n.year == d.year + 1 && n.month == d.month
    ensures n.day <= d.day && (n.day < d.day ==> d.month == 2 && d.day == 29 && n.day == 28)
  {
    var last := DaysInMonth(d.year + 1, d.month);
    Date(d.year + 1, d.month, if d.day <= last then d.day else last)
  }

  /** The last day of a month of the current year, for the zero-based month
      index `month` that moment's `month(month)` setter takes: an index
      outside 0..11 rolls over into the neighbouring years, as the
      underlying JavaScript `Date.setMonth` does. */
  function EndOfMonth(currentYear: int, month: int): (last: int)
    ensures 28 <= last <= 31
    ensures var d := Date(currentYear + month / 12, month % 12 + 1, last);
            Valid(d) && !Valid(d.(day := last + 1)) && NextDay(d).day == 1
    ensures last == 29 <==> month % 12 == 1 && IsLeapYear(currentYear + month / 12)
  {
    DaysInMonth(currentYear + month / 12, month % 12 + 1)
  }
}
