/** The loop-built lists: `generateAvailableYears`, `getDateRangeYears`
    and `getDateRangeDates`. The current year and the date reader are
    parameters.
 */
module RangeLists {
  import opened Nullable
  import opened CivilDate
  import opened DateFormat
  import opened DateCompare

  /** The defaults of `generateAvailableYears`. */
  const DefaultAdditiveYear: int := 2
  const DefaultYearFrom: int := 2004

  /** `Array.prototype.reverse`. */
  function Reverse(xs: seq<int>): (r: seq<int>)
    ensures |r| == |xs|
    ensures forall i :: 0 <= i < |xs| ==> r[i] == xs[|xs| - 1 - i]
  {
    if xs == [] then [] else Reverse(xs[1..]) + [xs[0]]
  }

  /** Years counted up from `yearFrom` while below `currentYear +
      additiveYear`, then reversed: the newest year first, down to
      `yearFrom`, one year apart. */
  method GenerateAvailableYears(currentYear: int, additiveYear: int, yearFrom: int) returns (years: seq<int>)
    ensures var top := currentYear + additiveYear;
            |years| == (if yearFrom < top then top - yearFrom else 0)
    ensures forall i :: 0 <= i < |years| ==> years[i] == currentYear + additiveYear - 1 - i
    ensures forall y :: y in years <==> yearFrom <= y < currentYear + additiveYear
    ensures forall i :: 0 <= i < |years| - 1 ==> years[i] > years[i + 1]
  {
    var top := currentYear + additiveYear;
    var ascending: seq<int> := [];
    var i := yearFrom;
    while i < top
      invariant yearFrom <= i && (i <= top || ascending == [])
      invariant |ascending| == i - yearFrom
      invariant forall k :: 0 <= k < |ascending| ==> ascending[k] == yearFrom + k
      decreases top - i
    {
      ascending := ascending + [i];
      i := i + 1;
    }
    years := Reverse(ascending);
    forall y | yearFrom <= y < top
      ensures y in years
    {
      assert years[top - 1 - y] == y;
    }
  }

  /** `generateAvailableYears()` with its defaults: from next year down to
      2004, or nothing before the year 2003. */
  method GenerateDefaultAvailableYears(currentYear: int) returns (years: seq<int>)
    ensures currentYear >= 2003 ==>
              |years| == currentYear - 2002 && years[0] == currentYear + 1 && years[|years| - 1] == 2004
    ensures currentYear < 2003 ==> years == []
  {
    years := GenerateAvailableYears(currentYear, DefaultAdditiveYear, DefaultYearFrom);
  }

  /** The years of the two dates' readings and every year between,
      ascending; empty when either date does not read (its year is NaN and
      the comparison fails) or the first year is later. */
  method GetDateRangeYears(read: Reader, startDate: string, endDate: string) returns (years: seq<int>)
    ensures read(startDate).None? || read(endDate).None? ==> years == []
    ensures read(startDate).Some? && read(endDate).Some? ==>
              var first, last := read(startDate).value.year, read(endDate).value.year;
              && |years| == (if first <= last then last - first + 1 else 0)
              && forall i :: 0 <= i < |years| ==> years[i] == first + i
    ensures forall y :: y in years <==>
              read(startDate).Some? && read(endDate).Some?
              && read(startDate).value.year <= y <= read(endDate).value.year
  {
    years := [];
    var from, to := read(startDate), read(endDate);
    if from.None? || to.None? {
      return;
    }
    var dateFromYear := from.value.year;
    var dateToYear := to.value.year;
    while dateFromYear <= dateToYear
      invariant from.value.year <= dateFromYear <= dateToYear + 1 || years == []
      invariant |years| == dateFromYear - from.value.year
      invariant forall k :: 0 <= k < |years| ==> years[k] == from.value.year + k
      decreases dateToYear - dateFromYear
    {
      years := years + [dateFromYear];
      dateFromYear := dateFromYear + 1;
    }
    forall y | from.value.year <= y <= dateToYear
      ensures y in years
    {
      assert years[y - from.value.year] == y;
    }
  }

  /** The i-th string renders the day i days after `first`. */
  ghost predicate DaysFrom(dates: seq<string>, first: Date)
    requires Valid(first)
  {
    forall i :: 0 <= i < |dates| ==>
      ParseMonthDayYear(dates[i]).Some? && DayNumber(ParseMonthDayYear(dates[i]).value) == DayNumber(first) + i
  }

  /** Consecutive strings of such a list render consecutive days. */
  lemma DaysFromConsecutive(dates: seq<string>, first: Date)
    requires Valid(first) && DaysFrom(dates, first)
    ensures forall i :: 0 <= i < |dates| - 1 ==>
              ParseMonthDayYear(dates[i]).Some?
              && ParseMonthDayYear(dates[i + 1]) == Some(NextDay(ParseMonthDayYear(dates[i]).value))
  {
    forall i | 0 <= i < |dates| - 1
      ensures ParseMonthDayYear(dates[i + 1]) == Some(NextDay(ParseMonthDayYear(dates[i]).value))
    {
      var a, b := ParseMonthDayYear(dates[i]).value, ParseMonthDayYear(dates[i + 1]).value;
      BeforeIffDayNumber(NextDay(a), b);
    }
  }

  /** The string at offset n of such a list renders the date n days after
      `first`. */
  lemma DaysFromAt(dates: seq<string>, first: Date, n: nat, d: Date)
    requires Valid(first) && DaysFrom(dates, first)
    requires n < |dates| && Renderable(d) && DayNumber(d) == DayNumber(first) + n
    ensures dates[n] == Render(d)
  {
    var x := ParseMonthDayYear(dates[n]).value;
    BeforeIffDayNumber(x, d);
    RenderParse(dates[n]);
  }

  /** One loop step: the rendering of the next day extends the list. */
  lemma AppendDay(dates: seq<string>, first: Date, day: Date, last: Date)
    requires Renderable(first) && Renderable(last) && Valid(day)
    requires DaysFrom(dates, first)
    requires DayNumber(day) == DayNumber(first) + |dates| && DayNumber(day) <= DayNumber(last)
    ensures Renderable(day)
    ensures DaysFrom(dates + [Render(day)], first)
  {
    YearMonotone(first, day);
    YearMonotone(day, last);
    ParseRender(day);
  }

  /** A non-empty list of the days from first to last starts with first
      and ends with last. */
  lemma DaysFromEnds(dates: seq<string>, first: Date, last: Date)
    requires Renderable(first) && Renderable(last)
    requires DaysFrom(dates, first)
    requires |dates| > 0 ==> DayNumber(first) + |dates| - 1 == DayNumber(last)
    ensures |dates| > 0 ==> dates[0] == Render(first) && dates[|dates| - 1] == Render(last)
  {
    if |dates| > 0 {
      DaysFromAt(dates, first, 0, first);
      DaysFromAt(dates, first, |dates| - 1, last);
    }
  }

  /** Every day from the start date's reading to the end date's reading,
      both included, as MM/DD/YYYY strings; empty when either date does not
      read (an invalid moment compares false) or the start is later. */
  method GetDateRangeDates(read: Reader, startDate: string, endDate: string) returns (dates: seq<string>)
    requires SoundReader(read)
    ensures read(startDate).None? || read(endDate).None? ==> dates == []
    ensures read(startDate).Some? && read(endDate).Some? ==>
              var first, last := read(startDate).value, read(endDate).value;
              && |dates| == (if Before(last, first) then 0 else DayNumber(last) - DayNumber(first) + 1)
              && DaysFrom(dates, first)
              && (|dates| > 0 ==> dates[0] == Render(first) && dates[|dates| - 1] == Render(last))
    ensures forall i :: 0 <= i < |dates| - 1 ==>
              ParseMonthDayYear(dates[i]).Some?
              && ParseMonthDayYear(dates[i + 1]) == Some(NextDay(ParseMonthDayYear(dates[i]).value))
  {
    dates := [];
    var dateFrom, dateTo := read(startDate), read(endDate);
    if dateFrom.None? || dateTo.None? {
      return;
    }
    var first, last := dateFrom.value, dateTo.value;
    var day := first;
    while DayNumber(day) <= DayNumber(last)
      invariant Valid(day)
      invariant DayNumber(day) == DayNumber(first) + |dates|
      invariant DayNumber(day) <= DayNumber(last) + 1 || dates == []
      invariant DaysFrom(dates, first)
      decreases DayNumber(last) - DayNumber(day)
    {
      AppendDay(dates, first, day, last);
      dates := dates + [Render(day)];
      day := NextDay(day);
    }
    BeforeIffDayNumber(last, first);
    DaysFromEnds(dates, first, last);
    DaysFromConsecutive(dates, first);
  }
}
