/** `fiscalYearToDateRange` and `calendarYearToDateRange`: a year, given as
    a number or as a decimal string, becomes a pair of MM/DD/YYYY strings.
    Both build their first day by reading the interpolated string
    `MM/DD/${year}` and their last day as "one year on, less one day".
 */
module YearRanges {
  import opened Nullable
  import opened Decimal
  import opened CivilDate
  import opened DateFormat

  /** The helpers' argument: JavaScript `typeof year === 'string'` or a
      number. */
  datatype YearArg = YearString(digits: string) | YearNumber(n: int)

  /** The two-element array `[dateFrom, dateTo]`. */
  datatype DateRange = DateRange(dateFrom: string, dateTo: string)

  /** The string branch reads its argument with `parseInt(year, 10)`; only
      strings of decimal digits are modelled. */
  predicate WellFormed(arg: YearArg) {
    arg.YearString? ==> IsDecimal(arg.digits)
  }

  /** The year both branches of `fiscalYearToDateRange` work from. */
  function NominalYear(arg: YearArg): int
    requires WellFormed(arg)
  {
    match arg
    case YearString(s) => Value(s)
    case YearNumber(n) => n
  }

  /** `calendarYearToDateRange`'s year: the string is used as read, the
      number is taken one lower. */
  function CalendarYear(arg: YearArg): int
    requires WellFormed(arg)
  {
    match arg
    case YearString(s) => Value(s)
    case YearNumber(n) => n - 1
  }

  /** Reads the interpolated string `MM/DD/${year}`, as the helpers do with
      moment's MM/DD/YYYY format; for a four-digit year this is the date
      itself. */
  function ReadInterpolated(month: nat, day: nat, year: nat): (d: Date)
    requires 1000 <= year <= 9999
    requires Valid(Date(year, month, day))
    ensures d == Date(year, month, day)
  {
    ShowFourDigits(year);
    ParseRender(Date(year, month, day));
    ParseMonthDayYear(Pad2(month) + "/" + Pad2(day) + "/" + Show(year)).value
  }

  /** The first day is read from `07/01/${year - 1}`; the last is one year on
      less one day. */
  function FiscalYearToDateRange(arg: YearArg): (r: DateRange)
    requires WellFormed(arg) && 1001 <= NominalYear(arg) <= 9999
    ensures var y := NominalYear(arg);
            r == DateRange(Render(Date(y - 1, 7, 1)), Render(Date(y, 6, 30)))
  {
    var fiscalYear := NominalYear(arg) - 1;
    var dateFrom := ReadInterpolated(7, 1, fiscalYear);
    var dateTo := PrevDay(AddOneYear(dateFrom));
    DateRange(Render(dateFrom), Render(dateTo))
  }

  /** The first day is read from `01/01/${year}`; the last is one year on
      less one day. */
  function CalendarYearToDateRange(arg: YearArg): (r: DateRange)
    requires WellFormed(arg) && 1000 <= CalendarYear(arg) <= 9999
    ensures match arg
            case YearString(s) => r == DateRange(Render(Date(Value(s), 1, 1)), Render(Date(Value(s), 12, 31)))
            case YearNumber(n) => r == DateRange(Render(Date(n - 1, 1, 1)), Render(Date(n - 1, 12, 31)))
  {
    var calendarYear := CalendarYear(arg);
    var dateFrom := ReadInterpolated(1, 1, calendarYear);
    var dateTo := PrevDay(AddOneYear(dateFrom));
    assert dateTo == Date(calendarYear, 12, 31);
    DateRange(Render(dateFrom), Render(dateTo))
  }

  /** The fiscal range reads back as 1 July of the previous year through
      30 June, and holds exactly as many days as the year y: 366 when y is a
      leap year (its 29 February falls inside), 365 otherwise. */
  lemma FiscalRangeSpan(arg: YearArg)
    requires WellFormed(arg) && 1001 <= NominalYear(arg) <= 9999
    ensures var y := NominalYear(arg);
            var r := FiscalYearToDateRange(arg);
            && ParseMonthDayYear(r.dateFrom) == Some(Date(y - 1, 7, 1))
            && ParseMonthDayYear(r.dateTo) == Some(Date(y, 6, 30))
            && DayNumber(Date(y, 6, 30)) - DayNumber(Date(y - 1, 7, 1)) + 1 == YearLength(y)
            && (YearLength(y) == 366 <==> IsLeapYear(y))
  {
    var y := NominalYear(arg);
    ParseRender(Date(y - 1, 7, 1));
    ParseRender(Date(y, 6, 30));
    YearStep(y - 1);
  }

  /** The calendar range reads back as 1 January through 31 December of its
      year and holds exactly that year's days. */
  lemma CalendarRangeSpan(arg: YearArg)
    requires WellFormed(arg) && 1000 <= CalendarYear(arg) <= 9999
    ensures var c := CalendarYear(arg);
            var r := CalendarYearToDateRange(arg);
            && ParseMonthDayYear(r.dateFrom) == Some(Date(c, 1, 1))
            && ParseMonthDayYear(r.dateTo) == Some(Date(c, 12, 31))
            && DayNumber(Date(c, 12, 31)) - DayNumber(Date(c, 1, 1)) + 1 == YearLength(c)
  {
    var c := CalendarYear(arg);
    ParseRender(Date(c, 1, 1));
    ParseRender(Date(c, 12, 31));
  }

  /** The two branches of `calendarYearToDateRange` disagree by one year:
      the number n gives the range of the string for n - 1, never the range
      of the string for n. */
  lemma CalendarBranchesDiffer(n: int)
    requires 1001 <= n <= 9999
    ensures Value(Show(n - 1)) == n - 1 && Value(Show(n)) == n
    ensures CalendarYearToDateRange(YearNumber(n)) == CalendarYearToDateRange(YearString(Show(n - 1)))
    ensures CalendarYearToDateRange(YearNumber(n)) != CalendarYearToDateRange(YearString(Show(n)))
  {
    ValueOfShow(n - 1);
    ValueOfShow(n);
    var a := CalendarYearToDateRange(YearNumber(n));
    var b := CalendarYearToDateRange(YearString(Show(n)));
    assert a.dateFrom == Render(Date(n - 1, 1, 1));
    assert b.dateFrom == Render(Date(n, 1, 1));
    if a.dateFrom == b.dateFrom {
      RenderInjective(Date(n - 1, 1, 1), Date(n, 1, 1));
    }
  }

  /** Unlike the calendar helper, both branches of the fiscal helper agree. */
  lemma FiscalBranchesAgree(n: int)
    requires 1001 <= n <= 9999
    ensures Value(Show(n)) == n
    ensures FiscalYearToDateRange(YearNumber(n)) == FiscalYearToDateRange(YearString(Show(n)))
  {
    ValueOfShow(n);
    FiscalDependsOnYearOnly(YearNumber(n), YearString(Show(n)));
  }

  /** The fiscal range depends on its argument only through the year it
      denotes. */
  lemma FiscalDependsOnYearOnly(a: YearArg, b: YearArg)
    requires WellFormed(a) && 1001 <= NominalYear(a) <= 9999
    requires WellFormed(b) && NominalYear(b) == NominalYear(a)
    ensures FiscalYearToDateRange(a) == FiscalYearToDateRange(b)
  {
  }

  lemma FiscalExample()
    ensures FiscalYearToDateRange(YearNumber(2024)) == DateRange("07/01/2023", "06/30/2024")
  {
    assert Render(Date(2023, 7, 1)) == "07/01/2023" && Render(Date(2024, 6, 30)) == "06/30/2024";
  }

  lemma CalendarStringExample()
    ensures Value("2024") == 2024
    ensures CalendarYearToDateRange(YearString("2024")) == DateRange("01/01/2024", "12/31/2024")
  {
    assert "2024"[..3] == "202" && "202"[..2] == "20" && "20"[..1] == "2";
    assert Render(Date(2024, 1, 1)) == "01/01/2024" && Render(Date(2024, 12, 31)) == "12/31/2024";
  }

  lemma CalendarNumberExample()
    ensures CalendarYearToDateRange(YearNumber(2024)) == DateRange("01/01/2023", "12/31/2023")
  {
    assert Render(Date(2023, 1, 1)) == "01/01/2023" && Render(Date(2023, 12, 31)) == "12/31/2023";
  }
}
