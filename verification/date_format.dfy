/** The MM/DD/YYYY rendering every range helper returns, and the strict
    MM/DD/YYYY reading that undoes it.
 */
module DateFormat {
  import opened Nullable
  import opened Decimal
  import opened CivilDate

  /** A valid date whose year fits the four-digit YYYY field. */
  predicate Renderable(d: Date) {
    Valid(d) && 0 <= d.year <= 9999
  }

  predicate FourDigits(s: string) {
    |s| == 4 && IsDigit(s[0]) && IsDigit(s[1]) && IsDigit(s[2]) && IsDigit(s[3])
  }

  function Pad2(n: nat): (s: string)
    requires n < 100
    ensures |s| == 2 && IsDigit(s[0]) && IsDigit(s[1])
  {
    [DigitChar(n / 10), DigitChar(n % 10)]
  }

  function Pad4(n: nat): (s: string)
    requires n < 10000
    ensures FourDigits(s)
  {
    [DigitChar(n / 1000), DigitChar(n / 100 % 10), DigitChar(n / 10 % 10), DigitChar(n % 10)]
  }

  function Read2(s: string): nat
    requires |s| == 2 && IsDigit(s[0]) && IsDigit(s[1])
  {
    DigitValue(s[0]) * 10 + DigitValue(s[1])
  }

  function Read4(s: string): nat
    requires FourDigits(s)
  {
    DigitValue(s[0]) * 1000 + DigitValue(s[1]) * 100 + DigitValue(s[2]) * 10 + DigitValue(s[3])
  }

  /** Zero-padded month, day and four-digit year, separated by slashes. */
  function Render(d: Date): (s: string)
    requires Renderable(d)
    ensures |s| == 10
    ensures MonthDayYearShape(s)
    ensures Read2(s[0..2]) == d.month && Read2(s[3..5]) == d.day && Read4(s[6..10]) == d.year
  {
    Pad2RoundTrip(d.month);
    Pad2RoundTrip(d.day);
    Pad4RoundTrip(d.year);
    Pad2(d.month) + "/" + Pad2(d.day) + "/" + Pad4(d.year)
  }

  /** The shape MM/DD/YYYY: ten characters, digits except for the two
      slashes. */
  predicate MonthDayYearShape(s: string) {
    |s| == 10 && s[2] == '/' && s[5] == '/'
    && IsDigit(s[0]) && IsDigit(s[1]) && IsDigit(s[3]) && IsDigit(s[4])
    && FourDigits(s[6..10])
  }

  /** Strict MM/DD/YYYY reading: the shape must match exactly and the date
      must exist. */
  function ParseMonthDayYear(s: string): (r: Option<Date>)
    ensures !MonthDayYearShape(s) ==> r.None?
    ensures r.Some? ==> Renderable(r.value)
  {
    if MonthDayYearShape(s) then
      var d := Date(Read4(s[6..10]), Read2(s[0..2]), Read2(s[3..5]));
      if Valid(d) then Some(d) else None
    else None
  }

  lemma Pad2RoundTrip(n: nat)
    requires n < 100
    ensures Read2(Pad2(n)) == n
  {
  }

  lemma Pad4RoundTrip(n: nat)
    requires n < 10000
    ensures Read4(Pad4(n)) == n
  {
    var a, b, c, e := n / 1000, n / 100 % 10, n / 10 % 10, n % 10;
    assert n / 100 == a * 10 + b;
    assert n / 10 == (a * 10 + b) * 10 + c;
    assert n == ((a * 10 + b) * 10 + c) * 10 + e;
    var t := Pad4(n);
    assert DigitValue(t[0]) == a && DigitValue(t[1]) == b && DigitValue(t[2]) == c && DigitValue(t[3]) == e;
  }

  /** Reading a rendered date gives back the date. */
  lemma ParseRender(d: Date)
    requires Renderable(d)
    ensures ParseMonthDayYear(Render(d)) == Some(d)
  {
    var s := Render(d);
    assert s[0..2] == Pad2(d.month);
    assert s[3..5] == Pad2(d.day);
    assert s[6..10] == Pad4(d.year);
    Pad2RoundTrip(d.month);
    Pad2RoundTrip(d.day);
    Pad4RoundTrip(d.year);
  }

  lemma Read2RoundTrip(t: string)
    requires |t| == 2 && IsDigit(t[0]) && IsDigit(t[1])
    ensures Read2(t) < 100 && Pad2(Read2(t)) == t
  {
    var n := Read2(t);
    assert n / 10 == DigitValue(t[0]) && n % 10 == DigitValue(t[1]);
    DigitCharOfValue(t[0]);
    DigitCharOfValue(t[1]);
  }

  lemma Read4RoundTrip(t: string)
    requires FourDigits(t)
    ensures Read4(t) < 10000 && Pad4(Read4(t)) == t
  {
    var n := Read4(t);
    assert IsDigit(t[0]) && IsDigit(t[1]) && IsDigit(t[2]) && IsDigit(t[3]);
    var a, b, c, e := DigitValue(t[0]), DigitValue(t[1]), DigitValue(t[2]), DigitValue(t[3]);
    assert n == a * 1000 + (b * 100 + c * 10 + e);
    assert n / 1000 == a;
    assert n == (a * 10 + b) * 100 + (c * 10 + e);
    assert n / 100 == a * 10 + b;
    assert n / 100 % 10 == b;
    assert n == (a * 100 + b * 10 + c) * 10 + e;
    assert n / 10 == a * 100 + b * 10 + c;
    assert n / 10 % 10 == c;
    assert n % 10 == e;
    DigitCharOfValue(t[0]);
    DigitCharOfValue(t[1]);
    DigitCharOfValue(t[2]);
    DigitCharOfValue(t[3]);
  }

  /** Rendering a date that was read gives back the string: the reading is
      exact, with no second spelling of the same date. */
  lemma RenderParse(s: string)
    requires ParseMonthDayYear(s).Some?
    ensures Render(ParseMonthDayYear(s).value) == s
  {
    var d := ParseMonthDayYear(s).value;
    assert MonthDayYearShape(s);
    Read2RoundTrip(s[0..2]);
    Read2RoundTrip(s[3..5]);
    Read4RoundTrip(s[6..10]);
    assert s == s[0..2] + "/" + s[3..5] + "/" + s[6..10];
  }

  /** Two renderable dates render alike only when they are the same date. */
  lemma RenderInjective(a: Date, b: Date)
    requires Renderable(a) && Renderable(b)
    requires Render(a) == Render(b)
    ensures a == b
  {
    ParseRender(a);
    ParseRender(b);
  }
}
