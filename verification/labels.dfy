/** The date-range label helpers: `isFiscalYear`, `isCalendarYear` and
    `parseYearFromLabel`.

    A label is whatever JavaScript value the caller passes; only strings
    are ever inspected. The two prefixes come from a constants module and
    are parameters here.
 */
module Labels {
  import opened Nullable
  import opened Decimal

  /** A label argument: a string, or any value whose `typeof` is not
      'string'. */
  datatype Label = Text(text: string) | NotText

  /** lodash `startsWith(s, target)` at position 0, compared character by
      character. */
  function StartsWith(s: string, target: string): (r: bool)
    ensures r <==> exists rest :: s == target + rest
  {
    if |target| == 0 then
      assert s == target + s;
      true
    else if |s| == 0 || s[0] != target[0] then
      false
    else
      var r := StartsWith(s[1..], target[1..]);
      if r then
        var rest :| s[1..] == target[1..] + rest;
        assert s == target + rest;
        true
      else
        assert forall rest :: s == target + rest ==> s[1..] == target[1..] + rest;
        false
  }

  /** True exactly for strings beginning with the fiscal-year prefix; any
      other value gives false, never null. */
  function IsFiscalYear(dateRange: Label, fiscalYearPrefix: string): (r: bool)
    ensures r <==> dateRange.Text? && exists rest :: dateRange.text == fiscalYearPrefix + rest
  {
    if dateRange.Text? then StartsWith(dateRange.text, fiscalYearPrefix) else false
  }

  /** True exactly for strings beginning with the calendar-year prefix; any
      other value gives false, never null. */
  function IsCalendarYear(dateRange: Label, calendarYearPrefix: string): (r: bool)
    ensures r <==> dateRange.Text? && exists rest :: dateRange.text == calendarYearPrefix + rest
  {
    if dateRange.Text? then StartsWith(dateRange.text, calendarYearPrefix) else false
  }

  /** A label cannot be both kinds unless one prefix begins the other. */
  lemma BothKindsMeansNestedPrefixes(dateRange: Label, fiscalYearPrefix: string, calendarYearPrefix: string)
    requires IsFiscalYear(dateRange, fiscalYearPrefix) && IsCalendarYear(dateRange, calendarYearPrefix)
    ensures StartsWith(fiscalYearPrefix, calendarYearPrefix) || StartsWith(calendarYearPrefix, fiscalYearPrefix)
  {
    var s := dateRange.text;
    var a :| s == fiscalYearPrefix + a;
    var b :| s == calendarYearPrefix + b;
    assert s[..|fiscalYearPrefix|] == fiscalYearPrefix;
    assert s[..|calendarYearPrefix|] == calendarYearPrefix;
    if |calendarYearPrefix| <= |fiscalYearPrefix| {
      assert fiscalYearPrefix[..|calendarYearPrefix|] == calendarYearPrefix;
      assert fiscalYearPrefix == calendarYearPrefix + fiscalYearPrefix[|calendarYearPrefix|..];
    } else {
      assert calendarYearPrefix[..|fiscalYearPrefix|] == fiscalYearPrefix;
      assert calendarYearPrefix == fiscalYearPrefix + calendarYearPrefix[|fiscalYearPrefix|..];
    }
  }

  // ---------------------------------------------------------------------
  // The pattern /(\w|\s)*([\d][\d])/ and its first match.
  // ---------------------------------------------------------------------

  /** `\w`: ASCII letters, digits and the underscore. */
  predicate IsWordChar(c: char) {
    'a' <= c <= 'z' || 'A' <= c <= 'Z' || IsDigit(c) || c == '_'
  }

  /** `\s`: the ECMAScript white space and line terminator characters. */
  predicate IsSpaceChar(c: char) {
    c == '\t' || c == '\n' || c == '\U{000B}' || c == '\U{000C}' || c == '\r' || c == ' '
    || c == '\U{00A0}' || c == '\U{1680}' || ('\U{2000}' <= c <= '\U{200A}')
    || c == '\U{2028}' || c == '\U{2029}' || c == '\U{202F}' || c == '\U{205F}'
    || c == '\U{3000}' || c == '\U{FEFF}'
  }

  /** A character one iteration of `(\w|\s)` consumes. */
  predicate IsRunChar(c: char) {
    IsWordChar(c) || IsSpaceChar(c)
  }

  /** `[\d][\d]` matches at position k. */
  predicate PairAt(s: string, k: int) {
    0 <= k && k + 1 < |s| && IsDigit(s[k]) && IsDigit(s[k + 1])
  }

  /** Some two adjacent characters are digits. */
  ghost predicate HasDigitPair(s: string) {
    exists k :: 0 <= k < |s| && PairAt(s, k)
  }

  /** How far the greedy `(\w|\s)*` reaches from position i: the end of the
      run of word and space characters starting there. */
  function RunEnd(s: string, i: nat): (e: nat)
    requires i <= |s|
    ensures i <= e <= |s|
    ensures forall k :: i <= k < e ==> IsRunChar(s[k])
    ensures e == |s| || !IsRunChar(s[e])
    decreases |s| - i
  {
    if i == |s| || !IsRunChar(s[i]) then i else RunEnd(s, i + 1)
  }

  /** Backtracking of the star: having consumed s[i..j], try `[\d][\d]` at
      j, and on failure give back one character and try again. The result
      is where the two digits begin. */
  function Backtrack(s: string, i: nat, j: nat): (r: Option<nat>)
    requires i <= j <= |s|
    ensures r.Some? ==> i <= r.value <= j && PairAt(s, r.value)
    ensures r.Some? ==> forall k :: r.value < k <= j ==> !PairAt(s, k)
    ensures r.None? ==> forall k :: i <= k <= j ==> !PairAt(s, k)
    decreases j - i
  {
    if PairAt(s, j) then Some(j)
    else if j == i then None
    else Backtrack(s, i, j - 1)
  }

  /** A successful match: where it starts and where its two digits begin. */
  datatype Match = Match(start: nat, pairAt: nat)

  /** The pattern anchored at position i. */
  function MatchAt(s: string, i: nat): Option<nat>
    requires i <= |s|
  {
    Backtrack(s, i, RunEnd(s, i))
  }

  /** `exec` with `lastIndex` = i: try each start position in turn. */
  function Exec(s: string, i: nat): (r: Option<Match>)
    requires i <= |s|
    ensures r.Some? ==> i <= r.value.start <= r.value.pairAt && PairAt(s, r.value.pairAt)
    decreases |s| - i
  {
    match MatchAt(s, i)
    case Some(k) => Some(Match(i, k))
    case None => if i == |s| then None else Exec(s, i + 1)
  }

  /** The array `exec` returns: the whole match, the last iteration of
      `(\w|\s)` (undefined when the star matched nothing) and the two
      digits. */
  function Captures(s: string, m: Match): (groups: seq<Option<string>>)
    requires m.start <= m.pairAt && PairAt(s, m.pairAt)
    ensures |groups| == 3 && groups[2] == Some(s[m.pairAt..m.pairAt + 2])
  {
    [Some(s[m.start..m.pairAt + 2]),
     if m.pairAt == m.start then None else Some([s[m.pairAt - 1]]),
     Some(s[m.pairAt..m.pairAt + 2])]
  }

  /** The two captured digits, read as `parseInt('20' + digits, 10)`. */
  function CenturyYear(digits: string): (y: int)
    requires |digits| == 2 && IsDigit(digits[0]) && IsDigit(digits[1])
    ensures 2000 <= y <= 2099
    ensures y == 2000 + DigitValue(digits[0]) * 10 + DigitValue(digits[1])
  {
    var t := "20" + digits;
    assert t[..3][..2] == "20" && "20"[..1] == "2";
    assert Value("20") == 20;
    assert Value(t[..3]) == 200 + DigitValue(digits[0]);
    Value(t)
  }

  /** `label.match(re)` with the global flag is non-null exactly when the
      first `exec` succeeds, and it leaves `lastIndex` at 0, so the
      following `exec` returns the first match. The capture array always
      has three entries, so its length test never fails. */
  function ParseYearFromLabel(dateRangeLabel: Label): (r: Option<int>)
    ensures dateRangeLabel.NotText? ==> r.None?
    ensures dateRangeLabel.Text? ==> (r.None? <==> !HasDigitPair(dateRangeLabel.text))
    ensures r.Some? ==> 2000 <= r.value <= 2099
    ensures r.Some? ==> exists start: nat, k: nat :: FirstRunLastPair(dateRangeLabel.text, start, k)
                         && r.value == 2000 + DigitValue(dateRangeLabel.text[k]) * 10 + DigitValue(dateRangeLabel.text[k + 1])
  {
    if dateRangeLabel.NotText? then None
    else
      var s := dateRangeLabel.text;
      ExecFindsEveryPair(s);
      match Exec(s, 0)
      case None => None
      case Some(m) =>
        FirstMatchShape(s);
        var groups := Captures(s, m);
        assert s[m.pairAt..m.pairAt + 2][0] == s[m.pairAt] && s[m.pairAt..m.pairAt + 2][1] == s[m.pairAt + 1];
        if |groups| == 3 then Some(CenturyYear(groups[2].value)) else None
  }

  /** `exec` fails only on strings with no two adjacent digits. */
  lemma ExecFindsEveryPair(s: string)
    ensures Exec(s, 0).None? <==> !HasDigitPair(s)
  {
    if k :| PairAt(s, k) {
      ExecReachesPair(s, 0, k);
    }
  }

  lemma {:induction false} ExecReachesPair(s: string, i: nat, k: int)
    requires i <= |s|
    requires PairAt(s, k) && i <= k
    ensures Exec(s, i).Some?
    decreases |s| - i
  {
    if MatchAt(s, i).None? && i < k {
      ExecReachesPair(s, i + 1, k);
    }
  }

  /** The digits at k are the last two adjacent digits of the first run
      of word and space characters that holds two adjacent digits, and that
      run begins at start: start begins a run, no pair lies before it, the
      run covers start..k+2, and no pair lies after k inside the run. */
  ghost predicate FirstRunLastPair(s: string, start: nat, k: nat) {
    && start <= k
    && PairAt(s, k)
    && (start == 0 || !IsRunChar(s[start - 1]))
    && (forall j :: 0 <= j < start ==> !PairAt(s, j))
    && (forall j :: start <= j < k + 2 ==> IsRunChar(s[j]))
    && (forall j :: k < j < RunEnd(s, start) ==> !PairAt(s, j))
  }

  /** The shape above has a single solution, so it fixes the year that
      `parseYearFromLabel` returns. */
  lemma FirstRunLastPairUnique(s: string, st1: nat, k1: nat, st2: nat, k2: nat)
    requires FirstRunLastPair(s, st1, k1) && FirstRunLastPair(s, st2, k2)
    ensures st1 == st2 && k1 == k2
  {
    assert st1 == 0 || !IsRunChar(s[st1 - 1]);
    assert st2 == 0 || !IsRunChar(s[st2 - 1]);
    if k1 < k2 {
      RunEndCovers(s, st1, k2 + 2);
    }
    if k2 < k1 {
      RunEndCovers(s, st1, k1 + 2);
    }
  }

  /** The greedy star reaches at least as far as any stretch of word and
      space characters starting where it starts. */
  lemma {:induction false} RunEndCovers(s: string, i: nat, e: nat)
    requires i <= e <= |s|
    requires forall j :: i <= j < e ==> IsRunChar(s[j])
    ensures e <= RunEnd(s, i)
    decreases e - i
  {
    if i < e {
      RunEndCovers(s, i + 1, e);
    }
  }

  /** What the match finds: the last two adjacent digits of the first run
      of word and space characters that holds two adjacent digits. The
      match starts at the beginning of that run, no pair lies before it,
      the run covers the match, and no pair lies after the chosen one
      inside the run. */
  lemma FirstMatchShape(s: string)
    requires Exec(s, 0).Some?
    ensures FirstRunLastPair(s, Exec(s, 0).value.start, Exec(s, 0).value.pairAt)
  {
    ExecShape(s, 0);
  }

  lemma {:induction false} ExecShape(s: string, i: nat)
    requires i <= |s|
    requires Exec(s, i).Some?
    requires i == 0 || !IsRunChar(s[i - 1]) || MatchAt(s, i - 1).None?
    requires forall k :: 0 <= k < i ==> !PairAt(s, k)
    ensures FirstRunLastPair(s, Exec(s, i).value.start, Exec(s, i).value.pairAt)
    decreases |s| - i
  {
    if MatchAt(s, i).None? {
      ExecShape(s, i + 1);
    }
  }

  lemma ParseYearShortLabel()
    ensures ParseYearFromLabel(Text("FY 23")) == Some(2023)
  {
    var s := "FY 23";
    assert RunEnd(s, 0) == 5;
    assert PairAt(s, 3) && !PairAt(s, 4) && !PairAt(s, 5);
    assert MatchAt(s, 0) == Some(3);
    assert s[3..5] == "23";
  }

  lemma ParseYearSlashLabel()
    ensures ParseYearFromLabel(Text("FY 2019/20")) == Some(2019)
  {
    var s := "FY 2019/20";
    assert !IsRunChar(s[7]);
    assert RunEnd(s, 7) == 7;
    assert RunEnd(s, 5) == RunEnd(s, 6) == 7;
    assert RunEnd(s, 3) == RunEnd(s, 4) == 7;
    assert RunEnd(s, 0) == RunEnd(s, 1) == RunEnd(s, 2) == 7;
    assert !PairAt(s, 7) && !PairAt(s, 6) && PairAt(s, 5);
    assert Backtrack(s, 0, 7) == Backtrack(s, 0, 6) == Some(5);
    assert Exec(s, 0) == Some(Match(0, 5));
    assert s[5..7] == "19";
  }

  lemma ParseYearNoDigits()
    ensures ParseYearFromLabel(Text("no digits here")) == None
  {
    var s := "no digits here";
    assert forall k :: 0 <= k < |s| ==> !IsDigit(s[k]);
  }
}
