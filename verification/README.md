# Date-range helpers of the Observer front end, in Dafny

This project models the calendar-range and label logic of the Observer
front end's date helpers (`Observer_frontend/src/utils/dateUtils.js`):

- turning a fiscal or calendar year into a pair of `MM/DD/YYYY` strings,
- listing available years, the years of a range and every day of a range,
- recognising fiscal and calendar labels by their prefix,
- pulling a year out of a free-text label,
- tri-state date comparison (true, false or null),
- the last day of a month of the current year.

The JavaScript delegates its date arithmetic to the moment library. Here that
is replaced by a small proleptic Gregorian civil-date model (module
`CivilDate`). It covers the leap-year rule, month lengths, a day number that
orders dates the way moment's timestamps do, next and previous day, and
moment's "add one year", which turns 29 February into 28 February.
`DateFormat` renders dates as zero-padded `MM/DD/YYYY` and reads that format
back strictly. Both round trips are proved.

Reading arbitrary date strings (`getMomentDate`) and recognising them
(`isDate`) are parameters of the model: a partial function
`string -> Option<Date>` and a predicate. Two things are assumed about the
reader. First, it reads a date as midnight of that day, so moment's
millisecond comparisons order dates by their day number. Second, every date
it produces exists (`ValidReader`, all the comparisons need). For
`getDateRangeDates`, every date it produces must also have a four-digit year
(`SoundReader`). Nothing links `isDate` to the reader. When `isDate` accepts
both strings but the reader fails, moment's comparisons answer `false`, and
so does the model. The current year is a parameter too, and so are the two
label prefixes.

Modules, one per concern:

| file | module | contents |
|---|---|---|
| nullable.dfy | `Nullable` | `Option` (a value or `null`) and the tri-state `NullableBool` |
| decimal.dfy | `Decimal` | `parseInt(s, 10)` on digit strings and the decimal form of a number |
| civil_date.dfy | `CivilDate` | the calendar, day numbers, next/previous day, add a year, end of month |
| date_format.dfy | `DateFormat` | `MM/DD/YYYY` rendering and strict reading |
| year_ranges.dfy | `YearRanges` | `fiscalYearToDateRange`, `calendarYearToDateRange` |
| labels.dfy | `Labels` | `isFiscalYear`, `isCalendarYear`, the label regex and `parseYearFromLabel` |
| date_compare.dfy | `DateCompare` | `isAfter`, `isSameOrAfter`, `isSameOrBefore` |
| range_lists.dfy | `RangeLists` | `generateAvailableYears`, `getDateRangeYears`, `getDateRangeDates` |

Behaviour kept exactly as the code has it:

- `calendarYearToDateRange` subtracts one from a numeric year but not from a
  string year. The model keeps this asymmetry, and `CalendarBranchesDiffer`
  proves that the two branches are exactly one year apart. In
  `fiscalYearToDateRange` the two branches agree (`FiscalBranchesAgree`).
- `parseYearFromLabel` does not read a trailing two-digit suffix. The
  greedy `(\w|\s)*` makes it take the last two adjacent digits of the first
  run of word and space characters that holds any. For example, "FY 2019/20" gives 2019, not 2020
  (`FirstMatchShape`, `ParseYearSlashLabel`).
- The comparison helpers return `null` only when `isDate` rejects an
  operand. When `isDate` accepts both but the lenient reading fails, they
  return `false`, as moment does for invalid moments.

## Model

| member | source | states |
|---|---|---|
| CivilDate.NextDay | Belarus_Observer_source_code/Observer_frontend/src/utils/dateUtils.js:161 | adding one day gives a valid date whose day number is exactly one more |
| CivilDate.PrevDay | Belarus_Observer_source_code/Observer_frontend/src/utils/dateUtils.js:116 | subtracting one day gives a valid date whose next day is the original date |
| CivilDate.AddOneYear | Belarus_Observer_source_code/Observer_frontend/src/utils/dateUtils.js:116 | adding a year keeps the month and day, except that 29 February becomes 28 February |
| CivilDate.BeforeIffDayNumber | Belarus_Observer_source_code/Observer_frontend/src/utils/dateUtils.js:159 | comparing day numbers (moment's timestamps) agrees exactly with year-month-day order, and equal numbers mean equal dates |
| CivilDate.EarlierYearEarlierDay | Belarus_Observer_source_code/Observer_frontend/src/utils/dateUtils.js:159 | a date in an earlier year has a smaller day number |
| CivilDate.EarlierMonthEarlierDay | Belarus_Observer_source_code/Observer_frontend/src/utils/dateUtils.js:159 | within one year, an earlier month gives a smaller day number, and in the same month day numbers differ by the days of the month |
| CivilDate.YearMonotone | Belarus_Observer_source_code/Observer_frontend/src/utils/dateUtils.js:159-162 | a date no later than another lies in no later a year, so days enumerated up to a four-digit end year stay renderable |
| CivilDate.EndOfMonth | Belarus_Observer_source_code/Observer_frontend/src/utils/dateUtils.js:59-61 | the result is the last valid day of the month (with month indices outside 0..11 rolling into other years); the following day is the 1st; it is 29 exactly for February of a leap year |
| DateFormat.Render | Belarus_Observer_source_code/Observer_frontend/src/utils/dateUtils.js:117 | `format('MM/DD/YYYY')` gives ten characters in the MM/DD/YYYY shape whose two-digit and four-digit fields read back as the month, the day and the year; `ParseRender` and `RenderParse` make it the exact inverse of the strict read; the same call is made at lines 124 and 97 |
| DateFormat.ParseMonthDayYear | Belarus_Observer_source_code/Observer_frontend/src/utils/dateUtils.js:115 | a strict MM/DD/YYYY read, standing in for moment's non-strict `moment(s, DF.MM_DD_YYYY)` here and at line 122: it fails on any string not in the ten-character digits-and-slashes shape, and every date it yields exists and has a four-digit year; the two reads agree on the zero-padded strings with a four-digit year that these lines build |
| DateFormat.ParseRender | Belarus_Observer_source_code/Observer_frontend/src/utils/dateUtils.js:115-117 | reading an `MM/DD/YYYY` rendering gives back the date |
| DateFormat.RenderParse | Belarus_Observer_source_code/Observer_frontend/src/utils/dateUtils.js:115-117 | rendering a strictly read date gives back the exact string |
| DateFormat.RenderInjective | Belarus_Observer_source_code/Observer_frontend/src/utils/dateUtils.js:117 | different dates never render to the same string |
| Decimal.Value | Belarus_Observer_source_code/Observer_frontend/src/utils/dateUtils.js:114 | `parseInt(s, 10)` of a digit string ends in the string's last digit; `ValueOfShow` and `ShowOfValue` make it the inverse of the template-literal form; the same call is at lines 121 and 147 |
| Decimal.Show | Belarus_Observer_source_code/Observer_frontend/src/utils/dateUtils.js:115 | the template literal `${n}` of a non-negative integer is digits only, with no leading zero unless it is the single digit 0; the same interpolation is at line 122 |
| Decimal.ValueOfShow | Belarus_Observer_source_code/Observer_frontend/src/utils/dateUtils.js:114-115 | `parseInt` of a number's decimal form gives the number back |
| Decimal.ShowOfValue | Belarus_Observer_source_code/Observer_frontend/src/utils/dateUtils.js:114 | a digit string with no leading zero is the decimal form of its `parseInt` value |
| YearRanges.ReadInterpolated | Belarus_Observer_source_code/Observer_frontend/src/utils/dateUtils.js:115 | reading the interpolated `MM/DD/${year}` of a four-digit year gives exactly that date |
| YearRanges.FiscalYearToDateRange | Belarus_Observer_source_code/Observer_frontend/src/utils/dateUtils.js:113-118 | for a year y given as a number or a digit string, the range is 1 July of y-1 to 30 June of y |
| YearRanges.FiscalRangeSpan | Belarus_Observer_source_code/Observer_frontend/src/utils/dateUtils.js:113-118 | both strings read back as those dates, and the range holds 366 days exactly when y is a leap year, 365 otherwise |
| YearRanges.FiscalBranchesAgree | Belarus_Observer_source_code/Observer_frontend/src/utils/dateUtils.js:114 | the number n and the string for n give the same fiscal range |
| YearRanges.FiscalDependsOnYearOnly | Belarus_Observer_source_code/Observer_frontend/src/utils/dateUtils.js:114-117 | two year arguments with the same year, whether number or string, give the same fiscal range |
| YearRanges.FiscalExample | Belarus_Observer_source_code/Observer_frontend/src/utils/dateUtils.js:113-118 | 2024 gives 07/01/2023 to 06/30/2024 |
| YearRanges.CalendarYearToDateRange | Belarus_Observer_source_code/Observer_frontend/src/utils/dateUtils.js:120-125 | a string year s gives 1 January to 31 December of s; a number n gives the same range for n-1 |
| YearRanges.CalendarRangeSpan | Belarus_Observer_source_code/Observer_frontend/src/utils/dateUtils.js:120-125 | both strings read back as 1 January and 31 December, and the range holds exactly that year's days |
| YearRanges.CalendarBranchesDiffer | Belarus_Observer_source_code/Observer_frontend/src/utils/dateUtils.js:121 | the number n gives the range of the string for n-1 and never the range of the string for n |
| YearRanges.CalendarStringExample | Belarus_Observer_source_code/Observer_frontend/src/utils/dateUtils.js:120-125 | "2024" gives 01/01/2024 to 12/31/2024 |
| YearRanges.CalendarNumberExample | Belarus_Observer_source_code/Observer_frontend/src/utils/dateUtils.js:121-124 | the number 2024 gives 01/01/2023 to 12/31/2023 |
| Labels.StartsWith | Belarus_Observer_source_code/Observer_frontend/src/utils/dateUtils.js:129 | the character-by-character prefix test is true exactly when the string is the prefix followed by something |
| Labels.IsFiscalYear | Belarus_Observer_source_code/Observer_frontend/src/utils/dateUtils.js:127-132 | true exactly for strings that begin with the fiscal prefix; false (never null) for anything that is not a string |
| Labels.IsCalendarYear | Belarus_Observer_source_code/Observer_frontend/src/utils/dateUtils.js:134-139 | true exactly for strings that begin with the calendar prefix; false (never null) for anything that is not a string |
| Labels.BothKindsMeansNestedPrefixes | Belarus_Observer_source_code/Observer_frontend/src/utils/dateUtils.js:127-139 | a label recognised as both kinds means one prefix begins the other |
| Labels.RunEnd | Belarus_Observer_source_code/Observer_frontend/src/utils/dateUtils.js:143 | the greedy star over word and space characters stops at the first character that is neither a word nor a space character |
| Labels.Backtrack | Belarus_Observer_source_code/Observer_frontend/src/utils/dateUtils.js:143 | giving back characters one at a time finds the last adjacent digit pair within reach of the star, or proves there is none |
| Labels.Exec | Belarus_Observer_source_code/Observer_frontend/src/utils/dateUtils.js:145 | a match found from index i starts at or after i and ends on two adjacent digits |
| Labels.Captures | Belarus_Observer_source_code/Observer_frontend/src/utils/dateUtils.js:145-146 | the capture array always has three entries, the last being the two matched digits |
| Labels.CenturyYear | Belarus_Observer_source_code/Observer_frontend/src/utils/dateUtils.js:147 | `parseInt('20' + digits, 10)` is 2000 plus the two-digit value, within 2000..2099 |
| Labels.ParseYearFromLabel | Belarus_Observer_source_code/Observer_frontend/src/utils/dateUtils.js:141-152 | null for non-strings and exactly for strings with no two adjacent digits; otherwise 2000 plus the value of the last adjacent digit pair in the first run of word and space characters that holds a pair, where that run starts at or before every pair of the label and no pair lies between the chosen one and the run's end |
| Labels.ExecFindsEveryPair | Belarus_Observer_source_code/Observer_frontend/src/utils/dateUtils.js:144 | the global match fails exactly when the label holds no two adjacent digits |
| Labels.ExecReachesPair | Belarus_Observer_source_code/Observer_frontend/src/utils/dateUtils.js:144-145 | scanning from any index at or before an adjacent digit pair finds a match |
| Labels.FirstRunLastPairUnique | Belarus_Observer_source_code/Observer_frontend/src/utils/dateUtils.js:143-147 | the first-run, last-pair shape has exactly one solution, so the year `parseYearFromLabel` returns is determined by the label |
| Labels.RunEndCovers | Belarus_Observer_source_code/Observer_frontend/src/utils/dateUtils.js:143 | the greedy star over word and space characters reaches at least to the end of any such stretch starting where it starts |
| Labels.FirstMatchShape | Belarus_Observer_source_code/Observer_frontend/src/utils/dateUtils.js:143-145 | the first match starts a run of word and space characters; no digit pair lies before it; the run covers the match; no later pair lies inside the run |
| Labels.ExecShape | Belarus_Observer_source_code/Observer_frontend/src/utils/dateUtils.js:143-145 | the same shape, for a scan started at any index that no earlier attempt could have matched from |
| Labels.ParseYearShortLabel | Belarus_Observer_source_code/Observer_frontend/src/utils/dateUtils.js:141-152 | "FY 23" gives 2023 |
| Labels.ParseYearSlashLabel | Belarus_Observer_source_code/Observer_frontend/src/utils/dateUtils.js:141-152 | "FY 2019/20" gives 2019 |
| Labels.ParseYearNoDigits | Belarus_Observer_source_code/Observer_frontend/src/utils/dateUtils.js:141-152 | "no digits here" gives null |
| DateCompare.IsAfter | Belarus_Observer_source_code/Observer_frontend/src/utils/dateUtils.js:67-72 | null exactly when `isDate` rejects an operand; otherwise true exactly when the second date comes strictly before the first in calendar order, and false when either fails to read |
| DateCompare.IsSameOrAfter | Belarus_Observer_source_code/Observer_frontend/src/utils/dateUtils.js:74-79 | null exactly when `isDate` rejects an operand; otherwise true exactly when the first date is not before the second, and false when either fails to read |
| DateCompare.IsSameOrBefore | Belarus_Observer_source_code/Observer_frontend/src/utils/dateUtils.js:81-86 | null exactly when `isDate` rejects an operand; otherwise true exactly when the second date is not before the first, and false when either fails to read |
| DateCompare.MomentIsAfter | Belarus_Observer_source_code/Observer_frontend/src/utils/dateUtils.js:69 | moment's `isAfter` is true exactly when both moments are valid and the second date comes strictly before the first in calendar order |
| DateCompare.MomentIsSameOrAfter | Belarus_Observer_source_code/Observer_frontend/src/utils/dateUtils.js:76 | moment's `isSameOrAfter` is true exactly when both moments are valid and the first date is not before the second |
| DateCompare.MomentIsSameOrBefore | Belarus_Observer_source_code/Observer_frontend/src/utils/dateUtils.js:83 | moment's `isSameOrBefore` is true exactly when both moments are valid and the second date is not before the first |
| DateCompare.ReadOrder | Belarus_Observer_source_code/Observer_frontend/src/utils/dateUtils.js:69 | for two read dates, calendar order agrees with the order moment compares |
| DateCompare.SameOrAfterIsSwappedSameOrBefore | Belarus_Observer_source_code/Observer_frontend/src/utils/dateUtils.js:74-86 | `isSameOrAfter(a, b)` equals `isSameOrBefore(b, a)`, null included |
| DateCompare.AfterImpliesSameOrAfter | Belarus_Observer_source_code/Observer_frontend/src/utils/dateUtils.js:67-79 | `isAfter` true gives `isSameOrAfter` true, and the two are null together |
| DateCompare.ComparisonsAgreeOnEquality | Belarus_Observer_source_code/Observer_frontend/src/utils/dateUtils.js:67-86 | same-or-after and same-or-before both true means the same date; `isAfter` never holds both ways |
| RangeLists.Reverse | Belarus_Observer_source_code/Observer_frontend/src/utils/dateUtils.js:110 | the reversed list has the same length, with element i taken from the mirrored position |
| RangeLists.GenerateAvailableYears | Belarus_Observer_source_code/Observer_frontend/src/utils/dateUtils.js:104-111 | years from current+additive-1 down to `yearFrom`, strictly descending by one; length max(0, current+additive-yearFrom), so empty when `yearFrom` is at least current+additive; contains exactly the years in that range |
| RangeLists.GenerateDefaultAvailableYears | Belarus_Observer_source_code/Observer_frontend/src/utils/dateUtils.js:104 | with the default arguments 2 and 2004, the list runs from next year down to 2004, and is empty before the year 2003 |
| RangeLists.GetDateRangeYears | Belarus_Observer_source_code/Observer_frontend/src/utils/dateUtils.js:167-177 | ascending consecutive years from the start's year to the end's year, of length y2-y1+1, empty when y1 > y2 or when either date fails to read; contains exactly those years |
| RangeLists.GetDateRangeDates | Belarus_Observer_source_code/Observer_frontend/src/utils/dateUtils.js:154-165 | empty when either date fails to read or the start is after the end; otherwise one string per day, of length (days between)+1; element i renders the day i days after the start; the first renders the start and the last the end; each element is the next day after its predecessor |
| RangeLists.AppendDay | Belarus_Observer_source_code/Observer_frontend/src/utils/dateUtils.js:159-162 | one loop step: the rendering of the next day, which stays renderable, extends the list of days from the start |
| RangeLists.DaysFromEnds | Belarus_Observer_source_code/Observer_frontend/src/utils/dateUtils.js:159-162 | a non-empty list of the days from a start to an end begins with the rendered start and ends with the rendered end |
| RangeLists.DaysFromConsecutive | Belarus_Observer_source_code/Observer_frontend/src/utils/dateUtils.js:159-162 | in a list whose i-th string renders the i-th day after a start, each string reads as the day after its predecessor |
| RangeLists.DaysFromAt | Belarus_Observer_source_code/Observer_frontend/src/utils/dateUtils.js:159-162 | in such a list, the string at offset n is the rendering of the date n days after the start |

## Left out

- `getCurrentDate` and `getDateRangeSubtractFromNow` (lines 11-13, 179-188) read the system clock. `generateAvailableYears` and `getEndOfMonth` take the current year as a parameter instead of calling `moment()`.
- `getMomentDate`, `isValidDate` and `isDate` (lines 15-29) wrap moment's multi-format parser, its strictness modes and the format list of the constants module, none of which is part of this model. They are parameters: a reader `string -> Option<Date>` and a predicate. UTC versus local mode is not modelled. Reading is assumed to give midnight of the date, so moment's millisecond comparisons order dates by their day number.
- `getYear` (lines 31-33) is the year field of a read date. It is modelled only where `getDateRangeYears` calls it (lines 169-170).
- `getMonth` and `getDayOfMonth` (lines 35-37, 55-57) are the month and day fields of a read date. No modelled operation calls them.
- `getMonthName`, `getMonthByShortName`, `getShortMonthName`, `getMonthNumber`, `getAllMonths`, `toMonthDayFormat` and `formatDate` (lines 39-53, 63-65, 88-90, 100-102) depend on moment's locale month tables or arbitrary format tokens.
- `toISOFormat` and `toMonthDayYearFormat` (lines 92-98): only the `MM/DD/YYYY` rendering, which `getDateRangeDates` returns, is modelled (`DateFormat.Render`). Its format constant is taken to be `MM/DD/YYYY`, as its name says, because the constants module is not part of this model.
- `getDiffDaysBetweenTwoDate` (lines 190-194) depends on a local-time parse, timezone offsets and millisecond arithmetic.
- The contents of the constants module (line 3): the fiscal and calendar prefixes are parameters.
- YearRanges.FiscalYearToDateRange: the year after the offset must lie in 1000..9999, and a string year must consist of decimal digits only. `parseInt` of other strings (NaN, trailing garbage) and moment's handling of years with other than four digits are not modelled.
- YearRanges.CalendarYearToDateRange: the same restriction to years 1000..9999 after the offset, and to digit-only strings.
- DateFormat.ParseMonthDayYear: moment's non-strict parse also accepts unpadded fields ("7/1/2023") and trailing text ("07/01/2023 x"); that leniency is not modelled, because the only strings read this way are the zero-padded, four-digit-year strings built at lines 115 and 122, on which the strict and lenient reads agree.
- CivilDate.EndOfMonth: a month given as a name string (which moment would look up in its locale) is not modelled; only numeric month indices are.
- DateCompare.IsAfter: the reader must be valid, meaning every date it returns exists in the calendar, as every valid moment does. Time-of-day components of a reading are not modelled; dates compare by calendar day. The same holds for `IsSameOrAfter` and `IsSameOrBefore`.
- RangeLists.GetDateRangeDates: the reader must be sound, meaning every date it returns is valid with a four-digit year, as moment's YYYY field gives.
- JavaScript numbers are modelled as unbounded integers. Years never come near the limits of double precision.
- `ParseEntityUtils.java` (backend) only wraps a supplier call in `Optional.ofNullable` and swallows a `NullPointerException`, which is Java exception handling with no date logic.
