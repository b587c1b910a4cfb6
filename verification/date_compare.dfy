/** `isAfter`, `isSameOrAfter` and `isSameOrBefore`.

    Reading a date string (`getMomentDate`, moment's lenient multi-format
    parse) and recognising one (`isDate`, a strict check against three
    formats) are not modelled: they are parameters, a partial reading
    function and a predicate, with no assumed link between them.
 */
module DateCompare {
  import opened Nullable
  import opened CivilDate
  import opened DateFormat

  /** `getMomentDate`: a string becomes a date, or an invalid moment. */
  type Reader = string -> Option<Date>

  /** Every date the reader produces exists in the calendar. */
  ghost predicate ValidReader(read: Reader) {
    forall s :: read(s).Some? ==> Valid(read(s).value)
  }

  /** Every date the reader produces exists and has a four-digit year. */
  ghost predicate SoundReader(read: Reader) {
    forall s :: read(s).Some? ==> Renderable(read(s).value)
  }

  /** moment's comparisons answer false when either moment is invalid;
      otherwise they order the timestamps, which for dates read at midnight
      order the day numbers. */
  function MomentIsAfter(a: Option<Date>, b: Option<Date>): (r: bool)
    requires a.Some? ==> Valid(a.value)
    requires b.Some? ==> Valid(b.value)
    ensures r <==> a.Some? && b.Some? && Before(b.value, a.value)
  {
    ReadOrder(b, a);
    a.Some? && b.Some? && DayNumber(a.value) > DayNumber(b.value)
  }

  function MomentIsSameOrAfter(a: Option<Date>, b: Option<Date>): (r: bool)
    requires a.Some? ==> Valid(a.value)
    requires b.Some? ==> Valid(b.value)
    ensures r <==> a.Some? && b.Some? && !Before(a.value, b.value)
  {
    ReadOrder(a, b);
    a.Some? && b.Some? && DayNumber(a.value) >= DayNumber(b.value)
  }

  function MomentIsSameOrBefore(a: Option<Date>, b: Option<Date>): (r: bool)
    requires a.Some? ==> Valid(a.value)
    requires b.Some? ==> Valid(b.value)
    ensures r <==> a.Some? && b.Some? && !Before(b.value, a.value)
  {
    ReadOrder(b, a);
    a.Some? && b.Some? && DayNumber(a.value) <= DayNumber(b.value)
  }

  lemma ReadOrder(a: Option<Date>, b: Option<Date>)
    requires a.Some? ==> Valid(a.value)
    requires b.Some? ==> Valid(b.value)
    ensures a.Some? && b.Some? ==> (Before(a.value, b.value) <==> DayNumber(a.value) < DayNumber(b.value))
  {
    if a.Some? && b.Some? {
      BeforeIffDayNumber(a.value, b.value);
    }
  }

  /** null unless both strings are recognised as dates; then whether the
      first date falls strictly later in the calendar than the second. */
  function IsAfter(isDate: string -> bool, read: Reader, firstDate: string, secondDate: string): (r: NullableBool)
    requires ValidReader(read)
    ensures r.Null? <==> !(isDate(firstDate) && isDate(secondDate))
    ensures r.Bool? && read(firstDate).Some? && read(secondDate).Some? ==>
              r.value == Before(read(secondDate).value, read(firstDate).value)
    ensures r.Bool? && (read(firstDate).None? || read(secondDate).None?) ==> !r.value
  {
    if isDate(firstDate) && isDate(secondDate) then
      var a, b := read(firstDate), read(secondDate);
      Bool(MomentIsAfter(a, b))
    else
      Null
  }

  /** null unless both strings are recognised as dates; then whether the
      first date is the same day as the second or later. */
  function IsSameOrAfter(isDate: string -> bool, read: Reader, firstDate: string, secondDate: string): (r: NullableBool)
    requires ValidReader(read)
    ensures r.Null? <==> !(isDate(firstDate) && isDate(secondDate))
    ensures r.Bool? && read(firstDate).Some? && read(secondDate).Some? ==>
              r.value == !Before(read(firstDate).value, read(secondDate).value)
    ensures r.Bool? && (read(firstDate).None? || read(secondDate).None?) ==> !r.value
  {
    if isDate(firstDate) && isDate(secondDate) then
      var a, b := read(firstDate), read(secondDate);
      Bool(MomentIsSameOrAfter(a, b))
    else
      Null
  }

  /** null unless both strings are recognised as dates; then whether the
      first date is the same day as the second or earlier. */
  function IsSameOrBefore(isDate: string -> bool, read: Reader, firstDate: string, secondDate: string): (r: NullableBool)
    requires ValidReader(read)
    ensures r.Null? <==> !(isDate(firstDate) && isDate(secondDate))
    ensures r.Bool? && read(firstDate).Some? && read(secondDate).Some? ==>
              r.value == !Before(read(secondDate).value, read(firstDate).value)
    ensures r.Bool? && (read(firstDate).None? || read(secondDate).None?) ==> !r.value
  {
    if isDate(firstDate) && isDate(secondDate) then
      var a, b := read(firstDate), read(secondDate);
      Bool(MomentIsSameOrBefore(a, b))
    else
      Null
  }

  /** Swapping the operands turns "same or after" into "same or before". */
  lemma SameOrAfterIsSwappedSameOrBefore(isDate: string -> bool, read: Reader, a: string, b: string)
    requires ValidReader(read)
    ensures IsSameOrAfter(isDate, read, a, b) == IsSameOrBefore(isDate, read, b, a)
  {
  }

  /** "After" is the stronger answer: true for isAfter gives true for
      isSameOrAfter, and null for one is null for the other. */
  lemma AfterImpliesSameOrAfter(isDate: string -> bool, read: Reader, a: string, b: string)
    requires ValidReader(read)
    ensures IsAfter(isDate, read, a, b) == Bool(true) ==> IsSameOrAfter(isDate, read, a, b) == Bool(true)
    ensures IsAfter(isDate, read, a, b).Null? <==> IsSameOrAfter(isDate, read, a, b).Null?
  {
  }

  /** Two readable dates that are each the same or after the other are the
      same day, and "after" never holds both ways. */
  lemma ComparisonsAgreeOnEquality(isDate: string -> bool, read: Reader, a: string, b: string)
    requires ValidReader(read)
    requires read(a).Some? && read(b).Some?
    ensures (IsSameOrAfter(isDate, read, a, b) == Bool(true) && IsSameOrBefore(isDate, read, a, b) == Bool(true))
              ==> read(a) == read(b)
    ensures !(IsAfter(isDate, read, a, b) == Bool(true) && IsAfter(isDate, read, b, a) == Bool(true))
  {
    BeforeIffDayNumber(read(a).value, read(b).value);
  }
}
