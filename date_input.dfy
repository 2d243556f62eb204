/**
 * The text-entry date field: normalising what was typed to `YYYY-MM-DD`,
 * validating it against the calendar, and deciding what a blur or a pick
 * in the calendar popover emits.
 */
module DateInput {
  import opened Wrappers
  import opened Strings
  import opened Calendar

  /** Four-or-more-digit year, two-digit month and day, joined by `-`. */
  function FormatDate(y: nat, m: nat, d: nat): string
  {
    Padded(y, 4) + "-" + Padded(m, 2) + "-" + Padded(d, 2)
  }

  /**
   * `normalizeDate`: the empty string stays empty; a string of three
   * `-`-separated parts that each start with an integer, with the month in
   * 1..12 and the day in 1..31, is re-spelled by `FormatDate`; anything else
   * is returned unchanged.
   */
  function NormalizeDate(s: string): (r: string)
    ensures r == "" <==> s == ""
  {
    if s == "" then ""
    else
      var parts := Split(s, '-');
      if |parts| != 3 then s
      else
        var y, m, d := ParseInt(parts[0]), ParseInt(parts[1]), ParseInt(parts[2]);
        if y.None? || m.None? || d.None? then s
        else if m.value < 1 || m.value > 12 || d.value < 1 || d.value > 31 then s
        else
          ParseIntNonNegative(parts[0]);
          FormatDate(y.value, m.value, d.value)
  }

  /** `/^\d{4}-\d{1,2}-\d{1,2}$/`: four digits, a dash, one or two digits, a dash, one or two digits. */
  predicate MatchesDatePattern(s: string)
  {
    var parts := Split(s, '-');
    && |parts| == 3
    && |parts[0]| == 4 && AllDigits(parts[0])
    && 1 <= |parts[1]| <= 2 && AllDigits(parts[1])
    && 1 <= |parts[2]| <= 2 && AllDigits(parts[2])
  }

  /**
   * Whether `new Date(year, month - 1, day)` reports back the same year,
   * month and day. That constructor reads the years 0..99 as 1900..1999, and
   * moves a day past the end of its month into the next month.
   */
  predicate LocalDateRoundTrips(year: int, month: int, day: int)
    requires 1 <= month <= 12
  {
    !(0 <= year <= 99) && day <= DaysInMonth(year, month)
  }

  /**
   * `isValidDate`: the empty string is valid; otherwise the string must match
   * the pattern, have a month in 1..12 and a day in 1..31, and name a day that
   * `Date` reports back unchanged.
   */
  function IsValidDate(s: string): (ok: bool)
    ensures s == "" ==> ok
    ensures s != "" && ok ==> MatchesDatePattern(s)
  {
    if s == "" then true
    else if !MatchesDatePattern(s) then false
    else
      var parts := Split(s, '-');
      var year, month, day := ParseInt(parts[0]), ParseInt(parts[1]), ParseInt(parts[2]);
      // A `NaN` field makes `Date` invalid, so the final comparison fails.
      if year.None? || month.None? || day.None? then false
      else if month.value < 1 || month.value > 12 then false
      else if day.value < 1 || day.value > 31 then false
      else LocalDateRoundTrips(year.value, month.value, day.value)
  }

  /** What a handler leaves behind: the text in the field, the value passed to `onChange`, the error flag. */
  datatype InputEffect = InputEffect(input: string, emitted: string, hasError: bool)

  /**
   * `handleBlur`: an empty field emits `""` without error; otherwise the
   * normalised text is kept and emitted when it is a valid date, and the
   * field is cleared, `""` emitted and the error flag raised when it is not.
   */
  function HandleBlur(inputValue: string): (e: InputEffect)
    ensures e.emitted == e.input
    ensures e.hasError <==> inputValue != "" && !IsValidDate(NormalizeDate(inputValue))
    ensures !e.hasError ==> e.emitted == NormalizeDate(inputValue)
    ensures e.hasError ==> e.emitted == ""
  {
    if inputValue == "" then InputEffect(inputValue, "", false)
    else
      var normalized := NormalizeDate(inputValue);
      if IsValidDate(normalized) then InputEffect(normalized, normalized, false)
      else InputEffect("", "", true)
  }

  /**
   * `normalizeDate`'s early returns: a non-empty string that does not split
   * into three parts, has a part without a leading integer, or has a month
   * outside 1..12 or a day outside 1..31 is returned unchanged.
   */
  predicate Rejected(s: string)
  {
    var parts := Split(s, '-');
    s != "" &&
    (|parts| != 3
     || ParseInt(parts[0]).None? || ParseInt(parts[1]).None? || ParseInt(parts[2]).None?
     || !(1 <= ParseInt(parts[1]).value <= 12) || !(1 <= ParseInt(parts[2]).value <= 31))
  }

  lemma NormalizeRejects(s: string)
    requires Rejected(s)
    ensures NormalizeDate(s) == s
  {
  }

  /** Text `normalizeDate` rejects is invalid, so a blur clears the field, emits `""` and flags the error. */
  lemma RejectedInputBlurs(s: string)
    requires Rejected(s)
    ensures !IsValidDate(NormalizeDate(s))
    ensures HandleBlur(s) == InputEffect("", "", true)
  {
    NormalizeRejects(s);
  }

  /** The fields of the `Date` the calendar hands over: `getFullYear()`, `getMonth()` (0-based), `getDate()`. */
  datatype PickedDay = PickedDay(year: int, monthIndex: int, day: int)

  /** A `Date` always carries a real day of the calendar. */
  predicate IsCalendarDay(p: PickedDay)
  {
    0 <= p.monthIndex < 12 && 1 <= p.day <= DaysInMonth(p.year, p.monthIndex + 1)
  }

  /** `${year}-${MM}-${DD}`: the year as `toString` spells it, month and day padded to two digits. */
  function FormatPickedDay(p: PickedDay): string
    requires IsCalendarDay(p)
  {
    IntToString(p.year) + "-" + PadStart(NatToString(p.monthIndex + 1), 2, '0') + "-" + PadStart(NatToString(p.day), 2, '0')
  }

  /** `handleDaySelect`: no day changes nothing; a day is formatted, shown and emitted without error. */
  function HandleDaySelect(picked: Option<PickedDay>): (e: Option<InputEffect>)
    requires picked.Some? ==> IsCalendarDay(picked.value)
    ensures e.Some? <==> picked.Some?
    ensures e.Some? ==> !e.value.hasError && e.value.input == e.value.emitted
    ensures picked.Some? ==> e.value.emitted == FormatPickedDay(picked.value)
  {
    match picked
    case None => None
    case Some(p) =>
      var formatted := FormatPickedDay(p);
      Some(InputEffect(formatted, formatted, false))
  }

  // ---------------------------------------------------------------------
  // Properties
  // ---------------------------------------------------------------------

  /** The spelling of a number padded to `width` digits. */
  function Padded(n: nat, width: nat): string
  {
    PadStart(NatToString(n), width, '0')
  }

  lemma PaddedDigits(n: nat, width: nat)
    ensures AllDigits(Padded(n, width)) && '-' !in Padded(n, width)
    ensures ParseInt(Padded(n, width)) == Some(n)
  {
    ParseIntOfPadded(n, width);
    NoDashInDigits(Padded(n, width));
  }

  lemma NoDashInDigits(s: string)
    requires AllDigits(s)
    ensures '-' !in s
  {
  }

  lemma SplitThree(a: string, b: string, c: string)
    requires '-' !in a && '-' !in b && '-' !in c
    ensures Split(a + "-" + b + "-" + c, '-') == [a, b, c]
  {
    SplitWithoutSeparator(a, '-');
    SplitAfterSeparator(a, b, '-');
    SplitAfterSeparator(a + "-" + b, c, '-');
  }

  /** The pieces of a formatted date split apart again and read back as the numbers written. */
  lemma FormatDateParts(y: nat, m: nat, d: nat)
    ensures Split(FormatDate(y, m, d), '-') == [Padded(y, 4), Padded(m, 2), Padded(d, 2)]
  {
    PaddedDigits(y, 4);
    PaddedDigits(m, 2);
    PaddedDigits(d, 2);
    SplitThree(Padded(y, 4), Padded(m, 2), Padded(d, 2));
  }

  /** A date already in the canonical form normalises to itself. */
  lemma NormalizeFormatted(y: nat, m: nat, d: nat)
    requires 1 <= m <= 12 && 1 <= d <= 31
    ensures NormalizeDate(FormatDate(y, m, d)) == FormatDate(y, m, d)
  {
    var s := FormatDate(y, m, d);
    FormatDateParts(y, m, d);
    PaddedDigits(y, 4);
    PaddedDigits(m, 2);
    PaddedDigits(d, 2);
    assert |s| >= 2;
    NormalizeOfFields(s, y, m, d);
  }

  /** A non-empty string of three parts reading as a month in 1..12 and a day in 1..31 is re-spelled by `FormatDate`. */
  lemma NormalizeOfFields(s: string, y: nat, m: nat, d: nat)
    requires s != "" && 1 <= m <= 12 && 1 <= d <= 31
    requires var parts := Split(s, '-');
      |parts| == 3 && ParseInt(parts[0]) == Some(y) && ParseInt(parts[1]) == Some(m) && ParseInt(parts[2]) == Some(d)
    ensures NormalizeDate(s) == FormatDate(y, m, d)
  {
  }

  /** Normalising twice is the same as normalising once. */
  lemma NormalizeIdempotent(s: string)
    ensures NormalizeDate(NormalizeDate(s)) == NormalizeDate(s)
  {
    if s != "" {
      var parts := Split(s, '-');
      if |parts| == 3 {
        var y, m, d := ParseInt(parts[0]), ParseInt(parts[1]), ParseInt(parts[2]);
        if y.Some? && m.Some? && d.Some? && 1 <= m.value <= 12 && 1 <= d.value <= 31 {
          ParseIntNonNegative(parts[0]);
          NormalizeFormatted(y.value, m.value, d.value);
        }
      }
    }
  }

  /**
   * A non-empty valid date names a year in 100..9999, a month in 1..12 and
   * a day of that month, and normalises to the canonical spelling of them.
   */
  lemma ValidDateFields(s: string) returns (y: nat, m: nat, d: nat)
    requires s != "" && IsValidDate(s)
    ensures 100 <= y <= 9999 && 1 <= m <= 12 && 1 <= d <= DaysInMonth(y, m)
    ensures NormalizeDate(s) == FormatDate(y, m, d)
  {
    var parts := Split(s, '-');
    ParseIntOfDigits(parts[0]);
    ParseIntOfDigits(parts[1]);
    ParseIntOfDigits(parts[2]);
    y, m, d := DigitsValue(parts[0]), DigitsValue(parts[1]), DigitsValue(parts[2]);
  }

  /** For a year of at most four digits, a formatted date is valid exactly when it names a real day after year 99. */
  lemma FormattedDateValidity(y: nat, m: nat, d: nat)
    requires y <= 9999 && 1 <= m <= 12 && 1 <= d <= 31
    ensures IsValidDate(FormatDate(y, m, d)) <==> 100 <= y && d <= DaysInMonth(y, m)
  {
    var s := FormatDate(y, m, d);
    FormatDateParts(y, m, d);
    SmallPowers();
    PaddedValue(y, 4);
    PaddedValue(m, 2);
    PaddedValue(d, 2);
    var parts := Split(s, '-');
    assert parts == [Padded(y, 4), Padded(m, 2), Padded(d, 2)];
    assert MatchesDatePattern(s);
    assert ParseInt(parts[1]) == Some(m as int);
    assert ParseInt(parts[2]) == Some(d as int);
    assert ParseInt(parts[0]) == Some(y as int);
    ValidityOfFields(s, y, m, d);
  }

  /** Once the three fields of a patterned string are read, validity is the calendar check alone. */
  lemma ValidityOfFields(s: string, y: int, m: int, d: int)
    requires s != "" && MatchesDatePattern(s)
    requires var parts := Split(s, '-');
      ParseInt(parts[0]) == Some(y) && ParseInt(parts[1]) == Some(m) && ParseInt(parts[2]) == Some(d)
    requires 1 <= m <= 12 && 1 <= d <= 31
    ensures IsValidDate(s) == LocalDateRoundTrips(y, m, d)
  {
  }

  /** A number below `10^width` is spelled with exactly `width` digits, which read back as the number. */
  lemma PaddedValue(n: nat, width: nat)
    requires 1 <= width && n < Pow10(width)
    ensures |Padded(n, width)| == width
    ensures AllDigits(Padded(n, width)) && '-' !in Padded(n, width)
    ensures DigitsValue(Padded(n, width)) == n
    ensures ParseInt(Padded(n, width)) == Some(n)
  {
    PaddedDigits(n, width);
    NatToStringLength(n, width);
    ParseIntOfDigits(Padded(n, width));
  }

  lemma SmallPowers()
    ensures Pow10(2) == 100 && Pow10(4) == 10000
  {
  }

  /** A formatted date with a four-digit year is a date-only string that `Date` reads as that day. */
  lemma FormattedDateParses(y: nat, m: nat, d: nat)
    requires y <= 9999 && 1 <= m <= 12 && 1 <= d <= DaysInMonth(y, m)
    ensures IsIsoDateShape(FormatDate(y, m, d))
    ensures ParseDateOnly(FormatDate(y, m, d)) == Some(DayNumber(y, m, d) * MillisPerDay)
  {
    var s := FormatDate(y, m, d);
    var a, b, c := Padded(y, 4), Padded(m, 2), Padded(d, 2);
    SmallPowers();
    PaddedValue(y, 4);
    PaddedValue(m, 2);
    PaddedValue(d, 2);
    IsoSlices(a, b, c);
  }

  lemma IsoSlices(a: string, b: string, c: string)
    requires |a| == 4 && |b| == 2 && |c| == 2
    ensures var s := a + "-" + b + "-" + c;
      |s| == 10 && s[..4] == a && s[4] == '-' && s[5..7] == b && s[7] == '-' && s[8..] == c
  {
  }

  /**
   * Whatever a blur emits is either empty or a valid date in the canonical
   * ten-character form, which normalises to itself and which the date-range
   * filter reads as a day.
   */
  lemma BlurEmitsCanonicalDate(inputValue: string)
    ensures var e := HandleBlur(inputValue);
      e.emitted == "" || (IsValidDate(e.emitted) && NormalizeDate(e.emitted) == e.emitted
                          && IsIsoDateShape(e.emitted) && ParseDateOnly(e.emitted).Some?)
  {
    var e := HandleBlur(inputValue);
    if e.emitted != "" {
      var n := NormalizeDate(inputValue);
      var y, m, d := ValidDateFields(n);
      NormalizeIdempotent(inputValue);
      FormattedDateParses(y, m, d);
    }
  }

  /**
   * A picked day with a four-digit year is spelled canonically, passes
   * validation, and survives a later blur unchanged and without error.
   */
  lemma PickedDayIsCanonical(p: PickedDay)
    requires IsCalendarDay(p) && 1000 <= p.year <= 9999
    ensures var picked := HandleDaySelect(Some(p)).value.emitted;
      && picked == FormatDate(p.year, p.monthIndex + 1, p.day)
      && IsValidDate(picked)
      && HandleBlur(picked) == InputEffect(picked, picked, false)
  {
    var y, m, d := p.year, p.monthIndex + 1, p.day;
    NatToStringLength(y, 3);
    assert Padded(y, 4) == NatToString(y);
    FormattedDateValidity(y, m, d);
    NormalizeFormatted(y, m, d);
  }
}
