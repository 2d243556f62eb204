/**
 * The proleptic Gregorian calendar, and the reading of a date-only
 * `YYYY-MM-DD` string as an instant (`new Date("YYYY-MM-DD")`), with
 * instants as integer milliseconds since 1970-01-01T00:00:00Z.
 */
module Calendar {
  import opened Wrappers
  import opened Strings

  const MillisPerDay: int := 86400000

  predicate IsLeapYear(y: int)
  {
    y % 4 == 0 && (y % 100 != 0 || y % 400 == 0)
  }

  function DaysInMonth(y: int, m: int): (n: int)
    requires 1 <= m <= 12
    ensures 28 <= n <= 31
    ensures m == 2 ==> (n == 29 <==> IsLeapYear(y))
    ensures m != 2 ==> n >= 30
  {
    if m == 2 then (if IsLeapYear(y) then 29 else 28)
    else if m == 4 || m == 6 || m == 9 || m == 11 then 30
    else 31
  }

  /**
   * The number of days from 0000-03-01 to March 1 of year `y`: whole
   * 400-year cycles of 146097 days, then 365 days a year plus the leap days
   * of the years begun within the cycle. `/` is floor division here because
   * every divisor is positive.
   */
  function YearDays(y: int): int
  {
    var era := y / 400;
    var yoe := y - era * 400;
    era * 146097 + yoe * 365 + yoe / 4 - yoe / 100
  }

  /** The number of days from March 1 to the first of month `m` (January and February close the year). */
  function MonthStart(m: int): int
    requires 1 <= m <= 12
  {
    [306, 337, 0, 31, 61, 92, 122, 153, 184, 214, 245, 275][m - 1]
  }

  /**
   * The number of days from 1970-01-01 to the given date (negative before it).
   * Years are counted from March so that the leap day ends a year.
   */
  function DayNumber(y: int, m: int, d: int): int
    requires 1 <= m <= 12
  {
    var y' := if m <= 2 then y - 1 else y;
    YearDays(y') + MonthStart(m) + d - 1 - 719468
  }

  /** The calendar day after `(y, m, d)`. */
  function NextDay(y: int, m: int, d: int): (r: (int, int, int))
    requires 1 <= m <= 12 && 1 <= d <= DaysInMonth(y, m)
    ensures 1 <= r.1 <= 12 && 1 <= r.2 <= DaysInMonth(r.0, r.1)
  {
    if d < DaysInMonth(y, m) then (y, m, d + 1)
    else if m < 12 then (y, m + 1, 1)
    else (y + 1, 1, 1)
  }

  lemma DayNumberEpoch()
    ensures DayNumber(1970, 1, 1) == 0
  {
    assert YearDays(1969) == 719468 - 306;
  }

  /** Consecutive calendar days have consecutive day numbers. */
  lemma DayNumberNextDay(y: int, m: int, d: int)
    requires 1 <= m <= 12 && 1 <= d <= DaysInMonth(y, m)
    ensures var n := NextDay(y, m, d); DayNumber(n.0, n.1, n.2) == DayNumber(y, m, d) + 1
  {
    if d < DaysInMonth(y, m) {
      assert NextDay(y, m, d) == (y, m, d + 1);
    } else if m == 2 {
      assert NextDay(y, m, d) == (y, 3, 1);
      YearLength(y - 1);
    } else if m == 12 {
      assert NextDay(y, m, d) == (y + 1, 1, 1);
      YearTurn(y);
    } else {
      assert NextDay(y, m, d) == (y, m + 1, 1);
      MonthStep(y, m);
    }
  }

  /** New Year's Day follows the last day of December. */
  lemma YearTurn(y: int)
    ensures DayNumber(y + 1, 1, 1) == DayNumber(y, 12, 31) + 1
  {
    var base := YearDays(y);
    assert DayNumber(y + 1, 1, 1) == base + 306 - 719468;
    assert DayNumber(y, 12, 31) == base + 275 + 30 - 719468;
  }

  /** Within one March-to-February year, the first of the next month follows the last of this one. */
  lemma MonthStep(y: int, m: int)
    requires 1 <= m < 12 && m != 2
    ensures DayNumber(y, m + 1, 1) == DayNumber(y, m, DaysInMonth(y, m)) + 1
  {
  }

  /** The year that starts on March 1 of `y` has 366 days exactly when the following February has a leap day. */
  lemma YearLength(y: int)
    ensures YearDays(y + 1) == YearDays(y) + 365 + (if IsLeapYear(y + 1) then 1 else 0)
  {
    var era := y / 400;
    var k := y - era * 400;
    assert 0 <= k < 400;
    if k == 399 {
      CycleEnd(era);
    } else {
      WithinCycle(era, k);
    }
  }

  /** The last year of a 400-year cycle has 366 days, since the next cycle opens with a leap year. */
  lemma CycleEnd(era: int)
    ensures YearDays(era * 400 + 400) == YearDays(era * 400 + 399) + 366
    ensures IsLeapYear(era * 400 + 400)
  {
    CenturyShift(era, 399);
    CenturyShift(era + 1, 0);
    assert era * 400 + 400 == (era + 1) * 400 + 0;
    assert YearDays(era * 400 + 400) == (era + 1) * 146097;
    assert YearDays(era * 400 + 399) == era * 146097 + 145731;
  }

  /** Inside a cycle, a year gains a leap day exactly when the next year number is a leap year. */
  lemma WithinCycle(era: int, k: int)
    requires 0 <= k < 399
    ensures YearDays(era * 400 + k + 1) == YearDays(era * 400 + k) + 365 + (if IsLeapYear(era * 400 + k + 1) then 1 else 0)
  {
    CenturyShift(era, k);
    CenturyShift(era, k + 1);
    QuarterStep(k);
    assert YearDays(era * 400 + k + 1) == era * 146097 + (k + 1) * 365 + (k + 1) / 4 - (k + 1) / 100;
    assert YearDays(era * 400 + k) == era * 146097 + k * 365 + k / 4 - k / 100;
  }

  /** Shifting by whole 400-year cycles keeps a year's place in its cycle. */
  lemma CenturyShift(era: int, j: int)
    requires 0 <= j < 400
    ensures (era * 400 + j) / 400 == era
    ensures (era * 400 + j) % 4 == j % 4
    ensures (era * 400 + j) % 100 == j % 100
    ensures (era * 400 + j) % 400 == j
  {
    CycleQuotient(era, j);
    CycleMod4(era, j);
    CycleMod100(era, j);
    CycleMod400(era, j);
  }

  lemma CycleQuotient(era: int, j: int)
    requires 0 <= j < 400
    ensures (era * 400 + j) / 400 == era
  {
    DivModOf(era * 400 + j, 400, era, j);
  }

  lemma CycleMod4(era: int, j: int)
    requires 0 <= j < 400
    ensures (era * 400 + j) % 4 == j % 4
  {
    DivModOf(era * 400 + j, 4, era * 100 + j / 4, j % 4);
  }

  lemma CycleMod100(era: int, j: int)
    requires 0 <= j < 400
    ensures (era * 400 + j) % 100 == j % 100
  {
    DivModOf(era * 400 + j, 100, era * 4 + j / 100, j % 100);
  }

  lemma CycleMod400(era: int, j: int)
    requires 0 <= j < 400
    ensures (era * 400 + j) % 400 == j
  {
    DivModOf(era * 400 + j, 400, era, j);
  }

  /** A quotient and a remainder in range are the quotient and the remainder. */
  lemma DivModOf(x: int, n: int, q: int, r: int)
    requires n == 4 || n == 100 || n == 400
    requires x == q * n + r && 0 <= r < n
    ensures x / n == q && x % n == r
  {
    if n == 4 {
      assert x == 4 * q + r;
    } else if n == 100 {
      assert x == 100 * q + r;
    } else {
      assert x == 400 * q + r;
    }
  }

  lemma QuarterStep(k: int)
    requires 0 <= k < 399
    ensures (k + 1) / 4 - k / 4 == if (k + 1) % 4 == 0 then 1 else 0
    ensures (k + 1) / 100 - k / 100 == if (k + 1) % 100 == 0 then 1 else 0
  {
  }

  lemma WholeDays(n: int)
    ensures (n * MillisPerDay) % MillisPerDay == 0
  {
  }

  /** `s` has the shape `DDDD-DD-DD`, four, two and two decimal digits. */
  predicate IsIsoDateShape(s: string)
  {
    |s| == 10 && AllDigits(s[..4]) && s[4] == '-' && AllDigits(s[5..7]) && s[7] == '-' && AllDigits(s[8..])
  }

  /**
   * `new Date(s)` for a date-only string: the instant of midnight UTC
   * starting that day, or `None` (an Invalid Date) when `s` is not a
   * `YYYY-MM-DD` string naming a day of the calendar. A day past the end of
   * its month (`2024-02-30`) is also `None` here; ECMAScript leaves such a
   * string to the engine, and some engines roll it into the next month.
   */
  function ParseDateOnly(s: string): (r: Option<int>)
    ensures r.Some? ==> IsIsoDateShape(s) && r.value % MillisPerDay == 0
  {
    if !IsIsoDateShape(s) then None
    else
      var y, m, d := DigitsValue(s[..4]), DigitsValue(s[5..7]), DigitsValue(s[8..]);
      if 1 <= m <= 12 && 1 <= d <= DaysInMonth(y, m) then
        var n := DayNumber(y, m, d);
        WholeDays(n);
        Some(n * MillisPerDay)
      else None
  }
}
