/**
 Proleptic-Gregorian calendar arithmetic in one fixed reference zone (UTC).
 A civil date (year, month, day) is mapped to the number of days since
 1970-01-01 and from there to epoch milliseconds. Every year is allowed,
 including years before 1 and after 9999.
 */
module Calendar {

  const MsPerSecond: int := 1000
  const MsPerMinute: int := 60 * MsPerSecond
  const MsPerHour: int := 60 * MsPerMinute
  const MsPerDay: int := 24 * MsPerHour

  predicate IsLeapYear(y: int) {
    y % 4 == 0 && (y % 100 != 0 || y % 400 == 0)
  }

  function YearLength(y: int): int {
    if IsLeapYear(y) then 366 else 365
  }

  function DaysInMonth(y: int, m: int): int
    requires 1 <= m <= 12
  {
    if m == 2 then (if IsLeapYear(y) then 29 else 28)
    else if m == 4 || m == 6 || m == 9 || m == 11 then 30
    else 31
  }

  predicate ValidDate(y: int, m: int, d: int) {
    1 <= m <= 12 && 1 <= d <= DaysInMonth(y, m)
  }

  /** Days in the months of year y that precede month m. */
  function DaysBeforeMonth(y: int, m: int): int
    requires 1 <= m <= 13
  {
    var common :=
      if m == 1 then 0 else if m == 2 then 31 else if m == 3 then 59
      else if m == 4 then 90 else if m == 5 then 120 else if m == 6 then 151
      else if m == 7 then 181 else if m == 8 then 212 else if m == 9 then 243
      else if m == 10 then 273 else if m == 11 then 304 else if m == 12 then 334
      else 365;
    if m > 2 && IsLeapYear(y) then common + 1 else common
  }

  /** Leap years in the interval [1, y) when y >= 1, extended to all integers
      by floor division (Dafny's `/` on a positive divisor is floor division). */
  function LeapYearsBefore(y: int): int {
    (y - 1) / 4 - (y - 1) / 100 + (y - 1) / 400
  }

  /** Days from 1970-01-01 to January 1st of year y (negative before 1970). */
  function DaysBeforeYear(y: int): int {
    365 * (y - 1970) + LeapYearsBefore(y) - LeapYearsBefore(1970)
  }

  /** Days from 1970-01-01 to the civil date (y, m, d). */
  function DaysFromCivil(y: int, m: int, d: int): (r: int)
    requires 1 <= m <= 12
    ensures y == 1970 && m == 1 && d == 1 ==> r == 0
    ensures ValidDate(y, m, d) ==> DaysBeforeYear(y) <= r < DaysBeforeYear(y + 1)
  {
    var r := DaysBeforeYear(y) + DaysBeforeMonth(y, m) + (d - 1);
    if ValidDate(y, m, d) then
      DayOfYearBound(y, m, d);
      YearStep(y);
      r
    else r
  }

  /** The calendar day after (y, m, d), rolling over months and years. */
  function NextDay(y: int, m: int, d: int): (int, int, int)
    requires ValidDate(y, m, d)
  {
    if d < DaysInMonth(y, m) then (y, m, d + 1)
    else if m < 12 then (y, m + 1, 1)
    else (y + 1, 1, 1)
  }

  /** Consecutive calendar days have consecutive day numbers, across month
      and year boundaries. */
  lemma DaysFromCivilNextDay(y: int, m: int, d: int)
    requires ValidDate(y, m, d)
    ensures var (y', m', d') := NextDay(y, m, d);
      ValidDate(y', m', d') && DaysFromCivil(y', m', d') == DaysFromCivil(y, m, d) + 1
  {
    if d == DaysInMonth(y, m) {
      if m < 12 {
        assert DaysBeforeMonth(y, m + 1) == DaysBeforeMonth(y, m) + DaysInMonth(y, m);
      } else {
        YearStep(y);
      }
    }
  }

  /** The first millisecond of the day that contains instant ms. */
  function DayStart(ms: int): (r: int)
    ensures r <= ms < r + MsPerDay
    ensures r % MsPerDay == 0
  {
    (ms / MsPerDay) * MsPerDay
  }

  /** Lexicographic order on civil dates. */
  predicate DateBefore(y: int, m: int, d: int, y': int, m': int, d': int) {
    y < y' || (y == y' && (m < m' || (m == m' && d < d')))
  }

  /** Floor division by 4 steps up by one exactly at multiples of 4. */
  lemma DivStep4(y: int)
    ensures y / 4 - (y - 1) / 4 == if y % 4 == 0 then 1 else 0
  {
    var q, r := (y - 1) / 4, (y - 1) % 4;
    assert y == q * 4 + (r + 1);
  }

  /** Floor division by 100 steps up by one exactly at multiples of 100. */
  lemma DivStep100(y: int)
    ensures y / 100 - (y - 1) / 100 == if y % 100 == 0 then 1 else 0
  {
    var q, r := (y - 1) / 100, (y - 1) % 100;
    assert y == q * 100 + (r + 1);
  }

  /** Floor division by 400 steps up by one exactly at multiples of 400. */
  lemma DivStep400(y: int)
    ensures y / 400 - (y - 1) / 400 == if y % 400 == 0 then 1 else 0
  {
    var q, r := (y - 1) / 400, (y - 1) % 400;
    assert y == q * 400 + (r + 1);
  }

  /** Multiples of 400 are multiples of 100. */
  lemma Multiple400(y: int)
    requires y % 400 == 0
    ensures y % 100 == 0
  {
    var q := y / 400;
    assert y == 100 * (4 * q);
  }

  /** Multiples of 100 are multiples of 4. */
  lemma Multiple100(y: int)
    requires y % 100 == 0
    ensures y % 4 == 0
  {
    var q := y / 100;
    assert y == 4 * (25 * q);
  }

  /** Multiples of 400 are multiples of 100, and those of 100 of 4. */
  lemma MultipleChain(y: int)
    ensures y % 400 == 0 ==> y % 100 == 0
    ensures y % 100 == 0 ==> y % 4 == 0
  {
    if y % 400 == 0 {
      Multiple400(y);
    }
    if y % 100 == 0 {
      Multiple100(y);
    }
  }

  /** The leap-year count grows by one exactly past a leap year. */
  lemma LeapYearsStep(y: int)
    ensures LeapYearsBefore(y + 1) - LeapYearsBefore(y) == if IsLeapYear(y) then 1 else 0
  {
    DivStep4(y);
    DivStep100(y);
    DivStep400(y);
    MultipleChain(y);
  }

  /** Consecutive New Year's days lie one year length apart. */
  lemma YearStep(y: int)
    ensures DaysBeforeYear(y + 1) == DaysBeforeYear(y) + YearLength(y)
  {
    LeapYearsStep(y);
  }

  lemma {:induction false} DaysBeforeYearMonotone(y: int, y': int)
    requires y <= y'
    ensures DaysBeforeYear(y) <= DaysBeforeYear(y')
    decreases y' - y
  {
    if y < y' {
      YearStep(y);
      DaysBeforeYearMonotone(y + 1, y');
    }
  }

  /** A valid date lies inside its own year. */
  lemma DayOfYearBound(y: int, m: int, d: int)
    requires ValidDate(y, m, d)
    ensures 0 <= DaysBeforeMonth(y, m) + (d - 1) < YearLength(y)
    ensures DaysBeforeMonth(y, m) + d <= DaysBeforeMonth(y, m + 1)
  {
  }

  /** The day count is strictly increasing in calendar order: later dates
      get larger day numbers, in every year and across year boundaries. */
  lemma DaysFromCivilStrictlyIncreasing(y: int, m: int, d: int, y': int, m': int, d': int)
    requires ValidDate(y, m, d) && ValidDate(y', m', d')
    requires DateBefore(y, m, d, y', m', d')
    ensures DaysFromCivil(y, m, d) < DaysFromCivil(y', m', d')
  {
    DayOfYearBound(y, m, d);
    DayOfYearBound(y', m', d');
    if y < y' {
      YearStep(y);
      DaysBeforeYearMonotone(y + 1, y');
    } else if m < m' {
      assert DaysBeforeMonth(y, m + 1) <= DaysBeforeMonth(y, m');
    }
  }

  /** Day numbers and calendar order agree in both directions, so distinct
      valid dates never share a day number. */
  lemma DaysFromCivilOrderEmbedding(y: int, m: int, d: int, y': int, m': int, d': int)
    requires ValidDate(y, m, d) && ValidDate(y', m', d')
    ensures DateBefore(y, m, d, y', m', d') <==> DaysFromCivil(y, m, d) < DaysFromCivil(y', m', d')
    ensures (y, m, d) == (y', m', d') <==> DaysFromCivil(y, m, d) == DaysFromCivil(y', m', d')
  {
    if DateBefore(y, m, d, y', m', d') {
      DaysFromCivilStrictlyIncreasing(y, m, d, y', m', d');
    } else if DateBefore(y', m', d', y, m, d) {
      DaysFromCivilStrictlyIncreasing(y', m', d', y, m, d);
    }
  }

  /** Midnight of a day number, in epoch milliseconds. */
  function DayToMs(days: int): (r: int)
    ensures DayStart(r) == r
    ensures r / MsPerDay == days
  {
    days * MsPerDay
  }

  /** Milliseconds into a day for a time of day; always less than one day. */
  function TimeOfDayMs(h: int, mi: int, s: int, ms: int): (r: int)
    requires 0 <= h < 24 && 0 <= mi < 60 && 0 <= s < 60 && 0 <= ms < 1000
    ensures 0 <= r < MsPerDay
  {
    h * MsPerHour + mi * MsPerMinute + s * MsPerSecond + ms
  }

  /** Lexicographic order on times of day. */
  predicate TimeBefore(h: int, mi: int, s: int, ms: int, h': int, mi': int, s': int, ms': int) {
    h < h' || (h == h' && (mi < mi' || (mi == mi' && (s < s' || (s == s' && ms < ms')))))
  }

  /** The millisecond count of a time of day embeds the order of times:
      an earlier time has a smaller count, and equal counts mean equal
      times, so no field of the time is lost. */
  lemma TimeOfDayOrderEmbedding(h: int, mi: int, s: int, ms: int, h': int, mi': int, s': int, ms': int)
    requires 0 <= h < 24 && 0 <= mi < 60 && 0 <= s < 60 && 0 <= ms < 1000
    requires 0 <= h' < 24 && 0 <= mi' < 60 && 0 <= s' < 60 && 0 <= ms' < 1000
    ensures TimeBefore(h, mi, s, ms, h', mi', s', ms')
      <==> TimeOfDayMs(h, mi, s, ms) < TimeOfDayMs(h', mi', s', ms')
    ensures (h, mi, s, ms) == (h', mi', s', ms')
      <==> TimeOfDayMs(h, mi, s, ms) == TimeOfDayMs(h', mi', s', ms')
  {
  }

  /** An instant is ordered by its day first and its time of day second. */
  lemma InstantOrder(d: int, tod: int, d': int, tod': int)
    requires 0 <= tod < MsPerDay && 0 <= tod' < MsPerDay
    ensures DayToMs(d) + tod < DayToMs(d') + tod' <==> d < d' || (d == d' && tod < tod')
    ensures DayToMs(d) + tod == DayToMs(d') + tod' <==> d == d' && tod == tod'
  {
    if d < d' {
      assert (d' - d) * MsPerDay >= MsPerDay;
    } else if d' < d {
      assert (d - d') * MsPerDay >= MsPerDay;
    }
  }

  /** Truncating an instant that lies inside day `days` yields that day's midnight. */
  lemma DayStartOfTimeInDay(days: int, tod: int)
    requires 0 <= tod < MsPerDay
    ensures DayStart(DayToMs(days) + tod) == DayToMs(days)
  {
    assert (days * MsPerDay + tod) / MsPerDay == days;
  }
}
