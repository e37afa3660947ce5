/**
 * The calendar arithmetic behind the chart-age check: the dates that
 * datetime.strptime(s, '%Y%m%d') produces, their ordering, Python's
 * proleptic Gregorian day number (date.toordinal), isoformat() of such a
 * midnight datetime, and the whole days of `now - date`.
 */
module CivilDates {
  import opened PyStrings

  /** A calendar date of the proleptic Gregorian calendar. */
  datatype Date = Date(year: int, month: int, day: int)

  predicate IsLeap(y: int) {
    y % 4 == 0 && (y % 100 != 0 || y % 400 == 0)
  }

  function DaysInYear(y: int): int {
    if IsLeap(y) then 366 else 365
  }

  function DaysInMonth(y: int, m: int): int
    requires 1 <= m <= 12
  {
    if m == 2 then (if IsLeap(y) then 29 else 28)
    else if m == 4 || m == 6 || m == 9 || m == 11 then 30
    else 31
  }

  /** A date datetime accepts: year 1 to 9999, a real month, a day within it. */
  predicate Valid(d: Date) {
    1 <= d.year <= 9999 && 1 <= d.month <= 12 && 1 <= d.day <= DaysInMonth(d.year, d.month)
  }

  type CivilDate = d: Date | Valid(d) witness Date(1, 1, 1)

  /** `a < b` on datetimes at midnight: year, then month, then day. */
  predicate Before(a: Date, b: Date) {
    a.year < b.year || (a.year == b.year && (a.month < b.month || (a.month == b.month && a.day < b.day)))
  }

  /** Days in the years before `y` (datetime's _days_before_year). */
  function DaysBeforeYear(y: int): int {
    var p := y - 1;
    p * 365 + p / 4 - p / 100 + p / 400
  }

  /** Days in the months of `y` before `m` (datetime's _days_before_month). */
  function DaysBeforeMonth(y: int, m: int): int
    requires 1 <= m <= 12
  {
    [0, 31, 59, 90, 120, 151, 181, 212, 243, 273, 304, 334][m - 1] + (if m > 2 && IsLeap(y) then 1 else 0)
  }

  /** date.toordinal(): 1 for 0001-01-01, one more for each later day. */
  function Ordinal(d: CivilDate): int {
    DaysBeforeYear(d.year) + DaysBeforeMonth(d.year, d.month) + d.day
  }

  /** Each year adds its own length to the days before the next one. */
  lemma DaysBeforeYearStep(y: int)
    requires y >= 1
    ensures DaysBeforeYear(y + 1) == DaysBeforeYear(y) + DaysInYear(y)
  {
    var p := y - 1;
    assert y / 4 == p / 4 + (if y % 4 == 0 then 1 else 0);
    assert y / 100 == p / 100 + (if y % 100 == 0 then 1 else 0);
    assert y / 400 == p / 400 + (if y % 400 == 0 then 1 else 0);
  }

  lemma {:induction false} DaysBeforeYearMonotone(y: int, y': int)
    requires 1 <= y <= y'
    ensures DaysBeforeYear(y) + DaysInYear(y) <= DaysBeforeYear(y') || y == y'
    decreases y' - y
  {
    if y < y' {
      DaysBeforeYearStep(y);
      if y + 1 < y' {
        DaysBeforeYearMonotone(y + 1, y');
      }
    }
  }

  /** Each month adds its own length to the days before the next one, and December ends the year. */
  lemma DaysBeforeMonthStep(y: int, m: int)
    requires 1 <= m <= 12
    ensures m < 12 ==> DaysBeforeMonth(y, m + 1) == DaysBeforeMonth(y, m) + DaysInMonth(y, m)
    ensures DaysBeforeMonth(y, m) + DaysInMonth(y, m) <= DaysInYear(y)
  {
  }

  lemma {:induction false} DaysBeforeMonthMonotone(y: int, m: int, m': int)
    requires 1 <= m < m' <= 12
    ensures DaysBeforeMonth(y, m) + DaysInMonth(y, m) <= DaysBeforeMonth(y, m')
    decreases m' - m
  {
    DaysBeforeMonthStep(y, m);
    if m + 1 < m' {
      DaysBeforeMonthMonotone(y, m + 1, m');
      DaysBeforeMonthStep(y, m + 1);
    }
  }

  /** Later dates have larger day numbers, so the day number orders dates as datetime does. */
  lemma OrdinalMonotone(a: CivilDate, b: CivilDate)
    requires Before(a, b)
    ensures Ordinal(a) < Ordinal(b)
  {
    if a.year < b.year {
      DaysBeforeMonthStep(a.year, a.month);
      DaysBeforeYearMonotone(a.year, b.year);
    } else if a.month < b.month {
      DaysBeforeMonthMonotone(a.year, a.month, b.month);
    }
  }

  /** Distinct dates have distinct day numbers. */
  lemma OrdinalInjective(a: CivilDate, b: CivilDate)
    requires Ordinal(a) == Ordinal(b)
    ensures a == b
  {
    if Before(a, b) {
      OrdinalMonotone(a, b);
    } else if Before(b, a) {
      OrdinalMonotone(b, a);
    }
  }

  // ---------------------------------------------------------------------
  // isoformat
  // ---------------------------------------------------------------------

  function Pow10(w: nat): nat {
    if w == 0 then 1 else 10 * Pow10(w - 1)
  }

  /** `'%0<width>d' % n`: the last `width` decimal digits of n, zero-padded. */
  function Pad(n: nat, width: nat): (s: string)
    ensures |s| == width
  {
    if width == 0 then "" else Pad(n / 10, width - 1) + [DigitChar(n % 10)]
  }

  /** A number below 10^width reads back from its padded digits. */
  lemma {:induction false} PadRoundTrip(n: nat, width: nat)
    requires n < Pow10(width)
    ensures DecimalValue(Pad(n, width)) == n
  {
    if width > 0 {
      PadRoundTrip(n / 10, width - 1);
      var s := Pad(n, width);
      assert s[..|s| - 1] == Pad(n / 10, width - 1);
    }
  }

  /** datetime.isoformat() of a date at midnight: `YYYY-MM-DDT00:00:00`. */
  function Iso(d: CivilDate): string {
    Pad(d.year, 4) + "-" + Pad(d.month, 2) + "-" + Pad(d.day, 2) + "T00:00:00"
  }

  /** The timestamp read back: its three numeric fields. */
  function IsoDate(s: string): Date
    requires |s| >= 10
  {
    Date(DecimalValue(s[0..4]), DecimalValue(s[5..7]), DecimalValue(s[8..10]))
  }

  /** The isoformat string is 19 characters and the date can be read back from it. */
  lemma IsoRoundTrip(d: CivilDate)
    ensures |Iso(d)| == 19 && IsoDate(Iso(d)) == d
  {
    var s := Iso(d);
    assert Pow10(2) == 100 && Pow10(4) == 10000;
    PadRoundTrip(d.year, 4);
    PadRoundTrip(d.month, 2);
    PadRoundTrip(d.day, 2);
    assert s[0..4] == Pad(d.year, 4);
    assert s[5..7] == Pad(d.month, 2);
    assert s[8..10] == Pad(d.day, 2);
  }

  /** Distinct dates give distinct timestamps. */
  lemma IsoInjective(a: CivilDate, b: CivilDate)
    requires Iso(a) == Iso(b)
    ensures a == b
  {
    IsoRoundTrip(a);
    IsoRoundTrip(b);
  }

  // ---------------------------------------------------------------------
  // The age of a date
  // ---------------------------------------------------------------------

  const MicrosecondsPerDay: int := 86400000000

  /** datetime.now(): a date and the microseconds elapsed since its midnight. */
  datatype Now = Now(date: CivilDate, microsecond: int)

  predicate ValidNow(now: Now) {
    0 <= now.microsecond < MicrosecondsPerDay
  }

  /** (now - date).days: the difference in microseconds, floor-divided by a day. */
  function AgeDays(now: Now, date: CivilDate): int {
    ((Ordinal(now.date) - Ordinal(date)) * MicrosecondsPerDay + now.microsecond) / MicrosecondsPerDay
  }

  /** The age in whole days is the difference of the day numbers, whatever the time of day. */
  lemma AgeDaysIsOrdinalDifference(now: Now, date: CivilDate)
    requires ValidNow(now)
    ensures AgeDays(now, date) == Ordinal(now.date) - Ordinal(date)
  {
    var q := Ordinal(now.date) - Ordinal(date);
    var x := q * MicrosecondsPerDay + now.microsecond;
    assert x / MicrosecondsPerDay == q;
  }

  /** The staleness threshold of the chart cycle, in days. */
  const StaleAfterDays: int := 56

  /** `(datetime.now() - latest_date).days >= 56`. */
  predicate Stale(now: Now, date: CivilDate) {
    AgeDays(now, date) >= StaleAfterDays
  }

  /**
   * The charts are stale exactly when `now`'s date is at least 56 calendar
   * days after the chart date; the time of day never matters.
   */
  lemma StaleIffFiftySixDaysLater(now: Now, date: CivilDate)
    requires ValidNow(now)
    ensures Stale(now, date) <==> Ordinal(now.date) >= Ordinal(date) + 56
  {
    AgeDaysIsOrdinalDifference(now, date);
  }

  /** A later chart date is never staler: stale for `b` implies stale for any earlier `a`. */
  lemma StaleForEarlierDate(now: Now, a: CivilDate, b: CivilDate)
    requires ValidNow(now) && Before(a, b) && Stale(now, b)
    ensures Stale(now, a)
  {
    AgeDaysIsOrdinalDifference(now, a);
    AgeDaysIsOrdinalDifference(now, b);
    OrdinalMonotone(a, b);
  }
}
