/**
 * The proleptic Gregorian calendar of ECMAScript's `Date`, on UTC day numbers
 * counted from 1970-01-01, and the instants (milliseconds) a `Date` holds.
 */
module Calendar {
  import opened Text

  /** A year, month (1..12) and day of month. */
  datatype Date = Date(year: int, month: int, day: int)

  const MsPerDay: int := 86400000

  /** The largest magnitude of a `Date`'s time value (ECMAScript's TimeClip): 10^8 days. */
  const MaxTimeValue: int := 8640000000000000

  predicate IsLeap(y: int)
  {
    y % 4 == 0 && (y % 100 != 0 || y % 400 == 0)
  }

  function DaysInYear(y: int): int
  {
    if IsLeap(y) then 366 else 365
  }

  function DaysInMonth(y: int, m: int): int
    requires 1 <= m <= 12
  {
    if m == 2 then (if IsLeap(y) then 29 else 28)
    else if m == 4 || m == 6 || m == 9 || m == 11 then 30
    else 31
  }

  predicate ValidDate(d: Date)
  {
    1 <= d.month <= 12 && 1 <= d.day <= DaysInMonth(d.year, d.month)
  }

  /** Strict lexicographic order on (year, month, day). */
  predicate Before(a: Date, b: Date)
  {
    a.year < b.year
    || (a.year == b.year && a.month < b.month)
    || (a.year == b.year && a.month == b.month && a.day < b.day)
  }

  /** Leap years of 1..x, counted so that differences are right for every x. */
  function LeapCount(x: int): int
  {
    x / 4 - x / 100 + x / 400
  }

  /** Day number of January 1st of year `y`. */
  function DaysBeforeYear(y: int): int
  {
    365 * (y - 1970) + LeapCount(y - 1) - LeapCount(1969)
  }

  /** Days of year `y` before the first of month `m`. */
  function DaysBeforeMonth(y: int, m: int): int
    requires 1 <= m <= 12
  {
    var common :=
      if m == 1 then 0 else if m == 2 then 31 else if m == 3 then 59
      else if m == 4 then 90 else if m == 5 then 120 else if m == 6 then 151
      else if m == 7 then 181 else if m == 8 then 212 else if m == 9 then 243
      else if m == 10 then 273 else if m == 11 then 304 else 334;
    common + (if m > 2 && IsLeap(y) then 1 else 0)
  }

  /**
   * Day number of day `d` of month `m` of year `y`. A day outside the month counts on
   * from the first of the month, which is how `Date.UTC` treats it.
   */
  function DaysFromCivil(y: int, m: int, d: int): int
    requires 1 <= m <= 12
  {
    DaysBeforeYear(y) + DaysBeforeMonth(y, m) + d - 1
  }

  function DayNumber(d: Date): int
    requires 1 <= d.month <= 12
  {
    DaysFromCivil(d.year, d.month, d.day)
  }

  // ----- the shape of the year -----

  lemma LeapCountStep(y: int)
    ensures LeapCount(y) - LeapCount(y - 1) == if IsLeap(y) then 1 else 0
  {
    DivStep(y, 4);
    DivStep(y, 100);
    DivStep(y, 400);
    MultipleOf400(y);
    MultipleOf100(y);
  }

  /** Moving from `y - 1` to `y` adds one multiple of `k` exactly when `k` divides `y`. */
  lemma DivStep(y: int, k: int)
    requires k == 4 || k == 100 || k == 400
    ensures y / k - (y - 1) / k == if y % k == 0 then 1 else 0
  {
    var q, r := (y - 1) / k, (y - 1) % k;
    assert y - 1 == k * q + r && 0 <= r < k;
    if r == k - 1 {
      assert y == k * (q + 1);
    } else {
      assert y == k * q + (r + 1) && 0 <= r + 1 < k;
    }
  }

  lemma MultipleOf400(y: int)
    ensures y % 400 == 0 ==> y % 100 == 0 && y % 4 == 0
  {
    if y % 400 == 0 {
      assert y == 400 * (y / 400) == 100 * (4 * (y / 400)) == 4 * (100 * (y / 400));
    }
  }

  lemma MultipleOf100(y: int)
    ensures y % 100 == 0 ==> y % 4 == 0
  {
    if y % 100 == 0 {
      assert y == 100 * (y / 100) == 4 * (25 * (y / 100));
    }
  }

  lemma YearStep(y: int)
    ensures DaysBeforeYear(y + 1) == DaysBeforeYear(y) + DaysInYear(y)
  {
    LeapCountStep(y);
  }

  lemma MonthStep(y: int, m: int)
    requires 1 <= m < 12
    ensures DaysBeforeMonth(y, m + 1) == DaysBeforeMonth(y, m) + DaysInMonth(y, m)
  {
  }

  lemma LastMonth(y: int)
    ensures DaysBeforeMonth(y, 12) + DaysInMonth(y, 12) == DaysInYear(y)
  {
  }

  /** Later years start later. */
  lemma {:induction false} YearsAscend(a: int, b: int)
    requires a < b
    ensures DaysBeforeYear(a) + DaysInYear(a) <= DaysBeforeYear(b)
    decreases b - a
  {
    YearStep(a);
    if a + 1 < b {
      YearsAscend(a + 1, b);
      assert DaysInYear(a + 1) > 0;
    }
  }

  /** Later months of one year start later. */
  lemma {:induction false} MonthsAscend(y: int, a: int, b: int)
    requires 1 <= a < b <= 12
    ensures DaysBeforeMonth(y, a) + DaysInMonth(y, a) <= DaysBeforeMonth(y, b)
    decreases b - a
  {
    MonthStep(y, a);
    if a + 1 < b {
      MonthsAscend(y, a + 1, b);
    }
  }

  lemma MonthWithinYear(y: int, m: int)
    requires 1 <= m <= 12
    ensures DaysBeforeMonth(y, m) + DaysInMonth(y, m) <= DaysInYear(y)
  {
    LastMonth(y);
    if m < 12 {
      MonthsAscend(y, m, 12);
    }
  }

  // ----- from a day number back to a date -----

  function YearUp(n: int, y: int): (r: int)
    requires DaysBeforeYear(y) <= n
    ensures DaysBeforeYear(r) <= n < DaysBeforeYear(r + 1)
    decreases n - DaysBeforeYear(y)
  {
    YearStep(y);
    if n < DaysBeforeYear(y + 1) then y else YearUp(n, y + 1)
  }

  function YearDown(n: int, y: int): (r: int)
    requires n < DaysBeforeYear(y + 1)
    ensures DaysBeforeYear(r) <= n < DaysBeforeYear(r + 1)
    decreases DaysBeforeYear(y + 1) - n
  {
    YearStep(y);
    if DaysBeforeYear(y) <= n then y else YearDown(n, y - 1)
  }

  /** The year that day number `n` falls in. */
  function YearOf(n: int): (r: int)
    ensures DaysBeforeYear(r) <= n < DaysBeforeYear(r + 1)
  {
    if n >= 0 then YearUp(n, 1970) else YearDown(n, 1969)
  }

  /** The month that day `r` (counted from 0) of year `y` falls in, searching from month `m`. */
  function MonthFrom(y: int, r: int, m: int): (k: int)
    requires 1 <= m <= 12 && DaysBeforeMonth(y, m) <= r < DaysInYear(y)
    ensures m <= k <= 12
    ensures DaysBeforeMonth(y, k) <= r < DaysBeforeMonth(y, k) + DaysInMonth(y, k)
    decreases 12 - m
  {
    if m == 12 then
      LastMonth(y);
      m
    else if r < DaysBeforeMonth(y, m) + DaysInMonth(y, m) then m
    else
      MonthStep(y, m);
      MonthFrom(y, r, m + 1)
  }

  /** The calendar date of day number `n` (the UTC date of a `Date`). */
  function CivilFromDays(n: int): (d: Date)
    ensures ValidDate(d) && DayNumber(d) == n
  {
    var y := YearOf(n);
    YearStep(y);
    var m := MonthFrom(y, n - DaysBeforeYear(y), 1);
    Date(y, m, n - DaysBeforeYear(y) - DaysBeforeMonth(y, m) + 1)
  }

  /** Day numbers keep the calendar order of valid dates. */
  lemma DayNumberAscends(a: Date, b: Date)
    requires ValidDate(a) && ValidDate(b) && Before(a, b)
    ensures DayNumber(a) < DayNumber(b)
  {
    if a.year < b.year {
      MonthWithinYear(a.year, a.month);
      YearsAscend(a.year, b.year);
    } else if a.month < b.month {
      MonthsAscend(a.year, a.month, b.month);
    }
  }

  /** Two valid dates with the same day number are the same date. */
  lemma DayNumberInjective(a: Date, b: Date)
    requires ValidDate(a) && ValidDate(b) && DayNumber(a) == DayNumber(b)
    ensures a == b
  {
    if Before(a, b) {
      DayNumberAscends(a, b);
    } else if Before(b, a) {
      DayNumberAscends(b, a);
    }
  }

  /** The two conversions are inverse to each other on valid dates. */
  lemma CivilRoundTrip(d: Date)
    requires ValidDate(d)
    ensures CivilFromDays(DayNumber(d)) == d
  {
    DayNumberInjective(CivilFromDays(DayNumber(d)), d);
  }

  /** The calendar order of valid dates is exactly the order of their day numbers. */
  lemma BeforeIffDayNumber(a: Date, b: Date)
    requires ValidDate(a) && ValidDate(b)
    ensures Before(a, b) <==> DayNumber(a) < DayNumber(b)
  {
    if Before(a, b) {
      DayNumberAscends(a, b);
    } else if Before(b, a) {
      DayNumberAscends(b, a);
    } else {
      assert a == b;
    }
  }

  // ----- instants -----

  /** Whether a time value in milliseconds is one a `Date` can hold. */
  predicate InTimeRange(t: int)
  {
    -MaxTimeValue <= t <= MaxTimeValue
  }

  /** Day number of the UTC day containing instant `t`. */
  function DayOfInstant(t: int): int
  {
    t / MsPerDay
  }

  /** `new Date("YYYY-MM-DD")`: UTC midnight at the start of `d`. */
  function Midnight(d: Date): int
    requires 1 <= d.month <= 12
  {
    DayNumber(d) * MsPerDay
  }

  /** The UTC calendar date of instant `t` (`getUTCFullYear`, `getUTCMonth() + 1`, `getUTCDate`). */
  function UtcDate(t: int): (d: Date)
    ensures ValidDate(d)
  {
    CivilFromDays(DayOfInstant(t))
  }

  /** An instant lies before midnight of `d` exactly when its UTC day does. */
  lemma InstantBeforeMidnight(t: int, d: Date)
    requires 1 <= d.month <= 12
    ensures t < Midnight(d) <==> DayOfInstant(t) < DayNumber(d)
  {
    var n := DayNumber(d);
    var q := t / MsPerDay;
    assert t == q * MsPerDay + t % MsPerDay && 0 <= t % MsPerDay < MsPerDay;
    if q < n {
      assert q * MsPerDay <= (n - 1) * MsPerDay;
    } else {
      assert n * MsPerDay <= q * MsPerDay;
    }
  }

  /** Midnight of a valid date is an instant on that date. */
  lemma MidnightOnDate(d: Date)
    requires ValidDate(d)
    ensures DayOfInstant(Midnight(d)) == DayNumber(d)
    ensures UtcDate(Midnight(d)) == d
  {
    CivilRoundTrip(d);
  }

  // ----- ISO 8601 text -----

  /** The year field of `toISOString`: four digits, or a sign and six digits outside 0..9999. */
  function IsoYear(y: int): string
  {
    if 0 <= y <= 9999 then ZeroPad(y, 4)
    else if y > 9999 then "+" + ZeroPad(y, 6)
    else "-" + ZeroPad(-y, 6)
  }

  /** `toISOString().split('T')[0]`: the `YYYY-MM-DD` text of a date. */
  function IsoDate(d: Date): string
    requires ValidDate(d)
  {
    IsoYear(d.year) + "-" + ZeroPad(d.month, 2) + "-" + ZeroPad(d.day, 2)
  }

  lemma ZeroPadDigits(n: nat, width: nat)
    requires width >= 1 && n < Pow10(width)
    ensures |ZeroPad(n, width)| == width && DigitsValue(ZeroPad(n, width)) == n
  {
    NatToStringShort(n, width);
    ZeroPadValue(n, width);
  }

  /** The first character of the year field tells its three forms apart. */
  lemma IsoYearLead(y: int)
    ensures |IsoYear(y)| >= 1
    ensures IsDigit(IsoYear(y)[0]) <==> 0 <= y <= 9999
    ensures IsoYear(y)[0] == '+' <==> y > 9999
  {
    if 0 <= y <= 9999 {
      ZeroPadDigits(y, 4);
      assert IsDigit(ZeroPad(y, 4)[0]);
    }
  }

  lemma IsoYearInjective(a: int, b: int)
    requires IsoYear(a) == IsoYear(b)
    ensures a == b
  {
    IsoYearLead(a);
    IsoYearLead(b);
    var sa, sb := IsoYear(a), IsoYear(b);
    if 0 <= a <= 9999 {
      ZeroPadValue(a, 4);
      ZeroPadValue(b, 4);
    } else if a > 9999 {
      assert sa[1..] == ZeroPad(a, 6) && sb[1..] == ZeroPad(b, 6);
      ZeroPadValue(a, 6);
      ZeroPadValue(b, 6);
    } else {
      assert sa[1..] == ZeroPad(-a, 6) && sb[1..] == ZeroPad(-b, 6);
      ZeroPadValue(-a, 6);
      ZeroPadValue(-b, 6);
    }
  }

  /** Where the three fields sit in the key. */
  lemma IsoDateFields(d: Date)
    requires ValidDate(d)
    ensures var s, y := IsoDate(d), IsoYear(d.year);
            |s| == |y| + 6 && s[..|y|] == y
            && s[|y| + 1..|y| + 3] == ZeroPad(d.month, 2) && s[|y| + 4..] == ZeroPad(d.day, 2)
  {
    ZeroPadDigits(d.month, 2);
    ZeroPadDigits(d.day, 2);
  }

  /** Distinct valid dates have distinct `YYYY-MM-DD` keys. */
  lemma IsoDateInjective(a: Date, b: Date)
    requires ValidDate(a) && ValidDate(b) && IsoDate(a) == IsoDate(b)
    ensures a == b
  {
    IsoDateFields(a);
    IsoDateFields(b);
    ZeroPadDigits(a.month, 2);
    ZeroPadDigits(b.month, 2);
    ZeroPadDigits(a.day, 2);
    ZeroPadDigits(b.day, 2);
    var ya, yb := IsoYear(a.year), IsoYear(b.year);
    assert |ya| == |yb|;
    IsoYearInjective(a.year, b.year);
  }
}
