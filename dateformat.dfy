/**
 * Time stamps as they are shown: a stored instant (whole seconds since
 * 1970-01-01T00:00:00Z) converted to the UTC calendar (`TIME_ZONE = "UTC"`
 * with `USE_TZ`) and written with the pattern `"%H:%M %d-%m-%Y"`.
 */
module DateFormat {
  import opened Wrappers
  import Decimal

  const Pattern: string := "%H:%M %d-%m-%Y"
  const SecondsPerDay: nat := 86400
  const EpochYear: nat := 1970

  predicate IsLeap(y: int)
  {
    y % 4 == 0 && (y % 100 != 0 || y % 400 == 0)
  }

  function YearLength(y: int): nat
  {
    if IsLeap(y) then 366 else 365
  }

  function MonthLength(y: int, m: int): nat
    requires 1 <= m <= 12
  {
    if m == 2 then (if IsLeap(y) then 29 else 28)
    else if m == 4 || m == 6 || m == 9 || m == 11 then 30
    else 31
  }

  /** Days of year `y` before the first of month `m` (`m == 13`: the whole year). */
  function DaysBeforeMonth(y: int, m: int): nat
    requires 1 <= m <= 13
  {
    if m == 1 then 0 else DaysBeforeMonth(y, m - 1) + MonthLength(y, m - 1)
  }

  lemma MonthsFillYear(y: int)
    ensures DaysBeforeMonth(y, 13) == YearLength(y)
  {
    var leap := if IsLeap(y) then 1 else 0;
    assert DaysBeforeMonth(y, 2) == 31;
    assert DaysBeforeMonth(y, 3) == 59 + leap;
    assert DaysBeforeMonth(y, 4) == 90 + leap;
    assert DaysBeforeMonth(y, 5) == 120 + leap;
    assert DaysBeforeMonth(y, 6) == 151 + leap;
    assert DaysBeforeMonth(y, 7) == 181 + leap;
    assert DaysBeforeMonth(y, 8) == 212 + leap;
    assert DaysBeforeMonth(y, 9) == 243 + leap;
    assert DaysBeforeMonth(y, 10) == 273 + leap;
    assert DaysBeforeMonth(y, 11) == 304 + leap;
    assert DaysBeforeMonth(y, 12) == 334 + leap;
  }

  datatype DateTime = DateTime(year: nat, month: nat, day: nat, hour: nat, minute: nat, second: nat)

  /** A real calendar date and time of day. */
  predicate ValidDateTime(d: DateTime)
  {
    && d.year >= 1
    && 1 <= d.month <= 12
    && 1 <= d.day <= MonthLength(d.year, d.month)
    && d.hour < 24 && d.minute < 60 && d.second < 60
  }

  /** Days from the epoch to the first of January of `y`. */
  function DaysBeforeYear(y: nat): nat
    requires y >= EpochYear
    decreases y
  {
    if y == EpochYear then 0 else DaysBeforeYear(y - 1) + YearLength(y - 1)
  }

  /** The year holding day `d` counted from the first of January of `y`, and the day within it. */
  function YearOf(y: nat, d: nat): (r: (nat, nat))
    requires y >= EpochYear
    ensures r.0 >= y && r.1 < YearLength(r.0)
    ensures DaysBeforeYear(r.0) + r.1 == DaysBeforeYear(y) + d
    decreases d
  {
    if d < YearLength(y) then (y, d) else YearOf(y + 1, d - YearLength(y))
  }

  /** The month holding day `d` of year `y`, searched downwards from `m`. */
  function MonthFrom(y: int, d: nat, m: nat): (r: nat)
    requires 1 <= m <= 12 && d < DaysBeforeMonth(y, m + 1)
    ensures 1 <= r <= m && DaysBeforeMonth(y, r) <= d < DaysBeforeMonth(y, r + 1)
  {
    if m == 1 || DaysBeforeMonth(y, m) <= d then m else MonthFrom(y, d, m - 1)
  }

  function MonthOf(y: int, d: nat): (m: nat)
    requires d < YearLength(y)
    ensures 1 <= m <= 12 && DaysBeforeMonth(y, m) <= d < DaysBeforeMonth(y, m + 1)
  {
    MonthsFillYear(y);
    MonthFrom(y, d, 12)
  }

  /** The UTC calendar date and time of an instant. */
  function FromTimestamp(t: nat): (dt: DateTime)
    ensures ValidDateTime(dt) && dt.year >= EpochYear
  {
    var yd := YearOf(EpochYear, t / SecondsPerDay);
    var m := MonthOf(yd.0, yd.1);
    var secs := t % SecondsPerDay;
    DateTime(yd.0, m, yd.1 - DaysBeforeMonth(yd.0, m) + 1, secs / 3600, secs % 3600 / 60, secs % 60)
  }

  /** The instant of a calendar date and time. */
  function ToTimestamp(dt: DateTime): nat
    requires ValidDateTime(dt) && dt.year >= EpochYear
  {
    (DaysBeforeYear(dt.year) + DaysBeforeMonth(dt.year, dt.month) + dt.day - 1) * SecondsPerDay
      + dt.hour * 3600 + dt.minute * 60 + dt.second
  }

  lemma {:induction false} YearOfStart(y: nat, z: nat, k: nat)
    requires EpochYear <= y <= z && k < YearLength(z)
    requires DaysBeforeYear(y) <= DaysBeforeYear(z)
    ensures YearOf(y, DaysBeforeYear(z) - DaysBeforeYear(y) + k) == (z, k)
    decreases z - y
  {
    if y < z {
      DaysBeforeYearGrows(y + 1, z);
      YearOfStart(y + 1, z, k);
    }
  }

  lemma {:induction false} DaysBeforeYearGrows(y: nat, z: nat)
    requires EpochYear <= y <= z
    ensures DaysBeforeYear(z) >= DaysBeforeYear(y)
    ensures y < z ==> DaysBeforeYear(z) >= DaysBeforeYear(y) + YearLength(y)
    decreases z - y
  {
    if y < z { DaysBeforeYearGrows(y + 1, z); }
  }

  /** Day `k` of month `m` is a day of the year. */
  lemma DayInYear(y: int, m: nat, k: nat)
    requires 1 <= m <= 12 && k < MonthLength(y, m)
    ensures DaysBeforeMonth(y, m) + k < DaysBeforeMonth(y, m + 1) <= YearLength(y)
  {
    MonthsFillYear(y);
    MonthsGrow(y, m + 1, 13);
  }

  lemma MonthOfStart(y: int, m: nat, k: nat)
    requires 1 <= m <= 12 && k < MonthLength(y, m)
    ensures DaysBeforeMonth(y, m) + k < YearLength(y)
    ensures MonthOf(y, DaysBeforeMonth(y, m) + k) == m
  {
    DayInYear(y, m, k);
    var d := DaysBeforeMonth(y, m) + k;
    MonthUnique(y, d, MonthOf(y, d), m);
  }

  /** Months do not overlap: a day lies in one month only. */
  lemma MonthUnique(y: int, d: nat, r: nat, m: nat)
    requires 1 <= r <= 12 && 1 <= m <= 12
    requires DaysBeforeMonth(y, r) <= d < DaysBeforeMonth(y, r + 1)
    requires DaysBeforeMonth(y, m) <= d < DaysBeforeMonth(y, m + 1)
    ensures r == m
  {
    if r < m {
      MonthsGrow(y, r + 1, m);
    } else if r > m {
      MonthsGrow(y, m + 1, r);
    }
  }

  lemma {:induction false} MonthsGrow(y: int, a: nat, b: nat)
    requires 1 <= a <= b <= 13
    ensures DaysBeforeMonth(y, a) <= DaysBeforeMonth(y, b)
    decreases b - a
  {
    if a < b { MonthsGrow(y, a + 1, b); }
  }

  /** Reading an instant back from its calendar form gives the same instant. */
  lemma TimestampRoundTrip(t: nat)
    ensures ToTimestamp(FromTimestamp(t)) == t
  {
  }

  /** An instant is its day and the seconds into it. */
  lemma SplitDays(t: nat, days: nat, secs: nat)
    requires secs < SecondsPerDay && t == days * SecondsPerDay + secs
    ensures t / SecondsPerDay == days && t % SecondsPerDay == secs
  {
  }

  /** The seconds into a day are its hour, minute and second. */
  lemma SplitSeconds(x: nat, h: nat, m: nat, s: nat)
    requires h < 24 && m < 60 && s < 60 && x == h * 3600 + m * 60 + s
    ensures x < SecondsPerDay && x / 3600 == h && x % 3600 / 60 == m && x % 60 == s
  {
  }

  /** Every calendar time from the epoch on is the form of exactly one instant. */
  lemma CalendarRoundTrip(dt: DateTime)
    requires ValidDateTime(dt) && dt.year >= EpochYear
    ensures FromTimestamp(ToTimestamp(dt)) == dt
  {
    var t := ToTimestamp(dt);
    var k := DaysBeforeMonth(dt.year, dt.month) + dt.day - 1;
    var secs := dt.hour * 3600 + dt.minute * 60 + dt.second;
    SplitSeconds(secs, dt.hour, dt.minute, dt.second);
    SplitDays(t, DaysBeforeYear(dt.year) + k, secs);
    MonthOfStart(dt.year, dt.month, dt.day - 1);
    DaysBeforeYearGrows(EpochYear, dt.year);
    YearOfStart(EpochYear, dt.year, k);
    assert YearOf(EpochYear, t / SecondsPerDay) == (dt.year, k);
    assert MonthOf(dt.year, k) == dt.month;
  }

  /** `%H`, `%M`, `%d`, `%m`: two digits, zero-padded. */
  function Two(n: nat): (s: string)
    requires n < 100
    ensures |s| == 2 && Decimal.AllDigits(s) && Decimal.ValueOf(s) == n
  {
    Decimal.Fixed(n, 2)
  }

  /**
   * `strftime("%H:%M %d-%m-%Y")`. The year is written by the C library's
   * `%Y`, which does not pad years below 1000.
   */
  function Format(dt: DateTime): string
    requires ValidDateTime(dt)
  {
    Two(dt.hour) + ":" + Two(dt.minute) + " " + Two(dt.day) + "-" + Two(dt.month) + "-" + Decimal.DigitsOf(dt.year)
  }

  /** Reads the pattern's fields back; the seconds are not part of it. */
  function ParseFormatted(s: string): Option<DateTime>
  {
    if |s| >= 13 && s[2] == ':' && s[5] == ' ' && s[8] == '-' && s[11] == '-'
       && Decimal.AllDigits(s[0..2]) && Decimal.AllDigits(s[3..5]) && Decimal.AllDigits(s[6..8])
       && Decimal.AllDigits(s[9..11]) && Decimal.AllDigits(s[12..])
    then Some(DateTime(Decimal.ValueOf(s[12..]), Decimal.ValueOf(s[9..11]), Decimal.ValueOf(s[6..8]),
                       Decimal.ValueOf(s[0..2]), Decimal.ValueOf(s[3..5]), 0))
    else None
  }

  /**
   * The fixed layout: separators at positions 2, 5, 8 and 11, digits
   * elsewhere, and sixteen characters for a four-digit year.
   */
  lemma FormatLayout(dt: DateTime)
    requires ValidDateTime(dt)
    ensures var s := Format(dt);
      && |s| == 12 + |Decimal.DigitsOf(dt.year)|
      && s[2] == ':' && s[5] == ' ' && s[8] == '-' && s[11] == '-'
      && (forall i | 0 <= i < |s| && i != 2 && i != 5 && i != 8 && i != 11 :: Decimal.IsDigit(s[i]))
      && (1000 <= dt.year <= 9999 ==> |s| == 16)
  {
    var s := Format(dt);
    var y := Decimal.DigitsOf(dt.year);
    assert s == Two(dt.hour) + ":" + Two(dt.minute) + " " + Two(dt.day) + "-" + Two(dt.month) + "-" + y;
    forall i | 12 <= i < |s| ensures s[i] == y[i - 12] { }
    if 1000 <= dt.year <= 9999 {
      assert Decimal.Pow10(3) == 1000 && Decimal.Pow10(4) == 10000;
      Decimal.DigitsOfLength(dt.year, 4);
    }
  }

  /** Reading the text back gives the date and time to the minute. */
  lemma FormatRoundTrip(dt: DateTime)
    requires ValidDateTime(dt)
    ensures ParseFormatted(Format(dt)) == Some(dt.(second := 0))
  {
    var s := Format(dt);
    FormatLayout(dt);
    assert s[0..2] == Two(dt.hour) && s[3..5] == Two(dt.minute) && s[6..8] == Two(dt.day);
    assert s[9..11] == Two(dt.month) && s[12..] == Decimal.DigitsOf(dt.year);
  }

  /** Two times print the same exactly when they agree to the minute. */
  lemma FormatInjective(a: DateTime, b: DateTime)
    requires ValidDateTime(a) && ValidDateTime(b)
    ensures Format(a) == Format(b) <==> a.(second := 0) == b.(second := 0)
  {
    FormatRoundTrip(a);
    FormatRoundTrip(b);
  }

  /** How a stored instant is shown. */
  function Show(t: nat): string
  {
    Format(FromTimestamp(t))
  }
}
