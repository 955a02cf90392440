/**
  UTC calendar arithmetic behind `DateTimeOffset.FromUnixTimeSeconds(t).UtcDateTime`
  and its rendering with the format "yyyy-MM-ddTHH:mm:ssK" (proleptic Gregorian
  calendar, years 1 to 9999, invariant culture; `K` is "Z" for a UTC value).
 */
module Calendar {
  import opened Wrappers
  import opened Decimal

  const SecondsPerDay := 86400
  /** Seconds from 0001-01-01T00:00:00Z to the Unix epoch 1970-01-01T00:00:00Z. */
  const UnixEpochOffset := 62135596800
  /** The range `FromUnixTimeSeconds` accepts: 0001-01-01T00:00:00Z to 9999-12-31T23:59:59Z. */
  const MinUnixSeconds := -62135596800
  const MaxUnixSeconds := 253402300799
  /** Length of "yyyy-MM-ddTHH:mm:ssZ". */
  const IsoLength := 20

  predicate IsLeapYear(y: int) {
    y % 4 == 0 && (y % 100 != 0 || y % 400 == 0)
  }

  function DaysInYear(y: int): int {
    if IsLeapYear(y) then 366 else 365
  }

  function DaysInMonth(y: int, m: int): int
    requires 1 <= m <= 12
  {
    if m == 2 then (if IsLeapYear(y) then 29 else 28)
    else if m == 4 || m == 6 || m == 9 || m == 11 then 30
    else 31
  }

  /** Days from 0001-01-01 to January 1st of year `y`. */
  function DaysBeforeYear(y: int): int
    requires y >= 1
  {
    var k := y - 1;
    365 * k + k / 4 - k / 100 + k / 400
  }

  /** Days from January 1st of year `y` to the first day of month `m` (13 meaning the next year). */
  function DaysBeforeMonth(y: int, m: int): int
    requires 1 <= m <= 13
  {
    [0, 31, 59, 90, 120, 151, 181, 212, 243, 273, 304, 334, 365][m - 1]
      + (if IsLeapYear(y) && m > 2 then 1 else 0)
  }

  /** The closed form of `DaysBeforeYear` agrees with the leap-year rule, year by year. */
  lemma DaysBeforeNextYear(y: int)
    requires y >= 1
    ensures DaysBeforeYear(y + 1) == DaysBeforeYear(y) + DaysInYear(y)
  {
    var k := y - 1;
    Quarter(k);
    Century(k);
    QuadCentury(k);
  }

  lemma Quarter(k: nat)
    ensures (k + 1) / 4 == k / 4 + (if (k + 1) % 4 == 0 then 1 else 0)
  {
  }

  lemma Century(k: nat)
    ensures (k + 1) / 100 == k / 100 + (if (k + 1) % 100 == 0 then 1 else 0)
  {
  }

  lemma QuadCentury(k: nat)
    ensures (k + 1) / 400 == k / 400 + (if (k + 1) % 400 == 0 then 1 else 0)
  {
  }

  lemma DaysBeforeYearMonotone(a: int, b: int)
    requires 1 <= a <= b
    ensures DaysBeforeYear(a) + (b - a) * 365 <= DaysBeforeYear(b)
    decreases b - a
  {
    if a < b {
      DaysBeforeYearMonotone(a, b - 1);
      DaysBeforeNextYear(b - 1);
    }
  }

  lemma DaysBeforeNextMonth(y: int, m: int)
    requires 1 <= m <= 12
    ensures DaysBeforeMonth(y, m + 1) == DaysBeforeMonth(y, m) + DaysInMonth(y, m)
  {
  }

  /** A calendar reading of an instant, in UTC. */
  datatype DateTime = DateTime(year: int, month: int, day: int, hour: int, minute: int, second: int)

  predicate ValidDateTime(dt: DateTime) {
    && 1 <= dt.year <= 9999
    && 1 <= dt.month <= 12
    && 1 <= dt.day <= DaysInMonth(dt.year, dt.month)
    && 0 <= dt.hour < 24
    && 0 <= dt.minute < 60
    && 0 <= dt.second < 60
  }

  /** The instant a valid calendar reading denotes, in seconds since the Unix epoch. */
  function UnixSecondsOf(dt: DateTime): int
    requires ValidDateTime(dt)
  {
    (DaysBeforeYear(dt.year) + DaysBeforeMonth(dt.year, dt.month) + dt.day - 1) * SecondsPerDay
      + dt.hour * 3600 + dt.minute * 60 + dt.second
      - UnixEpochOffset
  }

  /** The year that contains day number `days` (days since 0001-01-01), searching upward from `y`. */
  function YearContaining(days: int, y: int): (r: int)
    requires y >= 1 && DaysBeforeYear(y) <= days
    ensures y <= r && DaysBeforeYear(r) <= days < DaysBeforeYear(r + 1)
    decreases days - DaysBeforeYear(y)
  {
    DaysBeforeNextYear(y);
    if days < DaysBeforeYear(y + 1) then y else YearContaining(days, y + 1)
  }

  /** The month of year `y` that contains day `dayOfYear` (0-based), searching upward from `m`. */
  function MonthContaining(y: int, dayOfYear: int, m: int): (r: int)
    requires 1 <= m <= 12 && DaysBeforeMonth(y, m) <= dayOfYear < DaysInYear(y)
    ensures m <= r <= 12
    ensures DaysBeforeMonth(y, r) <= dayOfYear < DaysBeforeMonth(y, r + 1)
    decreases 12 - m
  {
    DaysBeforeNextMonth(y, m);
    if dayOfYear < DaysBeforeMonth(y, m + 1) then m else MonthContaining(y, dayOfYear, m + 1)
  }

  predicate InUnixRange(t: int) {
    MinUnixSeconds <= t <= MaxUnixSeconds
  }

  /**
    `DateTimeOffset.FromUnixTimeSeconds(t).UtcDateTime`: the calendar reading of `t`.
    It is a valid reading and it denotes exactly `t`.
   */
  function FromUnixTimeSeconds(t: int): (dt: DateTime)
    requires InUnixRange(t)
    ensures ValidDateTime(dt) && UnixSecondsOf(dt) == t
  {
    var s := t + UnixEpochOffset;
    var days := s / SecondsPerDay;
    var secs := s % SecondsPerDay;
    var y := YearContaining(days, 1);
    YearBound(days, y);
    var dayOfYear := days - DaysBeforeYear(y);
    DaysBeforeNextYear(y);
    var m := MonthContaining(y, dayOfYear, 1);
    DaysBeforeNextMonth(y, m);
    DateTime(y, m, dayOfYear - DaysBeforeMonth(y, m) + 1, secs / 3600, secs % 3600 / 60, secs % 60)
  }

  lemma YearBound(days: int, y: int)
    requires y >= 1 && days < 3652059 && DaysBeforeYear(y) <= days
    ensures y <= 9999
  {
    if y > 9999 {
      assert DaysBeforeYear(10000) == 3652059;
      DaysBeforeYearMonotone(10000, y);
    }
  }

  /** Two valid calendar readings that denote the same instant are the same reading. */
  lemma {:induction false} UnixSecondsOfInjective(a: DateTime, b: DateTime)
    requires ValidDateTime(a) && ValidDateTime(b)
    requires UnixSecondsOf(a) == UnixSecondsOf(b)
    ensures a == b
  {
    var da := DaysBeforeYear(a.year) + DaysBeforeMonth(a.year, a.month) + a.day - 1;
    var db := DaysBeforeYear(b.year) + DaysBeforeMonth(b.year, b.month) + b.day - 1;
    var sa := a.hour * 3600 + a.minute * 60 + a.second;
    var sb := b.hour * 3600 + b.minute * 60 + b.second;
    var total := da * SecondsPerDay + sa;
    assert total == db * SecondsPerDay + sb;
    assert da == total / SecondsPerDay && sa == total % SecondsPerDay;
    assert db == total / SecondsPerDay && sb == total % SecondsPerDay;
    assert a.hour == sa / 3600 && b.hour == sb / 3600;
    assert a.minute == sa % 3600 / 60 && b.minute == sb % 3600 / 60;
    SameYear(a, b, da);
    SameMonth(a.year, a.month, b.month, da - DaysBeforeYear(a.year), a.day - 1, b.day - 1);
  }

  lemma SameYear(a: DateTime, b: DateTime, days: int)
    requires ValidDateTime(a) && ValidDateTime(b)
    requires days == DaysBeforeYear(a.year) + DaysBeforeMonth(a.year, a.month) + a.day - 1
    requires days == DaysBeforeYear(b.year) + DaysBeforeMonth(b.year, b.month) + b.day - 1
    ensures a.year == b.year
  {
    DayFallsInYear(a.year, a.month, a.day);
    DayFallsInYear(b.year, b.month, b.day);
    if a.year < b.year {
      DaysBeforeYearMonotone(a.year + 1, b.year);
    } else if b.year < a.year {
      DaysBeforeYearMonotone(b.year + 1, a.year);
    }
  }

  /** A day of year `y` is counted at or after the year's first day and before the next year's. */
  lemma DayFallsInYear(y: int, m: int, d: int)
    requires 1 <= y && 1 <= m <= 12 && 1 <= d <= DaysInMonth(y, m)
    ensures DaysBeforeYear(y) <= DaysBeforeYear(y) + DaysBeforeMonth(y, m) + d - 1 < DaysBeforeYear(y + 1)
  {
    DaysBeforeNextMonth(y, m);
    DaysBeforeNextYear(y);
  }

  lemma SameMonth(y: int, ma: int, mb: int, dayOfYear: int, ea: int, eb: int)
    requires 1 <= ma <= 12 && 1 <= mb <= 12
    requires 0 <= ea < DaysInMonth(y, ma) && 0 <= eb < DaysInMonth(y, mb)
    requires dayOfYear == DaysBeforeMonth(y, ma) + ea == DaysBeforeMonth(y, mb) + eb
    ensures ma == mb
  {
  }

  /** The "yyyy-MM-ddTHH:mm:ssZ" rendering of a valid calendar reading. */
  function ToIsoString(dt: DateTime): (s: string)
    requires ValidDateTime(dt)
    ensures |s| == IsoLength
  {
    Padded(dt.year, 4) + "-" + Padded(dt.month, 2) + "-" + Padded(dt.day, 2)
      + "T" + Padded(dt.hour, 2) + ":" + Padded(dt.minute, 2) + ":" + Padded(dt.second, 2) + "Z"
  }

  /** Reads a "yyyy-MM-ddTHH:mm:ssZ" string back into its fields. */
  function ParseIso(s: string): Option<DateTime>
  {
    if |s| == IsoLength
      && s[4] == '-' && s[7] == '-' && s[10] == 'T' && s[13] == ':' && s[16] == ':' && s[19] == 'Z'
      && AllDigits(s[0..4]) && AllDigits(s[5..7]) && AllDigits(s[8..10])
      && AllDigits(s[11..13]) && AllDigits(s[14..16]) && AllDigits(s[17..19])
    then Some(DateTime(ValueOf(s[0..4]), ValueOf(s[5..7]), ValueOf(s[8..10]),
                       ValueOf(s[11..13]), ValueOf(s[14..16]), ValueOf(s[17..19])))
    else None
  }

  lemma IsoRoundTrip(dt: DateTime)
    requires ValidDateTime(dt)
    ensures ParseIso(ToIsoString(dt)) == Some(dt)
  {
    var s := ToIsoString(dt);
    assert s[0..4] == Padded(dt.year, 4);
    assert s[5..7] == Padded(dt.month, 2);
    assert s[8..10] == Padded(dt.day, 2);
    assert s[11..13] == Padded(dt.hour, 2);
    assert s[14..16] == Padded(dt.minute, 2);
    assert s[17..19] == Padded(dt.second, 2);
  }

  /** `FromUnixTimeSeconds(t).UtcDateTime.ToString("yyyy-MM-ddTHH:mm:ssK")`. */
  function FormatUtc(t: int): (s: string)
    requires InUnixRange(t)
  {
    ToIsoString(FromUnixTimeSeconds(t))
  }

  /** The instant a rendered timestamp denotes, when it is one. */
  function ParseUtc(s: string): Option<int>
  {
    match ParseIso(s)
    case Some(dt) => if ValidDateTime(dt) then Some(UnixSecondsOf(dt)) else None
    case None => None
  }

  /**
    The rendering is 20 characters long and reads back as exactly the instant
    it was made from; together with `UnixSecondsOfInjective` this makes it the
    one valid UTC calendar reading of `t`.
   */
  lemma FormatUtcRoundTrip(t: int)
    requires InUnixRange(t)
    ensures |FormatUtc(t)| == IsoLength
    ensures ParseUtc(FormatUtc(t)) == Some(t)
    ensures ParseIso(FormatUtc(t)) == Some(FromUnixTimeSeconds(t))
  {
    IsoRoundTrip(FromUnixTimeSeconds(t));
  }

  /** Distinct instants render to distinct strings. */
  lemma FormatUtcInjective(t: int, u: int)
    requires InUnixRange(t) && InUnixRange(u)
    ensures FormatUtc(t) == FormatUtc(u) <==> t == u
  {
    FormatUtcRoundTrip(t);
    FormatUtcRoundTrip(u);
  }
}
