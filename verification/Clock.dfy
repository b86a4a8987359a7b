/**
 Timezone-aware datetimes and their two texts: `isoformat()`, which the topology digest
 uses (src/locusmesh/policy.py:74-75), and the JSON form of a model dump. Comparisons look
 at the instant, texts at the local fields and the offset.
 */
module Clock {
  import opened CanonicalJson

  datatype DateTime = DateTime(
    year: int, month: int, day: int,
    hour: int, minute: int, second: int, microsecond: int,
    offset: int,   // minutes east of UTC
    instant: int)  // microseconds UTC, as `Valid` derives it from the other fields
  {
    predicate Valid() {
      && 1 <= year <= 9999 && 1 <= month <= 12 && 1 <= day <= DaysInMonth(year, month)
      && 0 <= hour < 24 && 0 <= minute < 60 && 0 <= second < 60 && 0 <= microsecond < 1_000_000
      && -1440 < offset < 1440
      && instant == InstantOf(year, month, day, hour, minute - offset, second, microsecond)
    }
  }

  predicate LeapYear(y: int) { y % 4 == 0 && (y % 100 != 0 || y % 400 == 0) }

  function DaysInMonth(y: int, m: int): (d: int)
    ensures 28 <= d <= 31
  {
    if m == 2 then (if LeapYear(y) then 29 else 28)
    else if m == 4 || m == 6 || m == 9 || m == 11 then 30 else 31
  }

  function DaysBeforeMonth(y: int, m: int): int
    decreases m
  {
    if m <= 1 then 0 else DaysBeforeMonth(y, m - 1) + DaysInMonth(y, m - 1)
  }

  function DaysBeforeYear(year: int): int {
    var y := year - 1;
    y * 365 + y / 4 - y / 100 + y / 400
  }

  function InstantOf(year: int, month: int, day: int, hour: int, minute: int, second: int, microsecond: int): int {
    var days := DaysBeforeYear(year) + DaysBeforeMonth(year, month) + day;
    (((days * 24 + hour) * 60 + minute) * 60 + second) * 1_000_000 + microsecond
  }

  // ---- What the instant means -------------------------------------------------------------

  // The Gregorian calendar, as a table.
  lemma MonthLengths(y: int, m: int)
    requires 1 <= m <= 12
    ensures DaysInMonth(y, m) ==
            if m == 2 && (y % 400 == 0 || (y % 4 == 0 && y % 100 != 0)) then 29
            else [31, 28, 31, 30, 31, 30, 31, 31, 30, 31, 30, 31][m - 1]
  {}

  // The microseconds since the day began.
  function TimeOfDay(t: DateTime): int {
    t.microsecond + 1_000_000 * (t.second + 60 * (t.minute + 60 * t.hour))
  }

  predicate SameDate(t: DateTime, u: DateTime) { t.year == u.year && t.month == u.month && t.day == u.day }

  // `u` has the date after that of `t`.
  predicate DayAfter(t: DateTime, u: DateTime) {
    || (u.year == t.year && u.month == t.month && u.day == t.day + 1)
    || (u.year == t.year && u.month == t.month + 1 && u.day == 1 && t.day == DaysInMonth(t.year, t.month))
    || (u.year == t.year + 1 && u.month == 1 && u.day == 1 && t.month == 12 && t.day == 31)
  }

  lemma DaysBeforeDecember(y: int)
    ensures DaysBeforeMonth(y, 12) == 306 + DaysInMonth(y, 2)
  {
    hide LeapYear;
    assert DaysBeforeMonth(y, 1) == 0;
    assert DaysBeforeMonth(y, 3) == 31 + DaysInMonth(y, 2);
    assert DaysBeforeMonth(y, 5) == DaysBeforeMonth(y, 3) + 61;
    assert DaysBeforeMonth(y, 7) == DaysBeforeMonth(y, 5) + 61;
    assert DaysBeforeMonth(y, 9) == DaysBeforeMonth(y, 7) + 62;
    assert DaysBeforeMonth(y, 11) == DaysBeforeMonth(y, 9) + 61;
  }

  lemma Multiples(y: int)
    ensures y / 4 - (y - 1) / 4 == if y % 4 == 0 then 1 else 0
    ensures y / 100 - (y - 1) / 100 == if y % 100 == 0 then 1 else 0
    ensures y / 400 - (y - 1) / 400 == if y % 400 == 0 then 1 else 0
  {}

  lemma MultiplesOf(k: int)
    ensures (4 * k) % 4 == 0 && (100 * k) % 100 == 0
  {}

  lemma MultiplesNest(y: int)
    ensures y % 400 == 0 ==> y % 100 == 0
    ensures y % 100 == 0 ==> y % 4 == 0
  {
    if y % 400 == 0 {
      assert y == 100 * (4 * (y / 400));
      MultiplesOf(4 * (y / 400));
    }
    if y % 100 == 0 {
      assert y == 4 * (25 * (y / 100));
      MultiplesOf(25 * (y / 100));
    }
  }

  // A year has 337 days and February.
  lemma YearLength(y: int)
    ensures DaysBeforeYear(y + 1) == DaysBeforeYear(y) + 337 + DaysInMonth(y, 2)
  {
    Multiples(y);
    MultiplesNest(y);
  }

  lemma DayAfterCounts(t: DateTime, u: DateTime)
    requires t.Valid() && u.Valid() && DayAfter(t, u)
    ensures DaysBeforeYear(u.year) + DaysBeforeMonth(u.year, u.month) + u.day == DaysBeforeYear(t.year) + DaysBeforeMonth(t.year, t.month) + t.day + 1
  {
    hide InstantOf, DaysBeforeYear, LeapYear;
    if u.year == t.year + 1 {
      YearLength(t.year);
      DaysBeforeDecember(t.year);
      assert DaysBeforeMonth(u.year, 1) == 0;
    }
  }

  /** Instants run with the calendar: along the clock within a day, by 24 hours from one date to the
      next, and against the offset. These laws fix every difference of two instants. */
  lemma InstantLaws(t: DateTime, u: DateTime)
    requires t.Valid() && u.Valid()
    ensures var zones := 60_000_000 * (t.offset - u.offset);
            && (SameDate(t, u) ==> u.instant - t.instant == TimeOfDay(u) - TimeOfDay(t) + zones)
            && (DayAfter(t, u) ==> u.instant - t.instant == 86_400_000_000 + TimeOfDay(u) - TimeOfDay(t) + zones)
  {
    hide DaysBeforeMonth, DaysBeforeYear, DaysInMonth;
    if DayAfter(t, u) { DayAfterCounts(t, u); }
  }

  // Comparison of local dates and times field by field.
  predicate EarlierLocally(t: DateTime, u: DateTime) {
    || t.year < u.year
    || (t.year == u.year && t.month < u.month)
    || (t.year == u.year && t.month == u.month && t.day < u.day)
    || (SameDate(t, u) && TimeOfDay(t) < TimeOfDay(u))
  }

  lemma {:induction false} MonthsAscend(y: int, m: int, n: int)
    requires 1 <= m < n <= 12
    ensures DaysBeforeMonth(y, m) + DaysInMonth(y, m) <= DaysBeforeMonth(y, n)
    decreases n
  {
    hide DaysInMonth;
    if m < n - 1 { MonthsAscend(y, m, n - 1); }
  }

  lemma {:induction false} YearsAscend(y: int, z: int)
    requires y < z
    ensures DaysBeforeYear(y) + 337 + DaysInMonth(y, 2) <= DaysBeforeYear(z)
    decreases z - y
  {
    hide DaysBeforeYear, DaysInMonth;
    YearLength(z - 1);
    if y < z - 1 { YearsAscend(y, z - 1); }
  }

  lemma DatesAscend(t: DateTime, u: DateTime)
    requires t.Valid() && u.Valid() && EarlierLocally(t, u) && !SameDate(t, u)
    ensures DaysBeforeYear(t.year) + DaysBeforeMonth(t.year, t.month) + t.day < DaysBeforeYear(u.year) + DaysBeforeMonth(u.year, u.month) + u.day
  {
    hide InstantOf, DaysBeforeYear, LeapYear;
    if t.year < u.year {
      YearsAscend(t.year, u.year);
      DaysBeforeDecember(t.year);
      assert DaysBeforeMonth(u.year, 1) == 0;
      if t.month < 12 { MonthsAscend(t.year, t.month, 12); }
      if u.month > 1 { MonthsAscend(u.year, 1, u.month); }
    } else if t.month < u.month {
      MonthsAscend(t.year, t.month, u.month);
    }
  }

  lemma EarlierIsLess(t: DateTime, u: DateTime)
    requires t.Valid() && u.Valid() && t.offset == u.offset && EarlierLocally(t, u)
    ensures t.instant < u.instant
  {
    hide DaysBeforeMonth, DaysBeforeYear, DaysInMonth;
    if !SameDate(t, u) { DatesAscend(t, u); }
  }

  /** Under one offset, instants compare as the local dates and times do. */
  lemma InstantsCompare(t: DateTime, u: DateTime)
    requires t.Valid() && u.Valid() && t.offset == u.offset
    ensures t.instant < u.instant <==> EarlierLocally(t, u)
  {
    hide DateTime.Valid;
    if EarlierLocally(t, u) {
      EarlierIsLess(t, u);
    } else if EarlierLocally(u, t) {
      EarlierIsLess(u, t);
    } else {
      SameTimeSameInstant(t, u);
    }
  }

  lemma SameTimeSameInstant(t: DateTime, u: DateTime)
    requires t.Valid() && u.Valid() && t.offset == u.offset && SameDate(t, u) && TimeOfDay(t) == TimeOfDay(u)
    ensures t.instant == u.instant
  {}

  // ---- Texts ----------------------------------------------------------------------------

  function Pad2(n: int): (r: string)
    requires 0 <= n < 100
    ensures |r| == 2
  {
    [HexDigit(n / 10), HexDigit(n % 10)]
  }

  function Pad4(n: int): (r: string)
    requires 0 <= n < 10_000
    ensures |r| == 4
  {
    Pad2(n / 100) + Pad2(n % 100)
  }

  function Pad6(n: int): (r: string)
    requires 0 <= n < 1_000_000
    ensures |r| == 6
  {
    Pad2(n / 10_000) + Pad4(n % 10_000)
  }

  // YYYY-MM-DD
  function DateText(t: DateTime): (r: string)
    requires t.Valid()
    ensures |r| == 10
  {
    Pad4(t.year) + "-" + Pad2(t.month) + "-" + Pad2(t.day)
  }

  // HH:MM:SS
  function ClockText(t: DateTime): (r: string)
    requires t.Valid()
    ensures |r| == 8
  {
    Pad2(t.hour) + ":" + Pad2(t.minute) + ":" + Pad2(t.second)
  }

  function Fraction(microsecond: int): (r: string)
    requires 0 <= microsecond < 1_000_000
    ensures |r| == if microsecond == 0 then 0 else 7
  {
    if microsecond == 0 then "" else "." + Pad6(microsecond)
  }

  function Zone(offset: int): (r: string)
    requires -1440 < offset < 1440
    ensures |r| == 6
  {
    var m := if offset < 0 then -offset else offset;
    (if offset < 0 then "-" else "+") + Pad2(m / 60) + ":" + Pad2(m % 60)
  }

  function IsoFormat(t: DateTime): string
    requires t.Valid()
  {
    DateText(t) + "T" + ClockText(t) + Fraction(t.microsecond) + Zone(t.offset)
  }

  function JsonTime(t: DateTime): string
    requires t.Valid()
  {
    DateText(t) + "T" + ClockText(t) + Fraction(t.microsecond) + if t.offset == 0 then "Z" else Zone(t.offset)
  }

  // ---- What the texts show ----------------------------------------------------------------

  // `s` is a decimal numeral of `n`.
  predicate Shows(s: string, n: int) { s != "" && ReadDigits(s, 0) == Reads(n, "") }

  lemma Pad2Continues(n: int, sum: int, rest: string)
    requires 0 <= n < 100
    ensures ReadDigits(Pad2(n) + rest, sum) == ReadDigits(rest, 100 * sum + n)
  {
    assert Pad2(n) + rest == [HexDigit(n / 10)] + ([HexDigit(n % 10)] + rest);
    OneDigit(n / 10, [HexDigit(n % 10)] + rest, sum);
    OneDigit(n % 10, rest, 10 * sum + n / 10);
  }

  lemma Pad4Continues(n: int, sum: int, rest: string)
    requires 0 <= n < 10_000
    ensures ReadDigits(Pad4(n) + rest, sum) == ReadDigits(rest, 10_000 * sum + n)
  {
    hide Pad2, ReadDigits;
    assert Pad4(n) + rest == Pad2(n / 100) + (Pad2(n % 100) + rest);
    Pad2Continues(n / 100, sum, Pad2(n % 100) + rest);
    Pad2Continues(n % 100, 100 * sum + n / 100, rest);
  }

  lemma PadsShow(n: int)
    ensures 0 <= n < 100 ==> Shows(Pad2(n), n)
    ensures 0 <= n < 10_000 ==> Shows(Pad4(n), n)
    ensures 0 <= n < 1_000_000 ==> Shows(Pad6(n), n)
  {
    hide Pad2, Pad4;
    if 0 <= n < 100 {
      Pad2Continues(n, 0, "");
      assert Pad2(n) + "" == Pad2(n);
    }
    if 0 <= n < 10_000 {
      Pad4Continues(n, 0, "");
      assert Pad4(n) + "" == Pad4(n);
    }
    if 0 <= n < 1_000_000 {
      Pad2Continues(n / 10_000, 0, Pad4(n % 10_000));
      Pad4Continues(n % 10_000, n / 10_000, "");
      assert Pad4(n % 10_000) + "" == Pad4(n % 10_000);
    }
  }

  predicate ShowsDate(s: string, t: DateTime) {
    |s| == 10 && Shows(s[..4], t.year) && s[4] == '-' && Shows(s[5..7], t.month) && s[7] == '-' && Shows(s[8..], t.day)
  }

  predicate ShowsClock(s: string, t: DateTime) {
    |s| == 8 && Shows(s[..2], t.hour) && s[2] == ':' && Shows(s[3..5], t.minute) && s[5] == ':' && Shows(s[6..], t.second)
  }

  // +HH:MM or -HH:MM
  ghost predicate ShowsZone(s: string, offset: int) {
    && |s| == 6 && s[0] == (if offset < 0 then '-' else '+') && s[3] == ':'
    && exists h, m :: Shows(s[1..3], h) && Shows(s[4..], m) && 0 <= m < 60 && 60 * h + m == if offset < 0 then -offset else offset
  }

  // Date, time of day, six digits after a point unless they are all zero, and the zone,
  // where `utc` may stand for offset zero.
  ghost predicate ShowsTime(s: string, t: DateTime, utc: string) {
    && |s| >= 20 && ShowsDate(s[..10], t) && s[10] == 'T' && ShowsClock(s[11..19], t)
    && (s[19] == '.' <==> t.microsecond != 0)
    && (t.microsecond != 0 ==> |s| > 26 && Shows(s[20..26], t.microsecond))
    && var zone := s[if t.microsecond == 0 then 19 else 26..];
       if t.offset == 0 then zone == utc else ShowsZone(zone, t.offset)
  }

  lemma DateShows(t: DateTime)
    requires t.Valid()
    ensures ShowsDate(DateText(t), t)
  {
    hide Pad2, Pad4, Shows, InstantOf, DaysInMonth;
    var s, y, m, d := DateText(t), Pad4(t.year), Pad2(t.month), Pad2(t.day);
    assert s[..4] == y && s[5..7] == m && s[8..] == d;
    PadsShow(t.year);
    PadsShow(t.month);
    PadsShow(t.day);
  }

  lemma ClockShows(t: DateTime)
    requires t.Valid()
    ensures ShowsClock(ClockText(t), t)
  {
    hide Pad2, Shows, InstantOf, DaysInMonth;
    var s, h, m, sec := ClockText(t), Pad2(t.hour), Pad2(t.minute), Pad2(t.second);
    assert s[..2] == h && s[3..5] == m && s[6..] == sec;
    PadsShow(t.hour);
    PadsShow(t.minute);
    PadsShow(t.second);
  }

  lemma ZoneShows(offset: int)
    requires -1440 < offset < 1440
    ensures ShowsZone(Zone(offset), offset)
  {
    hide Pad2, Shows;
    var s, m := Zone(offset), if offset < 0 then -offset else offset;
    assert s[1..3] == Pad2(m / 60) && s[4..] == Pad2(m % 60);
    PadsShow(m / 60);
    PadsShow(m % 60);
  }

  lemma TextShows(t: DateTime, s: string, zone: string, utc: string)
    requires t.Valid() && s == DateText(t) + "T" + ClockText(t) + Fraction(t.microsecond) + zone
    requires zone != "" && zone[0] != '.' && if t.offset == 0 then zone == utc else ShowsZone(zone, t.offset)
    ensures ShowsTime(s, t, utc)
  {
    DateShows(t);
    ClockShows(t);
    PadsShow(t.microsecond);
    hide DateText, ClockText, ShowsDate, ShowsClock, ShowsZone, Shows, Pad2, Pad4, Pad6, InstantOf, DaysInMonth;
    assert s[..10] == DateText(t) && s[11..19] == ClockText(t);
    if t.microsecond != 0 {
      assert s[20..26] == Pad6(t.microsecond);
    }
  }

  /** The ISO text shows every local field and the offset. */
  lemma IsoFormatShows(t: DateTime)
    requires t.Valid()
    ensures ShowsTime(IsoFormat(t), t, "+00:00")
  {
    hide DateText, ClockText, Fraction, ShowsTime, Pad2, InstantOf, DaysInMonth;
    ZoneShows(t.offset);
    if t.offset == 0 { ZeroZone(); }
    TextShows(t, IsoFormat(t), Zone(t.offset), "+00:00");
  }

  lemma ZeroZone()
    ensures Zone(0) == "+00:00"
  {
    assert Pad2(0) == "00";
  }

  /** So does the text of a model dump, which writes offset zero as Z. */
  lemma JsonTimeShows(t: DateTime)
    requires t.Valid()
    ensures ShowsTime(JsonTime(t), t, "Z")
  {
    hide DateText, ClockText, Fraction, ShowsTime, Pad2, InstantOf, DaysInMonth;
    ZoneShows(t.offset);
    TextShows(t, JsonTime(t), if t.offset == 0 then "Z" else Zone(t.offset), "Z");
  }

  // A zone text shows one offset; `utc` shows no offset but zero.
  lemma ShowsOneTime(s: string, t: DateTime, u: DateTime, utc: string)
    requires t.Valid() && u.Valid() && ShowsTime(s, t, utc) && ShowsTime(s, u, utc)
    requires forall offset :: ShowsZone(utc, offset) ==> offset == 0
    ensures t == u
  {
    hide InstantOf, DaysInMonth, ReadDigits;
  }

  lemma IsoFormatInjective(t: DateTime, u: DateTime)
    requires t.Valid() && u.Valid() && IsoFormat(t) == IsoFormat(u)
    ensures t == u
  {
    hide IsoFormat, ShowsTime, InstantOf, DaysInMonth;
    IsoFormatShows(t);
    IsoFormatShows(u);
    forall offset | ShowsZone("+00:00", offset) ensures offset == 0 {
      ZoneShows(0);
      ZeroZone();
    }
    ShowsOneTime(IsoFormat(t), t, u, "+00:00");
  }

  lemma JsonTimeInjective(t: DateTime, u: DateTime)
    requires t.Valid() && u.Valid() && JsonTime(t) == JsonTime(u)
    ensures t == u
  {
    hide JsonTime, ShowsTime, InstantOf, DaysInMonth;
    JsonTimeShows(t);
    JsonTimeShows(u);
    ShowsOneTime(JsonTime(t), t, u, "Z");
  }
}
