/** Instants, days and their rendering, standing in for Joda's `DateTime` in the UTC zone.
    An instant is a count of milliseconds since 1970-01-01T00:00 and a day a count of days
    since 1970-01-01, both negative before it. `minusDays(n)` on an instant moves it by `n`
    whole days, and an HQL date literal 'YYYY-MM-DD' compared with a timestamp denotes
    midnight of that day. */
module Calendar {
  import opened Text

  type Instant = int
  type Day = int

  const MillisPerMinute: nat := 60_000
  const MillisPerHour: nat := 3_600_000
  const MillisPerDay: nat := 86_400_000

  /** The calendar day an instant falls on. */
  function DayOf(t: Instant): (d: Day) {
    t / MillisPerDay
  }

  /** The first instant of a day. */
  function Midnight(d: Day): (t: int) {
    d * MillisPerDay
  }

  /** An instant lies between the midnight that opens its day and the one that closes it. */
  lemma MidnightBounds(t: Instant)
    ensures Midnight(DayOf(t)) <= t < Midnight(DayOf(t) + 1)
  {
  }

  /** Comparing an instant with a midnight is comparing its day with that day. */
  lemma MidnightCompare(t: Instant, d: Day)
    ensures Midnight(d) <= t <==> d <= DayOf(t)
    ensures t < Midnight(d) <==> DayOf(t) < d
  {
    MidnightBounds(t);
    if d <= DayOf(t) {
      assert Midnight(d) <= Midnight(DayOf(t));
    }
    if DayOf(t) < d {
      assert Midnight(DayOf(t) + 1) <= Midnight(d);
    }
  }

  /** `minusDays(n)`: the same time of day, `n` days earlier. */
  function MinusDays(t: Instant, n: int): (u: Instant) {
    t - n * MillisPerDay
  }

  lemma MinusDaysDay(t: Instant, n: int)
    ensures DayOf(MinusDays(t, n)) == DayOf(t) - n
    ensures HourOf(MinusDays(t, n)) == HourOf(t) && MinuteOf(MinusDays(t, n)) == MinuteOf(t)
  {
    var u := MinusDays(t, n);
    DivModUnique(u, MillisPerDay, t / MillisPerDay - n, t % MillisPerDay);
    DivModUnique(u, MillisPerHour, t / MillisPerHour - 24 * n, t % MillisPerHour);
  }

  /** Euclidean division is determined by its quotient and remainder. */
  lemma DivModUnique(x: int, m: int, q: int, r: int)
    requires m > 0 && 0 <= r < m && x == q * m + r
    ensures x / m == q && x % m == r
  {
    var q', r' := x / m, x % m;
    if q' < q {
      assert (q - q') * m == q * m - q' * m;
      ProductAtLeast(q - q', m);
    } else if q < q' {
      assert (q' - q) * m == q' * m - q * m;
      ProductAtLeast(q' - q, m);
    }
  }

  lemma ProductAtLeast(a: int, m: int)
    requires a >= 1 && m > 0
    ensures a * m >= m
  {
  }

  lemma MidnightMonotone(a: Day, b: Day)
    ensures a <= b <==> Midnight(a) <= Midnight(b)
    ensures a < b <==> Midnight(a) < Midnight(b)
  {
  }

  function HourOf(t: Instant): (h: nat)
    ensures h < 24
  {
    (t % MillisPerDay) / MillisPerHour
  }

  function MinuteOf(t: Instant): (m: nat)
    ensures m < 60
  {
    (t % MillisPerHour) / MillisPerMinute
  }

  function SecondOf(t: Instant): (s: nat)
    ensures s < 60
  {
    (t % MillisPerMinute) / 1000
  }

  function MilliOf(t: Instant): (ms: nat)
    ensures ms < 1000
  {
    t % 1000
  }

  /** A proleptic Gregorian calendar date. */
  datatype Date = Date(year: int, month: int, day: int)

  /** The year of the era (0..399) and the day of that year counted from 1 March (0..365) for a
      day of a 400-year era that starts on 1 March of a year divisible by 400. */
  function YearOfEra(doe: int): (r: (int, int))
    requires 0 <= doe < 146097
    ensures 0 <= r.0 < 400 && 0 <= r.1 <= 365
    ensures r.0 * 365 + r.0 / 4 - r.0 / 100 + r.1 == doe
  {
    // 100-year blocks of 36524 days (the last has one more), 4-year blocks of 1461 days
    // (the last of a century has one less), years of 365 days (the fourth has one more).
    var c := if doe / 36524 < 3 then doe / 36524 else 3;
    var doc := doe - 36524 * c;
    var q := doc / 1461;
    var doq := doc % 1461;
    var yy := if doq / 365 < 3 then doq / 365 else 3;
    var yoe := 100 * c + 4 * q + yy;
    assert 0 <= q <= 24;
    assert yoe / 4 == 25 * c + q;
    assert yoe / 100 == c;
    (yoe, doq - 365 * yy)
  }

  /** The month counted from March (0..11) and the day of that month for a day of a year
      counted from 1 March. */
  function MonthOfYear(doy: int): (r: (int, int))
    requires 0 <= doy <= 365
    ensures 0 <= r.0 <= 11 && 1 <= r.1 <= 31
    ensures (153 * r.0 + 2) / 5 + r.1 - 1 == doy
  {
    var mp := (5 * doy + 2) / 153;
    (mp, doy - (153 * mp + 2) / 5 + 1)
  }

  /** The calendar date of a day. */
  function CivilFromDays(z: Day): (d: Date)
    ensures 1 <= d.month <= 12 && 1 <= d.day <= 31
    ensures z >= -719468 ==> d.year >= 0
  {
    var zs := z + 719468;
    var era := zs / 146097;
    var ye := YearOfEra(zs % 146097);
    var md := MonthOfYear(ye.1);
    var m := if md.0 < 10 then md.0 + 3 else md.0 - 9;
    Date(era * 400 + ye.0 + (if m <= 2 then 1 else 0), m, md.1)
  }

  /** The day of a calendar date (inverse of `CivilFromDays`). */
  function DaysFromCivil(d: Date): Day
  {
    var y := if d.month <= 2 then d.year - 1 else d.year;
    var mp := if d.month > 2 then d.month - 3 else d.month + 9;
    EraDays(y / 400, y % 400, (153 * mp + 2) / 5 + d.day - 1)
  }

  /** The day of day `doy` (from 1 March) of year `yoe` of era `era`. */
  function EraDays(era: int, yoe: int, doy: int): Day
  {
    era * 146097 + yoe * 365 + yoe / 4 - yoe / 100 + doy - 719468
  }

  /** Every day is recovered from its calendar date. */
  lemma CivilRoundTrip(z: Day)
    ensures DaysFromCivil(CivilFromDays(z)) == z
  {
    var zs := z + 719468;
    var era, doe := zs / 146097, zs % 146097;
    var ye := YearOfEra(doe);
    var md := MonthOfYear(ye.1);
    var d := CivilFromDays(z);
    assert d.month == (if md.0 < 10 then md.0 + 3 else md.0 - 9) && d.day == md.1;
    assert (if d.month <= 2 then d.year - 1 else d.year) == era * 400 + ye.0;
    assert (if d.month > 2 then d.month - 3 else d.month + 9) == md.0;
    DaysFromCivilParts(d, era, ye.0, ye.1);
    assert era * 146097 + doe == zs;
  }

  /** `DaysFromCivil` from the era, the year of the era and the day of the year of a date. */
  lemma DaysFromCivilParts(d: Date, era: int, yoe: int, doy: int)
    requires 0 <= yoe < 400
    requires (if d.month <= 2 then d.year - 1 else d.year) == era * 400 + yoe
    requires (153 * (if d.month > 2 then d.month - 3 else d.month + 9) + 2) / 5 + d.day - 1 == doy
    ensures DaysFromCivil(d) == EraDays(era, yoe, doy)
  {
    DivModUnique(if d.month <= 2 then d.year - 1 else d.year, 400, era, yoe);
  }

  /** A date lies `day - 1` days after the first of its month. */
  lemma DayOfMonthOffset(d: Date)
    ensures DaysFromCivil(d) == DaysFromCivil(Date(d.year, d.month, 1)) + d.day - 1
  {
    var y := if d.month <= 2 then d.year - 1 else d.year;
    var mp := if d.month > 2 then d.month - 3 else d.month + 9;
    assert DaysFromCivil(d) == EraDays(y / 400, y % 400, (153 * mp + 2) / 5 + d.day - 1);
  }

  /** Spot checks against the Gregorian calendar: the epoch, a leap day and the day after it. */
  lemma EpochSample()
    ensures CivilFromDays(0) == Date(1970, 1, 1)
  {
    assert 719468 / 146097 == 4 && 719468 % 146097 == 135080;
    assert 135080 / 36524 == 3 && 25508 / 1461 == 17 && 25508 % 1461 == 671 && 671 / 365 == 1;
    assert YearOfEra(135080) == (369, 306) && MonthOfYear(306) == (10, 1);
  }

  lemma LeapDaySample()
    ensures CivilFromDays(18321) == Date(2020, 2, 29)
  {
    assert (18321 + 719468) / 146097 == 5 && (18321 + 719468) % 146097 == 7304;
    assert 7304 / 36524 == 0 && 7304 / 1461 == 4 && 7304 % 1461 == 1460 && 1460 / 365 == 4;
    assert YearOfEra(7304) == (19, 365) && MonthOfYear(365) == (11, 29);
  }

  lemma AfterLeapDaySample()
    ensures CivilFromDays(18322) == Date(2020, 3, 1)
  {
    assert (18322 + 719468) / 146097 == 5 && (18322 + 719468) % 146097 == 7305;
    assert 7305 / 36524 == 0 && 7305 / 1461 == 5 && 7305 % 1461 == 0;
    assert YearOfEra(7305) == (20, 0) && MonthOfYear(0) == (0, 1);
  }

  /** Different days have different calendar dates. */
  lemma CivilInjective(a: Day, b: Day)
    requires CivilFromDays(a) == CivilFromDays(b)
    ensures a == b
  {
    CivilRoundTrip(a);
    CivilRoundTrip(b);
  }

  /** Joda's rendering of a year: at least four digits, zero-padded, signed when negative. */
  function YearText(y: int): string
  {
    if y >= 0 then Pad(y, 4) else "-" + Pad(-y, 4)
  }

  /** A rendered year has a digit as its third character, with or without a sign. */
  lemma YearTextThirdIsDigit(y: int)
    ensures |YearText(y)| >= 4 && IsDigit(YearText(y)[2])
  {
    if y < 0 {
      assert YearText(y)[2] == Pad(-y, 4)[1];
    }
  }

  /** The fields of the "yyyy-MM-dd" rendering of a day. */
  function DateFields(z: Day): seq<string>
  {
    var d := CivilFromDays(z);
    [YearText(d.year), Pad(d.month, 2), Pad(d.day, 2)]
  }

  /** "yyyy-MM-dd": what `toString().substring(0, 10)` gives for an instant of this day in a
      four-digit year. */
  function DateText(z: Day): string
  {
    Join(DateFields(z), "-")
  }

  /** "HH:mm": what `toString().substring(11, 16)` gives in a four-digit year. */
  function TimeText(t: Instant): string
  {
    Pad(HourOf(t), 2) + ":" + Pad(MinuteOf(t), 2)
  }

  lemma PadHasNoDash(n: nat, width: nat)
    ensures '-' !in Pad(n, width) && Pad(n, width) != ""
  {
  }

  /** In a year from 0 on, the date fields are non-empty digit strings without a dash. */
  lemma DateFieldsPlain(z: Day)
    requires CivilFromDays(z).year >= 0
    ensures |DateFields(z)| == 3
    ensures forall k :: 0 <= k < 3 ==> '-' !in DateFields(z)[k] && DateFields(z)[k] != ""
  {
    var d := CivilFromDays(z);
    PadHasNoDash(d.year, 4);
    PadHasNoDash(d.month, 2);
    PadHasNoDash(d.day, 2);
  }

  /** Two days from year 0 on render alike only when they are the same day. */
  lemma DateTextInjective(a: Day, b: Day)
    requires CivilFromDays(a).year >= 0 && CivilFromDays(b).year >= 0
    requires DateText(a) == DateText(b)
    ensures a == b
  {
    DateFieldsPlain(a);
    DateFieldsPlain(b);
    SplitJoin(DateFields(a), '-');
    SplitJoin(DateFields(b), '-');
    assert DateFields(a) == DateFields(b);
    var da, db := CivilFromDays(a), CivilFromDays(b);
    PadInjective(da.year, db.year, 4);
    PadInjective(da.month, db.month, 2);
    PadInjective(da.day, db.day, 2);
    CivilInjective(a, b);
  }

  /** The year of the day an instant falls on has four digits, as rendering by position assumes. */
  predicate FourDigitYear(t: Instant) {
    0 <= CivilFromDays(DayOf(t)).year <= 9999
  }

  /** `toString()` of an instant in UTC: "yyyy-MM-ddTHH:mm:ss.SSSZ". */
  function IsoText(t: Instant): (s: string)
    ensures |s| >= 16
  {
    DateTextMinLength(DayOf(t));
    TimeTextLength(t);
    DateText(DayOf(t)) + "T" + TimeText(t) + SecondsText(t)
  }

  /** ":ss.SSSZ", the part of `toString()` after the minutes. */
  function SecondsText(t: Instant): string {
    ":" + Pad(SecondOf(t), 2) + "." + Pad(MilliOf(t), 3) + "Z"
  }

  lemma DateTextMinLength(z: Day)
    ensures |DateText(z)| >= 10
    ensures |DateText(z)| >= |YearText(CivilFromDays(z).year)|
    ensures DateText(z)[..|YearText(CivilFromDays(z).year)|] == YearText(CivilFromDays(z).year)
  {
    var d := CivilFromDays(z);
    JoinThree(YearText(d.year), Pad(d.month, 2), Pad(d.day, 2), "-");
  }

  /** `toString().substring(0, 10)`. */
  function DatePart(t: Instant): string {
    IsoText(t)[..10]
  }

  /** `toString().substring(11, 16)`. */
  function TimePart(t: Instant): string {
    IsoText(t)[11..16]
  }

  lemma DateTextLength(z: Day)
    requires 0 <= CivilFromDays(z).year <= 9999
    ensures |DateText(z)| == 10
  {
    var d := CivilFromDays(z);
    assert Pow10(2) == 100 && Pow10(4) == 10000;
    PadWidth(d.year, 4);
    PadWidth(d.month, 2);
    PadWidth(d.day, 2);
    JoinThree(YearText(d.year), Pad(d.month, 2), Pad(d.day, 2), "-");
  }

  lemma TimeTextLength(t: Instant)
    ensures |TimeText(t)| == 5
  {
    assert Pow10(2) == 100;
    PadWidth(HourOf(t), 2);
    PadWidth(MinuteOf(t), 2);
  }

  /** In a four-digit year the two substrings are the rendered date and time. */
  lemma IsoParts(t: Instant)
    requires FourDigitYear(t)
    ensures DatePart(t) == DateText(DayOf(t))
    ensures TimePart(t) == TimeText(t)
  {
    DateTextLength(DayOf(t));
    TimeTextLength(t);
    Slices(DateText(DayOf(t)), TimeText(t), SecondsText(t));
  }

  lemma Slices(date: string, time: string, rest: string)
    requires |date| == 10 && |time| == 5
    ensures (date + "T" + time + rest)[..10] == date
    ensures (date + "T" + time + rest)[11..16] == time
  {
    var s := date + "T" + time + rest;
    assert s == date + ("T" + (time + rest));
  }

  /** The second character of a date part is always a digit: the year text has at least four
      characters, of which only a leading sign is not a digit. */
  lemma DatePartDigit(t: Instant)
    ensures IsDigit(DatePart(t)[1])
  {
    var y := YearText(CivilFromDays(DayOf(t)).year);
    DateTextMinLength(DayOf(t));
    assert IsoText(t)[1] == DateText(DayOf(t))[1] == y[1];
  }
}
