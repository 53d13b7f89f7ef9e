/** `CasesCount`: the number of internal and external cases started in a window of days, the
    same per day for the last days, and the counts for the current month and the year. */
module CasesCounts {
  import opened Calendar
  import opened AssetSummaries
  import opened Rows
  import opened AssetSummaryDao

  /** `a.startTime BETWEEN 'from' AND 'to'`: both midnights included. */
  predicate StartedBetween(r: Record, from: Day, to: Day) {
    Midnight(from) <= r.startTime <= Midnight(to)
  }

  function StartedWithin(from: Day, to: Day): (c: Criteria)
    ensures forall r :: c(r) == StartedBetween(r, from, to)
  {
    (r: Record) => StartedBetween(r, from, to)
  }

  /** `a.npNumber not like 'X%' AND a.startTime BETWEEN 'from' AND 'to'`. */
  function InternalWithin(from: Day, to: Day): (c: Criteria)
    ensures forall r :: c(r) == (!External(r) && StartedBetween(r, from, to))
  {
    (r: Record) => !External(r) && StartedBetween(r, from, to)
  }

  /** `a.npNumber like 'X%' AND a.startTime BETWEEN 'from' AND 'to'`. */
  function ExternalWithin(from: Day, to: Day): (c: Criteria)
    ensures forall r :: c(r) == (External(r) && StartedBetween(r, from, to))
  {
    (r: Record) => External(r) && StartedBetween(r, from, to)
  }

  /** The internal and the external count of a window add up to every case of the window. */
  lemma InternalAndExternalCoverWindow(table: Table, from: Day, to: Day)
    ensures Count(table, InternalWithin(from, to)) + Count(table, ExternalWithin(from, to))
      == Count(table, StartedWithin(from, to))
  {
    CountPartition(table, StartedWithin(from, to), InternalWithin(from, to), ExternalWithin(from, to),
      (r: Record) => !External(r));
  }

  class CasesCount {
    var internalCasesCount: nat
    var externalCasesCount: nat

    /** `CasesCount(to, from, dao)`: the two counts of the window from `from` to `to`. */
    constructor (to: Day, from: Day, table: Table)
      ensures internalCasesCount == Count(table, InternalWithin(from, to))
      ensures externalCasesCount == Count(table, ExternalWithin(from, to))
    {
      internalCasesCount := Count(table, InternalWithin(from, to));
      externalCasesCount := Count(table, ExternalWithin(from, to));
    }

    method GetInternalCasesCount() returns (n: nat)
      ensures n == internalCasesCount
    {
      n := internalCasesCount;
    }

    method GetExternalCasesCount() returns (n: nat)
      ensures n == externalCasesCount
    {
      n := externalCasesCount;
    }
  }

  /** The window of the daily entry `k` (from 0): from the date `k + 1` days before the clock to
      the date `k` days before it. */
  function DayFrom(now: Instant, k: int): Day {
    DayOf(MinusDays(now, k + 1))
  }

  function DayTo(now: Instant, k: int): Day {
    DayOf(MinusDays(now, k))
  }

  lemma DailyWindowDays(now: Instant, k: int)
    ensures DayFrom(now, k) == DayOf(now) - k - 1 && DayTo(now, k) == DayOf(now) - k
  {
    MinusDaysDay(now, k + 1);
    MinusDaysDay(now, k);
  }

  /** The daily entry `k` holds the two counts of its window. */
  predicate DailyEntry(entry: CasesCount, table: Table, now: Instant, k: int)
    reads entry
  {
    entry.internalCasesCount == Count(table, InternalWithin(DayFrom(now, k), DayTo(now, k)))
    && entry.externalCasesCount == Count(table, ExternalWithin(DayFrom(now, k), DayTo(now, k)))
  }

  /** `findDailyCount(days)`: for i from 1 to `days`, the counts of the window from the date `i`
      days before the clock to the date `i - 1` days before it; nothing when `days` is not
      positive. */
  method FindDailyCount(days: int, table: Table, now: Instant) returns (casesCount: seq<CasesCount>)
    ensures |casesCount| == if days > 0 then days else 0
    ensures forall k :: 0 <= k < |casesCount| ==>
              casesCount[k].internalCasesCount == Count(table, InternalWithin(DayFrom(now, k), DayTo(now, k)))
              && casesCount[k].externalCasesCount == Count(table, ExternalWithin(DayFrom(now, k), DayTo(now, k)))
  {
    casesCount := [];
    var i := 1;
    while i <= days
      invariant 1 <= i <= (if days > 0 then days + 1 else 1)
      invariant |casesCount| == i - 1
      invariant forall k :: 0 <= k < |casesCount| ==> DailyEntry(casesCount[k], table, now, k)
    {
      var entry := new CasesCount(DayOf(MinusDays(now, i - 1)), DayOf(MinusDays(now, i)), table);
      assert DailyEntry(entry, table, now, i - 1);
      assert forall k :: 0 <= k < |casesCount| ==> DailyEntry(casesCount[k], table, now, k);
      casesCount := casesCount + [entry];
      i := i + 1;
    }
  }

  /** Two consecutive daily entries both count a case started exactly at the midnight they
      share. */
  lemma DailyEntriesShareMidnight(table: Table, now: Instant, k: nat)
    requires k >= 1
    ensures Count(table, StartedWithin(DayFrom(now, k - 1), DayTo(now, k - 1)))
            + Count(table, StartedWithin(DayFrom(now, k), DayTo(now, k)))
      == Count(table, StartedWithin(DayOf(now) - k - 1, DayOf(now) - k + 1))
         + Count(table, (r: Record) => r.startTime == Midnight(DayOf(now) - k))
  {
    var today := DayOf(now);
    DailyWindowDays(now, k - 1);
    DailyWindowDays(now, k);
    MidnightMonotone(today - k - 1, today - k);
    MidnightMonotone(today - k, today - k + 1);
    CountInclusionExclusion(table, StartedWithin(DayFrom(now, k - 1), DayTo(now, k - 1)),
      StartedWithin(DayFrom(now, k), DayTo(now, k)), StartedWithin(today - k - 1, today - k + 1),
      (r: Record) => r.startTime == Midnight(today - k));
  }

  /** A case started today after midnight is counted in no daily entry. */
  lemma StartedTodayNotCounted(t1: Table, r: Record, t2: Table, now: Instant, k: nat)
    requires Midnight(DayOf(now)) < r.startTime
    ensures Count(t1 + [r] + t2, InternalWithin(DayFrom(now, k), DayTo(now, k)))
      == Count(t1 + t2, InternalWithin(DayFrom(now, k), DayTo(now, k)))
    ensures Count(t1 + [r] + t2, ExternalWithin(DayFrom(now, k), DayTo(now, k)))
      == Count(t1 + t2, ExternalWithin(DayFrom(now, k), DayTo(now, k)))
  {
    DailyWindowDays(now, k);
    MidnightMonotone(DayOf(now) - k, DayOf(now));
    CountSkips(t1, r, t2, InternalWithin(DayFrom(now, k), DayTo(now, k)));
    CountSkips(t1, r, t2, ExternalWithin(DayFrom(now, k), DayTo(now, k)));
  }

  // ---------------------------------------------------------------------------------------
  // The month and the year

  /** The first day of the month of the day `z`: the date `yyyy-MM` of `z` followed by "-01". */
  function FirstOfMonth(z: Day): (first: Day) {
    var d := CivilFromDays(z);
    DaysFromCivil(Date(d.year, d.month, 1))
  }

  /** The month begins `day - 1` days before `z`. */
  lemma FirstOfMonthDays(z: Day)
    ensures FirstOfMonth(z) == z - (CivilFromDays(z).day - 1)
  {
    CivilRoundTrip(z);
    DayOfMonthOffset(CivilFromDays(z));
  }

  /** `countCurrentMonth()`: the cases started from midnight of the first of the month up to
      midnight today. */
  function CountCurrentMonth(table: Table, now: Instant): (n: nat)
    ensures n == Count(table, StartedWithin(DayOf(now) - (CivilFromDays(DayOf(now)).day - 1), DayOf(now)))
  {
    FirstOfMonthDays(DayOf(now));
    Count(table, StartedWithin(FirstOfMonth(DayOf(now)), DayOf(now)))
  }

  /** From the second of the month on, yesterday's daily entry lies within the month count. */
  lemma MonthCoversYesterday(table: Table, now: Instant)
    requires CivilFromDays(DayOf(now)).day >= 2
    ensures Count(table, StartedWithin(DayFrom(now, 0), DayTo(now, 0))) <= CountCurrentMonth(table, now)
  {
    FirstOfMonthDays(DayOf(now));
    DailyWindowDays(now, 0);
    MidnightMonotone(FirstOfMonth(DayOf(now)), DayOf(now) - 1);
    CountMonotone(table, StartedWithin(DayFrom(now, 0), DayTo(now, 0)),
      StartedWithin(FirstOfMonth(DayOf(now)), DayOf(now)));
  }

  /** The date the year count is computed for: `new DateTime("2020-02-28")`, whatever the clock
      reads. */
  const FixedToday: Date := Date(2020, 2, 28)

  /** `countCurrentYear()`: the cases started from midnight of 1 January of the fixed date's
      year up to midnight of the fixed date. */
  function CountCurrentYear(table: Table): (n: nat) {
    Count(table, StartedWithin(DaysFromCivil(Date(FixedToday.year, 1, 1)), DaysFromCivil(FixedToday)))
  }

  lemma YearStartSample()
    ensures DaysFromCivil(Date(2020, 1, 1)) == 18262 && CivilFromDays(18262) == Date(2020, 1, 1)
  {
    assert (18262 + 719468) / 146097 == 5 && (18262 + 719468) % 146097 == 7245;
    assert 7245 / 36524 == 0 && 7245 / 1461 == 4 && 7245 % 1461 == 1401 && 1401 / 365 == 3;
    assert YearOfEra(7245) == (19, 306) && MonthOfYear(306) == (10, 1);
    assert 2019 / 400 == 5 && 2019 % 400 == 19 && (153 * 10 + 2) / 5 == 306;
    assert DaysFromCivil(Date(2020, 1, 1)) == EraDays(5, 19, 306);
  }

  lemma YearEndSample()
    ensures DaysFromCivil(Date(2020, 2, 28)) == 18320 && CivilFromDays(18320) == Date(2020, 2, 28)
  {
    assert (18320 + 719468) / 146097 == 5 && (18320 + 719468) % 146097 == 7303;
    assert 7303 / 36524 == 0 && 7303 / 1461 == 4 && 7303 % 1461 == 1459 && 1459 / 365 == 3;
    assert YearOfEra(7303) == (19, 364) && MonthOfYear(364) == (11, 28);
    assert 2019 / 400 == 5 && 2019 % 400 == 19 && (153 * 11 + 2) / 5 == 337;
    assert DaysFromCivil(Date(2020, 2, 28)) == EraDays(5, 19, 364);
  }

  /** The year count is the number of cases started from 2020-01-01 00:00 to 2020-02-28 00:00,
      the days 18262 and 18320 after the epoch. */
  lemma YearWindowFixed(table: Table)
    ensures CountCurrentYear(table) == Count(table, StartedWithin(18262, 18320))
  {
    YearStartSample();
    YearEndSample();
  }
}
