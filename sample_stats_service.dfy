/** `SampleStatsService`: the entry points of the dashboard. Each call is passed on to the
    pending-asset statistics, the case counts or the report statistics; the report statistics
    are one object, created with the service, whose stored window outlives each call. */
module SampleStats {
  import opened Wrappers
  import opened Calendar
  import opened AssetSummaries
  import opened Rows
  import opened PendingAssets
  import opened RequestCodes
  import opened AssetSummaryDao
  import opened PendingStats
  import opened CasesCounts
  import opened Reports

  /** `DataSummary`: the maximum of a column over some rows. Its fields are set once, by the
      constructor. */
  datatype DataSummary = DataSummary(stat: string, max: int)

  /** `summaryCriteria.get("tat") + " AND a.startTime >= 'date'"`, where the date is the day 14
      days before the clock. */
  function SummaryCriteria(now: Instant): (c: Criteria)
    ensures forall r :: c(r) == (r.tat.Some? && Midnight(DayOf(MinusDays(now, 14))) <= r.startTime)
  {
    (r: Record) => r.tat.Some? && Midnight(DayOf(MinusDays(now, 14))) <= r.startTime
  }

  /** By days: a row is summarized when it has a TAT and started on the day 14 days before
      today or later. */
  lemma SummaryCriteriaDays(r: Record, now: Instant)
    ensures SummaryCriteria(now)(r) <==> r.tat.Some? && DayOf(now) - 14 <= DayOf(r.startTime)
  {
    MinusDaysDay(now, 14);
    MidnightCompare(r.startTime, DayOf(now) - 14);
  }

  /** `summarizeData(toSummarize)`. Only "tat" has summary criteria; any other name makes the
      criteria start with "null", the query fails and there is no summary. The maximum is 0 when
      no row qualifies, and otherwise the largest TAT of a qualifying row. */
  function SummarizeData(toSummarize: string, table: Table, now: Instant): (s: Option<DataSummary>)
    ensures s.None? <==> toSummarize != "tat"
    ensures s.Some? ==> s.value.stat == toSummarize
    ensures s.Some? && (forall i :: 0 <= i < |table| ==> !SummaryCriteria(now)(table[i])) ==>
              s.value.max == 0
    ensures s.Some? && (exists i :: 0 <= i < |table| && SummaryCriteria(now)(table[i])) ==>
              (exists i :: 0 <= i < |table| && SummaryCriteria(now)(table[i])
                 && table[i].tat == Some(s.value.max))
              && forall i :: 0 <= i < |table| && SummaryCriteria(now)(table[i]) ==>
                   table[i].tat.value <= s.value.max
  {
    if toSummarize == "tat" then
      Some(DataSummary(toSummarize, FindMax(table, (r: Record) => r.tat, SummaryCriteria(now))))
    else
      None
  }

  /** A row that started more than 14 days before today does not move the summary. */
  lemma OldRowsDoNotMatter(t1: Table, r: Record, t2: Table, now: Instant)
    requires DayOf(r.startTime) < DayOf(now) - 14
    ensures SummarizeData("tat", t1 + [r] + t2, now) == SummarizeData("tat", t1 + t2, now)
  {
    SummaryCriteriaDays(r, now);
    MaxOfSkips(t1, r, t2, (r: Record) => r.tat, SummaryCriteria(now));
  }

  class SampleStatsService {
    /** The report statistics the service passes its report calls to. */
    const reportStats: ReportStats

    /** `SampleStatsService(dao)`: a fresh report statistics object, with no window stored. */
    constructor ()
      ensures fresh(reportStats)
      ensures reportStats.startTime.None? && reportStats.endTime.None?
    {
      reportStats := new ReportStats();
    }

    /** `findPendingAssets()`. */
    method FindPendingAssets(table: Table, now: Instant) returns (assets: seq<PendingAsset>)
      ensures |assets| == |PendingRows(table, All(), now)|
      ensures forall k :: 0 <= k < |assets| ==>
                var row := PendingRows(table, All(), now)[k];
                assets[k].npNumber == row.npNumber && assets[k].biopsyType == row.biopsyType
                && assets[k].startTime == ConstructorText(row.startTime, now)
    {
      assets := FindAllPendingAssets(table, now);
    }

    /** `countPendingAssets()`: every pending row, however old. */
    method CountPendingAssets(table: Table) returns (n: nat)
      ensures n == Count(table, Pending)
    {
      n := FindPendingAssetsCount(table);
    }

    /** `countCasesOverTime(time)`: "month" counts the current month, anything else the fixed
        window from 2020-01-01 to 2020-02-28, whatever the clock reads. */
    method CountCasesOverTime(time: string, table: Table, now: Instant) returns (n: nat)
      ensures time == "month" ==> n == CountCurrentMonth(table, now)
      ensures time != "month" ==> n == Count(table, StartedWithin(18262, 18320))
    {
      if time == "month" {
        n := CountCurrentMonth(table, now);
      } else {
        YearWindowFixed(table);
        n := CountCurrentYear(table);
      }
    }

    /** `findPendingAssetsBreakout(startDays, endDays)`. */
    method FindPendingAssetsBreakout(table: Table, startDays: seq<int>, endDays: seq<int>, now: Instant)
      returns (pendingCount: seq<nat>)
      requires |startDays| <= |endDays|
      ensures |pendingCount| == |startDays|
      ensures forall i :: 0 <= i < |startDays| ==>
                pendingCount[i] == Count(table, ClosedWindow(now, startDays[i], endDays[i]))
    {
      pendingCount := BreakoutByTime(table, startDays, endDays, now);
    }

    /** `findPendingAssetsBreakout(startDays, endDays, type)`. The type arrives from outside, so
        it is never the very "internal" literal the statistics compare it to by reference: every
        entry counts the external cases, whatever the type says. */
    method FindPendingAssetsBreakoutByOrigin(table: Table, startDays: seq<int>, endDays: seq<int>,
        origin: string, now: Instant) returns (pendingCount: seq<nat>)
      requires |startDays| <= |endDays|
      ensures |pendingCount| == |startDays|
      ensures forall i :: 0 <= i < |startDays| ==>
                pendingCount[i] == Count(table, StrictWindow(now, startDays[i], endDays[i], External))
    {
      pendingCount := BreakoutByTimeAndOrigin(table, startDays, endDays, false, now);
      forall i | 0 <= i < |startDays|
        ensures pendingCount[i] == Count(table, StrictWindow(now, startDays[i], endDays[i], External))
      {
        CountCongruent(table, StrictWindow(now, startDays[i], endDays[i], OriginCriteria(false)),
          StrictWindow(now, startDays[i], endDays[i], External));
      }
    }

    /** `findPendingAssetsBreakout(startDays, endDays, type, parity)`. */
    method FindPendingAssetsBreakoutByOriginAndParity(table: Table, startDays: seq<int>,
        endDays: seq<int>, origin: string, parity: string, now: Instant) returns (pendingCount: seq<nat>)
      requires |startDays| <= |endDays|
      ensures |pendingCount| == |startDays|
      ensures forall i :: 0 <= i < |startDays| ==>
                pendingCount[i] == Count(table, StrictWindow(now, startDays[i], endDays[i],
                  OriginAndParityCriteria(origin == "internal", parity == "even")))
    {
      pendingCount := BreakoutByTimeOriginAndParity(table, startDays, endDays, origin, parity, now);
    }

    /** `findPendingCasesByOrigin(origin)`. */
    method FindPendingCasesByOrigin(table: Table, origin: string, now: Instant)
      returns (assets: seq<PendingAsset>)
      ensures var rows := PendingRows(table, OriginCriteria(origin == "internal"), now);
              |assets| == |rows|
              && forall k :: 0 <= k < |assets| ==>
                   assets[k].npNumber == rows[k].npNumber && assets[k].biopsyType == rows[k].biopsyType
                   && assets[k].startTime == ConstructorText(rows[k].startTime, now)
    {
      assets := PendingStats.FindPendingCasesByOrigin(table, origin, now);
    }

    /** `findPendingCasesByOriginAndParity(origin, parity)`. */
    method FindPendingCasesByOriginAndParity(table: Table, origin: string, parity: string, now: Instant)
      returns (assets: seq<PendingAsset>)
      ensures var rows := PendingRows(table, OriginAndParityCriteria(origin == "internal", parity == "even"), now);
              |assets| == |rows|
              && forall k :: 0 <= k < |assets| ==>
                   assets[k].npNumber == rows[k].npNumber && assets[k].biopsyType == rows[k].biopsyType
                   && assets[k].startTime == ConstructorText(rows[k].startTime, now)
    {
      assets := PendingStats.FindPendingCasesByOriginAndParity(table, origin, parity, now);
    }

    /** `findCasesCount(days)`. */
    method FindCasesCount(days: int, table: Table, now: Instant) returns (casesCount: seq<CasesCount>)
      ensures |casesCount| == if days > 0 then days else 0
      ensures forall k :: 0 <= k < |casesCount| ==>
                casesCount[k].internalCasesCount == Count(table, InternalWithin(DayFrom(now, k), DayTo(now, k)))
                && casesCount[k].externalCasesCount == Count(table, ExternalWithin(DayFrom(now, k), DayTo(now, k)))
    {
      casesCount := FindDailyCount(days, table, now);
    }

    /** `findSampleTypeBreakout(startTime, endTime)`: also stores the window for the later TAT
        and request breakouts. */
    method FindSampleTypeBreakout(table: Table, startTime: Day, endTime: Day)
      returns (sampleTypeCount: seq<nat>)
      modifies reportStats
      ensures reportStats.startTime == Some(startTime) && reportStats.endTime == Some(endTime)
      ensures |sampleTypeCount| == |SampleTypes|
      ensures forall i :: 0 <= i < |SampleTypes| ==>
                sampleTypeCount[i]
                  == CountByDateAndCriteria(table, SampleTypeCriteria(SampleTypes[i]), startTime, endTime)
    {
      sampleTypeCount := reportStats.FindBreakoutBySampleType(table, startTime, endTime);
    }

    /** `findTatBreakout(sampleType, startValues, endValues)`: within the window stored by the
        last sample type breakout. */
    method FindTatBreakout(table: Table, sampleType: string, startValues: seq<int>, endValues: seq<int>)
      returns (tatTypeCount: Option<seq<nat>>)
      requires |startValues| <= |endValues|
      ensures tatTypeCount.None? <==>
                |startValues| > 0 && (reportStats.startTime.None? || reportStats.endTime.None?)
      ensures tatTypeCount.Some? ==>
                |tatTypeCount.value| == |startValues|
                && forall i :: 0 <= i < |startValues| ==>
                     tatTypeCount.value[i] == CountByDateAndCriteria(table,
                       TatCriteria(sampleType, startValues[i], endValues[i]),
                       reportStats.startTime.value, reportStats.endTime.value)
    {
      tatTypeCount := reportStats.FindSampleBreakoutByTat(table, sampleType, startValues, endValues);
    }

    /** `findRequestBreakout(sampleType, tatStart, tatEnd)`: the arguments are passed on in the
        order (tatStart, tatEnd, sampleType). */
    method FindRequestBreakout(table: Table, sampleType: string, tatStart: int, tatEnd: int)
      returns (result: Option<seq<RequestCount>>)
      ensures (reportStats.startTime.None? || reportStats.endTime.None?) ==> result.None?
      ensures reportStats.startTime.Some? && reportStats.endTime.Some? ==>
                DecodedGroups(result, RequestGroups(table, TatCriteria(sampleType, tatStart, tatEnd),
                  reportStats.startTime.value, reportStats.endTime.value))
    {
      result := reportStats.FindTatBreakoutByRequests(table, tatStart, tatEnd, sampleType);
    }
  }

  /** A fresh service has no window: a TAT breakout with any range fails, and a request breakout
      fails, until a sample type breakout has stored a window. */
  method FreshServiceHasNoWindow(table: Table, sampleType: string, lo: int, hi: int)
    returns (tat: Option<seq<nat>>, requests: Option<seq<RequestCount>>)
    ensures tat.None? && requests.None?
  {
    var service := new SampleStatsService();
    tat := service.FindTatBreakout(table, sampleType, [lo], [hi]);
    requests := service.FindRequestBreakout(table, sampleType, lo, hi);
  }

  /** After a sample type breakout, the TAT breakout counts within that breakout's window, and
      each of its entries is at most the sample type's entry. */
  method TatBreakoutAfterSampleTypes(table: Table, first: Day, last: Day, lo: int, hi: int)
    returns (sampleTypeCount: seq<nat>, tat: Option<seq<nat>>)
    ensures |sampleTypeCount| == |SampleTypes| && tat.Some? && |tat.value| == 1
    ensures tat.value[0] == CountByDateAndCriteria(table, TatCriteria("Tumor", lo, hi), first, last)
    ensures tat.value[0] <= sampleTypeCount[0]
  {
    var service := new SampleStatsService();
    sampleTypeCount := service.FindSampleTypeBreakout(table, first, last);
    tat := service.FindTatBreakout(table, "Tumor", [lo], [hi]);
    TatEntryWithinSampleType(table, "Tumor", lo, hi, first, last);
  }
}
