/** `ReportStats`: the report breakouts. The breakout by sample type stores the window of days
    it was asked for, and the TAT and request breakouts count within the stored window. */
module Reports {
  import opened Wrappers
  import opened Text
  import opened Calendar
  import opened AssetSummaries
  import opened Rows
  import opened RequestCodes
  import opened AssetSummaryDao

  /** The sample types of the breakout, in the order of its entries. */
  const SampleTypes: seq<string> := ["Tumor", "Nerve", "Muscle", "Multiple Biopsies", "Epilepsy",
    "Block", "Slides", "Other"]

  /** `a.biopsyType like '%sampleType%'`. */
  function SampleTypeCriteria(sampleType: string): (c: Criteria)
    ensures forall r :: c(r) == BiopsyLike(r, sampleType)
  {
    (r: Record) => BiopsyLike(r, sampleType)
  }

  /** `a.biopsyType like '%sampleType%' AND lo <= a.tat AND a.tat <= hi`. */
  function TatCriteria(sampleType: string, lo: int, hi: int): (c: Criteria)
    ensures forall r :: c(r) == (BiopsyLike(r, sampleType) && TatBetween(r, lo, hi))
  {
    (r: Record) => BiopsyLike(r, sampleType) && TatBetween(r, lo, hi)
  }

  class ReportStats {
    /** The window last given to `findBreakoutBySampleType`; null until then. */
    var startTime: Option<Day>
    var endTime: Option<Day>

    constructor ()
      ensures startTime.None? && endTime.None?
    {
      startTime := None;
      endTime := None;
    }

    method SetStartTime(startTime: Day)
      modifies this
      ensures this.startTime == Some(startTime) && endTime == old(endTime)
    {
      this.startTime := Some(startTime);
    }

    method SetEndTime(endTime: Day)
      modifies this
      ensures this.endTime == Some(endTime) && startTime == old(startTime)
    {
      this.endTime := Some(endTime);
    }

    /** `findBreakoutBySampleType(startTime, endTime)`: store the window, then count the cases of
        each sample type in it. */
    method FindBreakoutBySampleType(table: Table, startTime: Day, endTime: Day)
      returns (sampleTypeCount: seq<nat>)
      modifies this
      ensures this.startTime == Some(startTime) && this.endTime == Some(endTime)
      ensures |sampleTypeCount| == |SampleTypes|
      ensures forall i :: 0 <= i < |SampleTypes| ==>
                sampleTypeCount[i]
                  == CountByDateAndCriteria(table, SampleTypeCriteria(SampleTypes[i]), startTime, endTime)
    {
      sampleTypeCount := [];
      SetStartTime(startTime);
      SetEndTime(endTime);
      for i := 0 to |SampleTypes|
        invariant this.startTime == Some(startTime) && this.endTime == Some(endTime)
        invariant |sampleTypeCount| == i
        invariant forall j :: 0 <= j < i ==>
                    sampleTypeCount[j]
                      == CountByDateAndCriteria(table, SampleTypeCriteria(SampleTypes[j]), startTime, endTime)
      {
        var n := CountByDateAndCriteria(table, SampleTypeCriteria(SampleTypes[i]),
          this.startTime.value, this.endTime.value);
        sampleTypeCount := sampleTypeCount + [n];
      }
    }

    /** `findSampleBreakoutByTat(sampleType, startValues, endValues)`: per TAT range, the cases of
        the sample type in the stored window. Each range runs a query with the stored window,
        which fails while no window is stored; with no range there is no query. */
    method FindSampleBreakoutByTat(table: Table, sampleType: string, startValues: seq<int>,
      endValues: seq<int>) returns (tatTypeCount: Option<seq<nat>>)
      requires |startValues| <= |endValues|
      ensures tatTypeCount.None? <==> |startValues| > 0 && (startTime.None? || endTime.None?)
      ensures tatTypeCount.Some? ==>
                |tatTypeCount.value| == |startValues|
                && forall i :: 0 <= i < |startValues| ==>
                     tatTypeCount.value[i] == CountByDateAndCriteria(table,
                       TatCriteria(sampleType, startValues[i], endValues[i]), startTime.value, endTime.value)
    {
      if |startValues| > 0 && (startTime.None? || endTime.None?) {
        return None;
      }
      var counts: seq<nat> := [];
      for i := 0 to |startValues|
        invariant |counts| == i
        invariant forall j :: 0 <= j < i ==>
                    counts[j] == CountByDateAndCriteria(table,
                      TatCriteria(sampleType, startValues[j], endValues[j]), startTime.value, endTime.value)
      {
        var start := startValues[i];
        var end := endValues[i];
        counts := counts + [CountByDateAndCriteria(table, TatCriteria(sampleType, start, end),
          startTime.value, endTime.value)];
      }
      tatTypeCount := Some(counts);
    }

    /** `findTatBreakoutByRequests(tatStart, tatEnd, sampleType)`: the request breakout of the
        cases of the sample type and TAT range in the stored window; none while no window is
        stored or when a request code cannot be decoded. */
    method FindTatBreakoutByRequests(table: Table, tatStart: int, tatEnd: int, sampleType: string)
      returns (result: Option<seq<RequestCount>>)
      ensures (startTime.None? || endTime.None?) ==> result.None?
      ensures startTime.Some? && endTime.Some? ==>
                DecodedGroups(result, RequestGroups(table, TatCriteria(sampleType, tatStart, tatEnd),
                  startTime.value, endTime.value))
    {
      if startTime.None? || endTime.None? {
        return None;
      }
      result := FindCountByRequestType(table, TatCriteria(sampleType, tatStart, tatEnd),
        startTime.value, endTime.value);
    }
  }

  /** An entry of the TAT breakout never exceeds the sample type's count in the same window. */
  lemma TatEntryWithinSampleType(table: Table, sampleType: string, lo: int, hi: int, first: Day,
      last: Day)
    ensures CountByDateAndCriteria(table, TatCriteria(sampleType, lo, hi), first, last)
      <= CountByDateAndCriteria(table, SampleTypeCriteria(sampleType), first, last)
  {
    CountMonotone(table, InWindow(TatCriteria(sampleType, lo, hi), first, last),
      InWindow(SampleTypeCriteria(sampleType), first, last));
  }

  /** Adjacent TAT ranges `lo..mid` and `mid + 1..hi` add up to the range `lo..hi`. */
  lemma AdjacentTatRanges(table: Table, sampleType: string, lo: int, mid: int, hi: int, first: Day,
      last: Day)
    requires lo <= mid < hi
    ensures CountByDateAndCriteria(table, TatCriteria(sampleType, lo, mid), first, last)
            + CountByDateAndCriteria(table, TatCriteria(sampleType, mid + 1, hi), first, last)
      == CountByDateAndCriteria(table, TatCriteria(sampleType, lo, hi), first, last)
  {
    CountPartition(table, InWindow(TatCriteria(sampleType, lo, hi), first, last),
      InWindow(TatCriteria(sampleType, lo, mid), first, last),
      InWindow(TatCriteria(sampleType, mid + 1, hi), first, last),
      (r: Record) => r.tat.Some? && r.tat.value <= mid);
  }

  /** "Tumor Nerve" is like both "%Tumor%" and "%Nerve%". */
  lemma TumorNerveLikeBoth()
    ensures Contains("Tumor Nerve", "Tumor") && Contains("Tumor Nerve", "Nerve")
  {
    var s := "Tumor Nerve";
    assert StartsWith(s, "Tumor");
    assert StartsWith(s[6..], "Nerve");
    assert s[5..][1..] == s[6..];
    assert s[4..][1..] == s[5..];
    assert s[3..][1..] == s[4..];
    assert s[2..][1..] == s[3..];
    assert s[1..][1..] == s[2..];
  }

  /** Sample types are matched as substrings, so a case can count under two of them: one
      "Tumor Nerve" case in the window counts once as a tumor and once as a nerve, two in all,
      out of one case. */
  lemma SampleTypesOverlap()
    ensures var r := Record("NP1/20", "Tumor Nerve", 0, Some(Midnight(1)), false, false, false,
              false, false, false, false, false, false, Some(1), "000000000");
            CountByDateAndCriteria([r], SampleTypeCriteria("Tumor"), 0, 1)
            + CountByDateAndCriteria([r], SampleTypeCriteria("Nerve"), 0, 1)
            > CountByDateAndCriteria([r], All(), 0, 1)
  {
    var r := Record("NP1/20", "Tumor Nerve", 0, Some(Midnight(1)), false, false, false,
      false, false, false, false, false, false, Some(1), "000000000");
    TumorNerveLikeBoth();
    assert Overlaps(r, 0, 1);
    var tumor := InWindow(SampleTypeCriteria("Tumor"), 0, 1);
    var nerve := InWindow(SampleTypeCriteria("Nerve"), 0, 1);
    assert BiopsyLike(r, "Tumor") && BiopsyLike(r, "Nerve");
    assert tumor(r) && nerve(r) && [r][0] == r;
    CountEvery([r], tumor);
    CountEvery([r], nerve);
  }
}
