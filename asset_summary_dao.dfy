/** `AssetSummaryDao`: the read-only queries over the asset_summary table. The table is a
    sequence of rows and an HQL `WHERE` clause the predicate it denotes. */
module AssetSummaryDao {
  import opened Wrappers
  import opened Text
  import opened Calendar
  import opened AssetSummaries
  import opened RequestCodes
  import opened PendingAssets
  import opened Rows

  type Table = seq<Record>
  type Criteria = Record -> bool

  // ---------------------------------------------------------------------------------------
  // The predicates the criteria strings of the services denote

  /** `a.endTime IS NULL`. */
  predicate Pending(r: Record) {
    r.endTime.None?
  }

  /** `a.npNumber LIKE 'X%'`: an externally registered asset. */
  predicate External(r: Record) {
    StartsWith(r.npNumber, "X")
  }

  /** `a.biopsyType like '%sampleType%'`. */
  predicate BiopsyLike(r: Record, sampleType: string) {
    Contains(r.biopsyType, sampleType)
  }

  /** `lo <= a.tat AND a.tat <= hi`; false on a null TAT. */
  predicate TatBetween(r: Record, lo: int, hi: int) {
    r.tat.Some? && lo <= r.tat.value <= hi
  }

  /** The empty criteria string. */
  function All(): (c: Criteria)
    ensures forall r :: c(r)
  {
    (r: Record) => true
  }

  // countByCriteria(criteria) is `Count(table, criteria)`: every row has an NP number, so
  // `COUNT(a.npNumber)` counts the matching rows.

  // ---------------------------------------------------------------------------------------
  // findMax

  /** `findMax(stat, criteria)`: the largest non-null value of the column over the matching rows,
      and 0 when there is none. */
  function FindMax(table: Table, column: Record -> Option<int>, criteria: Criteria): (m: int)
    ensures (forall i :: 0 <= i < |table| && criteria(table[i]) ==> column(table[i]).None?)
            ==> m == 0
    ensures (exists i :: 0 <= i < |table| && criteria(table[i]) && column(table[i]).Some?) ==>
              (exists i :: 0 <= i < |table| && criteria(table[i]) && column(table[i]) == Some(m))
              && forall i :: 0 <= i < |table| && criteria(table[i]) && column(table[i]).Some?
                   ==> column(table[i]).value <= m
  {
    MaxOf(table, column, criteria).GetOr(0)
  }

  // ---------------------------------------------------------------------------------------
  // countByDateAndCriteria

  /** `a.endTime >= 'first' AND a.startTime <= 'last'`: the asset was being processed at some
      time in the window from midnight of `first` to midnight of `last`. A pending asset never
      satisfies it, since comparing a null end time is not true. */
  predicate Overlaps(r: Record, first: Day, last: Day) {
    r.endTime.Some? && Midnight(first) <= r.endTime.value && r.startTime <= Midnight(last)
  }

  /** The criteria of `countByDateAndCriteria`. */
  function InWindow(criteria: Criteria, first: Day, last: Day): (c: Criteria)
    ensures forall r :: c(r) == (criteria(r) && Overlaps(r, first, last))
  {
    (r: Record) => criteria(r) && Overlaps(r, first, last)
  }

  /** `countByDateAndCriteria(criteria, first, last)`. */
  function CountByDateAndCriteria(table: Table, criteria: Criteria, first: Day, last: Day): (n: nat)
    ensures n <= Count(table, criteria)
  {
    CountMonotone(table, InWindow(criteria, first, last), criteria);
    Count(table, InWindow(criteria, first, last))
  }

  /** A pending row never counts, wherever it stands in the table. */
  lemma PendingNeverCountedByDate(t1: Table, r: Record, t2: Table, criteria: Criteria, first: Day, last: Day)
    requires Pending(r)
    ensures CountByDateAndCriteria(t1 + [r] + t2, criteria, first, last)
      == CountByDateAndCriteria(t1 + t2, criteria, first, last)
  {
    CountSkips(t1, r, t2, InWindow(criteria, first, last));
  }

  /** Widening the window can only add rows. */
  lemma WiderWindowCountsMore(table: Table, criteria: Criteria, first: Day, last: Day,
      first': Day, last': Day)
    requires first' <= first && last <= last'
    ensures CountByDateAndCriteria(table, criteria, first, last)
      <= CountByDateAndCriteria(table, criteria, first', last')
  {
    MidnightMonotone(first', first);
    MidnightMonotone(last, last');
    CountMonotone(table, InWindow(criteria, first, last), InWindow(criteria, first', last'));
  }

  /** The key of `ORDER BY a.startTime`. */
  function StartOf(r: Record): int {
    r.startTime
  }

  // ---------------------------------------------------------------------------------------
  // findPendingAssets

  /** `a.endTime IS NULL AND a.startTime >= 'today-90' AND a.startTime < 'today'`. */
  predicate InPendingWindow(r: Record, now: Instant) {
    Pending(r)
    && Midnight(DayOf(MinusDays(now, 90))) <= r.startTime
    && r.startTime < Midnight(DayOf(now))
  }

  /** By days: pending, started within the 90 days before today and not today. */
  lemma InPendingWindowDays(r: Record, now: Instant)
    ensures InPendingWindow(r, now) <==>
              Pending(r) && DayOf(now) - 90 <= DayOf(r.startTime) < DayOf(now)
  {
    MinusDaysDay(now, 90);
    MidnightCompare(r.startTime, DayOf(now) - 90);
    MidnightCompare(r.startTime, DayOf(now));
  }

  function PendingCriteria(extra: Criteria, now: Instant): (c: Criteria)
    ensures forall r :: c(r) == (InPendingWindow(r, now) && extra(r))
  {
    (r: Record) => InPendingWindow(r, now) && extra(r)
  }

  /** The rows `findPendingAssets(extra)` projects, in the order of the result. */
  function PendingRows(table: Table, extra: Criteria, now: Instant): (rows: Table)
    ensures forall k :: 0 <= k < |rows| ==> InPendingWindow(rows[k], now) && extra(rows[k])
    ensures Sorted(rows, StartOf)
    ensures multiset(rows) == multiset(Filter(table, PendingCriteria(extra, now)))
    ensures |rows| == Count(table, PendingCriteria(extra, now))
  {
    var rows := Sort(Filter(table, PendingCriteria(extra, now)), StartOf);
    assert forall k :: 0 <= k < |rows| ==> rows[k] in multiset(rows);
    rows
  }

  /** Extra criteria select from the unrestricted result, keeping its order. */
  lemma ExtraCriteriaFilterResult(table: Table, extra: Criteria, now: Instant)
    ensures PendingRows(table, extra, now) == Filter(PendingRows(table, All(), now), extra)
  {
    var base := PendingCriteria(All(), now);
    var restricted := PendingCriteria(extra, now);
    FilterSort(Filter(table, base), StartOf, extra);
    FilterFilter(table, base, extra, restricted);
  }

  /** The projection step of `findPendingAssets`: one `PendingAsset` per row, in order, each
      built with the clock reading `now`. */
  method Project(rows: Table, now: Instant) returns (assets: seq<PendingAsset>)
    ensures |assets| == |rows|
    ensures forall k :: 0 <= k < |assets| ==>
              assets[k].npNumber == rows[k].npNumber && assets[k].biopsyType == rows[k].biopsyType
              && assets[k].startTime == ConstructorText(rows[k].startTime, now)
  {
    assets := [];
    for k := 0 to |rows|
      invariant |assets| == k
      invariant forall j :: 0 <= j < k ==>
                  assets[j].npNumber == rows[j].npNumber && assets[j].biopsyType == rows[j].biopsyType
                  && assets[j].startTime == ConstructorText(rows[j].startTime, now)
    {
      var asset := new PendingAsset(rows[k].npNumber, rows[k].biopsyType, rows[k].startTime, now);
      assets := assets + [asset];
    }
  }

  /** `findPendingAssets(extra)`: the pending rows of the window, oldest first, projected. */
  method FindPendingAssets(table: Table, extra: Criteria, now: Instant) returns (assets: seq<PendingAsset>)
    ensures |assets| == |PendingRows(table, extra, now)|
    ensures forall k :: 0 <= k < |assets| ==>
              var row := PendingRows(table, extra, now)[k];
              assets[k].npNumber == row.npNumber && assets[k].biopsyType == row.biopsyType
              && assets[k].startTime == ConstructorText(row.startTime, now)
  {
    assets := Project(PendingRows(table, extra, now), now);
  }

  // ---------------------------------------------------------------------------------------
  // findCountByRequestType

  /** The key of `GROUP BY a.requestCode`. */
  function CodeOf(r: Record): string {
    r.requestCode
  }

  /** The rows and the groups of `findCountByRequestType(criteria, first, last)`, whose `WHERE`
      clause is `a.endTime >= 'first' AND a.startTime <= 'last' AND criteria` and whose criteria
      end with `GROUP BY a.requestCode`. */
  function RequestRows(table: Table, criteria: Criteria, first: Day, last: Day): Table {
    Filter(table, InWindow(criteria, first, last))
  }

  function RequestGroups(table: Table, criteria: Criteria, first: Day, last: Day): seq<(string, nat)> {
    var rows := RequestRows(table, criteria, first, last);
    Groups(rows, CodeOf, Keys(rows, CodeOf))
  }

  /** Each group counts the matching rows with its request code. */
  lemma {:induction false} RequestGroupCounts(table: Table, criteria: Criteria, first: Day, last: Day, k: int)
    requires 0 <= k < |RequestGroups(table, criteria, first, last)|
    ensures var g := RequestGroups(table, criteria, first, last)[k];
            g.1 == Count(table, (r: Record) => criteria(r) && Overlaps(r, first, last) && r.requestCode == g.0)
  {
    var g := RequestGroups(table, criteria, first, last)[k];
    var c := InWindow(criteria, first, last);
    var both := (r: Record) => criteria(r) && Overlaps(r, first, last) && r.requestCode == g.0;
    FilterCount(table, c, Has(CodeOf, g.0), both);
  }

  /** A pending row never appears among the grouped rows. */
  lemma PendingNeverGrouped(table: Table, criteria: Criteria, first: Day, last: Day)
    ensures forall r :: r in RequestRows(table, criteria, first, last) ==> !Pending(r)
  {
  }

  /** `result` decodes `groups`: none exactly when some code is not well formed, else one
      `RequestCount` per (code, count) pair, with the code's label and the count, in order. */
  predicate DecodedGroups(result: Option<seq<RequestCount>>, groups: seq<(string, nat)>)
    reads if result.Some? then result.value else []
  {
    (result.None? <==> exists k :: 0 <= k < |groups| && !WellFormed(groups[k].0))
    && (result.Some? ==>
          |result.value| == |groups|
          && forall k :: 0 <= k < |groups| ==>
               WellFormed(groups[k].0)
               && result.value[k].requestType == Label(groups[k].0)
               && result.value[k].count == groups[k].1)
  }

  /** The decoding step of `findCountByRequestType`: a `RequestCount` per (code, count) pair,
      in order. Building one throws when its code has a '1' beyond the known request types;
      then there is no result. */
  method CountsOf(groups: seq<(string, nat)>) returns (result: Option<seq<RequestCount>>)
    ensures DecodedGroups(result, groups)
  {
    var counts: seq<RequestCount> := [];
    for k := 0 to |groups|
      invariant |counts| == k
      invariant forall j :: 0 <= j < k ==> WellFormed(groups[j].0)
      invariant forall j :: 0 <= j < k ==>
                  counts[j].requestType == Label(groups[j].0) && counts[j].count == groups[j].1
    {
      if !WellFormed(groups[k].0) {
        return None;
      }
      var rc := new RequestCount(groups[k].0, groups[k].1);
      counts := counts + [rc];
    }
    result := Some(counts);
  }

  /** `findCountByRequestType(criteria, first, last)`: the groups of the matching rows, each
      decoded into a `RequestCount`. */
  method FindCountByRequestType(table: Table, criteria: Criteria, first: Day, last: Day)
    returns (result: Option<seq<RequestCount>>)
    ensures DecodedGroups(result, RequestGroups(table, criteria, first, last))
  {
    result := CountsOf(RequestGroups(table, criteria, first, last));
  }
}
