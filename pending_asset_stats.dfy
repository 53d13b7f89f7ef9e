/** `PendingAssetStats`: the dashboard's statistics over pending assets (rows whose end time is
    null): the list of them, their number, the lists restricted by origin and by the parity of
    the NP number, and counts per window of days before the clock. */
module PendingStats {
  import opened Text
  import opened Calendar
  import opened AssetSummaries
  import opened Rows
  import opened PendingAssets
  import opened AssetSummaryDao

  // ---------------------------------------------------------------------------------------
  // Criteria

  /** The even-number criteria: the NP number contains one of "0/", "2/", "4/", "6/", "8/". */
  predicate EvenNumber(np: string) {
    Contains(np, "0/") || Contains(np, "2/") || Contains(np, "4/") || Contains(np, "6/")
    || Contains(np, "8/")
  }

  /** The odd-number criteria: the NP number contains one of "1/", "3/", "5/", "7/", "9/". */
  predicate OddNumber(np: string) {
    Contains(np, "1/") || Contains(np, "3/") || Contains(np, "5/") || Contains(np, "7/")
    || Contains(np, "9/")
  }

  /** Some character of `np` drawn from `digits` is directly followed by '/'. */
  predicate DigitBeforeSlash(np: string, digits: string) {
    exists i :: 0 <= i < |np| - 1 && np[i] in digits && np[i + 1] == '/'
  }

  lemma ContainsDigitSlash(np: string, d: char)
    ensures Contains(np, [d, '/']) <==> exists i :: 0 <= i < |np| - 1 && np[i] == d && np[i + 1] == '/'
  {
    ContainsPair(np, d, '/');
  }

  /** The even criteria hold exactly when an even digit stands right before a '/'. */
  lemma EvenNumberIff(np: string)
    ensures EvenNumber(np) <==> DigitBeforeSlash(np, "02468")
  {
    ContainsDigitSlash(np, '0');
    ContainsDigitSlash(np, '2');
    ContainsDigitSlash(np, '4');
    ContainsDigitSlash(np, '6');
    ContainsDigitSlash(np, '8');
    assert "0/" == ['0', '/'] && "2/" == ['2', '/'] && "4/" == ['4', '/'] && "6/" == ['6', '/']
      && "8/" == ['8', '/'];
  }

  /** The odd criteria hold exactly when an odd digit stands right before a '/'. */
  lemma OddNumberIff(np: string)
    ensures OddNumber(np) <==> DigitBeforeSlash(np, "13579")
  {
    ContainsDigitSlash(np, '1');
    ContainsDigitSlash(np, '3');
    ContainsDigitSlash(np, '5');
    ContainsDigitSlash(np, '7');
    ContainsDigitSlash(np, '9');
    assert "1/" == ['1', '/'] && "3/" == ['3', '/'] && "5/" == ['5', '/'] && "7/" == ['7', '/']
      && "9/" == ['9', '/'];
  }

  /** With a single '/', only the character before it decides. */
  lemma {:induction false} DigitBeforeOnlySlash(pre: string, post: string, digits: string)
    requires |pre| > 0 && '/' !in pre && '/' !in post
    ensures DigitBeforeSlash(pre + "/" + post, digits) <==> pre[|pre| - 1] in digits
  {
    var np, k := pre + "/" + post, |pre|;
    assert np[k] == '/' && np[k - 1] == pre[k - 1];
    assert forall i :: 0 <= i < k ==> np[i] == pre[i];
    assert forall i :: k < i < |np| ==> np[i] == post[i - k - 1];
  }

  /** The parity tests look at every digit right before a slash, not at the number as a whole:
      "NP19/22" is odd and not even, "NP20/22" even and not odd, "NP12/3/22" both, "NP20"
      neither. */
  lemma OddExample()
    ensures OddNumber("NP19/22") && !EvenNumber("NP19/22")
  {
    var np := "NP19/22";
    OddNumberIff(np);
    assert np[3] == '9' && np[4] == '/';
    NotEvenExample();
  }

  lemma NotEvenExample()
    ensures !EvenNumber("NP19/22")
  {
    DigitBeforeOnlySlash("NP19", "22", "02468");
    EvenNumberIff("NP19/22");
  }

  lemma EvenExample()
    ensures EvenNumber("NP20/22") && !OddNumber("NP20/22")
  {
    var np := "NP20/22";
    EvenNumberIff(np);
    assert np[3] == '0' && np[4] == '/';
    NotOddExample();
  }

  lemma NotOddExample()
    ensures !OddNumber("NP20/22")
  {
    DigitBeforeOnlySlash("NP20", "22", "13579");
    OddNumberIff("NP20/22");
  }

  lemma BothExample()
    ensures EvenNumber("NP12/3/22") && OddNumber("NP12/3/22")
  {
    var np := "NP12/3/22";
    ContainsDigitSlash(np, '2');
    ContainsDigitSlash(np, '3');
    assert np[3] == '2' && np[4] == '/';
    assert np[5] == '3' && np[6] == '/';
    assert "2/" == ['2', '/'] && "3/" == ['3', '/'];
  }

  lemma NeitherExample()
    ensures !EvenNumber("NP20") && !OddNumber("NP20")
  {
    var np := "NP20";
    EvenNumberIff(np);
    OddNumberIff(np);
    assert '/' !in np;
  }

  /** `a.npNumber NOT LIKE 'X%'` for the internal origin, `a.npNumber LIKE 'X%'` otherwise. */
  function OriginCriteria(internal: bool): (c: Criteria)
    ensures forall r :: c(r) == (if internal then !External(r) else External(r))
  {
    (r: Record) => if internal then !External(r) else External(r)
  }

  /** The even criteria for parity "even", the odd criteria otherwise. */
  function ParityCriteria(even: bool): (c: Criteria)
    ensures forall r :: c(r) == (if even then EvenNumber(r.npNumber) else OddNumber(r.npNumber))
  {
    (r: Record) => if even then EvenNumber(r.npNumber) else OddNumber(r.npNumber)
  }

  /** The origin test and, in parentheses, the parity disjunction. */
  function OriginAndParityCriteria(internal: bool, even: bool): (c: Criteria)
    ensures forall r :: c(r) == (OriginCriteria(internal)(r) && ParityCriteria(even)(r))
  {
    (r: Record) => OriginCriteria(internal)(r) && ParityCriteria(even)(r)
  }

  // ---------------------------------------------------------------------------------------
  // Lists and the count

  /** `findPendingAssets()`: the DAO query with empty criteria. */
  method FindAllPendingAssets(table: Table, now: Instant) returns (assets: seq<PendingAsset>)
    ensures |assets| == |PendingRows(table, All(), now)|
    ensures forall k :: 0 <= k < |assets| ==>
              var row := PendingRows(table, All(), now)[k];
              assets[k].npNumber == row.npNumber && assets[k].biopsyType == row.biopsyType
              && assets[k].startTime == ConstructorText(row.startTime, now)
  {
    assets := FindPendingAssets(table, All(), now);
  }

  /** `findPendingAssetsCount()`: every pending row, with no window of days. */
  function FindPendingAssetsCount(table: Table): (n: nat) {
    Count(table, Pending)
  }

  /** The count is at least the length of the list, which only keeps the last 90 days. */
  lemma PendingCountCoversList(table: Table, now: Instant)
    ensures |PendingRows(table, All(), now)| <= FindPendingAssetsCount(table)
  {
    CountMonotone(table, PendingCriteria(All(), now), Pending);
  }

  /** `findPendingCasesByOrigin(origin)`. */
  method FindPendingCasesByOrigin(table: Table, origin: string, now: Instant)
    returns (assets: seq<PendingAsset>)
    ensures var rows := PendingRows(table, OriginCriteria(origin == "internal"), now);
            |assets| == |rows|
            && forall k :: 0 <= k < |assets| ==>
                 assets[k].npNumber == rows[k].npNumber && assets[k].biopsyType == rows[k].biopsyType
                 && assets[k].startTime == ConstructorText(rows[k].startTime, now)
  {
    assets := FindPendingAssets(table, OriginCriteria(origin == "internal"), now);
  }

  /** `findPendingCasesByOriginAndParity(origin, parity)`. */
  method FindPendingCasesByOriginAndParity(table: Table, origin: string, parity: string, now: Instant)
    returns (assets: seq<PendingAsset>)
    ensures var rows := PendingRows(table, OriginAndParityCriteria(origin == "internal", parity == "even"), now);
            |assets| == |rows|
            && forall k :: 0 <= k < |assets| ==>
                 assets[k].npNumber == rows[k].npNumber && assets[k].biopsyType == rows[k].biopsyType
                 && assets[k].startTime == ConstructorText(rows[k].startTime, now)
  {
    assets := FindPendingAssets(table, OriginAndParityCriteria(origin == "internal", parity == "even"), now);
  }

  /** The internal and the external lists split the unrestricted list between them. */
  lemma OriginsSplitPending(table: Table, now: Instant)
    ensures |PendingRows(table, OriginCriteria(true), now)| + |PendingRows(table, OriginCriteria(false), now)|
      == |PendingRows(table, All(), now)|
  {
    var all := PendingRows(table, All(), now);
    ExtraCriteriaFilterResult(table, OriginCriteria(true), now);
    ExtraCriteriaFilterResult(table, OriginCriteria(false), now);
    CountPartition(all, All(), OriginCriteria(true), OriginCriteria(false), (r: Record) => !External(r));
    CountEvery(all, All());
  }

  // ---------------------------------------------------------------------------------------
  // Counts per window of days

  /** `a.endTime IS NULL AND ('end' < a.startTime AND a.startTime <= 'start')`, where 'end' and
      'start' are the dates `endDays` and `startDays` days before the clock. */
  predicate PendingStrictlyBetween(r: Record, now: Instant, startDays: int, endDays: int) {
    Pending(r)
    && Midnight(DayOf(MinusDays(now, endDays))) < r.startTime
    && r.startTime <= Midnight(DayOf(MinusDays(now, startDays)))
  }

  /** `a.endTime IS NULL AND 'end' <= a.startTime AND a.startTime <= 'start'`. */
  predicate PendingBetween(r: Record, now: Instant, startDays: int, endDays: int) {
    Pending(r)
    && Midnight(DayOf(MinusDays(now, endDays))) <= r.startTime
    && r.startTime <= Midnight(DayOf(MinusDays(now, startDays)))
  }

  /** The criteria of one window of the origin breakouts. */
  function StrictWindow(now: Instant, startDays: int, endDays: int, extra: Criteria): (c: Criteria)
    ensures forall r :: c(r) == (PendingStrictlyBetween(r, now, startDays, endDays) && extra(r))
  {
    (r: Record) => PendingStrictlyBetween(r, now, startDays, endDays) && extra(r)
  }

  /** The criteria of one window of the plain breakout. */
  function ClosedWindow(now: Instant, startDays: int, endDays: int): (c: Criteria)
    ensures forall r :: c(r) == PendingBetween(r, now, startDays, endDays)
  {
    (r: Record) => PendingBetween(r, now, startDays, endDays)
  }

  /** By days: the window runs from midnight `endDays` days before today, excluded, to midnight
      `startDays` days before today, included. */
  lemma StrictWindowDays(r: Record, now: Instant, startDays: int, endDays: int)
    ensures PendingStrictlyBetween(r, now, startDays, endDays) <==>
              Pending(r)
              && Midnight(DayOf(now) - endDays) < r.startTime
              && r.startTime <= Midnight(DayOf(now) - startDays)
  {
    MinusDaysDay(now, endDays);
    MinusDaysDay(now, startDays);
  }

  /** `findPendingAssetBreakoutByTime(startDays, endDays, type)`. The origin test is the
      reference comparison `type == "internal"`, given as `typeIsInternal`. */
  method BreakoutByTimeAndOrigin(table: Table, startDays: seq<int>, endDays: seq<int>,
      typeIsInternal: bool, now: Instant) returns (pendingCount: seq<nat>)
    requires |startDays| <= |endDays|
    ensures |pendingCount| == |startDays|
    ensures forall i :: 0 <= i < |startDays| ==>
              pendingCount[i] == Count(table, StrictWindow(now, startDays[i], endDays[i], OriginCriteria(typeIsInternal)))
  {
    var npNumCriteria := OriginCriteria(typeIsInternal);
    pendingCount := [];
    for i := 0 to |startDays|
      invariant |pendingCount| == i
      invariant forall j :: 0 <= j < i ==>
                  pendingCount[j] == Count(table, StrictWindow(now, startDays[j], endDays[j], npNumCriteria))
    {
      pendingCount := pendingCount + [Count(table, StrictWindow(now, startDays[i], endDays[i], npNumCriteria))];
    }
  }

  /** `findPendingAssetBreakoutByTime(startDays, endDays, type, parity)`. */
  method BreakoutByTimeOriginAndParity(table: Table, startDays: seq<int>, endDays: seq<int>,
      origin: string, parity: string, now: Instant) returns (pendingCount: seq<nat>)
    requires |startDays| <= |endDays|
    ensures |pendingCount| == |startDays|
    ensures forall i :: 0 <= i < |startDays| ==>
              pendingCount[i] == Count(table, StrictWindow(now, startDays[i], endDays[i],
                OriginAndParityCriteria(origin == "internal", parity == "even")))
  {
    var criteria := OriginAndParityCriteria(origin == "internal", parity == "even");
    pendingCount := [];
    for i := 0 to |startDays|
      invariant |pendingCount| == i
      invariant forall j :: 0 <= j < i ==>
                  pendingCount[j] == Count(table, StrictWindow(now, startDays[j], endDays[j], criteria))
    {
      pendingCount := pendingCount + [Count(table, StrictWindow(now, startDays[i], endDays[i], criteria))];
    }
  }

  /** `findPendingAssetBreakoutByTime(startDays, endDays)`: both ends of each window included. */
  method BreakoutByTime(table: Table, startDays: seq<int>, endDays: seq<int>, now: Instant)
    returns (pendingCount: seq<nat>)
    requires |startDays| <= |endDays|
    ensures |pendingCount| == |startDays|
    ensures forall i :: 0 <= i < |startDays| ==>
              pendingCount[i] == Count(table, ClosedWindow(now, startDays[i], endDays[i]))
  {
    pendingCount := [];
    for i := 0 to |startDays|
      invariant |pendingCount| == i
      invariant forall j :: 0 <= j < i ==>
                  pendingCount[j] == Count(table, ClosedWindow(now, startDays[j], endDays[j]))
    {
      pendingCount := pendingCount + [Count(table, ClosedWindow(now, startDays[i], endDays[i]))];
    }
  }

  /** A window whose far end is not further back than its near end is empty. */
  lemma StrictWindowEmpty(table: Table, now: Instant, startDays: int, endDays: int, extra: Criteria)
    requires endDays <= startDays
    ensures Count(table, StrictWindow(now, startDays, endDays, extra)) == 0
  {
    MidnightMonotone(DayOf(now) - startDays, DayOf(now) - endDays);
    forall r ensures !PendingStrictlyBetween(r, now, startDays, endDays) {
      StrictWindowDays(r, now, startDays, endDays);
    }
  }

  /** Adjacent windows of the origin breakouts share no row: their counts add up to the count
      of the window they make together. */
  lemma AdjacentStrictWindows(table: Table, now: Instant, a: int, b: int, c: int, extra: Criteria)
    requires a <= b <= c
    ensures Count(table, StrictWindow(now, a, b, extra)) + Count(table, StrictWindow(now, b, c, extra))
      == Count(table, StrictWindow(now, a, c, extra))
  {
    var today := DayOf(now);
    MinusDaysDay(now, a);
    MinusDaysDay(now, b);
    MinusDaysDay(now, c);
    MidnightMonotone(today - c, today - b);
    MidnightMonotone(today - b, today - a);
    var later := (r: Record) => Midnight(today - b) < r.startTime;
    CountPartition(table, StrictWindow(now, a, c, extra), StrictWindow(now, a, b, extra),
      StrictWindow(now, b, c, extra), later);
  }

  /** Adjacent windows of the plain breakout both count a pending row that starts exactly at
      their shared midnight. */
  lemma AdjacentClosedWindows(table: Table, now: Instant, a: int, b: int, c: int)
    requires a <= b <= c
    ensures Count(table, ClosedWindow(now, a, b)) + Count(table, ClosedWindow(now, b, c))
      == Count(table, ClosedWindow(now, a, c))
         + Count(table, (r: Record) => Pending(r) && r.startTime == Midnight(DayOf(now) - b))
  {
    var today := DayOf(now);
    MinusDaysDay(now, a);
    MinusDaysDay(now, b);
    MinusDaysDay(now, c);
    MidnightMonotone(today - c, today - b);
    MidnightMonotone(today - b, today - a);
    CountInclusionExclusion(table, ClosedWindow(now, a, b), ClosedWindow(now, b, c),
      ClosedWindow(now, a, c), (r: Record) => Pending(r) && r.startTime == Midnight(today - b));
  }
}
