/** `AssetSummary`: one row of the asset_summary table, a specimen with its start and end
    instants, its nine special-request flags, its turnaround time in days and its request code. */
module AssetSummaries {
  import opened Wrappers
  import opened Calendar

  /** A row as the queries see it. A null end time (a pending asset) or a null TAT is `None`. */
  datatype Record = Record(
    npNumber: string,
    biopsyType: string,
    startTime: Instant,
    endTime: Option<Instant>,
    specialStains: bool,
    ihc: bool,
    decal: bool,
    deeper: bool,
    processAll: bool,
    keptForFixation: bool,
    ehc: bool,
    semithin: bool,
    em: bool,
    tat: Option<int>,
    requestCode: string)

  /** `Days.daysBetween(start, end).getDays()` in UTC: the whole days from `start` to `end`,
      truncated toward zero, negative when `end` is earlier. */
  function DaysBetween(start: Instant, end: Instant): int {
    if start <= end then (end - start) / MillisPerDay else -((start - end) / MillisPerDay)
  }

  /** The number of whole days is the largest count of full days that fits in the span. */
  lemma DaysBetweenBounds(start: Instant, end: Instant)
    ensures start <= end ==>
              0 <= DaysBetween(start, end)
              && DaysBetween(start, end) * MillisPerDay <= end - start
              && end - start < (DaysBetween(start, end) + 1) * MillisPerDay
    ensures end < start ==>
              DaysBetween(start, end) <= 0
              && -DaysBetween(start, end) * MillisPerDay <= start - end
              && start - end < (-DaysBetween(start, end) + 1) * MillisPerDay
  {
  }

  /** Swapping the instants negates the count. */
  lemma DaysBetweenAntisymmetric(start: Instant, end: Instant)
    ensures DaysBetween(end, start) == -DaysBetween(start, end)
  {
  }

  /** A span of exactly `n` days counts `n`, wherever it starts. */
  lemma DaysBetweenWholeDays(start: Instant, n: nat)
    ensures DaysBetween(start, start + n * MillisPerDay) == n
  {
  }

  class AssetSummary {
    var npNumber: string
    var biopsyType: string
    var startTime: Instant
    var endTime: Option<Instant>
    var specialStains: bool
    var ihc: bool
    var decal: bool
    var deeper: bool
    var processAll: bool
    var keptForFixation: bool
    var ehc: bool
    var semithin: bool
    var em: bool
    var tat: Option<int>
    var requestCode: string

    /** The entity's fields as a row. */
    function Row(): Record
      reads this
    {
      Record(npNumber, biopsyType, startTime, endTime, specialStains, ihc, decal, deeper,
        processAll, keptForFixation, ehc, semithin, em, tat, requestCode)
    }

    /** The full constructor: copies every argument and computes the TAT from the two instants.
        `daysBetween` throws on a null instant, so the end time must be present. */
    constructor (npNumber: string, biopsyType: string, startTime: Instant, endTime: Option<Instant>,
      specialStains: bool, ihc: bool, decal: bool, deeper: bool, processAll: bool,
      keptForFixation: bool, ehc: bool, semithin: bool, em: bool, requestType: string)
      requires endTime.Some?
      ensures Row() == Record(npNumber, biopsyType, startTime, endTime, specialStains, ihc, decal,
        deeper, processAll, keptForFixation, ehc, semithin, em,
        Some(DaysBetween(startTime, endTime.value)), requestType)
    {
      this.npNumber := npNumber;
      this.biopsyType := biopsyType;
      this.startTime := startTime;
      this.endTime := endTime;
      this.specialStains := specialStains;
      this.ihc := ihc;
      this.decal := decal;
      this.deeper := deeper;
      this.processAll := processAll;
      this.keptForFixation := keptForFixation;
      this.ehc := ehc;
      this.semithin := semithin;
      this.em := em;
      this.tat := Some(DaysBetween(startTime, endTime.value));
      this.requestCode := requestType;
    }

    /** The no-argument constructor the ORM uses: every reference field null, every flag false.
        The model has no null string, so the strings start empty and the start at the epoch. */
    constructor Empty()
      ensures endTime.None? && tat.None?
      ensures !specialStains && !ihc && !decal && !deeper && !processAll && !keptForFixation
        && !ehc && !semithin && !em
    {
      npNumber := "";
      biopsyType := "";
      startTime := 0;
      endTime := None;
      specialStains := false;
      ihc := false;
      decal := false;
      deeper := false;
      processAll := false;
      keptForFixation := false;
      ehc := false;
      semithin := false;
      em := false;
      tat := None;
      requestCode := "";
    }

    /** `getTat()` unboxes the field, which throws when it is null. */
    method GetTat() returns (t: int)
      requires tat.Some?
      ensures Some(t) == tat
    {
      t := tat.value;
    }

    method SetRequestType(requestType: string)
      modifies this
      ensures Row() == old(Row()).(requestCode := requestType)
    {
      this.requestCode := requestType;
    }

    method SetNpNumber(npNumber: string)
      modifies this
      ensures Row() == old(Row()).(npNumber := npNumber)
    {
      this.npNumber := npNumber;
    }

    method SetBiopsyType(biopsyType: string)
      modifies this
      ensures Row() == old(Row()).(biopsyType := biopsyType)
    {
      this.biopsyType := biopsyType;
    }

    method SetStartTime(startTime: Instant)
      modifies this
      ensures Row() == old(Row()).(startTime := startTime)
    {
      this.startTime := startTime;
    }

    method SetEndTime(endTime: Option<Instant>)
      modifies this
      ensures Row() == old(Row()).(endTime := endTime)
    {
      this.endTime := endTime;
    }

    method SetSpecialStains(specialStains: bool)
      modifies this
      ensures Row() == old(Row()).(specialStains := specialStains)
    {
      this.specialStains := specialStains;
    }

    method SetIhc(ihc: bool)
      modifies this
      ensures Row() == old(Row()).(ihc := ihc)
    {
      this.ihc := ihc;
    }

    method SetDecal(decal: bool)
      modifies this
      ensures Row() == old(Row()).(decal := decal)
    {
      this.decal := decal;
    }

    method SetDeeper(deeper: bool)
      modifies this
      ensures Row() == old(Row()).(deeper := deeper)
    {
      this.deeper := deeper;
    }

    method SetProcessAll(processAll: bool)
      modifies this
      ensures Row() == old(Row()).(processAll := processAll)
    {
      this.processAll := processAll;
    }

    method SetKeptForFixation(keptForFixation: bool)
      modifies this
      ensures Row() == old(Row()).(keptForFixation := keptForFixation)
    {
      this.keptForFixation := keptForFixation;
    }

    method SetEhc(ehc: bool)
      modifies this
      ensures Row() == old(Row()).(ehc := ehc)
    {
      this.ehc := ehc;
    }

    method SetSemithin(semithin: bool)
      modifies this
      ensures Row() == old(Row()).(semithin := semithin)
    {
      this.semithin := semithin;
    }

    method SetEm(em: bool)
      modifies this
      ensures Row() == old(Row()).(em := em)
    {
      this.em := em;
    }

    /** `setTat(null)` stores 0; any other value is stored as given. */
    method SetTat(tat: Option<int>)
      modifies this
      ensures Row() == old(Row()).(tat := Some(tat.GetOr(0)))
      ensures this.tat.Some?
    {
      this.tat := if tat.None? then Some(0) else tat;
    }
  }
}
