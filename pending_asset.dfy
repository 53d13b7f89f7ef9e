/** `PendingAsset`: the projection of a pending asset shown on the dashboard, with its start
    instant rendered relative to the clock as "Now", "Today, HH:mm", "Yesterday, HH:mm" or a
    dated form. */
module PendingAssets {
  import opened Wrappers
  import opened Text
  import opened Calendar
  import opened StringToDate

  /** The date part of an instant's rendering never consists of dashes alone, so reversing its
      fields never fails. */
  lemma DatePartReversible(t: Instant)
    ensures ReversedFields(DatePart(t)).Some?
  {
    DatePartDigit(t);
    FailsOnlyOnDashes(DatePart(t));
  }

  /** `preProcessDate(t.toString().substring(0, 10))`. */
  function ReversedDate(t: Instant): string
  {
    DatePartReversible(t);
    ReversedFields(DatePart(t)).value
  }

  /** The text the constructor stores for a start instant, given the clock: the dates compared
      are the reversed date parts. */
  function ConstructorText(start: Instant, now: Instant): (text: string)
  {
    if start == now then "Now"
    else
      var date := ReversedDate(start);
      var time := TimePart(start);
      if date == ReversedDate(now) then "Today, " + time
      else if date == ReversedDate(MinusDays(now, 1)) then "Yesterday, " + time
      else date + ", " + time
  }

  /** The text `setStartTime` stores: the same case split on the date parts as rendered. */
  function SetterText(start: Instant, now: Instant): (text: string)
  {
    if start == now then "Now"
    else
      var date := DatePart(start);
      var time := TimePart(start);
      if date == DatePart(now) then "Today, " + time
      else if date == DatePart(MinusDays(now, 1)) then "Yesterday, " + time
      else date + ", " + time
  }

  /** "dd-MM-yyyy" for a day. */
  function DayMonthYear(z: Day): string
  {
    var d := CivilFromDays(z);
    Pad(d.day, 2) + "-" + Pad(d.month, 2) + "-" + YearText(d.year)
  }

  /** "yyyy-MM-dd" for a day, field by field. */
  lemma DateTextFields(z: Day)
    ensures DateText(z) == YearText(CivilFromDays(z).year) + "-" + Pad(CivilFromDays(z).month, 2)
      + "-" + Pad(CivilFromDays(z).day, 2)
  {
    var d := CivilFromDays(z);
    JoinThree(YearText(d.year), Pad(d.month, 2), Pad(d.day, 2), "-");
  }

  lemma DateTextNoEmptyField(z: Day)
    requires CivilFromDays(z).year >= 0
    ensures NoEmptyField(DateText(z))
  {
    DateFieldsPlain(z);
    SplitJoin(DateFields(z), '-');
  }

  /** In a four-digit year the reversed date part is "dd-MM-yyyy". */
  lemma ReversedDateText(t: Instant)
    requires FourDigitYear(t)
    ensures ReversedDate(t) == DayMonthYear(DayOf(t))
  {
    var d := CivilFromDays(DayOf(t));
    IsoParts(t);
    DateTextFields(DayOf(t));
    PadHasNoDash(d.year, 4);
    PadHasNoDash(d.month, 2);
    PadHasNoDash(d.day, 2);
    ThreeFields(YearText(d.year), Pad(d.month, 2), Pad(d.day, 2));
  }

  /** Two instants in four-digit years have equal date parts exactly when they fall on the same
      day. */
  lemma DatePartSameDay(a: Instant, b: Instant)
    requires FourDigitYear(a) && FourDigitYear(b)
    ensures DatePart(a) == DatePart(b) <==> DayOf(a) == DayOf(b)
  {
    IsoParts(a);
    IsoParts(b);
    if DatePart(a) == DatePart(b) {
      DateTextInjective(DayOf(a), DayOf(b));
    }
  }

  /** The same holds for the reversed date parts, since reversing is undone by reversing. */
  lemma ReversedDateSameDay(a: Instant, b: Instant)
    requires FourDigitYear(a) && FourDigitYear(b)
    ensures ReversedDate(a) == ReversedDate(b) <==> DayOf(a) == DayOf(b)
  {
    IsoParts(a);
    IsoParts(b);
    DateTextNoEmptyField(DayOf(a));
    DateTextNoEmptyField(DayOf(b));
    Involution(DatePart(a));
    Involution(DatePart(b));
    DatePartSameDay(a, b);
  }

  /** The instant, the clock and the day before the clock all lie in four-digit years. */
  predicate InRange(start: Instant, now: Instant) {
    FourDigitYear(start) && FourDigitYear(now) && FourDigitYear(MinusDays(now, 1))
  }

  /** The constructor's text by calendar days: "Now" for the clock instant itself, "Today" and
      "Yesterday" by the start's day, and otherwise "dd-MM-yyyy", each with the start's "HH:mm". */
  lemma ConstructorCases(start: Instant, now: Instant)
    requires InRange(start, now)
    ensures ConstructorText(start, now) ==
      if start == now then "Now"
      else if DayOf(start) == DayOf(now) then "Today, " + TimeText(start)
      else if DayOf(start) == DayOf(now) - 1 then "Yesterday, " + TimeText(start)
      else DayMonthYear(DayOf(start)) + ", " + TimeText(start)
  {
    IsoParts(start);
    MinusDaysDay(now, 1);
    ReversedDateSameDay(start, now);
    ReversedDateSameDay(start, MinusDays(now, 1));
    ReversedDateText(start);
  }

  /** The setter's text by calendar days: as the constructor's, but dated "yyyy-MM-dd". */
  lemma SetterCases(start: Instant, now: Instant)
    requires InRange(start, now)
    ensures SetterText(start, now) ==
      if start == now then "Now"
      else if DayOf(start) == DayOf(now) then "Today, " + TimeText(start)
      else if DayOf(start) == DayOf(now) - 1 then "Yesterday, " + TimeText(start)
      else DateText(DayOf(start)) + ", " + TimeText(start)
  {
    IsoParts(start);
    MinusDaysDay(now, 1);
    DatePartSameDay(start, now);
    DatePartSameDay(start, MinusDays(now, 1));
  }

  /** A dated text in the constructor's order never equals the one in the setter's order: the
      third character is a dash in the first and a year digit in the second. */
  lemma DatedOrdersDiffer(z: Day, time: string)
    ensures DayMonthYear(z) + ", " + time != DateText(z) + ", " + time
  {
    var d := CivilFromDays(z);
    var c := DayMonthYear(z) + ", " + time;
    var s := DateText(z) + ", " + time;
    assert Pow10(2) == 100;
    PadWidth(d.day, 2);
    DateTextFields(z);
    assert c[2] == '-';
    YearTextThirdIsDigit(d.year);
    assert s[2] == YearText(d.year)[2];
  }

  /** The constructor and the setter agree on "Now", "Today" and "Yesterday" and disagree on
      every dated text. */
  lemma ConstructorAndSetterDisagreeOnlyWhenDated(start: Instant, now: Instant)
    requires InRange(start, now)
    ensures ConstructorText(start, now) == SetterText(start, now)
      <==> start == now || DayOf(start) == DayOf(now) || DayOf(start) == DayOf(now) - 1
  {
    ConstructorCases(start, now);
    SetterCases(start, now);
    DatedOrdersDiffer(DayOf(start), TimeText(start));
  }

  class PendingAsset {
    var npNumber: string
    var biopsyType: string
    var startTime: string

    /** `PendingAsset(npNumber, biopsyType, startTime)`, with `now` the instant the clock reads. */
    constructor (npNumber: string, biopsyType: string, startTime: Instant, now: Instant)
      ensures this.npNumber == npNumber && this.biopsyType == biopsyType
      ensures this.startTime == ConstructorText(startTime, now)
    {
      this.npNumber := npNumber;
      this.biopsyType := biopsyType;
      if startTime == now {
        this.startTime := "Now";
      } else {
        var yesterday := MinusDays(now, 1);
        DatePartReversible(startTime);
        DatePartReversible(now);
        DatePartReversible(yesterday);
        var date := PreProcessDate(DatePart(startTime));
        var time := TimePart(startTime);
        var dateToday := PreProcessDate(DatePart(now));
        var dateYesterday := PreProcessDate(DatePart(yesterday));
        if date.value == dateToday.value {
          this.startTime := "Today, " + time;
        } else if date.value == dateYesterday.value {
          this.startTime := "Yesterday, " + time;
        } else {
          this.startTime := date.value + ", " + time;
        }
      }
    }

    method SetNpNumber(npNumber: string)
      modifies this
      ensures this.npNumber == npNumber
      ensures biopsyType == old(biopsyType) && startTime == old(startTime)
    {
      this.npNumber := npNumber;
    }

    method SetBiopsyType(biopsyType: string)
      modifies this
      ensures this.biopsyType == biopsyType
      ensures npNumber == old(npNumber) && startTime == old(startTime)
    {
      this.biopsyType := biopsyType;
    }

    /** `setStartTime(startTime)`, with `now` the instant the clock reads. */
    method SetStartTime(startTime: Instant, now: Instant)
      modifies this
      ensures this.startTime == SetterText(startTime, now)
      ensures npNumber == old(npNumber) && biopsyType == old(biopsyType)
    {
      if startTime == now {
        this.startTime := "Now";
      } else {
        var date := DatePart(startTime);
        var time := TimePart(startTime);
        var dateToday := DatePart(now);
        var dateYesterday := DatePart(MinusDays(now, 1));
        if date == dateToday {
          this.startTime := "Today, " + time;
        } else if date == dateYesterday {
          this.startTime := "Yesterday, " + time;
        } else {
          this.startTime := date + ", " + time;
        }
      }
    }
  }
}
