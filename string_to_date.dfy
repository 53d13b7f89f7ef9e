/** `StringToDate.preProcessDate`: reverse the '-'-separated fields of a date string, so that
    "yyyy-MM-dd" becomes "dd-MM-yyyy" and back. */
module StringToDate {
  import opened Wrappers
  import opened Text

  /** The fields with the empty ones at the end removed, as `String.split` does. */
  function DropTrailingEmpty(fields: seq<string>): (r: seq<string>)
    ensures |r| <= |fields| && r == fields[..|r|]
    ensures |r| > 0 ==> r[|r| - 1] != ""
    ensures forall k :: |r| <= k < |fields| ==> fields[k] == ""
  {
    if |fields| > 0 && fields[|fields| - 1] == "" then DropTrailingEmpty(fields[..|fields| - 1])
    else fields
  }

  /** Java's `s.split("-")` for a one-character separator: the whole string when it holds no
      separator (so "" gives [""]), otherwise the fields with trailing empty fields dropped. */
  function JavaSplit(s: string, c: char): seq<string>
  {
    if c !in s then [s] else DropTrailingEmpty(Split(s, c))
  }

  /** What `preProcessDate(date)` returns: the fields in reverse order joined by '-'; `None`
      where the split yields no field, so `substring(0, -1)` throws. */
  function ReversedFields(date: string): Option<string>
  {
    var times := JavaSplit(date, '-');
    if |times| == 0 then None else Some(Join(Reverse(times), "-"))
  }

  /** `preProcessDate`: append every field followed by '-', from the last field down to the
      first, then cut the final '-'. */
  method PreProcessDate(date: string) returns (r: Option<string>)
    ensures r == ReversedFields(date)
  {
    var times := JavaSplit(date, '-');
    var finalDate := "";
    var i := |times| - 1;
    while i >= 0
      invariant -1 <= i < |times|
      invariant finalDate == Terminated(Reverse(times)[..|times| - 1 - i], "-")
    {
      var done := Reverse(times)[..|times| - 1 - i];
      ReverseAt(times, |times| - 1 - i);
      assert Reverse(times)[..|times| - i] == done + [times[i]];
      TerminatedSnoc(done, times[i], "-");
      finalDate := finalDate + times[i] + "-";
      i := i - 1;
    }
    assert Reverse(times)[..|times|] == Reverse(times);
    if |finalDate| == 0 {
      r := None;
    } else {
      TerminatedTrim(Reverse(times), "-");
      r := Some(finalDate[..|finalDate| - 1]);
    }
  }

  lemma {:induction false} SplitFieldsLackSeparator(s: string, c: char)
    ensures forall k :: 0 <= k < |Split(s, c)| ==> c !in Split(s, c)[k]
  {
    if |s| > 0 {
      SplitFieldsLackSeparator(s[1..], c);
    }
  }

  lemma {:induction false} SplitAllEmpty(s: string, c: char)
    ensures (forall k :: 0 <= k < |Split(s, c)| ==> Split(s, c)[k] == "")
        <==> (forall k :: 0 <= k < |s| ==> s[k] == c)
  {
    if |s| > 0 {
      SplitAllEmpty(s[1..], c);
      var rest := Split(s[1..], c);
      if s[0] == c {
        var fs := Split(s, c);
        assert fs == [""] + rest;
        if forall k :: 0 <= k < |fs| ==> fs[k] == "" {
          forall k | 0 <= k < |rest| ensures rest[k] == "" {
            assert fs[k + 1] == rest[k];
          }
          forall k | 0 <= k < |s| ensures s[k] == c {
            if k > 0 { assert s[k] == s[1..][k - 1]; }
          }
        }
        if forall k :: 0 <= k < |s| ==> s[k] == c {
          forall k | 0 <= k < |s[1..]| ensures s[1..][k] == c {
            assert s[1..][k] == s[k + 1];
          }
          forall k | 0 <= k < |fs| ensures fs[k] == "" {
            if k > 0 { assert fs[k] == rest[k - 1]; }
          }
        }
      } else {
        assert Split(s, c)[0] != "";
      }
    }
  }

  /** `preProcessDate` fails exactly on a non-empty string made only of '-' characters. */
  lemma FailsOnlyOnDashes(date: string)
    ensures ReversedFields(date).None? <==> date != "" && forall k :: 0 <= k < |date| ==> date[k] == '-'
  {
    SplitAllEmpty(date, '-');
    var fs := Split(date, '-');
    if '-' in date {
      var r := DropTrailingEmpty(fs);
      if |r| == 0 {
        assert forall k :: 0 <= k < |fs| ==> fs[k] == "";
      }
    }
  }

  /** Every field of `s` between dashes is non-empty: `s` is not empty, does not begin or end
      with '-' and holds no "--". */
  predicate NoEmptyField(s: string) {
    forall k :: 0 <= k < |Split(s, '-')| ==> Split(s, '-')[k] != ""
  }

  lemma ReversedFieldsPlain(s: string)
    requires NoEmptyField(s)
    ensures ReversedFields(s) == Some(Join(Reverse(Split(s, '-')), "-"))
  {
    var fs := Split(s, '-');
    if '-' !in s {
      JoinSplit(s, '-');
      assert fs == [s];
    } else {
      assert DropTrailingEmpty(fs) == fs;
    }
  }

  /** Reversing the fields twice gives back the string, when no field is empty. */
  lemma Involution(s: string)
    requires NoEmptyField(s)
    ensures ReversedFields(s).Some?
    ensures NoEmptyField(ReversedFields(s).value)
    ensures ReversedFields(ReversedFields(s).value) == Some(s)
  {
    var fs := Split(s, '-');
    var rs := Reverse(fs);
    ReversedFieldsPlain(s);
    SplitFieldsLackSeparator(s, '-');
    forall k | 0 <= k < |rs|
      ensures '-' !in rs[k] && rs[k] != ""
    {
      ReverseAt(fs, k);
    }
    SplitJoin(rs, '-');
    var t := Join(rs, "-");
    assert Split(t, '-') == rs;
    ReversedFieldsPlain(t);
    ReverseReverse(fs);
    JoinSplit(s, '-');
  }

  /** Reversing the fields keeps the length, when no field is empty. */
  lemma LengthPreserved(s: string)
    requires NoEmptyField(s)
    ensures ReversedFields(s).Some? && |ReversedFields(s).value| == |s|
  {
    var fs := Split(s, '-');
    ReversedFieldsPlain(s);
    JoinLength(fs, "-");
    JoinLength(Reverse(fs), "-");
    TotalLengthReverse(fs);
    JoinSplit(s, '-');
  }

  /** A three-field date "a-b-c" becomes "c-b-a": "yyyy-MM-dd" to "dd-MM-yyyy", and by the same
      lemma with the fields exchanged, "dd-MM-yyyy" to "yyyy-MM-dd". */
  lemma ThreeFields(a: string, b: string, c: string)
    requires a != "" && b != "" && c != ""
    requires '-' !in a && '-' !in b && '-' !in c
    ensures ReversedFields(a + "-" + b + "-" + c) == Some(c + "-" + b + "-" + a)
  {
    var fs := [a, b, c];
    JoinThree(a, b, c, "-");
    SplitJoin(fs, '-');
    ReversedFieldsPlain(Join(fs, "-"));
    assert fs[1..] == [b, c] && [b, c][1..] == [c];
    assert [c][1..] == [] && Reverse([c]) == [c];
    assert Reverse([b, c]) == [c, b];
    assert Reverse(fs) == [c, b, a];
    JoinThree(c, b, a, "-");
  }

  /** The worked example of the conversion. */
  lemma Example()
    ensures ReversedFields("2020-02-28") == Some("28-02-2020")
  {
    assert "2020-02-28" == "2020" + "-" + "02" + "-" + "28";
    assert "28-02-2020" == "28" + "-" + "02" + "-" + "2020";
    ThreeFields("2020", "02", "28");
  }

  /** A string of dashes alone splits into no field at all. */
  lemma DashesSplitToNothing()
    ensures JavaSplit("---", '-') == []
    ensures ReversedFields("---").None?
  {
    FailsOnlyOnDashes("---");
    SplitAllEmpty("---", '-');
    assert DropTrailingEmpty(Split("---", '-')) == [];
  }
}
