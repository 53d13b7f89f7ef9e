/** `RequestCount`: a request label decoded from a request code, paired with a count of cases.
    A request code is a string whose i-th character, when '1', marks the i-th request type. */
module RequestCodes {
  import opened Text

  /** The request types, in the order the positions of a request code stand for them. */
  const RequestTypes: seq<string> := ["Special stain", "IHC", "Process all", "Deeper", "Decal",
    "Kept for fixation", "Electron Microscope", "Semi Thin", "EHC"]

  /** The decoder can run on `code`: every '1' stands at a position that names a request type
      (a '1' further right makes `requestTypes.get(i)` throw). */
  predicate WellFormed(code: string) {
    forall i :: 0 <= i < |code| && code[i] == '1' ==> i < |RequestTypes|
  }

  /** The names at the '1' positions among the first `n` characters, left to right. */
  function SetNames(code: string, n: nat): seq<string>
    requires n <= |code| && WellFormed(code)
  {
    if n == 0 then []
    else SetNames(code, n - 1) + (if code[n - 1] == '1' then [RequestTypes[n - 1]] else [])
  }

  /** The label the constructor stores: the set names joined by " + ", or "No instruction". */
  function Label(code: string): string
    requires WellFormed(code)
  {
    var names := SetNames(code, |code|);
    if names == [] then "No instruction" else Join(names, " + ")
  }

  /** The positions of `code` that hold '1'. */
  function Ones(code: string): set<int> {
    set i | 0 <= i < |code| && code[i] == '1'
  }

  /** Reference decoding from a set of positions: the names of the positions below `n` that
      are in the set, in increasing position order. */
  function NamesBelow(positions: set<int>, n: nat): seq<string>
    requires n <= |RequestTypes|
  {
    if n == 0 then []
    else NamesBelow(positions, n - 1) + (if n - 1 in positions then [RequestTypes[n - 1]] else [])
  }

  /** The label a set of marked positions stands for. */
  function PositionsLabel(positions: set<int>): string
  {
    var names := NamesBelow(positions, |RequestTypes|);
    if names == [] then "No instruction" else Join(names, " + ")
  }

  lemma {:induction false} NamesBelowIgnoresHigh(positions: set<int>, n: nat, m: nat)
    requires n <= m <= |RequestTypes|
    requires forall i :: n <= i < m ==> i !in positions
    ensures NamesBelow(positions, m) == NamesBelow(positions, n)
  {
    if m > n {
      NamesBelowIgnoresHigh(positions, n, m - 1);
    }
  }

  lemma {:induction false} SetNamesByPositions(code: string, n: nat)
    requires n <= |code| && WellFormed(code)
    ensures n <= |RequestTypes| ==> SetNames(code, n) == NamesBelow(Ones(code), n)
    ensures n > |RequestTypes| ==> SetNames(code, n) == NamesBelow(Ones(code), |RequestTypes|)
  {
    if n > 0 {
      SetNamesByPositions(code, n - 1);
      assert (n - 1 in Ones(code)) <==> code[n - 1] == '1';
    }
  }

  /** Only the '1' positions decide the label: it is the label of the set of those positions,
      whatever the other characters are and however long the code is. */
  lemma OnlyOnesMatter(code: string)
    requires WellFormed(code)
    ensures Label(code) == PositionsLabel(Ones(code))
  {
    SetNamesByPositions(code, |code|);
    if |code| < |RequestTypes| {
      NamesBelowIgnoresHigh(Ones(code), |code|, |RequestTypes|);
    }
  }

  /** Two codes with '1' at the same positions decode to the same label. */
  lemma SameOnesSameLabel(c1: string, c2: string)
    requires WellFormed(c1) && WellFormed(c2)
    requires Ones(c1) == Ones(c2)
    ensures Label(c1) == Label(c2)
  {
    OnlyOnesMatter(c1);
    OnlyOnesMatter(c2);
  }

  lemma {:induction false} SetNamesEmpty(code: string, n: nat)
    requires n <= |code| && WellFormed(code)
    ensures SetNames(code, n) == [] <==> forall i :: 0 <= i < n ==> code[i] != '1'
  {
    if n > 0 {
      SetNamesEmpty(code, n - 1);
    }
  }

  lemma {:induction false} SetNamesHead(code: string, n: nat)
    requires n <= |code| && WellFormed(code)
    requires SetNames(code, n) != []
    ensures SetNames(code, n)[0] in RequestTypes
  {
    if SetNames(code, n - 1) != [] {
      SetNamesHead(code, n - 1);
    }
  }

  /** The label is "No instruction" exactly when no character of the code is '1'. */
  lemma NoInstructionIff(code: string)
    requires WellFormed(code)
    ensures Label(code) == "No instruction" <==> forall i :: 0 <= i < |code| ==> code[i] != '1'
  {
    var names := SetNames(code, |code|);
    SetNamesEmpty(code, |code|);
    if names != [] {
      SetNamesHead(code, |code|);
      JoinHead(names, " + ");
      assert Label(code)[0] == names[0][0];
    }
  }

  lemma {:induction false} JoinHead(fields: seq<string>, sep: string)
    requires |fields| > 0 && fields[0] != ""
    ensures |Join(fields, sep)| > 0 && Join(fields, sep)[0] == fields[0][0]
  {
  }

  /** The worked example: flags at positions 0 and 2. */
  lemma Example()
    ensures WellFormed("101000000")
    ensures Label("101000000") == "Special stain + Process all"
  {
    var code := "101000000";
    assert SetNames(code, 3) == ["Special stain", "Process all"];
    assert SetNames(code, 9) == SetNames(code, 3) by {
      assert forall i :: 3 <= i < 9 ==> code[i] != '1';
    }
    assert ["Special stain", "Process all"][1..] == ["Process all"];
  }

  /** An all-zero code decodes to "No instruction". */
  lemma ZeroExample()
    ensures WellFormed("000000000") && Label("000000000") == "No instruction"
  {
    NoInstructionIff("000000000");
  }

  /** A '1' in the tenth position has no request type: the decoder cannot run. */
  lemma TenthPositionRejected()
    ensures !WellFormed("0000000001")
  {
    assert "0000000001"[9] == '1';
  }

  class RequestCount {
    var requestType: string
    var count: int

    /** `RequestCount(String, long)`: decode the code into its label and keep the count. */
    constructor (code: string, count: int)
      requires WellFormed(code)
      ensures requestType == Label(code)
      ensures this.count == count
    {
      var requests := "";
      for i := 0 to |code|
        invariant requests == Terminated(SetNames(code, i), " + ")
      {
        if code[i] == '1' {
          assert SetNames(code, i + 1) == SetNames(code, i) + [RequestTypes[i]];
          TerminatedSnoc(SetNames(code, i), RequestTypes[i], " + ");
          requests := requests + RequestTypes[i] + " + ";
          assert requests == Terminated(SetNames(code, i + 1), " + ");
        } else {
          assert SetNames(code, i + 1) == SetNames(code, i) + [];
          assert SetNames(code, i) + [] == SetNames(code, i);
          assert requests == Terminated(SetNames(code, i + 1), " + ");
        }
      }
      if requests == "" {
        requestType := "No instruction";
      } else {
        TerminatedTrim(SetNames(code, |code|), " + ");
        requestType := requests[..|requests| - 3];
      }
      this.count := count;
    }

    method SetRequestType(requestType: string)
      modifies this
      ensures this.requestType == requestType && count == old(count)
    {
      this.requestType := requestType;
    }

    method SetCount(count: int)
      modifies this
      ensures this.count == count && requestType == old(requestType)
    {
      this.count := count;
    }
  }
}
