/** String helpers shared by the model: pattern tests that HQL `LIKE` denotes, joining and
    splitting on a separator, and fixed-width decimal rendering with its parser. */
module Text {

  /** `s` begins with `prefix`: HQL `s LIKE 'prefix%'`. */
  predicate StartsWith(s: string, prefix: string) {
    |prefix| <= |s| && s[..|prefix|] == prefix
  }

  /** `pat` occurs somewhere in `s`: HQL `s LIKE '%pat%'`, case-sensitive. */
  predicate Contains(s: string, pat: string)
    decreases |s|
  {
    StartsWith(s, pat) || (|s| > 0 && Contains(s[1..], pat))
  }

  /** A two-character pattern occurs in `s` exactly when some adjacent pair of `s` spells it. */
  lemma {:induction false} ContainsPair(s: string, a: char, b: char)
    ensures Contains(s, [a, b]) <==> exists i :: 0 <= i < |s| - 1 && s[i] == a && s[i + 1] == b
    decreases |s|
  {
    if |s| > 0 {
      ContainsPair(s[1..], a, b);
      if StartsWith(s, [a, b]) {
        assert s[0] == a && s[1] == b;
      }
      if Contains(s[1..], [a, b]) {
        var i :| 0 <= i < |s[1..]| - 1 && s[1..][i] == a && s[1..][i + 1] == b;
        assert s[i + 1] == a && s[i + 2] == b;
      }
      if exists i :: 0 <= i < |s| - 1 && s[i] == a && s[i + 1] == b {
        var i :| 0 <= i < |s| - 1 && s[i] == a && s[i + 1] == b;
        if i == 0 {
          assert s[..2] == [a, b];
        } else {
          assert s[1..][i - 1] == a && s[1..][i] == b;
        }
      }
    }
  }

  /** The elements of `s` in reverse order. */
  function Reverse<T>(s: seq<T>): (r: seq<T>)
    ensures |r| == |s|
  {
    if |s| == 0 then [] else Reverse(s[1..]) + [s[0]]
  }

  lemma {:induction false} ReverseAt<T>(s: seq<T>, k: int)
    requires 0 <= k < |s|
    ensures Reverse(s)[k] == s[|s| - 1 - k]
  {
    if k < |s| - 1 {
      ReverseAt(s[1..], k);
    }
  }

  lemma ReverseReverse<T>(s: seq<T>)
    ensures Reverse(Reverse(s)) == s
  {
    forall k | 0 <= k < |s|
      ensures Reverse(Reverse(s))[k] == s[k]
    {
      ReverseAt(Reverse(s), k);
      ReverseAt(s, |s| - 1 - k);
    }
  }

  /** The fields joined with `sep` between neighbours: no separator before the first field or
      after the last. */
  function Join(fields: seq<string>, sep: string): string
  {
    if |fields| == 0 then ""
    else if |fields| == 1 then fields[0]
    else fields[0] + sep + Join(fields[1..], sep)
  }

  lemma JoinThree(a: string, b: string, c: string, sep: string)
    ensures Join([a, b, c], sep) == a + sep + b + sep + c
  {
    assert [a, b, c][1..] == [b, c] && [b, c][1..] == [c];
    assert Join([b, c], sep) == b + sep + c;
    assert a + sep + (b + sep + c) == a + sep + b + sep + c;
  }

  /** Each field followed by `sep`, as a loop that appends `field + sep` builds it. */
  function Terminated(fields: seq<string>, sep: string): (r: string)
    ensures |fields| > 0 ==> |r| >= |sep|
  {
    if |fields| == 0 then "" else fields[0] + sep + Terminated(fields[1..], sep)
  }

  lemma {:induction false} TerminatedSnoc(fields: seq<string>, f: string, sep: string)
    ensures Terminated(fields + [f], sep) == Terminated(fields, sep) + f + sep
  {
    if |fields| > 0 {
      assert (fields + [f])[1..] == fields[1..] + [f];
      TerminatedSnoc(fields[1..], f, sep);
    } else {
      assert [f][1..] == [];
    }
  }

  /** Cutting the final separator off a terminated list gives the joined list. */
  lemma {:induction false} TerminatedTrim(fields: seq<string>, sep: string)
    requires |fields| > 0
    ensures Terminated(fields, sep)[..|Terminated(fields, sep)| - |sep|] == Join(fields, sep)
  {
    var t := Terminated(fields, sep);
    if |fields| > 1 {
      TerminatedTrim(fields[1..], sep);
      var rest := Terminated(fields[1..], sep);
      assert t == fields[0] + sep + rest;
      assert t[..|t| - |sep|] == fields[0] + sep + rest[..|rest| - |sep|];
    } else {
      assert Terminated(fields[1..], sep) == "";
      assert t == fields[0] + sep;
    }
  }

  /** Total length of the fields. */
  function TotalLength(fields: seq<string>): nat
  {
    if |fields| == 0 then 0 else |fields[0]| + TotalLength(fields[1..])
  }

  lemma {:induction false} TotalLengthSnoc(fields: seq<string>, f: string)
    ensures TotalLength(fields + [f]) == TotalLength(fields) + |f|
  {
    if |fields| > 0 {
      assert (fields + [f])[1..] == fields[1..] + [f];
      TotalLengthSnoc(fields[1..], f);
    } else {
      assert [f][1..] == [];
    }
  }

  lemma {:induction false} TotalLengthReverse(fields: seq<string>)
    ensures TotalLength(Reverse(fields)) == TotalLength(fields)
  {
    if |fields| > 0 {
      TotalLengthReverse(fields[1..]);
      TotalLengthSnoc(Reverse(fields[1..]), fields[0]);
    }
  }

  lemma {:induction false} JoinLength(fields: seq<string>, sep: string)
    requires |fields| > 0
    ensures |Join(fields, sep)| == TotalLength(fields) + (|fields| - 1) * |sep|
  {
    if |fields| > 1 {
      JoinLength(fields[1..], sep);
    }
  }

  /** The fields of `s` between occurrences of `c`: one more field than there are `c`s, empty
      fields included. */
  function Split(s: string, c: char): (fields: seq<string>)
    ensures |fields| >= 1
  {
    if |s| == 0 then [""]
    else
      var rest := Split(s[1..], c);
      if s[0] == c then [""] + rest else [[s[0]] + rest[0]] + rest[1..]
  }

  /** Joining the fields of a split with the separator gives back the string. */
  lemma {:induction false} JoinSplit(s: string, c: char)
    ensures Join(Split(s, c), [c]) == s
  {
    if |s| > 0 {
      JoinSplit(s[1..], c);
      var rest := Split(s[1..], c);
      if s[0] != c {
        var fs := Split(s, c);
        assert fs[0] == [s[0]] + rest[0] && fs[1..] == rest[1..];
        if |rest| > 1 {
          assert Join(rest, [c]) == rest[0] + [c] + Join(rest[1..], [c]);
        }
      }
    }
  }

  lemma {:induction false} SplitFieldPrefix(f: string, t: string, c: char)
    requires c !in f
    ensures Split(f + t, c) == [f + Split(t, c)[0]] + Split(t, c)[1..]
  {
    if |f| > 0 {
      assert (f + t)[1..] == f[1..] + t;
      SplitFieldPrefix(f[1..], t, c);
      assert [f[0]] + (f[1..] + Split(t, c)[0]) == f + Split(t, c)[0];
    } else {
      var st := Split(t, c);
      assert f + t == t && f + st[0] == st[0];
      assert [st[0]] + st[1..] == st;
    }
  }

  /** Splitting a joined list gives back the fields when no field holds the separator. */
  lemma {:induction false} SplitJoin(fields: seq<string>, c: char)
    requires |fields| > 0
    requires forall k :: 0 <= k < |fields| ==> c !in fields[k]
    ensures Split(Join(fields, [c]), c) == fields
  {
    if |fields| == 1 {
      SplitFieldPrefix(fields[0], "", c);
      assert fields[0] + "" == fields[0];
    } else {
      var rest := Join(fields[1..], [c]);
      SplitJoin(fields[1..], c);
      assert Join(fields, [c]) == fields[0] + ([c] + rest);
      SplitFieldPrefix(fields[0], [c] + rest, c);
      assert ([c] + rest)[1..] == rest;
      assert Split([c] + rest, c) == [""] + fields[1..];
      assert fields[0] + "" == fields[0];
    }
  }

  /** Decimal digit character for `n` < 10. */
  function DigitChar(n: nat): char
    requires n < 10
  {
    (48 + n) as char
  }

  /** Numeric value of a character: its digit value when it is a decimal digit, else 0. */
  function DigitValue(ch: char): nat
  {
    if '0' <= ch <= '9' then ch as int - 48 else 0
  }

  predicate IsDigit(ch: char) {
    '0' <= ch <= '9'
  }

  /** The decimal rendering of `n` without leading zeros: "0" for 0. */
  function Digits(n: nat): (s: string)
    ensures |s| >= 1 && forall k :: 0 <= k < |s| ==> IsDigit(s[k])
  {
    if n < 10 then [DigitChar(n)] else Digits(n / 10) + [DigitChar(n % 10)]
  }

  function Zeros(k: nat): (s: string)
    ensures |s| == k && forall i :: 0 <= i < k ==> s[i] == '0'
  {
    if k == 0 then "" else Zeros(k - 1) + "0"
  }

  /** The decimal rendering of `n`, left-padded with zeros to at least `width` characters. */
  function Pad(n: nat, width: nat): (s: string)
    ensures |s| >= 1 && |s| >= width
    ensures forall k :: 0 <= k < |s| ==> IsDigit(s[k])
  {
    var ds := Digits(n);
    if |ds| < width then Zeros(width - |ds|) + ds else ds
  }

  /** The number a digit string denotes (leading zeros allowed). */
  function Value(s: string): nat
  {
    if |s| == 0 then 0 else Value(s[..|s| - 1]) * 10 + DigitValue(s[|s| - 1])
  }

  lemma {:induction false} ValueDigits(n: nat)
    ensures Value(Digits(n)) == n
  {
    if n >= 10 {
      var ds := Digits(n);
      assert ds[..|ds| - 1] == Digits(n / 10);
      ValueDigits(n / 10);
    }
  }

  lemma {:induction false} ValueZeros(k: nat)
    ensures Value(Zeros(k)) == 0
  {
    if k > 0 {
      assert Zeros(k)[..k - 1] == Zeros(k - 1);
      ValueZeros(k - 1);
    }
  }

  lemma {:induction false} ValueZerosPrefix(k: nat, s: string)
    ensures Value(Zeros(k) + s) == Value(s)
  {
    if |s| == 0 {
      assert Zeros(k) + s == Zeros(k);
      ValueZeros(k);
    } else {
      var t := Zeros(k) + s;
      assert t[..|t| - 1] == Zeros(k) + s[..|s| - 1];
      ValueZerosPrefix(k, s[..|s| - 1]);
    }
  }

  /** Padding is undone by `Value`, so equal renderings at one width come from equal numbers. */
  lemma ValuePad(n: nat, width: nat)
    ensures Value(Pad(n, width)) == n
  {
    ValueDigits(n);
    if |Digits(n)| < width {
      ValueZerosPrefix(width - |Digits(n)|, Digits(n));
    }
  }

  lemma PadInjective(a: nat, b: nat, width: nat)
    requires Pad(a, width) == Pad(b, width)
    ensures a == b
  {
    ValuePad(a, width);
    ValuePad(b, width);
  }

  /** A number below 10^k needs at most k digits. */
  lemma {:induction false} DigitsShort(n: nat, k: nat, bound: nat)
    requires k >= 1 && bound == Pow10(k) && n < bound
    ensures |Digits(n)| <= k
  {
    if n >= 10 {
      assert Pow10(1) == 10;
      assert k >= 2;
      Pow10Step(k - 1);
      DigitsShort(n / 10, k - 1, Pow10(k - 1));
    }
  }

  function Pow10(k: nat): (p: nat)
    ensures p >= 1
  {
    if k == 0 then 1 else 10 * Pow10(k - 1)
  }

  lemma Pow10Step(k: nat)
    ensures Pow10(k + 1) == 10 * Pow10(k)
  {
  }

  /** Below 10^width the padded rendering is exactly `width` characters. */
  lemma PadWidth(n: nat, width: nat)
    requires width >= 1 && n < Pow10(width)
    ensures |Pad(n, width)| == width
  {
    DigitsShort(n, width, Pow10(width));
  }
}
