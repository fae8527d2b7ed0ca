/**
 * String helpers the API service relies on: Python's "\n".join and
 * str.split("\n"), substring search, and the decimal rendering that
 * str() gives a status code.
 */
module Text {

  datatype Option<+T> = None | Some(value: T)

  /** Python's "\n".join(lines): the lines separated by single line breaks. */
  function JoinLines(lines: seq<string>): (r: string)
    ensures lines == [] ==> r == ""
    ensures lines != [] ==> |r| == TotalLength(lines) + |lines| - 1
  {
    if lines == [] then ""
    else if |lines| == 1 then lines[0]
    else lines[0] + "\n" + JoinLines(lines[1..])
  }

  /** The number of characters in all the lines together. */
  function TotalLength(lines: seq<string>): nat
  {
    if lines == [] then 0 else |lines[0]| + TotalLength(lines[1..])
  }

  /** Python's s.split("\n"): the maximal line-break-free pieces of s, in order. */
  function SplitLines(s: string): (r: seq<string>)
    ensures |r| >= 1
    ensures forall i :: 0 <= i < |r| ==> '\n' !in r[i]
  {
    if s == [] then [""]
    else if s[0] == '\n' then [""] + SplitLines(s[1..])
    else
      var t := SplitLines(s[1..]);
      [[s[0]] + t[0]] + t[1..]
  }

  /** Joining the pieces of a split gives back the original text. */
  lemma {:induction false} JoinSplit(s: string)
    ensures JoinLines(SplitLines(s)) == s
  {
    if s == [] {
    } else if s[0] == '\n' {
      var t := SplitLines(s[1..]);
      JoinSplit(s[1..]);
      assert SplitLines(s) == [""] + t;
      assert ([""] + t)[1..] == t;
      assert s == "" + "\n" + s[1..];
    } else {
      var t := SplitLines(s[1..]);
      JoinSplit(s[1..]);
      var r := [[s[0]] + t[0]] + t[1..];
      assert SplitLines(s) == r;
      if |t| == 1 {
        assert s == [s[0]] + t[0];
      } else {
        assert r[1..] == t[1..];
        assert JoinLines(t) == t[0] + "\n" + JoinLines(t[1..]);
        assert s == [s[0]] + s[1..];
      }
    }
  }

  /** A line without line breaks splits into itself alone. */
  lemma {:induction false} SplitSingleLine(a: string)
    requires '\n' !in a
    ensures SplitLines(a) == [a]
  {
    if a != [] {
      assert '\n' !in a[1..] by {
        forall i | 0 <= i < |a[1..]| ensures a[1..][i] != '\n' { assert a[1..][i] == a[i + 1]; }
      }
      SplitSingleLine(a[1..]);
      assert [a[0]] + a[1..] == a;
    }
  }

  /** A first line followed by a line break splits off as the first piece. */
  lemma {:induction false} SplitFirstLine(a: string, rest: string)
    requires '\n' !in a
    ensures SplitLines(a + "\n" + rest) == [a] + SplitLines(rest)
  {
    if a == [] {
      assert a + "\n" + rest == "\n" + rest;
      assert ("\n" + rest)[1..] == rest;
    } else {
      var s := a + "\n" + rest;
      assert s[0] == a[0];
      assert s[1..] == a[1..] + "\n" + rest;
      assert '\n' !in a[1..] by {
        forall i | 0 <= i < |a[1..]| ensures a[1..][i] != '\n' { assert a[1..][i] == a[i + 1]; }
      }
      SplitFirstLine(a[1..], rest);
      assert [a[0]] + a[1..] == a;
    }
  }

  /** Splitting a join of line-break-free lines gives back the lines. */
  lemma {:induction false} SplitJoin(lines: seq<string>)
    requires |lines| >= 1
    requires forall i :: 0 <= i < |lines| ==> '\n' !in lines[i]
    ensures SplitLines(JoinLines(lines)) == lines
  {
    if |lines| == 1 {
      SplitSingleLine(lines[0]);
    } else {
      SplitJoin(lines[1..]);
      SplitFirstLine(lines[0], JoinLines(lines[1..]));
      assert lines == [lines[0]] + lines[1..];
    }
  }

  /**
   * Every line break is followed by a character other than a line break:
   * the text has no empty line after its first one and no trailing break.
   */
  ghost predicate NoParagraphBreak(s: string)
  {
    forall k :: 0 <= k < |s| && s[k] == '\n' ==> k + 1 < |s| && s[k + 1] != '\n'
  }

  /** Joining non-empty, line-break-free lines never yields two breaks in a row. */
  lemma {:induction false} JoinNoParagraphBreak(lines: seq<string>)
    requires forall i :: 0 <= i < |lines| ==> lines[i] != "" && '\n' !in lines[i]
    ensures NoParagraphBreak(JoinLines(lines))
    ensures lines != [] ==> JoinLines(lines) != "" && JoinLines(lines)[0] == lines[0][0]
  {
    if |lines| == 1 {
      assert forall k :: 0 <= k < |lines[0]| ==> lines[0][k] != '\n';
    } else if |lines| > 1 {
      var a, t := lines[0], JoinLines(lines[1..]);
      JoinNoParagraphBreak(lines[1..]);
      var s := a + "\n" + t;
      assert JoinLines(lines) == s;
      forall k | 0 <= k < |s| && s[k] == '\n'
        ensures k + 1 < |s| && s[k + 1] != '\n'
      {
        if k == |a| {
          assert s[k + 1] == t[0] == lines[1][0];
        } else if k > |a| {
          assert s[k] == t[k - |a| - 1];
        }
      }
    }
  }

  /** pat occurs in s starting at position k. */
  predicate OccursAt(s: string, pat: string, k: nat)
  {
    k + |pat| <= |s| && s[k..k + |pat|] == pat
  }

  /** The position of the first occurrence of pat in s at or after from. */
  function IndexOfFrom(s: string, pat: string, from: nat): (r: Option<nat>)
    requires from <= |s|
    ensures r.Some? ==> from <= r.value && OccursAt(s, pat, r.value)
    ensures forall k: nat :: from <= k && (r.None? || k < r.value) ==> !OccursAt(s, pat, k)
    decreases |s| - from
  {
    if from + |pat| > |s| then None
    else if s[from..from + |pat|] == pat then Some(from)
    else if from == |s| then None
    else IndexOfFrom(s, pat, from + 1)
  }

  /** An occurrence cuts the text into what precedes it, the pattern, and what follows. */
  lemma SplitAtOccurrence(s: string, pat: string, i: nat)
    requires OccursAt(s, pat, i)
    ensures s == s[..i] + pat + s[i + |pat|..]
  {
    assert s[i..i + |pat|] == pat;
    assert s == s[..i] + s[i..i + |pat|] + s[i + |pat|..];
  }

  /** The parts around a pattern are recovered by slicing at its ends. */
  lemma CutAround(a: string, pat: string, c: string)
    ensures (a + pat + c)[..|a|] == a && (a + pat + c)[|a| + |pat|..] == c
  {
  }

  /** Python's s.find(pat), with None for -1. */
  function IndexOf(s: string, pat: string): (r: Option<nat>)
    ensures r.Some? ==> OccursAt(s, pat, r.value)
    ensures forall k: nat :: (r.None? || k < r.value) ==> !OccursAt(s, pat, k)
  {
    IndexOfFrom(s, pat, 0)
  }

  /**
   * A separator that opens with two line breaks is found exactly where it was
   * placed after a text that has no paragraph break.
   */
  lemma FirstSeparator(a: string, pat: string, c: string)
    requires |pat| >= 2 && pat[0] == '\n' && pat[1] == '\n'
    requires NoParagraphBreak(a)
    ensures IndexOf(a + pat + c, pat) == Some(|a|)
  {
    var s := a + pat + c;
    assert OccursAt(s, pat, |a|) by { assert s[|a|..|a| + |pat|] == pat; }
  }

  /** A pattern is found right after a text that lacks its first character. */
  lemma FirstAfterFree(a: string, pat: string, c: string)
    requires |pat| >= 1 && pat[0] !in a
    ensures IndexOf(a + pat + c, pat) == Some(|a|)
  {
    var s := a + pat + c;
    assert OccursAt(s, pat, |a|) by { assert s[|a|..|a| + |pat|] == pat; }
  }

  /** Text free of line breaks has no paragraph break. */
  lemma NoBreakNoParagraphBreak(s: string)
    requires '\n' !in s
    ensures NoParagraphBreak(s)
  {
  }

  predicate IsDigit(c: char)
  {
    '0' <= c <= '9'
  }

  function DigitChar(d: nat): (c: char)
    requires d < 10
    ensures IsDigit(c) && c as int - '0' as int == d
  {
    ('0' as int + d) as char
  }

  function DigitValue(c: char): nat
    requires IsDigit(c)
  {
    c as int - '0' as int
  }

  /** Python's str(n) for a non-negative integer. */
  function Decimal(n: nat): (r: string)
    ensures |r| >= 1
    ensures forall i :: 0 <= i < |r| ==> IsDigit(r[i])
    ensures |r| > 1 ==> r[0] != '0'
  {
    if n < 10 then [DigitChar(n)] else Decimal(n / 10) + [DigitChar(n % 10)]
  }

  /** Python's int(s) for a string of decimal digits. */
  function ParseDecimal(s: string): nat
    requires forall i :: 0 <= i < |s| ==> IsDigit(s[i])
  {
    if s == [] then 0 else ParseDecimal(s[..|s| - 1]) * 10 + DigitValue(s[|s| - 1])
  }

  /** Reading back a rendered number gives the number. */
  lemma {:induction false} DecimalRoundTrip(n: nat)
    ensures ParseDecimal(Decimal(n)) == n
  {
    if n >= 10 {
      var r := Decimal(n);
      DecimalRoundTrip(n / 10);
      assert r[..|r| - 1] == Decimal(n / 10);
    }
  }

  /** Distinct numbers render to distinct strings. */
  lemma DecimalInjective(m: nat, n: nat)
    requires Decimal(m) == Decimal(n)
    ensures m == n
  {
    DecimalRoundTrip(m);
    DecimalRoundTrip(n);
  }
}
