/**
 * The line-number gutter beside the editor: its line count is the number of
 * newline characters in the editor text, or 1 when there are none, and its
 * text lists the numerals 1..N, one per line.
 */
module Gutter {
  import opened Outcomes
  import opened Decimal

  /** `s.count(c)` for a single character. */
  function CountChar(s: string, c: char): (n: nat)
    ensures n <= |s|
  {
    if |s| == 0 then 0 else (if s[0] == c then 1 else 0) + CountChar(s[1..], c)
  }

  /** The number of gutter lines for the editor text `code`. */
  function LineCount(code: string): nat
  {
    var newlines := CountChar(code, '\n');
    if newlines == 0 then 1 else newlines
  }

  /** `sep.join(parts)`. */
  function Join(parts: seq<string>, sep: char): string
  {
    if |parts| == 0 then ""
    else if |parts| == 1 then parts[0]
    else parts[0] + [sep] + Join(parts[1..], sep)
  }

  /** `s.split(sep)`: the pieces between the separators, so one more piece than separators. */
  function Split(s: string, sep: char): (parts: seq<string>)
    ensures |parts| == CountChar(s, sep) + 1
  {
    if |s| == 0 then [""]
    else
      var rest := Split(s[1..], sep);
      if s[0] == sep then [""] + rest else [[s[0]] + rest[0]] + rest[1..]
  }

  /** The numerals `str(1)`, ..., `str(n)`. */
  function Numerals(n: nat): seq<string>
  {
    seq(n, i requires 0 <= i < n => NatToString(i + 1))
  }

  /** The gutter text for the editor text `code`: the numerals 1..LineCount(code) joined by newlines. */
  function GutterText(code: string): string
  {
    Join(Numerals(LineCount(code)), '\n')
  }

  predicate Free(parts: seq<string>, sep: char) {
    forall i :: 0 <= i < |parts| ==> sep !in parts[i]
  }

  lemma {:induction false} SplitWithout(s: string, sep: char)
    requires sep !in s
    ensures Split(s, sep) == [s]
  {
    if |s| > 0 {
      assert s[0] != sep;
      SplitWithout(s[1..], sep);
      assert [s[0]] + s[1..] == s;
    }
  }

  lemma {:induction false} SplitAfter(a: string, b: string, sep: char)
    requires sep !in a
    ensures Split(a + [sep] + b, sep) == [a] + Split(b, sep)
  {
    if a == [] {
      assert (a + [sep] + b)[1..] == b;
    } else {
      assert (a + [sep] + b)[1..] == a[1..] + [sep] + b;
      SplitAfter(a[1..], b, sep);
      assert [a[0]] + a[1..] == a;
    }
  }

  /** Splitting at the separator undoes joining with it, when no part holds the separator. */
  lemma {:induction false} SplitJoin(parts: seq<string>, sep: char)
    requires |parts| >= 1 && Free(parts, sep)
    ensures Split(Join(parts, sep), sep) == parts
  {
    if |parts| == 1 {
      SplitWithout(parts[0], sep);
    } else {
      SplitJoin(parts[1..], sep);
      SplitAfter(parts[0], Join(parts[1..], sep), sep);
    }
  }

  lemma NumeralsFree(n: nat)
    ensures Free(Numerals(n), '\n')
  {
    forall i | 0 <= i < n
      ensures '\n' !in Numerals(n)[i]
    {
      var s := NatToString(i + 1);
      assert forall k :: 0 <= k < |s| ==> s[k] != '\n';
    }
  }

  /**
   * The gutter has exactly LineCount(code) lines, and line i (from 0) is the
   * numeral of i + 1: the numbers 1..N with no trailing newline.
   */
  lemma GutterLines(code: string)
    ensures Split(GutterText(code), '\n') == Numerals(LineCount(code))
  {
    NumeralsFree(LineCount(code));
    SplitJoin(Numerals(LineCount(code)), '\n');
  }

  /**
   * The gutter is never empty, so it always shows line 1; its newlines
   * number one less than its lines, and each of its lines reads back, through
   * `int()`, as its own 1-based position.
   */
  lemma GutterNumbering(code: string, i: nat)
    requires i < LineCount(code)
    ensures LineCount(code) >= 1
    ensures CountChar(GutterText(code), '\n') + 1 == LineCount(code)
    ensures ParseInt(Split(GutterText(code), '\n')[i]) == Some(i + 1)
  {
    var lines := Split(GutterText(code), '\n');
    GutterLines(code);
    assert lines[i] == NatToString(i + 1);
    ParseIntOfString(i + 1);
    assert IntToString(i + 1) == lines[i];
  }

  /** Where the editor text has newlines, the gutter has one line per newline; otherwise it has one line. */
  lemma {:induction false} LineCountMatchesNewlines(code: string)
    ensures CountChar(code, '\n') >= 1 ==> |Split(GutterText(code), '\n')| == CountChar(code, '\n')
    ensures CountChar(code, '\n') == 0 ==> GutterText(code) == "1"
  {
    GutterLines(code);
    if CountChar(code, '\n') == 0 {
      assert Numerals(1) == [NatToString(1)];
    }
  }

  lemma {:induction false} CountCharSnoc(s: string, c: char, d: char)
    ensures CountChar(s + [d], c) == CountChar(s, c) + (if d == c then 1 else 0)
  {
    if |s| > 0 {
      assert (s + [d])[1..] == s[1..] + [d];
      CountCharSnoc(s[1..], c, d);
    }
  }

  /**
   * The editor widget always ends its text with a newline, so the gutter has
   * exactly one numeral for each line of the contents, the last (possibly
   * empty) line included.
   */
  lemma GutterPerDisplayedLine(contents: string)
    ensures |Split(GutterText(contents + "\n"), '\n')| == |Split(contents, '\n')|
  {
    CountCharSnoc(contents, '\n', '\n');
    GutterLines(contents + "\n");
  }
}
