/**
 * The highlighting rule table and the regular-expression matching it relies on.
 * Each pattern of the table has one of five shapes, and `MatchAt` follows what
 * Python's `re` engine does with that shape at one position (alternatives in
 * order, lazy and greedy repetition, backtracking to a word boundary).
 * `FindIter` is `re.finditer`: leftmost, non-overlapping matches, left to right.
 */
module Patterns {
  import opened Outcomes
  import opened Decimal

  /** The editor's style tags, in the order the colour table declares them. */
  datatype Tag = Bg | Fg | Keyword | String | Number | Comment | Operator | Function

  /** Every tag of the colour table; highlighting clears each of them first. */
  const COLOR_TAGS: seq<Tag> := [Bg, Fg, Keyword, String, Number, Comment, Operator, Function]

  /** Every tag the model tracks is a key of the colour table, so clearing those keys clears every colour tag. */
  lemma EveryTagColored(t: Tag)
    ensures t in COLOR_TAGS
  {
    match t
    case Bg => assert COLOR_TAGS[0] == t;
    case Fg => assert COLOR_TAGS[1] == t;
    case Keyword => assert COLOR_TAGS[2] == t;
    case String => assert COLOR_TAGS[3] == t;
    case Number => assert COLOR_TAGS[4] == t;
    case Comment => assert COLOR_TAGS[5] == t;
    case Operator => assert COLOR_TAGS[6] == t;
    case Function => assert COLOR_TAGS[7] == t;
  }

  /** The pattern shapes the rule table uses. */
  datatype Regex =
    | Words(words: seq<string>)           // \b(w1|w2|...)\b
    | LazyQuoted                          // ".*?"
    | DigitRun                            // \b\d+\b
    | RestOfLine(prefix: string)          // prefix.*
    | Literals(alternatives: seq<string>) // l1|l2|...

  datatype Rule = Rule(regex: Regex, tag: Tag)

  const KEYWORDS: seq<string> := ["loop", "check", "else", "choose", "default", "in"]
  const FUNCTIONS: seq<string> := ["plot", "ask"]

  /** The rule table, in the order highlighting applies it. */
  const PATTERNS: seq<Rule> := [
    Rule(Words(KEYWORDS), Keyword),
    Rule(Words(FUNCTIONS), Function),
    Rule(LazyQuoted, String),
    Rule(DigitRun, Number),
    Rule(RestOfLine("note>"), Comment),
    Rule(Literals(["->", "~"]), Operator)
  ]

  /** A match or a tagged range: the characters at offsets start..end-1. */
  datatype Span = Span(start: nat, end: nat)

  /** `\w` (ASCII letters, digits and underscore). */
  predicate IsWordChar(c: char) {
    'a' <= c <= 'z' || 'A' <= c <= 'Z' || IsDigit(c) || c == '_'
  }

  predicate IsWord(w: string) {
    |w| > 0 && forall i :: 0 <= i < |w| ==> IsWordChar(w[i])
  }

  predicate WellFormed(p: Regex) {
    match p
    case Words(ws) => forall k :: 0 <= k < |ws| ==> IsWord(ws[k])
    case RestOfLine(prefix) => |prefix| > 0
    case Literals(ls) => forall k :: 0 <= k < |ls| ==> |ls[k]| > 0
    case _ => true
  }

  predicate RulesWellFormed(rules: seq<Rule>) {
    forall r :: 0 <= r < |rules| ==> WellFormed(rules[r].regex)
  }

  /** `\b` at offset i: exactly one of the characters on either side is a word character. */
  predicate Boundary(s: string, i: nat)
    requires i <= |s|
  {
    (i > 0 && IsWordChar(s[i - 1])) != (i < |s| && IsWordChar(s[i]))
  }

  predicate StartsWith(s: string, i: nat, w: string)
    requires i <= |s|
  {
    i + |w| <= |s| && s[i..i + |w|] == w
  }

  /** The end of a match of pattern p that starts at offset i, if there is one. */
  function MatchAt(p: Regex, s: string, i: nat): (r: Option<nat>)
    requires WellFormed(p) && i <= |s|
    ensures r.Some? ==> i < r.value <= |s|
  {
    match p
    case Words(ws) => if Boundary(s, i) then FirstWord(ws, s, i) else None
    case LazyQuoted => if i < |s| && s[i] == '"' then ClosingQuote(s, i + 1) else None
    case DigitRun =>
      if Boundary(s, i) && i < |s| && IsDigit(s[i]) then BackToBoundary(s, i, DigitRunEnd(s, i)) else None
    case RestOfLine(prefix) => if StartsWith(s, i, prefix) then Some(LineEnd(s, i + |prefix|)) else None
    case Literals(ls) => FirstLiteral(ls, s, i)
  }

  /** The alternatives of `(w1|w2|...)\b`, tried in order at offset i. */
  function FirstWord(ws: seq<string>, s: string, i: nat): (r: Option<nat>)
    requires forall k :: 0 <= k < |ws| ==> IsWord(ws[k])
    requires i <= |s|
    ensures r.Some? ==> i < r.value <= |s|
  {
    if ws == [] then None
    else if StartsWith(s, i, ws[0]) && Boundary(s, i + |ws[0]|) then
      assert IsWord(ws[0]);
      Some(i + |ws[0]|)
    else FirstWord(ws[1..], s, i)
  }

  /** `.*?"` from offset j: the first quote before the end of the line. */
  function ClosingQuote(s: string, j: nat): (r: Option<nat>)
    requires j <= |s|
    ensures r.Some? ==> j < r.value <= |s|
    decreases |s| - j
  {
    if j == |s| || s[j] == '\n' then None
    else if s[j] == '"' then Some(j + 1)
    else ClosingQuote(s, j + 1)
  }

  /** Where the greedy `\d+` from offset i stops. */
  function DigitRunEnd(s: string, i: nat): (j: nat)
    requires i <= |s|
    ensures i <= j <= |s| && (j == |s| || !IsDigit(s[j]))
    ensures forall k :: i <= k < j ==> IsDigit(s[k])
    decreases |s| - i
  {
    if i == |s| || !IsDigit(s[i]) then i else DigitRunEnd(s, i + 1)
  }

  /** The greedy `\d+` gives back digits one at a time until `\b` holds after them. */
  function BackToBoundary(s: string, i: nat, j: nat): (r: Option<nat>)
    requires i <= j <= |s|
    ensures r.Some? ==> i < r.value <= j
    decreases j
  {
    if j == i then None
    else if Boundary(s, j) then Some(j)
    else BackToBoundary(s, i, j - 1)
  }

  /** Where the greedy `.*` from offset j stops: at the next newline or the end of the text. */
  function LineEnd(s: string, j: nat): (r: nat)
    requires j <= |s|
    ensures j <= r <= |s|
    decreases |s| - j
  {
    if j == |s| || s[j] == '\n' then j else LineEnd(s, j + 1)
  }

  /** The alternatives of `l1|l2|...`, tried in order at offset i. */
  function FirstLiteral(ls: seq<string>, s: string, i: nat): (r: Option<nat>)
    requires forall k :: 0 <= k < |ls| ==> |ls[k]| > 0
    requires i <= |s|
    ensures r.Some? ==> i < r.value <= |s|
  {
    if ls == [] then None
    else if StartsWith(s, i, ls[0]) then Some(i + |ls[0]|)
    else FirstLiteral(ls[1..], s, i)
  }

  /** Pattern p as a matcher over all of `s`: offsets past the end never match. */
  function Matcher(p: Regex, s: string): (at: nat -> Option<nat>)
    requires WellFormed(p)
  {
    (j: nat) => if j <= |s| then MatchAt(p, s, j) else None
  }

  /** Every match a matcher reports starting below n is non-empty and ends by n. */
  ghost predicate Advances(at: nat -> Option<nat>, n: nat) {
    forall j: nat :: j < n && at(j).Some? ==> j < at(j).value <= n
  }

  lemma MatcherAdvances(p: Regex, s: string)
    requires WellFormed(p)
    ensures Advances(Matcher(p, s), |s|)
    ensures forall j: nat :: j <= |s| ==> Matcher(p, s)(j) == MatchAt(p, s, j)
  {
  }

  /** The scanning loop of `re.finditer`: try each offset in turn; after a match, carry on from its end. */
  function Scan(at: nat -> Option<nat>, n: nat, i: nat): seq<Span>
    requires i <= n && Advances(at, n)
    decreases n - i
  {
    if i == n then []
    else
      match at(i)
      case Some(e) => [Span(i, e)] + Scan(at, n, e)
      case None => Scan(at, n, i + 1)
  }

  /** `re.finditer(p, s)` from offset i. */
  function FindIter(p: Regex, s: string, i: nat): seq<Span>
    requires WellFormed(p) && i <= |s|
  {
    MatcherAdvances(p, s);
    Scan(Matcher(p, s), |s|, i)
  }

  /** Each span is a match of `at`, starting at or after i and below n. */
  ghost predicate SpansMatch(at: nat -> Option<nat>, n: nat, i: nat, spans: seq<Span>) {
    forall k :: 0 <= k < |spans| ==> i <= spans[k].start < n && at(spans[k].start) == Some(spans[k].end)
  }

  /** The spans are in increasing order and do not overlap. */
  predicate Ordered(spans: seq<Span>) {
    forall a, b :: 0 <= a < b < |spans| ==> spans[a].end <= spans[b].start
  }

  /** Every offset from i below n where a match starts lies inside one of the spans. */
  ghost predicate CoversMatches(at: nat -> Option<nat>, n: nat, i: nat, spans: seq<Span>) {
    forall j: nat {:trigger Covers(spans, j)} :: i <= j < n && at(j).Some? ==> Covers(spans, j)
  }

  /** Offset k lies inside one of the spans. */
  predicate Covers(spans: seq<Span>, k: nat) {
    exists m :: m in spans && m.start <= k < m.end
  }

  /**
   * What a left-to-right scan for non-overlapping matches from offset i up to n
   * must report: spans in increasing order that do not overlap, each of them a
   * match starting at its start, and every offset where a match starts lying
   * inside one of them.
   */
  ghost predicate IsScan(at: nat -> Option<nat>, n: nat, i: nat, spans: seq<Span>) {
    SpansMatch(at, n, i, spans) && Ordered(spans) && CoversMatches(at, n, i, spans)
  }

  /** The scanning loop produces such a scan. */
  lemma {:induction false} ScanIsScan(at: nat -> Option<nat>, n: nat, i: nat)
    requires i <= n && Advances(at, n)
    ensures IsScan(at, n, i, Scan(at, n, i))
    decreases n - i
  {
    if i < n {
      match at(i)
      case Some(e) =>
        ScanIsScan(at, n, e);
        ConsScan(at, n, i, e, Scan(at, n, e));
      case None =>
        ScanIsScan(at, n, i + 1);
        SkipScan(at, n, i, Scan(at, n, i + 1));
    }
  }

  /** A match at i followed by a scan from its end is a scan from i. */
  lemma ConsScan(at: nat -> Option<nat>, n: nat, i: nat, e: nat, rest: seq<Span>)
    requires i < n && Advances(at, n) && at(i) == Some(e)
    requires IsScan(at, n, e, rest)
    ensures IsScan(at, n, i, [Span(i, e)] + rest)
  {
    ConsMatches(at, n, i, e, rest);
    ConsOrdered(i, e, rest);
    ConsCovers(at, n, i, e, rest);
  }

  lemma ConsMatches(at: nat -> Option<nat>, n: nat, i: nat, e: nat, rest: seq<Span>)
    requires i < n && Advances(at, n) && at(i) == Some(e)
    requires SpansMatch(at, n, e, rest)
    ensures SpansMatch(at, n, i, [Span(i, e)] + rest)
  {
    var spans := [Span(i, e)] + rest;
    forall k | 0 <= k < |spans|
      ensures i <= spans[k].start < n && at(spans[k].start) == Some(spans[k].end)
    {
      if k > 0 {
        assert spans[k] == rest[k - 1];
      }
    }
  }

  lemma ConsOrdered(i: nat, e: nat, rest: seq<Span>)
    requires Ordered(rest)
    requires forall k :: 0 <= k < |rest| ==> e <= rest[k].start
    ensures Ordered([Span(i, e)] + rest)
  {
    var spans := [Span(i, e)] + rest;
    forall a, b | 0 <= a < b < |spans|
      ensures spans[a].end <= spans[b].start
    {
      assert spans[b] == rest[b - 1];
      if a > 0 {
        assert spans[a] == rest[a - 1];
      }
    }
  }

  lemma ConsCovers(at: nat -> Option<nat>, n: nat, i: nat, e: nat, rest: seq<Span>)
    requires i < e
    requires CoversMatches(at, n, e, rest)
    ensures CoversMatches(at, n, i, [Span(i, e)] + rest)
  {
    var spans := [Span(i, e)] + rest;
    forall j: nat | i <= j < n && at(j).Some?
      ensures Covers(spans, j)
    {
      if j < e {
        assert spans[0] in spans;
      } else {
        assert Covers(rest, j);
        var m :| m in rest && m.start <= j < m.end;
        assert m in spans;
      }
    }
  }

  /** With no match at i, a scan from i + 1 is a scan from i. */
  lemma SkipScan(at: nat -> Option<nat>, n: nat, i: nat, spans: seq<Span>)
    requires i < n && at(i).None?
    requires IsScan(at, n, i + 1, spans)
    ensures IsScan(at, n, i, spans)
  {
  }

  /** When a match starts at i, a scan from i begins with it ... */
  lemma ScanFromMatch(at: nat -> Option<nat>, n: nat, i: nat, e: nat, spans: seq<Span>)
    requires i < n && Advances(at, n) && at(i) == Some(e)
    requires IsScan(at, n, i, spans)
    ensures |spans| > 0 && spans[0] == Span(i, e) && IsScan(at, n, e, spans[1..])
  {
    ScanHead(at, n, i, e, spans);
    ScanTail(at, n, i, e, spans);
  }

  lemma ScanHead(at: nat -> Option<nat>, n: nat, i: nat, e: nat, spans: seq<Span>)
    requires i < n && Advances(at, n) && at(i) == Some(e)
    requires IsScan(at, n, i, spans)
    ensures |spans| > 0 && spans[0] == Span(i, e)
  {
    assert Covers(spans, i);
    var first := spans[0];
    assert i <= first.start && at(first.start) == Some(first.end);
    assert first.start < first.end;
    assert first.start == i;
  }

  /** ... and goes on as a scan from its end. */
  lemma ScanTail(at: nat -> Option<nat>, n: nat, i: nat, e: nat, spans: seq<Span>)
    requires i < n && Advances(at, n)
    requires IsScan(at, n, i, spans)
    requires |spans| > 0 && spans[0] == Span(i, e)
    ensures IsScan(at, n, e, spans[1..])
  {
    var rest := spans[1..];
    forall k | 0 <= k < |rest|
      ensures e <= rest[k].start < n && at(rest[k].start) == Some(rest[k].end)
    {
      assert rest[k] == spans[k + 1];
      assert spans[0].end <= spans[k + 1].start;
    }
    forall a, b | 0 <= a < b < |rest|
      ensures rest[a].end <= rest[b].start
    {
      assert rest[a] == spans[a + 1] && rest[b] == spans[b + 1];
    }
    forall j: nat | e <= j < n && at(j).Some?
      ensures Covers(rest, j)
    {
      assert Covers(spans, j);
      var m :| m in spans && m.start <= j < m.end;
      var k :| 0 <= k < |spans| && spans[k] == m;
      assert k > 0;
      assert rest[k - 1] == m;
    }
  }

  /** When no match starts at i, a scan from i is a scan from i + 1. */
  lemma ScanFromMiss(at: nat -> Option<nat>, n: nat, i: nat, spans: seq<Span>)
    requires i < n && Advances(at, n) && at(i).None?
    requires IsScan(at, n, i, spans)
    ensures IsScan(at, n, i + 1, spans)
  {
    forall k | 0 <= k < |spans|
      ensures i + 1 <= spans[k].start
    {
      assert at(spans[k].start).Some?;
    }
  }

  /** A scan from the end, or beyond it, reports nothing. */
  lemma SpansBelowEnd(at: nat -> Option<nat>, n: nat, i: nat, spans: seq<Span>)
    requires SpansMatch(at, n, i, spans)
    ensures n <= i ==> spans == []
  {
    if |spans| > 0 {
      assert i <= spans[0].start < n;
    }
  }

  /** There is only one such scan, so the scanning loop's result is the only one. */
  lemma {:induction false} ScanUnique(at: nat -> Option<nat>, n: nat, i: nat, spans: seq<Span>)
    requires i <= n && Advances(at, n)
    requires IsScan(at, n, i, spans)
    ensures spans == Scan(at, n, i)
    decreases n - i
  {
    if i == n {
      SpansBelowEnd(at, n, i, spans);
    } else if at(i).Some? {
      var e := at(i).value;
      ScanFromMatch(at, n, i, e, spans);
      ScanUnique(at, n, e, spans[1..]);
      assert spans == [spans[0]] + spans[1..];
    } else {
      ScanFromMiss(at, n, i, spans);
      ScanUnique(at, n, i + 1, spans);
    }
  }

  /**
   * `re.finditer(p, s)` reports exactly the left-to-right, non-overlapping scan
   * of the matches of p in s: it is such a scan, and any such scan is it.
   */
  lemma FindIterIsTheScan(p: Regex, s: string, spans: seq<Span>)
    requires WellFormed(p)
    ensures IsScan(Matcher(p, s), |s|, 0, FindIter(p, s, 0))
    ensures IsScan(Matcher(p, s), |s|, 0, spans) ==> spans == FindIter(p, s, 0)
  {
    MatcherAdvances(p, s);
    ScanIsScan(Matcher(p, s), |s|, 0);
    if IsScan(Matcher(p, s), |s|, 0, spans) {
      ScanUnique(Matcher(p, s), |s|, 0, spans);
    }
  }

  /** Each span `finditer` reports is a match of p over exactly that range of s. */
  lemma FindIterSpan(p: Regex, s: string, m: Span)
    requires WellFormed(p) && m in FindIter(p, s, 0)
    ensures m.start < m.end <= |s| && MatchAt(p, s, m.start) == Some(m.end)
  {
    MatcherAdvances(p, s);
    ScanIsScan(Matcher(p, s), |s|, 0);
    var spans := FindIter(p, s, 0);
    var k :| 0 <= k < |spans| && spans[k] == m;
  }

  /** Two word-character runs from i that both end at a word boundary end at the same place. */
  lemma WordEndUnique(s: string, i: nat, a: nat, b: nat)
    requires i < a <= |s| && i < b <= |s|
    requires IsWord(s[i..a]) && IsWord(s[i..b])
    requires Boundary(s, a) && Boundary(s, b)
    ensures a == b
  {
    if a < b {
      InsideWordNoBoundary(s, i, a, b);
    } else if b < a {
      InsideWordNoBoundary(s, i, b, a);
    }
  }

  /** Strictly inside a run of word characters there is no word boundary. */
  lemma InsideWordNoBoundary(s: string, i: nat, a: nat, b: nat)
    requires i < a < b <= |s| && IsWord(s[i..b])
    ensures !Boundary(s, a)
  {
    assert s[a - 1] == s[i..b][a - 1 - i] && s[a] == s[i..b][a - i];
  }

  lemma {:induction false} FirstWordMatch(ws: seq<string>, s: string, i: nat, e: nat)
    requires forall k :: 0 <= k < |ws| ==> IsWord(ws[k])
    requires i <= |s|
    ensures FirstWord(ws, s, i) == Some(e) <==> i < e <= |s| && Boundary(s, e) && s[i..e] in ws
  {
    if ws != [] {
      var w := ws[0];
      assert IsWord(w);
      if StartsWith(s, i, w) && Boundary(s, i + |w|) {
        if i < e <= |s| && Boundary(s, e) && s[i..e] in ws {
          var k :| 0 <= k < |ws| && ws[k] == s[i..e];
          assert IsWord(ws[k]);
          WordEndUnique(s, i, e, i + |w|);
        }
      } else {
        FirstWordMatch(ws[1..], s, i, e);
        assert ws == [w] + ws[1..];
      }
    }
  }

  /**
   * `\b(w1|w2|...)\b` matches from i to e exactly when s[i..e] is one of the
   * words and it stands as a whole word: word boundaries on both sides.
   */
  lemma WordsMatch(ws: seq<string>, s: string, i: nat, e: nat)
    requires WellFormed(Words(ws)) && i <= |s|
    ensures MatchAt(Words(ws), s, i) == Some(e) <==>
      i < e <= |s| && Boundary(s, i) && Boundary(s, e) && s[i..e] in ws
  {
    FirstWordMatch(ws, s, i, e);
  }

  lemma {:induction false} BackToBoundaryMatch(s: string, i: nat, j: nat, e: nat)
    requires i <= j <= |s|
    requires forall k :: i <= k < j ==> IsDigit(s[k])
    ensures BackToBoundary(s, i, j) == Some(e) <==> i < e <= j && Boundary(s, e)
    decreases j
  {
    if j > i && !Boundary(s, j) {
      BackToBoundaryMatch(s, i, j - 1, e);
      if e < j && i < e && Boundary(s, e) {
        assert IsDigit(s[e - 1]) && IsDigit(s[e]);
      }
    }
  }

  /**
   * `\b\d+\b` matches from i to e exactly when s[i..e] is a run of digits
   * with a word boundary on both sides: a whole word made only of digits.
   */
  lemma DigitRunMatch(s: string, i: nat, e: nat)
    requires i <= |s|
    ensures MatchAt(DigitRun, s, i) == Some(e) <==>
      i < e <= |s| && Boundary(s, i) && Boundary(s, e) && forall k :: i <= k < e ==> IsDigit(s[k])
  {
    if Boundary(s, i) && i < |s| && IsDigit(s[i]) {
      var j := DigitRunEnd(s, i);
      BackToBoundaryMatch(s, i, j, e);
    }
  }

  lemma {:induction false} ClosingQuoteMatch(s: string, j: nat, e: nat)
    requires j <= |s|
    ensures ClosingQuote(s, j) == Some(e) <==>
      j < e <= |s| && s[e - 1] == '"' && forall k :: j <= k < e - 1 ==> s[k] != '"' && s[k] != '\n'
    decreases |s| - j
  {
    if j < |s| && s[j] != '\n' && s[j] != '"' {
      ClosingQuoteMatch(s, j + 1, e);
    }
  }

  /** s[a..b] is a double quote, then text with no quote and no newline, then a double quote. */
  predicate QuotedText(s: string, a: nat, b: nat) {
    a + 2 <= b <= |s| && s[a] == '"' && s[b - 1] == '"' && forall j :: a < j < b - 1 ==> s[j] != '"' && s[j] != '\n'
  }

  /**
   * `".*?"` matches from i to e exactly when s[i] and s[e - 1] are double quotes
   * with neither a quote nor a newline between them: the shortest quoted text
   * on one line.
   */
  lemma QuotedMatch(s: string, i: nat, e: nat)
    requires i <= |s|
    ensures MatchAt(LazyQuoted, s, i) == Some(e) <==> QuotedText(s, i, e)
  {
    if i < |s| && s[i] == '"' {
      ClosingQuoteMatch(s, i + 1, e);
    }
  }

  lemma {:induction false} LineEndAt(s: string, j: nat, e: nat)
    requires j <= |s|
    ensures LineEnd(s, j) == e <==>
      j <= e <= |s| && (e == |s| || s[e] == '\n') && forall k :: j <= k < e ==> s[k] != '\n'
    decreases |s| - j
  {
    if j < |s| && s[j] != '\n' {
      LineEndAt(s, j + 1, e);
    }
  }

  /**
   * `prefix.*` matches from i to e exactly when the prefix occurs at i and e is
   * the end of that line: the next newline after the prefix, or the end of the text.
   */
  lemma RestOfLineMatch(prefix: string, s: string, i: nat, e: nat)
    requires WellFormed(RestOfLine(prefix)) && i <= |s|
    ensures MatchAt(RestOfLine(prefix), s, i) == Some(e) <==>
      StartsWith(s, i, prefix) && i + |prefix| <= e <= |s| && (e == |s| || s[e] == '\n') &&
      forall k :: i + |prefix| <= k < e ==> s[k] != '\n'
  {
    if StartsWith(s, i, prefix) {
      LineEndAt(s, i + |prefix|, e);
    }
  }

  lemma {:induction false} FirstLiteralMatch(ls: seq<string>, s: string, i: nat)
    requires forall k :: 0 <= k < |ls| ==> |ls[k]| > 0
    requires i <= |s|
    ensures FirstLiteral(ls, s, i).Some? ==> s[i..FirstLiteral(ls, s, i).value] in ls
    ensures FirstLiteral(ls, s, i).None? <==> forall k :: 0 <= k < |ls| ==> !StartsWith(s, i, ls[k])
  {
    if ls != [] && !StartsWith(s, i, ls[0]) {
      FirstLiteralMatch(ls[1..], s, i);
      assert forall k :: 1 <= k < |ls| ==> ls[k] == ls[1..][k - 1];
    }
  }

  /**
   * `l1|l2|...` matches at i exactly when one of the literals occurs there, and
   * what it matches is the first literal, in the order listed, that occurs there.
   */
  lemma LiteralsMatch(ls: seq<string>, s: string, i: nat)
    requires WellFormed(Literals(ls)) && i <= |s|
    ensures MatchAt(Literals(ls), s, i).Some? ==> s[i..MatchAt(Literals(ls), s, i).value] in ls
    ensures MatchAt(Literals(ls), s, i).None? <==> forall k :: 0 <= k < |ls| ==> !StartsWith(s, i, ls[k])
    ensures forall k :: 0 <= k < |ls| && StartsWith(s, i, ls[k]) && (forall j :: 0 <= j < k ==> !StartsWith(s, i, ls[j])) ==>
      MatchAt(Literals(ls), s, i) == Some(i + |ls[k]|)
  {
    FirstLiteralMatch(ls, s, i);
    forall k | 0 <= k < |ls| && StartsWith(s, i, ls[k]) && (forall j :: 0 <= j < k ==> !StartsWith(s, i, ls[j]))
      ensures MatchAt(Literals(ls), s, i) == Some(i + |ls[k]|)
    {
      FirstLiteralIsFirst(ls, s, i, k);
    }
  }

  /** The alternatives are tried in order: the first literal that occurs at i is the one matched. */
  lemma {:induction false} FirstLiteralIsFirst(ls: seq<string>, s: string, i: nat, k: nat)
    requires forall j :: 0 <= j < |ls| ==> |ls[j]| > 0
    requires i <= |s| && k < |ls| && StartsWith(s, i, ls[k])
    requires forall j :: 0 <= j < k ==> !StartsWith(s, i, ls[j])
    ensures FirstLiteral(ls, s, i) == Some(i + |ls[k]|)
  {
    if k > 0 {
      assert !StartsWith(s, i, ls[0]);
      assert forall j :: 0 <= j < |ls| - 1 ==> ls[1..][j] == ls[j + 1];
      FirstLiteralIsFirst(ls[1..], s, i, k - 1);
    }
  }
}
