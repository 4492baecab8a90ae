/**
 * The editor's style-tag state after highlighting: every colour tag is first
 * removed from the whole text, then each rule of the table, in order, adds its
 * tag over every match `finditer` reports. The state records which tags are on
 * which characters; which tag is displayed where several overlap is left to the
 * rendering surface and is not part of this model.
 */
module Highlight {
  import opened Outcomes
  import opened Decimal
  import opened Patterns

  /** (character offset, tag) pairs: the tags present on each character of the editor. */
  type TagState = set<(nat, Tag)>

  /** Tag t over the characters of one span (one `tag_add`). */
  function Cover(m: Span, t: Tag): TagState
  {
    set k: nat | m.start <= k < m.end :: (k, t)
  }

  /** Tag t over each span of spans, in order. */
  function SpanTags(spans: seq<Span>, t: Tag): TagState
  {
    if spans == [] then {} else SpanTags(spans[..|spans| - 1], t) + Cover(spans[|spans| - 1], t)
  }

  /** Each rule of rules, in order, tags every match of its pattern in code. */
  function RulesTags(rules: seq<Rule>, code: string): TagState
    requires RulesWellFormed(rules)
  {
    if rules == [] then {}
    else
      var last := rules[|rules| - 1];
      RulesTags(rules[..|rules| - 1], code) + SpanTags(FindIter(last.regex, code, 0), last.tag)
  }

  lemma PatternsWellFormed()
    ensures RulesWellFormed(PATTERNS)
  {
    assert IsWord("loop") && IsWord("check") && IsWord("else");
    assert IsWord("choose") && IsWord("default") && IsWord("in");
    assert IsWord("plot") && IsWord("ask");
  }

  /** The tag state highlighting leaves on the editor text code, whatever the state before. */
  function Highlighted(code: string): TagState
  {
    PatternsWellFormed();
    RulesTags(PATTERNS, code)
  }

  lemma {:induction false} SpanTagsAt(spans: seq<Span>, t: Tag, k: nat, u: Tag)
    ensures (k, u) in SpanTags(spans, t) <==> u == t && Covers(spans, k)
  {
    if spans != [] {
      var init := spans[..|spans| - 1];
      var last := spans[|spans| - 1];
      SpanTagsAt(init, t, k, u);
      assert spans == init + [last];
      CoversSnoc(init, last, k);
    }
  }

  /** An offset is covered by spans with one more at the end when the shorter list or the new span covers it. */
  lemma CoversSnoc(init: seq<Span>, x: Span, k: nat)
    ensures Covers(init + [x], k) <==> Covers(init, k) || x.start <= k < x.end
  {
    var spans := init + [x];
    if Covers(spans, k) {
      var m :| m in spans && m.start <= k < m.end;
      if m != x {
        assert m in init;
      }
    }
    if Covers(init, k) {
      var m :| m in init && m.start <= k < m.end;
      assert m in spans;
    }
    if x.start <= k < x.end {
      assert x in spans;
    }
  }

  lemma {:induction false} RulesTagsAt(rules: seq<Rule>, code: string, k: nat, t: Tag)
    requires RulesWellFormed(rules)
    ensures (k, t) in RulesTags(rules, code) <==>
      exists r :: 0 <= r < |rules| && rules[r].tag == t && Covers(FindIter(rules[r].regex, code, 0), k)
  {
    if rules != [] {
      var n := |rules| - 1;
      var init := rules[..n];
      RulesTagsAt(init, code, k, t);
      SpanTagsAt(FindIter(rules[n].regex, code, 0), rules[n].tag, k, t);
      assert forall r :: 0 <= r < n ==> init[r] == rules[r];
    }
  }

  /**
   * After highlighting, character k carries tag t exactly when some rule of
   * the table with tag t has a `finditer` match over k.
   */
  lemma HighlightedAt(code: string, k: nat, t: Tag)
    ensures RulesWellFormed(PATTERNS)
    ensures (k, t) in Highlighted(code) <==>
      exists r :: 0 <= r < |PATTERNS| && PATTERNS[r].tag == t && Covers(FindIter(PATTERNS[r].regex, code, 0), k)
  {
    PatternsWellFormed();
    RulesTagsAt(PATTERNS, code, k, t);
  }

  /** Every tag lies on a character of the text, and the `bg` and `fg` tags are never applied. */
  lemma HighlightedInText(code: string, k: nat, t: Tag)
    requires (k, t) in Highlighted(code)
    ensures k < |code| && t != Bg && t != Fg
  {
    HighlightedAt(code, k, t);
    var r :| 0 <= r < |PATTERNS| && PATTERNS[r].tag == t && Covers(FindIter(PATTERNS[r].regex, code, 0), k);
    var m :| m in FindIter(PATTERNS[r].regex, code, 0) && m.start <= k < m.end;
    FindIterSpan(PATTERNS[r].regex, code, m);
  }

  /** The rule of the table whose tag is t, for the tags the table uses once each. */
  lemma RuleOfTag(r: nat, t: Tag)
    requires r < |PATTERNS| && PATTERNS[r].tag == t
    ensures t == Keyword ==> r == 0
    ensures t == Function ==> r == 1
    ensures t == Number ==> r == 3
    ensures t == Comment ==> r == 4
    ensures t == String ==> r == 2
    ensures t == Operator ==> r == 5
  {
  }

  /** Patterns whose every match is a whole word: a run of word characters with a boundary on each side. */
  predicate WholeWord(p: Regex) {
    p.Words? || p.DigitRun?
  }

  lemma WholeWordMatch(p: Regex, s: string, i: nat)
    requires WellFormed(p) && WholeWord(p) && i <= |s| && MatchAt(p, s, i).Some?
    ensures Boundary(s, i) && Boundary(s, MatchAt(p, s, i).value) && IsWord(s[i..MatchAt(p, s, i).value])
  {
    var e := MatchAt(p, s, i).value;
    if p.Words? {
      WordsMatch(p.words, s, i, e);
      var w :| w in p.words && w == s[i..e];
    } else {
      DigitRunMatch(s, i, e);
    }
  }

  /** A character inside any match of a whole-word pattern is inside a span `finditer` reports. */
  lemma WholeWordCovered(p: Regex, s: string, a: nat, k: nat)
    requires WellFormed(p) && WholeWord(p) && a <= |s| && MatchAt(p, s, a).Some?
    requires a <= k < MatchAt(p, s, a).value
    ensures Covers(FindIter(p, s, 0), k)
  {
    var m := SpanAround(p, s, a);
    WholeWordMatch(p, s, m.start);
    WholeWordMatch(p, s, a);
    if m.start < a {
      InsideWordNoBoundary(s, m.start, a, m.end);
    }
    WordEndUnique(s, a, m.end, MatchAt(p, s, a).value);
  }

  /** The span `finditer` reports around an offset where a match starts. */
  lemma SpanAround(p: Regex, s: string, a: nat) returns (m: Span)
    requires WellFormed(p) && a <= |s| && MatchAt(p, s, a).Some?
    ensures m in FindIter(p, s, 0) && m.start <= a < m.end
    ensures m.end <= |s| && MatchAt(p, s, m.start) == Some(m.end)
  {
    var spans := FindIter(p, s, 0);
    FindIterIsTheScan(p, s, spans);
    MatcherAdvances(p, s);
    assert a < |s|;
    assert Matcher(p, s)(a).Some?;
    assert Covers(spans, a);
    var i :| 0 <= i < |spans| && spans[i].start <= a < spans[i].end;
    m := spans[i];
    FindIterSpan(p, s, m);
  }

  /** A character inside a span `finditer` reports is inside a match starting at or before it. */
  lemma CoveredInMatch(p: Regex, s: string, k: nat) returns (a: nat, b: nat)
    requires WellFormed(p) && Covers(FindIter(p, s, 0), k)
    ensures a <= k < b <= |s| && MatchAt(p, s, a) == Some(b)
  {
    var m :| m in FindIter(p, s, 0) && m.start <= k < m.end;
    FindIterSpan(p, s, m);
    a, b := m.start, m.end;
  }

  /** Character k carries the keyword tag exactly when it lies in a whole-word occurrence of a keyword. */
  lemma KeywordHighlight(code: string, k: nat)
    ensures (k, Keyword) in Highlighted(code) <==>
      exists a: nat, b: nat :: a <= k < b <= |code| && Boundary(code, a) && Boundary(code, b) && code[a..b] in KEYWORDS
  {
    WordsRuleHighlight(code, k, 0);
  }

  /** Character k carries the function tag exactly when it lies in a whole-word `plot` or `ask`. */
  lemma FunctionHighlight(code: string, k: nat)
    ensures (k, Function) in Highlighted(code) <==>
      exists a: nat, b: nat :: a <= k < b <= |code| && Boundary(code, a) && Boundary(code, b) && code[a..b] in FUNCTIONS
  {
    WordsRuleHighlight(code, k, 1);
  }

  lemma WordsRuleHighlight(code: string, k: nat, r: nat)
    requires r < 2
    ensures PATTERNS[r].regex.Words?
    ensures (k, PATTERNS[r].tag) in Highlighted(code) <==>
      exists a: nat, b: nat :: a <= k < b <= |code| && Boundary(code, a) && Boundary(code, b) && code[a..b] in PATTERNS[r].regex.words
  {
    var rule := PATTERNS[r];
    var ws := rule.regex.words;
    HighlightedAt(code, k, rule.tag);
    if (k, rule.tag) in Highlighted(code) {
      var r' :| 0 <= r' < |PATTERNS| && PATTERNS[r'].tag == rule.tag && Covers(FindIter(PATTERNS[r'].regex, code, 0), k);
      RuleOfTag(r', rule.tag);
      var a, b := CoveredInMatch(rule.regex, code, k);
      WordsMatch(ws, code, a, b);
    }
    if exists a: nat, b: nat :: a <= k < b <= |code| && Boundary(code, a) && Boundary(code, b) && code[a..b] in ws {
      var a: nat, b: nat :| a <= k < b <= |code| && Boundary(code, a) && Boundary(code, b) && code[a..b] in ws;
      WordsMatch(ws, code, a, b);
      WholeWordCovered(rule.regex, code, a, k);
    }
  }

  /** Character k carries the number tag exactly when it lies in a whole word made only of digits. */
  lemma NumberHighlight(code: string, k: nat)
    ensures (k, Number) in Highlighted(code) <==>
      exists a: nat, b: nat :: a <= k < b <= |code| && Boundary(code, a) && Boundary(code, b) && AllDigits(code[a..b])
  {
    if (k, Number) in Highlighted(code) {
      var a, b := NumberTagged(code, k);
    }
    if exists a: nat, b: nat :: a <= k < b <= |code| && Boundary(code, a) && Boundary(code, b) && AllDigits(code[a..b]) {
      var a: nat, b: nat :| a <= k < b <= |code| && Boundary(code, a) && Boundary(code, b) && AllDigits(code[a..b]);
      NumberWordTagged(code, k, a, b);
    }
  }

  lemma NumberTagged(code: string, k: nat) returns (a: nat, b: nat)
    requires (k, Number) in Highlighted(code)
    ensures a <= k < b <= |code| && Boundary(code, a) && Boundary(code, b) && AllDigits(code[a..b])
  {
    HighlightedAt(code, k, Number);
    var r :| 0 <= r < |PATTERNS| && PATTERNS[r].tag == Number && Covers(FindIter(PATTERNS[r].regex, code, 0), k);
    RuleOfTag(r, Number);
    a, b := CoveredInMatch(DigitRun, code, k);
    DigitRunMatch(code, a, b);
  }

  lemma NumberWordTagged(code: string, k: nat, a: nat, b: nat)
    requires a <= k < b <= |code| && Boundary(code, a) && Boundary(code, b) && AllDigits(code[a..b])
    ensures (k, Number) in Highlighted(code)
  {
    assert forall j :: a <= j < b ==> code[j] == code[a..b][j - a];
    DigitRunMatch(code, a, b);
    WholeWordCovered(DigitRun, code, a, k);
    HighlightedAt(code, k, Number);
    assert PATTERNS[3].regex == DigitRun;
  }

  /**
   * `note>.*` colours a character exactly when a `note>` starts at or before it
   * on its own line and the character is not the line's newline.
   */
  lemma CommentHighlight(code: string, k: nat)
    ensures (k, Comment) in Highlighted(code) <==>
      exists a: nat :: a <= k < |code| && StartsWith(code, a, "note>") && forall j :: a <= j <= k ==> code[j] != '\n'
  {
    if (k, Comment) in Highlighted(code) {
      CommentTagged(code, k);
    }
    if exists a: nat :: a <= k < |code| && StartsWith(code, a, "note>") && forall j :: a <= j <= k ==> code[j] != '\n' {
      var a: nat :| a <= k < |code| && StartsWith(code, a, "note>") && forall j :: a <= j <= k ==> code[j] != '\n';
      CommentLineTagged(code, k, a);
    }
  }

  /** A comment-tagged character follows a `note>` on its own line. */
  lemma CommentTagged(code: string, k: nat)
    requires (k, Comment) in Highlighted(code)
    ensures exists a: nat :: a <= k < |code| && StartsWith(code, a, "note>") && forall j :: a <= j <= k ==> code[j] != '\n'
  {
    HighlightedAt(code, k, Comment);
    var r :| 0 <= r < |PATTERNS| && PATTERNS[r].tag == Comment && Covers(FindIter(PATTERNS[r].regex, code, 0), k);
    RuleOfTag(r, Comment);
    var a, b := CoveredInMatch(RestOfLine("note>"), code, k);
    RestOfLineMatch("note>", code, a, b);
    forall j | a <= j < a + 5
      ensures code[j] != '\n'
    {
      assert code[j] == code[a..a + 5][j - a];
    }
  }

  /**
   * A character after a `note>` on the same line is comment-tagged: the
   * `finditer` match around the `note>` runs to that line's newline.
   */
  lemma CommentLineTagged(code: string, k: nat, a: nat)
    requires a <= k < |code| && StartsWith(code, a, "note>")
    requires forall j :: a <= j <= k ==> code[j] != '\n'
    ensures (k, Comment) in Highlighted(code)
  {
    var p := RestOfLine("note>");
    HighlightedAt(code, k, Comment);
    assert PATTERNS[4] == Rule(p, Comment);
    var e := LineEnd(code, a + 5);
    LineEndAt(code, a + 5, e);
    RestOfLineMatch("note>", code, a, e);
    var m := SpanAround(p, code, a);
    RestOfLineMatch("note>", code, m.start, m.end);
    assert m.end > k by {
      assert m.end == |code| || code[m.end] == '\n';
    }
  }

  /**
   * A character carrying the string tag lies in a shortest quoted text on one
   * line: between a double quote and the next one, with no newline between.
   */
  lemma StringHighlight(code: string, k: nat)
    requires (k, String) in Highlighted(code)
    ensures exists a: nat, b: nat :: a <= k < b && QuotedText(code, a, b)
  {
    HighlightedAt(code, k, String);
    var r :| 0 <= r < |PATTERNS| && PATTERNS[r].tag == String && Covers(FindIter(PATTERNS[r].regex, code, 0), k);
    RuleOfTag(r, String);
    var a, b := CoveredInMatch(LazyQuoted, code, k);
    QuotedMatch(code, a, b);
    assert QuotedText(code, a, b);
  }

  /** Offset k is the `~` operator or one of the two characters of an `->` arrow. */
  predicate OperatorChar(s: string, k: nat) {
    k < |s| &&
    (s[k] == '~' || (s[k] == '-' && k + 1 < |s| && s[k + 1] == '>') || (s[k] == '>' && k > 0 && s[k - 1] == '-'))
  }

  /** Character k carries the operator tag exactly when it is a `~` or part of an `->`. */
  lemma OperatorHighlight(code: string, k: nat)
    ensures (k, Operator) in Highlighted(code) <==> OperatorChar(code, k)
  {
    if (k, Operator) in Highlighted(code) {
      OperatorTagged(code, k);
    }
    if OperatorChar(code, k) {
      OperatorCharTagged(code, k);
    }
  }

  lemma OperatorTagged(code: string, k: nat)
    requires (k, Operator) in Highlighted(code)
    ensures OperatorChar(code, k)
  {
    HighlightedAt(code, k, Operator);
    var r :| 0 <= r < |PATTERNS| && PATTERNS[r].tag == Operator && Covers(FindIter(PATTERNS[r].regex, code, 0), k);
    RuleOfTag(r, Operator);
    var a, b := CoveredInMatch(Literals(["->", "~"]), code, k);
    OperatorMatch(code, a, b);
  }

  lemma OperatorCharTagged(code: string, k: nat)
    requires OperatorChar(code, k)
    ensures (k, Operator) in Highlighted(code)
  {
    var ops := Literals(["->", "~"]);
    var a: nat := if code[k] == '>' then k - 1 else k;
    OperatorStartMatches(code, a);
    var m := SpanAround(ops, code, a);
    OperatorMatch(code, m.start, m.end);
    assert m.start <= k < m.end;
    HighlightedAt(code, k, Operator);
    assert PATTERNS[5] == Rule(ops, Operator);
  }

  /** The operator pattern matches where a `~` or an `->` starts. */
  lemma OperatorStartMatches(code: string, a: nat)
    requires a < |code| && (code[a] == '~' || (code[a] == '-' && a + 1 < |code| && code[a + 1] == '>'))
    ensures MatchAt(Literals(["->", "~"]), code, a).Some?
  {
    LiteralsMatch(["->", "~"], code, a);
    if code[a] == '~' {
      assert code[a..a + 1] == "~";
      assert StartsWith(code, a, ["->", "~"][1]);
    } else {
      assert code[a..a + 2] == [code[a], code[a + 1]] == "->";
      assert StartsWith(code, a, ["->", "~"][0]);
    }
  }

  /** What `->|~` matches: an arrow or a tilde, starting where it matches. */
  lemma OperatorMatch(code: string, a: nat, b: nat)
    requires a <= |code| && MatchAt(Literals(["->", "~"]), code, a) == Some(b)
    ensures b <= |code|
    ensures (b == a + 2 && code[a] == '-' && code[a + 1] == '>') || (b == a + 1 && code[a] == '~')
  {
    LiteralsMatch(["->", "~"], code, a);
    assert code[a..b] == "->" || code[a..b] == "~";
    assert code[a] == code[a..b][0];
    if code[a..b] == "->" {
      assert code[a + 1] == code[a..b][1];
    }
  }
}
