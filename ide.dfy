/**
 * The IDE window's state and its handlers: the editor's contents and style
 * tags, the line-number gutter, the output console and the process's standard
 * output sink. Widgets, colours, layout and the event loop are not modelled;
 * a handler is a method that changes the fields the widgets would show.
 */
module Ide {
  import opened Outcomes
  import opened Gutter
  import opened Patterns
  import opened Highlight
  import opened Interpreter
  import opened Pipeline

  /** Where `print` writes: the process's own stream, or an in-memory capture buffer. */
  datatype Sink = Stream(handle: nat) | Captured(value: string)

  /** Writing text to a sink: a capture buffer keeps it; the process's stream is outside the model. */
  function Write(out: Sink, text: string): Sink
  {
    match out
    case Stream(_) => out
    case Captured(v) => Captured(v + text)
  }

  /** The script the editor opens with. */
  const DEFAULT_SCRIPT: string :=
    "note> PatternScript Demo\n"
    + "ask name:\n"
    + "plot \"Hello \" ~ name:\n"
    + "\n"
    + "loop i in 1..5 {\n"
    + "    check i > 2 {\n"
    + "        plot \"Number \" ~ i:\n"
    + "    }\n"
    + "}\n"

  /** Two writes in a row leave the sink as one write of both texts would. */
  lemma WriteTwice(out: Sink, a: string, b: string)
    ensures Write(Write(out, a), b) == Write(out, a + b)
  {
    match out
    case Stream(_) =>
    case Captured(v) =>
      assert (v + a) + b == v + (a + b);
  }

  class PatternScriptIde {
    /** The editor's contents. */
    var buffer: string
    /** The colour tags on the editor's characters. */
    var tags: TagState
    /** The text of the line-number gutter. */
    var gutter: string
    /** The console's insertions since it was last cleared, in order. */
    var console: seq<Entry>
    /** The current standard output. */
    var stdout: Sink

    /** What reading the editor from its start to its end returns: the contents and the final newline the widget always keeps. */
    function Text(): (r: string)
      reads this
      ensures |r| == |buffer| + 1 && r[|buffer|] == '\n' && r[..|buffer|] == buffer
    {
      buffer + "\n"
    }

    /** The window opens on the demo script, numbered and highlighted, with an empty console. */
    constructor (out: Sink)
      ensures buffer == DEFAULT_SCRIPT && console == [] && stdout == out
      ensures gutter == GutterText(Text()) && tags == Highlighted(Text())
    {
      buffer := DEFAULT_SCRIPT;
      tags := {};
      gutter := "";
      console := [];
      stdout := out;
      new;
      UpdateLineNumbers();
      HighlightSyntax();
    }

    /** Renumbers the gutter for the current editor text; nothing else changes. */
    method UpdateLineNumbers()
      modifies this
      ensures gutter == GutterText(Text())
      ensures buffer == old(buffer) && tags == old(tags) && console == old(console) && stdout == old(stdout)
    {
      var code := buffer + "\n";
      var lines := CountChar(code, '\n');
      if lines == 0 {
        lines := 1;
      }
      gutter := Join(Numerals(lines), '\n');
    }

    /**
     * Clears every colour tag from the editor, then applies each rule of the
     * table in order, tagging every `finditer` match of its pattern. The result
     * depends on the editor text alone, not on the tags that were there before.
     */
    method HighlightSyntax()
      modifies this
      ensures tags == Highlighted(Text())
      ensures buffer == old(buffer) && gutter == old(gutter) && console == old(console) && stdout == old(stdout)
    {
      var code := buffer + "\n";
      ClearTags();
      PatternsWellFormed();
      var r := 0;
      while r < |PATTERNS|
        invariant 0 <= r <= |PATTERNS|
        invariant tags == RulesTags(PATTERNS[..r], code)
        invariant buffer == old(buffer) && gutter == old(gutter) && console == old(console) && stdout == old(stdout)
      {
        TagRule(PATTERNS[r], code);
        assert PATTERNS[..r + 1][..r] == PATTERNS[..r];
        r := r + 1;
      }
      assert PATTERNS[..r] == PATTERNS;
    }

    /** Removes every colour-table key from the whole text, which leaves no colour tag. */
    method ClearTags()
      modifies this
      ensures tags == {}
      ensures buffer == old(buffer) && gutter == old(gutter) && console == old(console) && stdout == old(stdout)
    {
      var c := 0;
      while c < |COLOR_TAGS|
        invariant 0 <= c <= |COLOR_TAGS|
        invariant forall p :: p in tags ==> p.1 !in COLOR_TAGS[..c]
        invariant buffer == old(buffer) && gutter == old(gutter) && console == old(console) && stdout == old(stdout)
      {
        var t := COLOR_TAGS[c];
        tags := set p | p in tags && p.1 != t;
        c := c + 1;
      }
      assert COLOR_TAGS[..c] == COLOR_TAGS;
      forall p | p in tags
        ensures false
      {
        EveryTagColored(p.1);
      }
    }

    /** Adds the rule's tag over every span `finditer` reports for its pattern. */
    method TagRule(rule: Rule, code: string)
      requires WellFormed(rule.regex)
      modifies this
      ensures tags == old(tags) + SpanTags(FindIter(rule.regex, code, 0), rule.tag)
      ensures buffer == old(buffer) && gutter == old(gutter) && console == old(console) && stdout == old(stdout)
    {
      var matches := FindIter(rule.regex, code, 0);
      var m := 0;
      while m < |matches|
        invariant 0 <= m <= |matches|
        invariant tags == old(tags) + SpanTags(matches[..m], rule.tag)
        invariant buffer == old(buffer) && gutter == old(gutter) && console == old(console) && stdout == old(stdout)
      {
        assert matches[..m + 1][..m] == matches[..m];
        tags := tags + Cover(matches[m], rule.tag);
        m := m + 1;
      }
      assert matches[..m] == matches;
    }

    /** After a key is released: renumber, then re-highlight. */
    method OnKeyRelease()
      modifies this
      ensures gutter == GutterText(Text()) && tags == Highlighted(Text())
      ensures buffer == old(buffer) && console == old(console) && stdout == old(stdout)
    {
      UpdateLineNumbers();
      HighlightSyntax();
    }

    /** After the contents change: renumber only. */
    method OnContentChanged()
      modifies this
      ensures gutter == GutterText(Text())
      ensures buffer == old(buffer) && tags == old(tags) && console == old(console) && stdout == old(stdout)
    {
      UpdateLineNumbers();
    }

    /**
     * Loads a script: `selection` is the chosen file's contents, or None when
     * the file dialog was cancelled, in which case nothing changes. Otherwise
     * the editor holds exactly the file's contents, highlighted and numbered.
     */
    method LoadFile(selection: Option<string>)
      modifies this
      ensures selection.None? ==> buffer == old(buffer) && tags == old(tags) && gutter == old(gutter)
      ensures selection.Some? ==> buffer == selection.value && tags == Highlighted(Text()) && gutter == GutterText(Text())
      ensures console == old(console) && stdout == old(stdout)
    {
      if selection.None? {
        return;
      }
      buffer := selection.value;
      HighlightSyntax();
      UpdateLineNumbers();
    }

    /** Empties the console; nothing else changes. */
    method ClearOutput()
      modifies this
      ensures console == []
      ensures buffer == old(buffer) && tags == old(tags) && gutter == old(gutter) && stdout == old(stdout)
    {
      console := [];
    }

    /**
     * Runs the editor's script through the back end's phases with standard
     * output captured, and leaves in the console exactly the transcript of
     * that run: the compiling marker, the TAC listing, then the captured
     * output and the finished marker, or the error entry of the first phase
     * that raised. `answers(i)` is the prompt response for top-level statement
     * i. Standard output is restored afterwards; the editor is untouched.
     */
    method RunCode(b: Backend, answers: nat -> Option<string>)
      modifies this
      ensures console == Transcript(old(Text()), b, answers)
      ensures buffer == old(buffer) && tags == old(tags) && gutter == old(gutter) && stdout == old(stdout)
    {
      var code := buffer + "\n";
      ClearOutput();
      var saved := stdout;
      stdout := Captured("");
      Compile(code, b, answers);
      stdout := saved;
    }

    /**
     * The body of a run, with the console cleared and standard output captured:
     * the compiling marker, then parsing; a parse error ends the run with its
     * error entry.
     */
    method Compile(code: string, b: Backend, answers: nat -> Option<string>)
      requires console == [] && stdout == Captured("")
      modifies this
      ensures console == Transcript(code, b, answers)
      ensures buffer == old(buffer) && tags == old(tags) && gutter == old(gutter)
    {
      console := console + [COMPILING];
      var parsed := b.parse(code);
      stdout := Write(stdout, parsed.printed);
      assert stdout == Captured(parsed.printed);
      match parsed.result {
        case Err(msg) =>
          console := console + [ErrorEntry(msg)];
        case Ok(ast) =>
          console := console + [TAC_HEADER];
          var generated := b.generate(ast);
          stdout := Write(stdout, generated.printed);
          match generated.result {
            case Err(msg) =>
              console := console + [ErrorEntry(msg)];
            case Ok(lines) =>
              ListTac(lines);
              console := console + [SEPARATOR];
              Execute(ast, b, answers);
              assert console == Transcript(code, b, answers);
          }
      }
    }

    /**
     * Optimisation and interpretation, after the TAC listing: the error entry of
     * the phase that raised, or the captured output and the finished marker.
     */
    method Execute(ast: seq<Stmt>, b: Backend, answers: nat -> Option<string>)
      requires stdout.Captured?
      modifies this
      ensures console == old(console) + Conclusion(old(stdout.value), ast, b, answers)
      ensures buffer == old(buffer) && tags == old(tags) && gutter == old(gutter)
    {
      var optimized := b.optimize(ast);
      stdout := Write(stdout, optimized.printed);
      match optimized.result {
        case Err(msg) =>
          console := console + [ErrorEntry(msg)];
        case Ok(program) =>
          var error := Interpret(program, b.visitBase, answers);
          match error {
            case Some(msg) =>
              console := console + [ErrorEntry(msg)];
            case None =>
              console := console + [Entry(stdout.value, Plain), FINISHED];
          }
      }
    }

    /** Appends one TAC entry per generated instruction line, in order. */
    method ListTac(lines: seq<string>)
      modifies this
      ensures console == old(console) + TacListing(lines)
      ensures buffer == old(buffer) && tags == old(tags) && gutter == old(gutter) && stdout == old(stdout)
    {
      var k := 0;
      while k < |lines|
        invariant 0 <= k <= |lines|
        invariant console == old(console) + TacListing(lines[..k])
        invariant buffer == old(buffer) && tags == old(tags) && gutter == old(gutter) && stdout == old(stdout)
      {
        assert lines[..k + 1][..k] == lines[..k];
        console := console + [TacLine(lines[k])];
        k := k + 1;
      }
      assert lines[..k] == lines;
    }

    /**
     * Runs the optimised program's top-level statements on a fresh GuiInterpreter,
     * writing what they print to standard output, until one raises. Returns the
     * message of the exception, if one was raised; what was written is the
     * output of InterpretFrom from the start.
     */
    method Interpret(program: seq<Stmt>, visitBase: (Stmt, Vars) -> Step<Vars>, answers: nat -> Option<string>)
      returns (error: Option<string>)
      requires stdout.Captured?
      modifies this
      ensures var run := InterpretFrom(program, 0, map[], visitBase, answers);
        && stdout == Captured(old(stdout.value) + run.printed)
        && error == (if run.result.Err? then Some(run.result.msg) else None)
      ensures buffer == old(buffer) && tags == old(tags) && gutter == old(gutter) && console == old(console)
    {
      ghost var before := stdout.value;
      var interpreter := new GuiInterpreter();
      assert InterpretFrom(program, 0, interpreter.variables, visitBase, answers) == InterpretFrom(program, 0, map[], visitBase, answers);
      ghost var run := InterpretFrom(program, 0, map[], visitBase, answers);
      ghost var ran := "";
      error := None;
      var i := 0;
      while i < |program| && error.None?
        invariant 0 <= i <= |program|
        invariant stdout == Write(Captured(before), ran)
        invariant error.None? ==>
          var rest := InterpretFrom(program, i, interpreter.variables, visitBase, answers);
          run.printed == ran + rest.printed && run.result == rest.result
        invariant error.Some? ==> run.printed == ran && run.result == Err(error.value)
        invariant buffer == old(buffer) && tags == old(tags) && gutter == old(gutter) && console == old(console)
        invariant fresh(interpreter)
        decreases |program| - i
      {
        ghost var vars := interpreter.variables;
        InterpretFromStep(program, i, vars, visitBase, answers);
        var printed, raised := interpreter.Visit(program[i], visitBase, answers(i));
        WriteTwice(Captured(before), ran, printed);
        stdout := Write(stdout, printed);
        if raised.None? {
          ghost var rest := InterpretFrom(program, i + 1, interpreter.variables, visitBase, answers);
          assert run.printed == ran + (printed + rest.printed);
          WriteTwice(Captured(ran), printed, rest.printed);
        }
        ran := ran + printed;
        error := raised;
        i := i + 1;
      }
    }
  }
}
