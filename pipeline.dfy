/**
 * What one run of a script writes to the console: a "Compiling" marker, the
 * three-address code listing, then either the captured program output and a
 * "Finished" marker, or, as soon as any phase raises, one error entry.
 * Parsing, TAC generation, optimisation and the base interpreter are external
 * code and are passed in as functions.
 */
module Pipeline {
  import opened Outcomes
  import opened Interpreter

  /** The external compiler back end; each phase may print and may raise. */
  datatype Backend = Backend(
    parse: string -> Step<seq<Stmt>>,
    generate: seq<Stmt> -> Step<seq<string>>,
    optimize: seq<Stmt> -> Step<seq<Stmt>>,
    visitBase: (Stmt, Vars) -> Step<Vars>)

  /** The console's style tags; `Plain` is text inserted without a tag. */
  datatype ConsoleTag = Plain | Info | Tac | Success | Error

  /** One insertion into the console: its text and its tag. */
  datatype Entry = Entry(text: string, tag: ConsoleTag)

  const COMPILING: Entry := Entry("[Compiling...]\n", Info)
  const TAC_HEADER: Entry := Entry("[Phase 4: Intermediate Code]\n", Tac)
  const SEPARATOR: Entry := Entry(seq(30, _ => '-') + "\n", Info)
  const FINISHED: Entry := Entry("\n[Finished]", Success)

  function TacLine(line: string): Entry
  {
    Entry("  " + line + "\n", Tac)
  }

  function ErrorEntry(msg: string): Entry
  {
    Entry("\nError: " + msg, Error)
  }

  /** One TAC entry per instruction line, in the order the generator produced them. */
  function TacListing(lines: seq<string>): (r: seq<Entry>)
    ensures |r| == |lines|
  {
    if lines == [] then [] else TacListing(lines[..|lines| - 1]) + [TacLine(lines[|lines| - 1])]
  }

  /**
   * Running the top-level statements from index i on, with `answers(i)` the
   * response to a prompt raised by statement i: what they printed, and the final
   * variables or the first exception raised.
   */
  function InterpretFrom(program: seq<Stmt>, i: nat, vars: Vars, visitBase: (Stmt, Vars) -> Step<Vars>,
                         answers: nat -> Option<string>): Step<Vars>
    requires i <= |program|
    decreases |program| - i
  {
    if i == |program| then Step("", Ok(vars))
    else
      var step := VisitStep(program[i], vars, visitBase, answers(i));
      match step.result
      case Err(_) => step
      case Ok(next) =>
        var rest := InterpretFrom(program, i + 1, next, visitBase, answers);
        Step(step.printed + rest.printed, rest.result)
  }

  /** One step of InterpretFrom: statement i runs, and the rest follow only if it did not raise. */
  lemma InterpretFromStep(program: seq<Stmt>, i: nat, vars: Vars, visitBase: (Stmt, Vars) -> Step<Vars>,
                          answers: nat -> Option<string>)
    requires i < |program|
    ensures var step := VisitStep(program[i], vars, visitBase, answers(i));
      var run := InterpretFrom(program, i, vars, visitBase, answers);
      && (step.result.Err? ==> run == step)
      && (step.result.Ok? ==>
            var rest := InterpretFrom(program, i + 1, step.result.value, visitBase, answers);
            run == Step(step.printed + rest.printed, rest.result))
  {
  }

  /** The console after a run on the editor text code. */
  function Transcript(code: string, b: Backend, answers: nat -> Option<string>): seq<Entry>
  {
    var parsed := b.parse(code);
    match parsed.result
    case Err(msg) => [COMPILING, ErrorEntry(msg)]
    case Ok(ast) =>
      var generated := b.generate(ast);
      match generated.result
      case Err(msg) => [COMPILING, TAC_HEADER, ErrorEntry(msg)]
      case Ok(lines) =>
        [COMPILING, TAC_HEADER] + TacListing(lines) + [SEPARATOR] + Conclusion(parsed.printed + generated.printed, ast, b, answers)
  }

  /**
   * How a run ends after the TAC listing, `captured` being what the earlier
   * phases printed: the error entry of optimisation or interpretation, or all
   * the captured output followed by the finished marker.
   */
  function Conclusion(captured: string, ast: seq<Stmt>, b: Backend, answers: nat -> Option<string>): seq<Entry>
  {
    var optimized := b.optimize(ast);
    match optimized.result
    case Err(msg) => [ErrorEntry(msg)]
    case Ok(program) =>
      var run := InterpretFrom(program, 0, map[], b.visitBase, answers);
      match run.result
      case Err(msg) => [ErrorEntry(msg)]
      case Ok(_) => [Entry(captured + optimized.printed + run.printed, Plain), FINISHED]
  }

  /** The message of the first phase that raises in a run, if one does. */
  function Failure(code: string, b: Backend, answers: nat -> Option<string>): Option<string>
  {
    var parsed := b.parse(code);
    if parsed.result.Err? then Some(parsed.result.msg)
    else
      var generated := b.generate(parsed.result.value);
      if generated.result.Err? then Some(generated.result.msg)
      else
        var optimized := b.optimize(parsed.result.value);
        if optimized.result.Err? then Some(optimized.result.msg)
        else
          var run := InterpretFrom(optimized.result.value, 0, map[], b.visitBase, answers);
          if run.result.Err? then Some(run.result.msg) else None
  }

  /**
   * What a run in which no phase raised prints, in the order it is printed:
   * the output of parsing, of TAC generation, of optimisation and of the
   * interpreter.
   */
  function Output(code: string, b: Backend, answers: nat -> Option<string>): string
    requires Failure(code, b, answers).None?
  {
    var parsed := b.parse(code);
    var generated := b.generate(parsed.result.value);
    var optimized := b.optimize(parsed.result.value);
    var run := InterpretFrom(optimized.result.value, 0, map[], b.visitBase, answers);
    parsed.printed + generated.printed + optimized.printed + run.printed
  }

  /** The entries of t that carry tag g, in order. */
  function WithTag(t: seq<Entry>, g: ConsoleTag): (r: seq<Entry>)
    ensures |r| <= |t|
  {
    if t == [] then []
    else WithTag(t[..|t| - 1], g) + (if t[|t| - 1].tag == g then [t[|t| - 1]] else [])
  }

  lemma {:induction false} WithTagAppend(a: seq<Entry>, b: seq<Entry>, g: ConsoleTag)
    ensures WithTag(a + b, g) == WithTag(a, g) + WithTag(b, g)
    decreases |b|
  {
    if b == [] {
      assert a + b == a;
    } else {
      var n := |b| - 1;
      assert (a + b)[..|a + b| - 1] == a + b[..n];
      assert (a + b)[|a + b| - 1] == b[n];
      WithTagAppend(a, b[..n], g);
    }
  }

  lemma {:induction false} WithTagTacListing(lines: seq<string>)
    ensures WithTag(TacListing(lines), Tac) == TacListing(lines)
    ensures WithTag(TacListing(lines), Error) == []
    ensures WithTag(TacListing(lines), Success) == []
    ensures WithTag(TacListing(lines), Plain) == []
  {
    if lines != [] {
      WithTagTacListing(lines[..|lines| - 1]);
    }
  }

  /** TacListing(lines) holds exactly `"  " + line + "\n"` for each line, in order. */
  lemma {:induction false} TacListingAt(lines: seq<string>, k: nat)
    requires k < |lines|
    ensures TacListing(lines)[k] == Entry("  " + lines[k] + "\n", Tac)
  {
    if k < |lines| - 1 {
      TacListingAt(lines[..|lines| - 1], k);
    }
  }

  /** Every run's transcript starts afresh with the one "Compiling" entry, tagged info. */
  lemma TranscriptOpening(code: string, b: Backend, answers: nat -> Option<string>)
    ensures |Transcript(code, b, answers)| >= 2
    ensures Transcript(code, b, answers)[0] == COMPILING
    ensures COMPILING !in Transcript(code, b, answers)[1..]
  {
    var t := Transcript(code, b, answers);
    var parsed := b.parse(code);
    if parsed.result.Ok? {
      var generated := b.generate(parsed.result.value);
      if generated.result.Ok? {
        var lines := generated.result.value;
        forall k | 0 <= k < |lines|
          ensures TacListing(lines)[k] != COMPILING
        {
          TacListingAt(lines, k);
        }
        assert COMPILING !in TacListing(lines);
        assert SEPARATOR != COMPILING by {
          assert SEPARATOR.text[0] == '-';
        }
      }
    }
  }

  /**
   * A run ends with exactly one terminal entry, never both: the "Finished"
   * entry when no phase raised, the error entry for the first phase that raised
   * otherwise. No other entry is tagged success or error.
   */
  lemma TranscriptTerminal(code: string, b: Backend, answers: nat -> Option<string>)
    ensures var t := Transcript(code, b, answers);
      && |t| >= 2
      && WithTag(t, Success) + WithTag(t, Error) == [t[|t| - 1]]
      && t[|t| - 1] == (match Failure(code, b, answers) case None => FINISHED case Some(msg) => ErrorEntry(msg))
  {
    TranscriptOutcome(code, b, answers);
    var parsed := b.parse(code);
    if parsed.result.Ok? {
      var generated := b.generate(parsed.result.value);
      if generated.result.Ok? {
        var lines := generated.result.value;
        var listed := [COMPILING, TAC_HEADER] + TacListing(lines) + [SEPARATOR];
        var tail := Conclusion(parsed.printed + generated.printed, parsed.result.value, b, answers);
        assert Transcript(code, b, answers) == listed + tail;
        assert |tail| >= 1 && (listed + tail)[|listed + tail| - 1] == tail[|tail| - 1];
      }
    }
  }

  /**
   * When no phase raised, the one untagged entry is everything the phases
   * printed, in order (Output), the one success entry is "Finished" and there
   * is no error entry. When a phase raises, its message is the one error entry and there is
   * no success entry and no output.
   */
  lemma TranscriptOutcome(code: string, b: Backend, answers: nat -> Option<string>)
    ensures var t := Transcript(code, b, answers);
      && (Failure(code, b, answers).None? ==> WithTag(t, Plain) == [Entry(Output(code, b, answers), Plain)] && WithTag(t, Success) == [FINISHED] && WithTag(t, Error) == [])
      && (Failure(code, b, answers).Some? ==>
            WithTag(t, Plain) == [] && WithTag(t, Success) == [] && WithTag(t, Error) == [ErrorEntry(Failure(code, b, answers).value)])
  {
    var parsed := b.parse(code);
    if parsed.result.Ok? {
      var generated := b.generate(parsed.result.value);
      if generated.result.Ok? {
        OutcomeAfterListing(code, b, answers);
      } else {
        var e := ErrorEntry(generated.result.msg);
        assert Transcript(code, b, answers) == [COMPILING, TAC_HEADER] + [e];
        OpeningTags();
        ErrorTailTags(generated.result.msg);
        TailTags([COMPILING, TAC_HEADER], [e]);
      }
    }
  }

  lemma OutcomeAfterListing(code: string, b: Backend, answers: nat -> Option<string>)
    requires b.parse(code).result.Ok? && b.generate(b.parse(code).result.value).result.Ok?
    ensures WithTag(Transcript(code, b, answers), Tac) == [TAC_HEADER] + TacListing(b.generate(b.parse(code).result.value).result.value)
    ensures var t := Transcript(code, b, answers);
      && (Failure(code, b, answers).None? ==> WithTag(t, Plain) == [Entry(Output(code, b, answers), Plain)] && WithTag(t, Success) == [FINISHED] && WithTag(t, Error) == [])
      && (Failure(code, b, answers).Some? ==>
            WithTag(t, Plain) == [] && WithTag(t, Success) == [] && WithTag(t, Error) == [ErrorEntry(Failure(code, b, answers).value)])
  {
    var parsed := b.parse(code);
    var generated := b.generate(parsed.result.value);
    var lines := generated.result.value;
    var listed := [COMPILING, TAC_HEADER] + TacListing(lines) + [SEPARATOR];
    ListedTags(lines);
    var optimized := b.optimize(parsed.result.value);
    if optimized.result.Err? {
      var tail := [ErrorEntry(optimized.result.msg)];
      assert Transcript(code, b, answers) == listed + tail;
      ErrorTailTags(optimized.result.msg);
      TailTags(listed, tail);
    } else {
      var run := InterpretFrom(optimized.result.value, 0, map[], b.visitBase, answers);
      if run.result.Err? {
        var tail := [ErrorEntry(run.result.msg)];
        assert Transcript(code, b, answers) == listed + tail;
        ErrorTailTags(run.result.msg);
        TailTags(listed, tail);
      } else {
        var output := parsed.printed + generated.printed + optimized.printed + run.printed;
        var tail := [Entry(output, Plain), FINISHED];
        assert Transcript(code, b, answers) == listed + tail;
        FinishedTailTags(output);
        TailTags(listed, tail);
      }
    }
  }

  lemma ErrorTailTags(msg: string)
    ensures WithTag([ErrorEntry(msg)], Error) == [ErrorEntry(msg)]
    ensures WithTag([ErrorEntry(msg)], Success) == []
    ensures WithTag([ErrorEntry(msg)], Plain) == []
    ensures WithTag([ErrorEntry(msg)], Tac) == []
  {
    assert [ErrorEntry(msg)][..0] == [];
  }

  lemma FinishedTailTags(output: string)
    ensures WithTag([Entry(output, Plain), FINISHED], Plain) == [Entry(output, Plain)]
    ensures WithTag([Entry(output, Plain), FINISHED], Success) == [FINISHED]
    ensures WithTag([Entry(output, Plain), FINISHED], Error) == []
    ensures WithTag([Entry(output, Plain), FINISHED], Tac) == []
  {
    assert [Entry(output, Plain), FINISHED][..1] == [Entry(output, Plain)];
    assert [Entry(output, Plain)][..0] == [];
  }

  /** The tags of the two entries every run past parsing begins with. */
  lemma OpeningTags()
    ensures WithTag([COMPILING, TAC_HEADER], Tac) == [TAC_HEADER]
    ensures WithTag([COMPILING, TAC_HEADER], Error) == []
    ensures WithTag([COMPILING, TAC_HEADER], Success) == []
    ensures WithTag([COMPILING, TAC_HEADER], Plain) == []
  {
    assert [COMPILING, TAC_HEADER][..1] == [COMPILING];
  }

  /**
   * The TAC block: present, headed by the phase-4 header, exactly when parsing
   * succeeded, and listing the generated instructions in order exactly when
   * generation succeeded too.
   */
  lemma TranscriptTacBlock(code: string, b: Backend, answers: nat -> Option<string>)
    ensures var t := Transcript(code, b, answers);
      var parsed := b.parse(code);
      && (parsed.result.Err? ==> WithTag(t, Tac) == [])
      && (parsed.result.Ok? ==>
            var generated := b.generate(parsed.result.value);
            WithTag(t, Tac) == [TAC_HEADER] + (if generated.result.Ok? then TacListing(generated.result.value) else []))
  {
    var t := Transcript(code, b, answers);
    var parsed := b.parse(code);
    if parsed.result.Ok? {
      var generated := b.generate(parsed.result.value);
      if generated.result.Ok? {
        OutcomeAfterListing(code, b, answers);
      } else {
        var e := ErrorEntry(generated.result.msg);
        assert t == [COMPILING, TAC_HEADER] + [e];
        OpeningTags();
        ErrorTailTags(generated.result.msg);
        TailTags([COMPILING, TAC_HEADER], [e]);
      }
    }
  }

  lemma SeparatorTags()
    ensures WithTag([SEPARATOR], Tac) == [] && WithTag([SEPARATOR], Error) == []
    ensures WithTag([SEPARATOR], Success) == [] && WithTag([SEPARATOR], Plain) == []
  {
    assert [SEPARATOR][..0] == [];
  }

  /** The tagged entries of a run's opening, up to the separator. */
  lemma ListedTags(lines: seq<string>)
    ensures var listed := [COMPILING, TAC_HEADER] + TacListing(lines) + [SEPARATOR];
      && WithTag(listed, Tac) == [TAC_HEADER] + TacListing(lines)
      && WithTag(listed, Error) == [] && WithTag(listed, Success) == [] && WithTag(listed, Plain) == []
  {
    var head := [COMPILING, TAC_HEADER];
    OpeningTags();
    SeparatorTags();
    WithTagTacListing(lines);
    WithTagAppend(head, TacListing(lines), Tac);
    WithTagAppend(head, TacListing(lines), Error);
    WithTagAppend(head, TacListing(lines), Success);
    WithTagAppend(head, TacListing(lines), Plain);
    WithTagAppend(head + TacListing(lines), [SEPARATOR], Tac);
    WithTagAppend(head + TacListing(lines), [SEPARATOR], Error);
    WithTagAppend(head + TacListing(lines), [SEPARATOR], Success);
    WithTagAppend(head + TacListing(lines), [SEPARATOR], Plain);
  }

  lemma TailTags(listed: seq<Entry>, tail: seq<Entry>)
    ensures forall g :: WithTag(listed + tail, g) == WithTag(listed, g) + WithTag(tail, g)
  {
    forall g {
      WithTagAppend(listed, tail, g);
    }
  }
}
