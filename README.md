# PatternScript Studio, modelled in Dafny

PatternScript Studio is a small Tkinter IDE for the PatternScript language
(`src/gui_pro.py`). It has three kinds of behaviour. It keeps a line-number
gutter beside the editor. It colours the editor text with a fixed table of
regular-expression rules. It runs the script through the compiler's phases:
parse, three-address-code (TAC) generation, optimisation, and interpretation
by an interpreter that answers `ask name:` through a prompt dialog. Every run
writes a transcript of styled entries to the console.

This project models that logic over plain values, and the IDE's state as a
class:

- `outcomes.dfy` holds the `Option`/`Result` wrappers.
- `decimal.dfy` models Python's `str()` of an integer and `int()` of a string:
  surrounding whitespace, an optional sign, ASCII digits, and single
  underscores between digits.
- `gutter.dfy` holds the gutter's line count and text, with `split`/`join`.
- `patterns.dfy` holds the rule table.
  - The five pattern shapes it uses are matched the way Python's `re` engine
    matches them: alternatives in order, lazy `".*?"`, greedy `\d+` giving
    back digits until `\b` holds, and `.*` stopping at a newline.
  - `re.finditer` is the left-to-right scan for non-overlapping matches.
- `highlight.dfy` gives the tag state highlighting must produce, as a set of
  (character offset, tag) pairs, with lemmas characterising each rule's tags.
- `interpreter.dfy` holds the prompt-answer coercion and the `GuiInterpreter`
  class with its variable store.
- `pipeline.dfy` gives the console transcript a run must produce, as a
  function of the editor text, the compiler back end and the prompt answers.
- `ide.dfy` holds the `PatternScriptIde` class. Its methods are the IDE's
  handlers, each proved against the specification functions above.

The back end is passed in as functions that may print and may raise. It is
the parser, the TAC generator, the optimiser and the base interpreter, which
are not part of this model. A prompt's answers are given as a function from
the index of a top-level statement to the dialog's result (`None` when
cancelled).

The code does the following, and the model follows it:

- Standard output is swapped for a capture buffer before the `try`
  (`src/gui_pro.py:183-185`). So text printed by parsing, TAC generation and
  optimisation is captured too, not only the interpreter's output. The
  captured text is shown only when every phase succeeded.
- The error entry's text is `"\nError: "` followed by the message
  (`src/gui_pro.py:215`).
- The editor's text, as highlighting and running read it, is the contents
  plus the final newline that `get(1.0, END)` returns. Offsets, the line count
  and the parsed code are computed on that text.

## Model

| member | source | states |
|---|---|---|
| Gutter.GutterLines | src/gui_pro.py:145-149 | the gutter splits back into exactly the numerals 1..N, N being the newline count or 1 when there is none |
| Gutter.GutterNumbering | src/gui_pro.py:145-149 | the gutter has at least one line, one newline fewer than lines and no trailing newline, and its line i reads back through `int()` as i + 1 |
| Gutter.LineCountMatchesNewlines | src/gui_pro.py:146-147 | with newlines in the text the gutter has one line per newline; without any it is exactly "1" |
| Gutter.GutterPerDisplayedLine | src/gui_pro.py:145-149 | on the widget's text (contents plus the final newline) the gutter has one numeral per line of the contents |
| Gutter.SplitJoin | src/gui_pro.py:149 | joining pieces free of the separator and splitting again gives the pieces back |
| Decimal.NatToString | src/gui_pro.py:149 | `str(n)` is a non-empty digit string with a leading zero only for 0 |
| Decimal.NatToStringValue | src/gui_pro.py:149 | the digits of `str(n)` denote n |
| Decimal.ParseIntOfString | src/gui_pro.py:46 | `int(str(n)) == n` for every integer n, negative ones included |
| Decimal.ParseIntNeedsDigit | src/gui_pro.py:46 | `int()` accepts no text without a digit |
| Decimal.ParseIntIgnoresSpace | src/gui_pro.py:46 | a character `int()` strips (tab, newline, vertical tab, form feed, carriage return, space, or a Unicode space from U+0085 on) before or after the text does not change what `int()` gives |
| Patterns.MatchAt | src/gui_pro.py:29-36 | a match of a table pattern is non-empty and lies inside the text |
| Patterns.WordsMatch | src/gui_pro.py:30-31 | `\b(w1\|...)\b` matches from i to e exactly when s[i..e] is one of the words with word boundaries on both sides |
| Patterns.QuotedMatch | src/gui_pro.py:32 | `".*?"` matches from i to e exactly when s[i..e] is a quote, text with no quote or newline, and a quote |
| Patterns.DigitRunMatch | src/gui_pro.py:33 | `\b\d+\b` matches from i to e exactly when s[i..e] is all digits with word boundaries on both sides |
| Patterns.RestOfLineMatch | src/gui_pro.py:34 | `note>.*` matches exactly where `note>` occurs, up to the next newline or the end of the text |
| Patterns.LiteralsMatch | src/gui_pro.py:35 | `->\|~` matches exactly where one of the literals occurs, and what it matches is the first literal, in the order listed, that occurs there |
| Patterns.FindIterIsTheScan | src/gui_pro.py:168 | `finditer` reports spans in increasing order, non-overlapping, each a match, every match start inside one of them; and it is the only such list |
| Patterns.FindIterSpan | src/gui_pro.py:168-171 | every reported span is non-empty, inside the text and a match over exactly that range |
| Patterns.EveryTagColored | src/gui_pro.py:17-26 | every tag the model tracks is a key of the colour table, so removing all the keys leaves no colour tag |
| Highlight.HighlightedAt | src/gui_pro.py:163-171 | after highlighting, character k has tag t exactly when a rule with tag t has a `finditer` match over k |
| Highlight.HighlightedInText | src/gui_pro.py:163-171 | every applied tag lies on a character of the text, and `bg`/`fg` are never applied |
| Highlight.KeywordHighlight | src/gui_pro.py:30 | a character has the keyword tag exactly when it lies in a whole-word keyword |
| Highlight.FunctionHighlight | src/gui_pro.py:31 | a character has the function tag exactly when it lies in a whole-word `plot` or `ask` |
| Highlight.StringHighlight | src/gui_pro.py:32 | a character with the string tag lies in a shortest quoted text on one line |
| Highlight.NumberHighlight | src/gui_pro.py:33 | a character has the number tag exactly when it lies in a whole word made only of digits |
| Highlight.CommentHighlight | src/gui_pro.py:34 | a character has the comment tag exactly when a `note>` starts at or before it on its own line and it is not a newline |
| Highlight.OperatorHighlight | src/gui_pro.py:35 | a character has the operator tag exactly when it is a `~` or part of an `->` |
| Interpreter.CoerceInteger | src/gui_pro.py:45-46 | an answer spelling an integer as `str` writes it binds that integer |
| Interpreter.CoerceWithoutDigit | src/gui_pro.py:44-48 | a cancelled prompt binds ""; an answer without a digit binds the unchanged text |
| Interpreter.CoerceIgnoresSpace | src/gui_pro.py:46 | a character `int()` strips, before or after an integer answer, does not change the bound integer; the separators U+001C-U+001F are not among them |
| Interpreter.GuiInterpreter.VisitAsk | src/gui_pro.py:42-48 | binds the name to the coerced answer, overwriting an earlier value; every other variable is unchanged |
| Interpreter.GuiInterpreter.Visit | src/gui_pro.py:207-208 | an `ask` statement goes to VisitAsk and any other to the base interpreter; returns its output and its exception |
| Pipeline.TacListingAt | src/gui_pro.py:197-198 | the k-th TAC entry is `"  " + line k + "\n"`, tagged tac |
| Pipeline.TranscriptOpening | src/gui_pro.py:180-188 | every run starts afresh with exactly one "[Compiling...]" entry, tagged info |
| Pipeline.TranscriptTerminal | src/gui_pro.py:210-215 | a run ends with one terminal entry: "Finished" when no phase raised, otherwise the first raised message's error entry, and no other success or error entry |
| Pipeline.TranscriptOutcome | src/gui_pro.py:183-215 | when no phase raised, the one untagged entry is exactly what parsing, TAC generation, optimisation and interpretation printed, in that order, and the one success entry is "Finished"; when a phase raised, its message gives the one error entry and there is no untagged or success entry |
| Pipeline.TranscriptTacBlock | src/gui_pro.py:191-199 | the TAC header is present exactly when parsing succeeded, and the instruction lines, in order, exactly when generation did too |
| Ide.PatternScriptIde.constructor | src/gui_pro.py:108-120 | the window opens on the demo script, numbered and highlighted, with an empty console |
| Ide.PatternScriptIde.UpdateLineNumbers | src/gui_pro.py:144-154 | the gutter is replaced by the gutter text of the editor text; nothing else changes |
| Ide.PatternScriptIde.HighlightSyntax | src/gui_pro.py:159-171 | the tag state becomes the highlighting of the editor text, whatever it was before; the text is unchanged |
| Ide.PatternScriptIde.ClearTags | src/gui_pro.py:162-164 | removing every colour-table key over the whole text leaves no colour tag |
| Ide.PatternScriptIde.TagRule | src/gui_pro.py:166-171 | one rule adds its tag over exactly the spans `finditer` reports for its pattern, keeping the tags already there |
| Ide.PatternScriptIde.OnKeyRelease | src/gui_pro.py:137-139 | renumbers and re-highlights |
| Ide.PatternScriptIde.OnContentChanged | src/gui_pro.py:141-142 | renumbers only |
| Ide.PatternScriptIde.LoadFile | src/gui_pro.py:127-135 | a cancelled dialog changes nothing; otherwise the editor holds the file's contents, highlighted and numbered |
| Ide.PatternScriptIde.ClearOutput | src/gui_pro.py:173-176 | the console is empty; nothing else changes |
| Ide.PatternScriptIde.RunCode | src/gui_pro.py:178-220 | the console becomes the transcript of a run on the editor text, and standard output is restored to its value before the run |
| Ide.PatternScriptIde.Compile | src/gui_pro.py:187-199 | from an empty console and an empty capture, the phases leave exactly the run's transcript |
| Ide.PatternScriptIde.ListTac | src/gui_pro.py:197-198 | appends one TAC entry per instruction line, in order |
| Ide.PatternScriptIde.Execute | src/gui_pro.py:201-215 | appends the error entry of optimisation or interpretation, or the captured output and "Finished" |
| Ide.PatternScriptIde.Interpret | src/gui_pro.py:206-208 | runs the statements on a fresh interpreter until one raises; the output captured is the interpretation's, and the result is its exception |

## Left out

- The widgets, layout, colours, buttons, scrolling (`console.see`) and the console's `state` toggling are not modelled. They affect only what is drawn.
- Which colour is drawn where tags overlap is not modelled. Tk decides it by tag priority (creation order), not by the order tags were applied. The model records the applied tags only and claims no "last rule wins".
- The editor's built-in `sel` selection tag is not modelled; highlighting does not remove it, and the model's tag state holds the colour tags only.
- Offsets are Python's, one per code point. With Tcl/Tk 8.6, tkinter passes a character above U+FFFF as two UTF-16 units, so Tk counts it twice in `"1.0 + N chars"` and the tags drawn after it are shifted; the model does not capture this shift.
- Python's `re` engine in general is not modelled. Only the five pattern shapes of the table are, with `\w`, `\d` and `\b` on ASCII characters; Python's Unicode word and digit characters are not.
- Decimal.ParseInt: `int()` also accepts non-ASCII decimal digits; the model accepts ASCII digits only.
- Decimal.ParseInt: Python 3.11 and later reject a decimal string of more than 4300 digits with a ValueError (so the prompt would bind the raw text); the model has no digit limit, because the limit depends on the interpreter version and its configuration.
- The file dialog and reading the file are not modelled. LoadFile takes the file's contents, or None when the dialog was cancelled; an unreadable file raises in the source and is not modelled.
- The prompt dialog is an input. The answers function gives the response for each top-level statement.
- Interpreter.GuiInterpreter.Visit: only `ask` statements at the top level of the optimised program go to VisitAsk. An `ask` nested inside a loop or a `check` is run by the base interpreter, which is not part of this model, so its prompt is not modelled.
- The parser, TAC generator, optimiser and base interpreter are external code. They are parameters that return printed text and a value or an exception message. TAC generation is modelled as returning the whole list of lines at once.
- Exceptions that are not `Exception` subclasses escape `run_code`; the model treats every failure as caught.
- The process's real standard output stream is not modelled. Writes to it during the run are captured; the `Stream` value is saved and restored unchanged.
- Running two scripts at once, and a run re-entered from the prompt's event loop, are not modelled.
