/**
 * The script interpreter as the IDE specialises it: an input-request statement
 * (`ask name:`) is answered through a modal prompt, and the answer is bound in
 * the interpreter's variable store, as an integer when `int()` accepts it and
 * as the raw text otherwise. Every other statement is handled by the base
 * interpreter, which is not part of this model and is passed in as a function.
 */
module Interpreter {
  import opened Outcomes
  import opened Decimal

  /** The values a script variable can hold; `Opaque` stands for kinds only the base interpreter creates. */
  datatype Value = Int(i: int) | Str(s: string) | Opaque(repr: string)

  /** The interpreter's variable store, keyed by variable name. */
  type Vars = map<string, Value>

  /** A top-level statement of the parsed program: an input request, or any other statement node. */
  datatype Stmt = Ask(name: string) | Other(node: nat)

  /** What a step of external code returns: the text it printed to standard output, then its value or the exception it raised. */
  datatype Step<T> = Step(printed: string, result: Result<T>)

  /** The prompt's answer as text: a dismissed prompt gives the empty string. */
  function AnswerText(response: Option<string>): string
  {
    match response
    case None => ""
    case Some(text) => text
  }

  /** The value bound for a prompt answer: the integer `int()` reads from it, or else the text itself. */
  function Coerce(response: Option<string>): Value
  {
    var text := AnswerText(response);
    match ParseInt(text)
    case Some(n) => Int(n)
    case None => Str(text)
  }

  /** An answer that spells an integer as `str` writes it is bound to that integer. */
  lemma CoerceInteger(n: int)
    ensures Coerce(Some(IntToString(n))) == Int(n)
  {
    ParseIntOfString(n);
  }

  /**
   * A dismissed prompt, and an empty answer, bind the empty string; so does
   * any answer without a digit, which is kept unchanged as a string.
   */
  lemma CoerceWithoutDigit(response: Option<string>)
    requires forall i :: 0 <= i < |AnswerText(response)| ==> !IsDigit(AnswerText(response)[i])
    ensures Coerce(response) == Str(AnswerText(response))
    ensures response.None? ==> Coerce(response) == Str("")
  {
    if ParseInt(AnswerText(response)).Some? {
      ParseIntNeedsDigit(AnswerText(response));
    }
  }

  /** Whitespace around an answer does not change the integer it is bound to. */
  lemma CoerceIgnoresSpace(text: string, c: char)
    requires IsSpace(c) && ParseInt(text).Some?
    ensures Coerce(Some([c] + text)) == Coerce(Some(text))
    ensures Coerce(Some(text + [c])) == Coerce(Some(text))
  {
    ParseIntIgnoresSpace(text, c);
  }

  /** The effect of visiting one statement: an input request binds the coerced answer; any other statement is the base interpreter's. */
  function VisitStep(stmt: Stmt, vars: Vars, visitBase: (Stmt, Vars) -> Step<Vars>, response: Option<string>): Step<Vars>
  {
    match stmt
    case Ask(name) => Step("", Ok(vars[name := Coerce(response)]))
    case Other(_) => visitBase(stmt, vars)
  }

  /** The interpreter the IDE runs scripts with; it answers input requests through a prompt. */
  class GuiInterpreter {
    var variables: Vars

    /** A fresh interpreter has no variables. */
    constructor ()
      ensures variables == map[]
    {
      variables := map[];
    }

    /**
     * Answers `ask name:`: binds `name` to the coerced prompt answer, overwriting
     * any earlier value, and leaves every other variable as it was.
     */
    method VisitAsk(name: string, response: Option<string>)
      modifies this
      ensures variables == old(variables)[name := Coerce(response)]
      ensures forall v :: v in old(variables) && v != name ==> v in variables && variables[v] == old(variables)[v]
      ensures name in variables && variables[name] == Coerce(response)
    {
      var value := if response.None? then "" else response.value;
      var n := ParseInt(value);
      if n.Some? {
        variables := variables[name := Int(n.value)];
      } else {
        variables := variables[name := Str(value)];
      }
    }

    /**
     * Visits one top-level statement: input requests go to VisitAsk, every
     * other statement to the base interpreter. Returns what the statement
     * printed and the message of the exception it raised, if any.
     */
    method Visit(stmt: Stmt, visitBase: (Stmt, Vars) -> Step<Vars>, response: Option<string>)
      returns (printed: string, error: Option<string>)
      modifies this
      ensures var step := VisitStep(stmt, old(variables), visitBase, response);
        && printed == step.printed
        && (step.result.Ok? ==> error == None && variables == step.result.value)
        && (step.result.Err? ==> error == Some(step.result.msg))
    {
      match stmt {
        case Ask(name) =>
          VisitAsk(name, response);
          printed, error := "", None;
        case Other(_) =>
          var step := visitBase(stmt, variables);
          printed := step.printed;
          match step.result {
            case Ok(next) =>
              variables := next;
              error := None;
            case Err(msg) =>
              error := Some(msg);
          }
      }
    }
  }
}
