/** The fatal errors of the pipeline, which the source reports through `showErrorAndExit`. */
module Errors {
  import opened Tokens

  datatype Error =
    /** Lexical error: a character the tokenizer does not recognise, with its 0-based line and column. */
    | UnknownCharacter(ch: char, line: nat, col: nat)
    /** Syntax error: a token whose kind is not a key of the current state's table, with those keys. */
    | UnexpectedToken(token: Token, expected: set<Kind>)
    /** An assignation arrow in a group definition that has no pattern. */
    | NoDefinition(token: Token)
    /** A token read in a state that has no table (after the end of the program). */
    | UnknownParserState
    /** A group with no alternatives at choice time. */
    | EmptyGroup
    /** A user's answer outside 1..N. */
    | InvalidSelection(answer: int)
    /** No rule matches the sentential form, even from position 0. */
    | NoRuleFound(form: seq<Token>)

  datatype Result<T> = Ok(value: T) | Err(error: Error)

  /** Puts `a` in front of a successful result; an error passes unchanged. */
  function Prepend<T>(a: seq<T>, r: Result<seq<T>>): Result<seq<T>> {
    match r
    case Ok(b) => Ok(a + b)
    case Err(e) => Err(e)
  }

  lemma PrependNothing<T>(r: Result<seq<T>>)
    ensures Prepend([], r) == r
  {
    if r.Ok? {
      assert [] + r.value == r.value;
    }
  }

  lemma PrependPrepend<T>(a: seq<T>, b: seq<T>, r: Result<seq<T>>)
    ensures Prepend(a, Prepend(b, r)) == Prepend(a + b, r)
  {
    if r.Ok? {
      assert a + (b + r.value) == (a + b) + r.value;
    }
  }
}
