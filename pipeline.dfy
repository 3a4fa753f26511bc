/**
 * The whole program on one input file: the tokenizer, the parser and the
 * derivation, each stage stopping the program with its own error.
 */
module Pipeline {
  import opened Tokens
  import opened Errors
  import opened Lexer
  import opened Parser
  import opened Engine

  /**
   * The outcome of the program on the lines of a file, with `answers`
   * for the prompts and at most `fuel` passes of the derivation loop.
   */
  function Process(lines: seq<string>, answers: nat -> int, fuel: nat): (r: Outcome)
    requires |lines| > 0
    ensures r.Finished? ==> forall i :: 0 <= i < |r.form| ==> r.form[i].kind == Letter
    ensures TokenizeSpec(lines).Err? <==> r.Aborted? && r.error.UnknownCharacter?
  {
    LexFromSound(lines, 0);
    match TokenizeSpec(lines)
    case Err(e) => Aborted(e)
    case Ok(tokens) =>
      ParseSound(tokens);
      match ParseSpec(tokens)
      case Err(e) => Aborted(e)
      case Ok(groups) =>
        RunSound(groups, answers, fuel);
        RunErrors(groups, answers, fuel);
        RunSpec(groups, answers, fuel)
  }

  /** `tokenizer`, then `parser`, then `run`. */
  method Execute(lines: seq<string>, answers: nat -> int, fuel: nat) returns (r: Outcome)
    requires |lines| > 0
    ensures r == Process(lines, answers, fuel)
  {
    var tokens := Tokenize(lines);
    if tokens.Err? {
      return Aborted(tokens.error);
    }
    var program := Parse(tokens.value);
    if program.Err? {
      return Aborted(program.error);
    }
    TokenizeSound(lines);
    ParseSound(tokens.value);
    r := Run(program.value, answers, fuel);
  }
}
