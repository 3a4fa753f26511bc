/**
 * Concrete runs of the model on small grammars: the documented example
 * derivations, an invalid selection, an epsilon alternative, the cursor
 * falling back to the start of the form, and a lexical error.
 */
module Scenarios {
  import opened Tokens
  import opened Errors
  import opened Grammar
  import opened Lexer
  import opened Parser
  import opened Matcher
  import opened Engine
  import opened Pipeline

  function L(c: char): Token { Token(Letter, Some(c), 0, 0) }
  function G(c: char): Token { Token(Group, Some(c), 0, 0) }
  const StartRule := [Token(Start, None, 0, 0)]

  /** A single-token pattern does not occur where the form holds a different token. */
  lemma HeadMismatch(pattern: seq<Token>, form: seq<Token>, i: nat)
    requires |pattern| == 1 && i < |form| && !Equals(pattern[0], form[i])
    ensures !MatchesAt(pattern, form, i)
  {
    assert !Equals(pattern[0], form[i + 0]);
  }

  /** `S => A` then `A => a | b`: the start rule has one alternative, so the first answer goes to `A`. */
  const Choice := [Rule(StartRule, [[G('A')]]), Rule([G('A')], [[L('a')], [L('b')]])]

  /** The one pass: `A` is found at 0 and replaced by the alternative the answer selects. */
  lemma ChoicePass(answers: nat -> int)
    ensures Step(Choice, Config([G('A')], 0, 0), answers) ==
      if answers(0) == 1 then Ok(Config([L('a')], 0, 1))
      else if answers(0) == 2 then Ok(Config([L('b')], 0, 1))
      else Err(InvalidSelection(answers(0)))
  {
    assert MatchesAt([G('A')], [G('A')], 0);
    assert FirstMatch([G('A')], [G('A')], 0) == 0;
    assert SelectRule(Choice, [G('A')], 0, 1) == Some((1, 0));
    var outputs := Choice[1].outputs;
    assert Asks(outputs);
    if answers(0) == 1 {
      assert Choose(outputs, 1) == Ok([L('a')]);
      assert [G('A')][..0] + [L('a')] + [G('A')][1..] == [L('a')];
    } else if answers(0) == 2 {
      assert Choose(outputs, 2) == Ok([L('b')]);
      assert [G('A')][..0] + [L('b')] + [G('A')][1..] == [L('b')];
    } else {
      assert Choose(outputs, answers(0)) == Err(InvalidSelection(answers(0)));
    }
  }

  lemma ChoiceBegins(answers: nat -> int)
    ensures RunSpec(Choice, answers, 1) == Derive(Choice, Config([G('A')], 0, 0), answers, 1)
  {
    assert Choose(Choice[0].outputs, answers(0)) == Ok([G('A')]);
  }

  lemma ChoiceFirst()
    ensures RunSpec(Choice, (k: nat) => 1, 1) == Finished([L('a')])
  {
    ChoiceBegins((k: nat) => 1);
    ChoicePass((k: nat) => 1);
    assert !HasGroup([L('a')]);
    DeriveUnfold(Choice, Config([G('A')], 0, 0), (k: nat) => 1, 1);
  }

  lemma ChoiceSecond()
    ensures RunSpec(Choice, (k: nat) => 2, 1) == Finished([L('b')])
  {
    ChoiceBegins((k: nat) => 2);
    ChoicePass((k: nat) => 2);
    assert !HasGroup([L('b')]);
    DeriveUnfold(Choice, Config([G('A')], 0, 0), (k: nat) => 2, 1);
  }

  /** An answer outside `[1, 2]` stops the run. */
  lemma ChoiceOutOfRange(answer: int)
    requires answer < 1 || answer > 2
    ensures RunSpec(Choice, (k: nat) => answer, 1) == Aborted(InvalidSelection(answer))
  {
    ChoiceBegins((k: nat) => answer);
    ChoicePass((k: nat) => answer);
    DeriveUnfold(Choice, Config([G('A')], 0, 0), (k: nat) => answer, 1);
  }

  /**
   * `S => A | B`, `A => a | b`, `B => c | d`: two questions. The first
   * answer goes to the start rule, the second to the group it produced.
   */
  const TwoPrompts := [
    Rule(StartRule, [[G('A')], [G('B')]]), Rule([G('A')], [[L('a')], [L('b')]]), Rule([G('B')], [[L('c')], [L('d')]])]

  /** The one pass after the start rule: `B` is rewritten with the second answer, which is `answers(1)`. */
  lemma TwoPromptsPass(answers: nat -> int)
    requires answers(1) == 1
    ensures Step(TwoPrompts, Config([G('B')], 0, 1), answers) == Ok(Config([L('c')], 0, 2))
  {
    HeadMismatch([G('A')], [G('B')], 0);
    assert FirstMatch([G('A')], [G('B')], 0) < 0;
    assert MatchesAt([G('B')], [G('B')], 0);
    assert FirstMatch([G('B')], [G('B')], 0) == 0;
    assert SelectRule(TwoPrompts, [G('B')], 0, 1) == Some((2, 0));
    assert Choose(TwoPrompts[2].outputs, 1) == Ok([L('c')]);
    assert [G('B')][..0] + [L('c')] + [G('B')][1..] == [L('c')];
  }

  /** Answering 2 and then 1 picks `B` for `S` and then `c` for `B`: the answers are used in the order asked. */
  lemma TwoPromptsInOrder()
    ensures RunSpec(TwoPrompts, (k: nat) => if k == 0 then 2 else 1, 1) == Finished([L('c')])
  {
    var answers := (k: nat) => if k == 0 then 2 else 1;
    assert Choose(TwoPrompts[0].outputs, 2) == Ok([G('B')]);
    TwoPromptsPass(answers);
    assert !HasGroup([L('c')]);
    DeriveUnfold(TwoPrompts, Config([G('B')], 0, 1), answers, 1);
  }

  /** `S => aAb` then `A => E`: the epsilon alternative contributes nothing. */
  const Vanishing := [Rule(StartRule, [[L('a'), G('A'), L('b')]]), Rule([G('A')], [[Token(Epsilon, None, 0, 0)]])]

  lemma VanishingPass(answers: nat -> int)
    ensures Step(Vanishing, Config([L('a'), G('A'), L('b')], 0, 0), answers) == Ok(Config([L('a'), L('b')], 1, 0))
  {
    var form := [L('a'), G('A'), L('b')];
    HeadMismatch([G('A')], form, 0);
    assert MatchesAt([G('A')], form, 1);
    assert FirstMatch([G('A')], form, 0) == FirstMatch([G('A')], form, 1) == 1;
    assert SelectRule(Vanishing, form, 0, 1) == Some((1, 1));
    assert RemoveEpsilons([Token(Epsilon, None, 0, 0)]) == [];
    assert Choose(Vanishing[1].outputs, answers(0)) == Ok([]);
    assert form[..1] + [] + form[2..] == [L('a'), L('b')];
  }

  lemma VanishingDerivation(answers: nat -> int)
    ensures RunSpec(Vanishing, answers, 1) == Finished([L('a'), L('b')])
  {
    var start := Config([L('a'), G('A'), L('b')], 0, 0);
    assert Choose(Vanishing[0].outputs, answers(0)) == Ok(start.form);
    VanishingPass(answers);
    assert !HasGroup([L('a'), L('b')]);
    DeriveUnfold(Vanishing, start, answers, 1);
  }

  /** The same grammar as written by hand: `S => aAb`, an empty line, `A => E`, and a final new-line. */
  const VanishingText := [StartRule[0], Mark(Assign), L('a'), G('A'), L('b'), Mark(NewLine),
    Mark(NewLine), G('A'), Mark(Assign), Token(Epsilon, None, 0, 0), Mark(NewLine), Mark(Eof)]

  /** Its two rules, each on its own line. */
  lemma VanishingLines()
    ensures RenderRule(Vanishing[0]) == [StartRule[0], Mark(Assign), L('a'), G('A'), L('b')]
    ensures RenderRule(Vanishing[1]) == [G('A'), Mark(Assign), Token(Epsilon, None, 0, 0)]
  {
    ErasePlain(StartRule);
    ErasePlain([L('a'), G('A'), L('b')]);
    ErasePlain([G('A')]);
    ErasePlain([Token(Epsilon, None, 0, 0)]);
    assert RenderOutputs([[L('a'), G('A'), L('b')]]) == [L('a'), G('A'), L('b')];
    assert RenderOutputs([[Token(Epsilon, None, 0, 0)]]) == [Token(Epsilon, None, 0, 0)];
  }

  /** It is the text of `Vanishing` with an empty line before its second rule. */
  lemma VanishingLaidOut()
    ensures Written(Vanishing, [false, true], true) == VanishingText
  {
    VanishingLines();
    assert Vanishing[..1][..0] == [] && [false, true][..1][..0] == [];
    assert Layout(Vanishing[..1], [false]) == RenderRule(Vanishing[0]);
    assert Layout(Vanishing, [false, true]) == RenderRule(Vanishing[0]) + LineBreak(true) + RenderRule(Vanishing[1]);
  }

  /** The parser reads it back as `Vanishing`: the empty line is skipped and the epsilon kept. */
  lemma VanishingParses()
    ensures ParseSpec(VanishingText) == Ok(Vanishing)
  {
    assert WellFormedGrammar(Vanishing) && PlainRules(Vanishing);
    VanishingLaidOut();
    LayoutParses(Vanishing, [false, true], true);
  }

  /**
   * `S => AB`, `B => b`, `A => a`: `B` is rewritten at 1, the cursor stays
   * there, `A` is not found from 1, the cursor falls back to 0, and `A`
   * is rewritten in the third pass.
   */
  const Sticky := [Rule(StartRule, [[G('A'), G('B')]]), Rule([G('B')], [[L('b')]]), Rule([G('A')], [[L('a')]])]

  lemma StickyFirstPass(answers: nat -> int)
    ensures Step(Sticky, Config([G('A'), G('B')], 0, 0), answers) == Ok(Config([G('A'), L('b')], 1, 0))
  {
    var first := [G('A'), G('B')];
    HeadMismatch([G('B')], first, 0);
    assert MatchesAt([G('B')], first, 1);
    assert FirstMatch([G('B')], first, 0) == FirstMatch([G('B')], first, 1) == 1;
    assert SelectRule(Sticky, first, 0, 1) == Some((1, 1));
    assert Choose(Sticky[1].outputs, answers(0)) == Ok([L('b')]);
    assert first[..1] + [L('b')] + first[2..] == [G('A'), L('b')];
  }

  lemma StickySecondPass(answers: nat -> int)
    ensures Step(Sticky, Config([G('A'), L('b')], 1, 0), answers) == Ok(Config([G('A'), L('b')], 0, 0))
  {
    var second := [G('A'), L('b')];
    assert FirstMatch([G('B')], second, 2) == -1;
    HeadMismatch([G('B')], second, 1);
    assert FirstMatch([G('B')], second, 1) == -1;
    assert FirstMatch([G('A')], second, 2) == -1;
    HeadMismatch([G('A')], second, 1);
    assert FirstMatch([G('A')], second, 1) == -1;
    assert SelectRule(Sticky, second, 1, 1) == None;
  }

  lemma StickyThirdPass(answers: nat -> int)
    ensures Step(Sticky, Config([G('A'), L('b')], 0, 0), answers) == Ok(Config([L('a'), L('b')], 0, 0))
  {
    var second := [G('A'), L('b')];
    assert FirstMatch([G('B')], second, 2) == -1;
    HeadMismatch([G('B')], second, 1);
    assert FirstMatch([G('B')], second, 1) == -1;
    HeadMismatch([G('B')], second, 0);
    assert FirstMatch([G('B')], second, 0) == -1;
    assert MatchesAt([G('A')], second, 0);
    assert FirstMatch([G('A')], second, 0) == 0;
    assert SelectRule(Sticky, second, 0, 1) == Some((2, 0));
    assert Choose(Sticky[2].outputs, answers(0)) == Ok([L('a')]);
    assert second[..0] + [L('a')] + second[1..] == [L('a'), L('b')];
  }

  lemma StickyStart(answers: nat -> int, fuel: nat)
    ensures RunSpec(Sticky, answers, fuel) == Derive(Sticky, Config([G('A'), G('B')], 0, 0), answers, fuel)
  {
    assert Choose(Sticky[0].outputs, answers(0)) == Ok([G('A'), G('B')]);
  }

  /** Two passes leave `A` in the form and the cursor back at 0. */
  lemma StickyCursorFallsBack(answers: nat -> int)
    ensures RunSpec(Sticky, answers, 2) == Unfinished([G('A'), L('b')], 0)
  {
    var start := Config([G('A'), G('B')], 0, 0);
    var second := Config([G('A'), L('b')], 1, 0);
    StickyStart(answers, 2);
    StickyFirstPass(answers);
    assert HasGroup(second.form) by { assert second.form[0].kind == Group; }
    DeriveUnfold(Sticky, start, answers, 2);
    StickySecondPass(answers);
    DeriveUnfold(Sticky, second, answers, 1);
  }

  /** The third pass rewrites `A` and ends the derivation. */
  lemma StickyFromSecond(answers: nat -> int)
    ensures Derive(Sticky, Config([G('A'), L('b')], 1, 0), answers, 2) == Finished([L('a'), L('b')])
  {
    var second := Config([G('A'), L('b')], 1, 0);
    var third := Config([G('A'), L('b')], 0, 0);
    StickySecondPass(answers);
    assert HasGroup(third.form) by { assert third.form[0].kind == Group; }
    DeriveUnfold(Sticky, second, answers, 2);
    StickyThirdPass(answers);
    assert !HasGroup([L('a'), L('b')]);
    DeriveUnfold(Sticky, third, answers, 1);
  }

  lemma StickyCursorFinishes(answers: nat -> int)
    ensures RunSpec(Sticky, answers, 3) == Finished([L('a'), L('b')])
  {
    var start := Config([G('A'), G('B')], 0, 0);
    var second := Config([G('A'), L('b')], 1, 0);
    StickyStart(answers, 3);
    StickyFirstPass(answers);
    assert HasGroup(second.form) by { assert second.form[0].kind == Group; }
    DeriveUnfold(Sticky, start, answers, 3);
    StickyFromSecond(answers);
  }

  /** A character no branch of the scan accepts is reported at its own line and column. */
  lemma UnknownCharacterReported()
    ensures TokenizeSpec(["S => a", "A?"]) == Err(UnknownCharacter('?', 1, 1))
  {
  }

  /** The tokens of the two-line grammar `S => A` / `A => a | b`, with their columns and lines. */
  const ChoiceTokens := [
    Token(Start, None, 0, 0), Token(Assign, None, 3, 0), Token(Group, Some('A'), 5, 0), Token(NewLine, None, 0, 0),
    Token(Group, Some('A'), 0, 1), Token(Assign, None, 3, 1), Token(Letter, Some('a'), 5, 1), Token(Or, None, 7, 1),
    Token(Letter, Some('b'), 9, 1), Token(Eof, None, 9, 1)]

  /** One step of the scan over a character that gives a token. */
  lemma ScanChar(line: string, k: nat, col: nat, c: char, rest: seq<Token>, tok: Token)
    requires col < |line| && line[col] == c && c != ' ' && c != '/' && CharToken(c, col, k) == Some(tok)
    requires LexLine(line, k, col + 1) == Ok(rest)
    ensures LexLine(line, k, col) == Ok([tok] + rest)
  {
  }

  /** A space is skipped. */
  lemma ScanSpace(line: string, k: nat, col: nat, rest: seq<Token>)
    requires col < |line| && line[col] == ' ' && LexLine(line, k, col + 1) == Ok(rest)
    ensures LexLine(line, k, col) == Ok(rest)
  {
  }

  /** One step of the scan over an arrow. */
  lemma ScanArrow(line: string, k: nat, col: nat, rest: seq<Token>, tok: Token)
    requires col + 1 < |line| && line[col] == '=' && line[col + 1] == '>' && tok == Token(Assign, None, col + 1, k)
    requires LexLine(line, k, col + 2) == Ok(rest)
    ensures LexLine(line, k, col) == Ok([tok] + rest)
  {
  }

  lemma ChoiceFirstLine()
    ensures LexLine("S => A", 0, 0) == Ok(ChoiceTokens[..3])
  {
    var first := "S => A";
    var t := ChoiceTokens;
    assert LexLine(first, 0, 6) == Ok([]);
    ScanChar(first, 0, 5, 'A', [], t[2]);
    assert [t[2]] + [] == [t[2]];
    ScanSpace(first, 0, 4, [t[2]]);
    ScanArrow(first, 0, 2, [t[2]], t[1]);
    assert [t[1]] + [t[2]] == [t[1], t[2]];
    ScanSpace(first, 0, 1, [t[1], t[2]]);
    ScanChar(first, 0, 0, 'S', [t[1], t[2]], t[0]);
    assert [t[0]] + [t[1], t[2]] == t[..3];
  }

  lemma ChoiceSecondLineTail()
    ensures LexLine("A => a | b", 1, 5) == Ok(ChoiceTokens[6..9])
  {
    var second := "A => a | b";
    var t := ChoiceTokens;
    assert LexLine(second, 1, 10) == Ok([]);
    ScanChar(second, 1, 9, 'b', [], t[8]);
    assert [t[8]] + [] == [t[8]];
    ScanSpace(second, 1, 8, [t[8]]);
    ScanChar(second, 1, 7, '|', [t[8]], t[7]);
    assert [t[7]] + [t[8]] == [t[7], t[8]];
    ScanSpace(second, 1, 6, [t[7], t[8]]);
    ScanChar(second, 1, 5, 'a', [t[7], t[8]], t[6]);
    assert [t[6]] + [t[7], t[8]] == t[6..9];
  }

  lemma ChoiceSecondLine()
    ensures LexLine("A => a | b", 1, 0) == Ok(ChoiceTokens[4..9])
  {
    var second := "A => a | b";
    var t := ChoiceTokens;
    ChoiceSecondLineTail();
    ScanSpace(second, 1, 4, t[6..9]);
    ScanArrow(second, 1, 2, t[6..9], t[5]);
    ScanSpace(second, 1, 1, [t[5]] + t[6..9]);
    ScanChar(second, 1, 0, 'A', [t[5]] + t[6..9], t[4]);
    assert [t[4]] + ([t[5]] + t[6..9]) == t[4..9];
  }

  lemma ChoiceSourceTokens()
    ensures TokenizeSpec(["S => A", "A => a | b"]) == Ok(ChoiceTokens)
  {
    var lines := ["S => A", "A => a | b"];
    var t := ChoiceTokens;
    ChoiceFirstLine();
    ChoiceSecondLine();
    assert LexFrom(lines, 2) == Ok([t[9]]);
    assert t[4..9] + LineEnd(lines, 1) + [t[9]] == t[4..];
    assert LexFrom(lines, 1) == Ok(t[4..]);
    assert t[..3] + LineEnd(lines, 0) + t[4..] == t;
  }

  const ChoiceStart := Rule([ChoiceTokens[0]], [[ChoiceTokens[2]]])
  const ChoiceRules := [ChoiceStart, Rule([ChoiceTokens[4]], [[ChoiceTokens[6]], [ChoiceTokens[8]]])]

  /** The alternatives of the second rule, from its bar to the end of the file. */
  lemma ChoiceAlternativesParse()
    ensures Inv(OutputDefinition, Context([ChoiceStart], Some(Pending([ChoiceTokens[4]], [ChoiceTokens[6]], []))))
    ensures Drive(OutputDefinition, Context([ChoiceStart], Some(Pending([ChoiceTokens[4]], [ChoiceTokens[6]], []))), ChoiceTokens, 7)
      == Ok(ChoiceRules)
  {
    var t := ChoiceTokens;
    var rule := Rule([t[4]], [[t[6]], [t[8]]]);
    var c9 := Context([ChoiceStart], Some(Pending([t[4]], [t[8]], [[t[6]]])));
    var c8 := Context([ChoiceStart], Some(Pending([t[4]], [], [[t[6]]])));
    var c7 := Context([ChoiceStart], Some(Pending([t[4]], [t[6]], [])));
    assert [] + [t[8]] == [t[8]] && [] + [[t[6]]] == [[t[6]]] && [[t[6]]] + [[t[8]]] == rule.outputs;
    assert Transition(OutputDefinition, c7, t[7]) == Ok((OutputDefinitionStart, c8));
    DriveStep(OutputDefinition, c7, t, 7, OutputDefinitionStart, c8);
    assert Transition(OutputDefinitionStart, c8, t[8]) == Ok((OutputDefinition, c9));
    DriveStep(OutputDefinitionStart, c8, t, 8, OutputDefinition, c9);
    assert [ChoiceStart] + [rule] == ChoiceRules;
    assert Transition(OutputDefinition, c9, t[9]) == Ok((EndOfProgram, Context(ChoiceRules, None)));
    DriveStep(OutputDefinition, c9, t, 9, EndOfProgram, Context(ChoiceRules, None));
  }

  /** The second rule, read from its first token to the end of the file. */
  lemma ChoiceSecondRuleParses()
    ensures Drive(BeginningOfGroupDefinition, Context([ChoiceStart], None), ChoiceTokens, 4) == Ok(ChoiceRules)
  {
    var t := ChoiceTokens;
    var c5 := Context([ChoiceStart], Some(Pending([t[4]], [], [])));
    var c7 := Context([ChoiceStart], Some(Pending([t[4]], [t[6]], [])));
    assert [] + [t[6]] == [t[6]];
    DriveStep(BeginningOfGroupDefinition, Context([ChoiceStart], None), t, 4, GroupDefinition, c5);
    DriveStep(GroupDefinition, c5, t, 5, OutputDefinitionStart, c5);
    DriveStep(OutputDefinitionStart, c5, t, 6, OutputDefinition, c7);
    ChoiceAlternativesParse();
  }

  /** The alternative of the start rule and the new-line that closes it. */
  lemma ChoiceStartOutputParses(tokens: seq<Token>)
    requires |tokens| >= 4 && tokens[2] == ChoiceTokens[2] && tokens[3] == ChoiceTokens[3]
    ensures Drive(OutputDefinitionStart, Context([], Some(Pending([ChoiceTokens[0]], [], []))), tokens, 2) ==
      Drive(BeginningOfGroupDefinition, Context([ChoiceStart], None), tokens, 4)
  {
    var t := ChoiceTokens;
    var c1 := Context([], Some(Pending([t[0]], [], [])));
    var c3 := Context([], Some(Pending([t[0]], [t[2]], [])));
    assert [] + [t[2]] == [t[2]] && [] + [[t[2]]] == [[t[2]]];
    assert [] + [ChoiceStart] == [ChoiceStart];
    DriveStep(OutputDefinitionStart, c1, tokens, 2, OutputDefinition, c3);
    DriveStep(OutputDefinition, c3, tokens, 3, BeginningOfGroupDefinition, Context([ChoiceStart], None));
  }

  /** The start rule, read up to the new-line that closes it. */
  lemma ChoiceStartRuleParses(tokens: seq<Token>)
    requires |tokens| >= 4 && forall i :: 0 <= i < 4 ==> tokens[i] == ChoiceTokens[i]
    ensures Drive(StartProgram, Context([], None), tokens, 0) ==
      Drive(BeginningOfGroupDefinition, Context([ChoiceStart], None), tokens, 4)
  {
    var t := ChoiceTokens;
    var c1 := Context([], Some(Pending([t[0]], [], [])));
    assert tokens[0] == t[0] && tokens[1] == t[1] && tokens[2] == t[2] && tokens[3] == t[3];
    DriveStep(StartProgram, Context([], None), tokens, 0, StartGroupDefinition, c1);
    DriveStep(StartGroupDefinition, c1, tokens, 1, OutputDefinitionStart, c1);
    ChoiceStartOutputParses(tokens);
  }

  /** Its rules: the start rule, then `A` with two alternatives. */
  lemma ChoiceSourceParses()
    ensures ParseSpec(ChoiceTokens) == Ok(ChoiceRules)
  {
    ChoiceStartRuleParses(ChoiceTokens);
    ChoiceSecondRuleParses();
  }

  lemma ChoiceRulesRun()
    ensures RunSpec(ChoiceRules, (k: nat) => 2, 1) == Finished([ChoiceTokens[8]])
  {
    var t := ChoiceTokens;
    assert Choose(ChoiceRules[0].outputs, 2) == Ok([t[2]]);
    assert MatchesAt([t[4]], [t[2]], 0);
    assert FirstMatch([t[4]], [t[2]], 0) == 0;
    assert Choose(ChoiceRules[1].outputs, 2) == Ok([t[8]]);
    assert [t[2]][..0] + [t[8]] + [t[2]][1..] == [t[8]];
    assert Step(ChoiceRules, Config([t[2]], 0, 0), (k: nat) => 2) == Ok(Config([t[8]], 0, 1));
    assert !HasGroup([t[8]]);
    DeriveUnfold(ChoiceRules, Config([t[2]], 0, 0), (k: nat) => 2, 1);
  }

  /**
   * The whole program on the two-line file: answering 2 at the one prompt
   * derives `b`, carrying the position it was read at.
   */
  lemma ChoiceEndToEnd()
    ensures Process(["S => A", "A => a | b"], (k: nat) => 2, 1) == Finished([ChoiceTokens[8]])
  {
    ChoiceSourceTokens();
    ChoiceSourceParses();
    ChoiceRulesRun();
  }
}
