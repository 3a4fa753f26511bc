/**
 * The derivation engine (`run` in index.js): it keeps a sentential form
 * and a sticky search cursor, rewrites the first occurrence of the first
 * matching rule with an alternative the user picks, falls back to cursor
 * 0 once before giving up, and stops when no group token remains.
 *
 * The user is the function `answers`: the k-th question asked (counting
 * from 0) is answered with `answers(k)`, already read as an integer.
 * A derivation need not end (`A => A`), so a run is bounded by `fuel`,
 * the number of passes of the loop body it may make.
 */
module Engine {
  import opened Tokens
  import opened Errors
  import opened Grammar
  import opened Matcher

  /** The alternative with its epsilon markers dropped (`filter(t => t.type !== Token.E)`). */
  function RemoveEpsilons(s: seq<Token>): (r: seq<Token>)
    ensures |r| <= |s|
    ensures forall i :: 0 <= i < |r| ==> r[i].kind != Epsilon
    ensures (forall i :: 0 <= i < |s| ==> s[i].kind != Epsilon) ==> r == s
  {
    if s == [] then []
    else (if s[0].kind == Epsilon then [] else [s[0]]) + RemoveEpsilons(s[1..])
  }

  /** Filtering keeps exactly the tokens that are not epsilons. */
  lemma {:induction false} RemoveEpsilonsKeeps(s: seq<Token>, t: Token)
    ensures t in RemoveEpsilons(s) <==> t in s && t.kind != Epsilon
  {
    if s != [] {
      RemoveEpsilonsKeeps(s[1..], t);
      assert s == [s[0]] + s[1..];
    }
  }

  /** Filtering a concatenation filters each part, in order: the kept tokens keep their order and number. */
  lemma {:induction false} RemoveEpsilonsConcat(a: seq<Token>, b: seq<Token>)
    ensures RemoveEpsilons(a + b) == RemoveEpsilons(a) + RemoveEpsilons(b)
  {
    if a == [] {
      assert a + b == b;
    } else {
      assert (a + b)[0] == a[0];
      assert (a + b)[1..] == a[1..] + b;
      RemoveEpsilonsConcat(a[1..], b);
    }
  }

  /** On an alternative the parser builds, the filter drops just a leading epsilon. */
  lemma RemoveEpsilonsOutput(o: seq<Token>)
    requires IsOutput(o)
    ensures RemoveEpsilons(o) == if o[0].kind == Epsilon then o[1..] else o
  {
    assert o == [o[0]] + o[1..];
    RemoveEpsilonsConcat([o[0]], o[1..]);
    assert RemoveEpsilons([o[0]]) == if o[0].kind == Epsilon then [] else [o[0]];
  }

  /** Choosing among these alternatives asks the user a question. */
  predicate Asks(outputs: seq<seq<Token>>) {
    |outputs| > 1
  }

  /**
   * `choose`: an empty list is an internal error, a single alternative is
   * taken without asking, and otherwise the answer must lie in 1..N and
   * picks that alternative. The result never holds an epsilon.
   */
  function Choose(outputs: seq<seq<Token>>, answer: int): (r: Result<seq<Token>>)
    ensures r.Ok? <==> |outputs| == 1 || (Asks(outputs) && 1 <= answer <= |outputs|)
    ensures r.Err? ==> r.error == if |outputs| == 0 then EmptyGroup else InvalidSelection(answer)
    ensures r.Ok? && !Asks(outputs) ==> r.value == RemoveEpsilons(outputs[0])
    ensures r.Ok? && Asks(outputs) ==> r.value == RemoveEpsilons(outputs[answer - 1])
    ensures r.Ok? ==> forall i :: 0 <= i < |r.value| ==> r.value[i].kind != Epsilon
  {
    if |outputs| == 0 then Err(EmptyGroup)
    else if |outputs| == 1 then Ok(RemoveEpsilons(outputs[0]))
    else if answer < 1 || answer >= |outputs| + 1 then Err(InvalidSelection(answer))
    else Ok(RemoveEpsilons(outputs[answer - 1]))
  }

  /**
   * The first rule, by index from `i` on, whose pattern occurs in the form
   * at or after the cursor, with the index of that occurrence.
   */
  function SelectRule(groups: seq<Rule>, form: seq<Token>, cursor: nat, i: nat): (r: Option<(nat, nat)>)
    ensures r.Some? ==>
      i <= r.value.0 < |groups| && r.value.1 == FirstMatch(groups[r.value.0].definition, form, cursor) &&
      forall k :: i <= k < r.value.0 ==> FirstMatch(groups[k].definition, form, cursor) < 0
    ensures r.None? ==> forall k :: i <= k < |groups| ==> FirstMatch(groups[k].definition, form, cursor) < 0
    decreases |groups| - i
  {
    if i >= |groups| then None
    else
      var m := FirstMatch(groups[i].definition, form, cursor);
      if m >= 0 then Some((i, m)) else SelectRule(groups, form, cursor, i + 1)
  }

  /** The engine's state between passes: the sentential form, the cursor, and how many questions were asked. */
  datatype Config = Config(form: seq<Token>, cursor: nat, asked: nat)

  /** How a run ends: a form with no group left, a fatal error, or out of fuel with the form and cursor reached. */
  datatype Outcome = Finished(form: seq<Token>) | Aborted(error: Error) | Unfinished(form: seq<Token>, cursor: nat)

  /** `programState.some(t => t.type === Token.GROUP)`. */
  predicate HasGroup(form: seq<Token>) {
    exists i :: 0 <= i < |form| && form[i].kind == Group
  }

  /** One pass of the loop body: rewrite with the first matching rule, else reset the cursor, else fail. */
  function Step(groups: seq<Rule>, c: Config, answers: nat -> int): Result<Config> {
    match SelectRule(groups, c.form, c.cursor, 1)
    case Some(found) =>
      var rule := groups[found.0];
      var m := found.1;
      (match Choose(rule.outputs, answers(c.asked))
       case Err(e) => Err(e)
       case Ok(alt) =>
         Ok(Config(c.form[..m] + alt + c.form[m + |rule.definition|..], m,
                   c.asked + if Asks(rule.outputs) then 1 else 0)))
    case None =>
      if c.cursor != 0 then Ok(c.(cursor := 0)) else Err(NoRuleFound(c.form))
  }

  /** The `do { ... } while` loop: a pass, then the group test, at most `fuel` passes. */
  function Derive(groups: seq<Rule>, c: Config, answers: nat -> int, fuel: nat): Outcome
    decreases fuel
  {
    if fuel == 0 then Unfinished(c.form, c.cursor)
    else
      match Step(groups, c, answers)
      case Err(e) => Aborted(e)
      case Ok(next) => if HasGroup(next.form) then Derive(groups, next, answers, fuel - 1) else Finished(next.form)
  }

  /**
   * The loop test: a pass that leaves a group in the form is followed by
   * another pass; one that leaves none ends the run with that form.
   */
  lemma DeriveUnfold(groups: seq<Rule>, c: Config, answers: nat -> int, fuel: nat)
    requires fuel > 0
    ensures Step(groups, c, answers).Err? ==> Derive(groups, c, answers, fuel) == Aborted(Step(groups, c, answers).error)
    ensures Step(groups, c, answers).Ok? ==>
      var next := Step(groups, c, answers).value;
      Derive(groups, c, answers, fuel) ==
        if HasGroup(next.form) then Derive(groups, next, answers, fuel - 1) else Finished(next.form)
  {
  }

  /** A whole run: the start rule's chosen alternative, epsilons dropped, replaces the start symbol; then the loop. */
  function RunSpec(groups: seq<Rule>, answers: nat -> int, fuel: nat): Outcome
    requires |groups| >= 1
  {
    var outputs := groups[0].outputs;
    match Choose(outputs, answers(0))
    case Err(e) => Aborted(e)
    case Ok(start) => Derive(groups, Config(start, 0, if Asks(outputs) then 1 else 0), answers, fuel)
  }

  /**
   * One pass of the body of `run`'s loop: the rules from index 1 in
   * declaration order, each matched from the cursor; the first that
   * matches is rewritten, otherwise the cursor falls back to 0 or the
   * derivation is stuck.
   */
  method Pass(groups: seq<Rule>, programState: seq<Token>, startSelection: nat, asked: nat, answers: nat -> int)
    returns (r: Result<Config>)
    ensures r == Step(groups, Config(programState, startSelection, asked), answers)
  {
    var i := 1;
    var m := -1;
    while i < |groups| && m < 0
      invariant 1 <= i
      invariant m < 0 ==> SelectRule(groups, programState, startSelection, 1) == SelectRule(groups, programState, startSelection, i)
      invariant m >= 0 ==> i < |groups| && SelectRule(groups, programState, startSelection, 1) == Some((i as nat, m as nat))
      decreases |groups| - i, if m < 0 then 1 else 0
    {
      m := Match(groups[i], programState, startSelection);
      if m < 0 {
        i := i + 1;
      }
    }
    if m >= 0 {
      var rule := groups[i];
      var newChange := Choose(rule.outputs, answers(asked));
      if newChange.Err? {
        return Err(newChange.error);
      }
      var newAsked := if Asks(rule.outputs) then asked + 1 else asked;
      return Ok(Config(programState[..m] + newChange.value + programState[m + |rule.definition|..], m, newAsked));
    } else if startSelection != 0 {
      return Ok(Config(programState, 0, asked));
    } else {
      return Err(NoRuleFound(programState));
    }
  }

  /**
   * The labelled `do ... while` loop of `run`, from a given form, cursor
   * and number of questions asked, for at most `fuel` passes.
   */
  method Loop(groups: seq<Rule>, form: seq<Token>, cursor: nat, asked: nat, answers: nat -> int, fuel: nat)
    returns (r: Outcome)
    ensures r == Derive(groups, Config(form, cursor, asked), answers, fuel)
  {
    var programState, startSelection, questions := form, cursor, asked;
    var remaining := fuel;
    while remaining > 0
      invariant Derive(groups, Config(form, cursor, asked), answers, fuel) ==
        Derive(groups, Config(programState, startSelection, questions), answers, remaining)
    {
      ghost var c := Config(programState, startSelection, questions);
      var next := Pass(groups, programState, startSelection, questions, answers);
      DeriveUnfold(groups, c, answers, remaining);
      if next.Err? {
        return Aborted(next.error);
      }
      programState, startSelection, questions := next.value.form, next.value.cursor, next.value.asked;
      assert next.value == Config(programState, startSelection, questions);
      remaining := remaining - 1;
      if !HasGroup(programState) {
        return Finished(programState);
      }
    }
    return Unfinished(programState, startSelection);
  }

  /** `run`: the start rule's alternative replaces the start symbol, then the loop rewrites the form. */
  method Run(groups: seq<Rule>, answers: nat -> int, fuel: nat) returns (r: Outcome)
    requires |groups| >= 1
    ensures r == RunSpec(groups, answers, fuel)
  {
    var startOutputs := groups[0].outputs;
    var startProgram := Choose(startOutputs, answers(0));
    if startProgram.Err? {
      return Aborted(startProgram.error);
    }
    var asked := if Asks(startOutputs) then 1 else 0;
    r := Loop(groups, startProgram.value, 0, asked, answers, fuel);
  }

  /**
   * One pass, when rule `k` is the lowest-index rule from 1 on whose pattern
   * occurs at or after the cursor (wherever later rules match): the cursor
   * moves to its first occurrence `m`, the form before `m` and after the
   * replaced pattern is kept, and the chosen alternative, without epsilons,
   * takes exactly the place of the pattern. The pass fails exactly when the
   * choice fails.
   */
  lemma PassRewrites(groups: seq<Rule>, c: Config, answers: nat -> int, k: nat)
    requires 1 <= k < |groups|
    requires FirstMatch(groups[k].definition, c.form, c.cursor) >= 0
    requires forall j :: 1 <= j < k ==> FirstMatch(groups[j].definition, c.form, c.cursor) < 0
    ensures
      var m := FirstMatch(groups[k].definition, c.form, c.cursor);
      var n := |groups[k].definition|;
      var choice := Choose(groups[k].outputs, answers(c.asked));
      (Step(groups, c, answers).Err? <==> choice.Err?) &&
      (Step(groups, c, answers).Err? ==> Step(groups, c, answers).error == choice.error) &&
      (Step(groups, c, answers).Ok? ==>
        var next := Step(groups, c, answers).value;
        next.cursor == m && next.asked == c.asked + (if Asks(groups[k].outputs) then 1 else 0) &&
        |next.form| == |c.form| - n + |choice.value| &&
        next.form[..m] == c.form[..m] &&
        next.form[m..m + |choice.value|] == choice.value &&
        next.form[m + |choice.value|..] == c.form[m + n..])
  {
    var m := FirstMatch(groups[k].definition, c.form, c.cursor);
    assert SelectRule(groups, c.form, c.cursor, 1) == Some((k, m as nat));
    var choice := Choose(groups[k].outputs, answers(c.asked));
    if choice.Ok? {
      var n := |groups[k].definition|;
      var f := c.form[..m] + choice.value + c.form[m + n..];
      assert f[..m] == c.form[..m];
      assert f[m..m + |choice.value|] == choice.value;
      assert f[m + |choice.value|..] == c.form[m + n..];
    }
  }

  /**
   * A pass in which no rule from index 1 on matches at or after the cursor
   * resets a non-zero cursor to 0, keeping the form, and at cursor 0 is a
   * stuck derivation.
   */
  lemma PassFallsBack(groups: seq<Rule>, c: Config, answers: nat -> int)
    requires forall j :: 1 <= j < |groups| ==> FirstMatch(groups[j].definition, c.form, c.cursor) < 0
    ensures c.cursor != 0 ==> Step(groups, c, answers) == Ok(c.(cursor := 0))
    ensures c.cursor == 0 ==> Step(groups, c, answers) == Err(NoRuleFound(c.form))
  {
  }

  /** A pattern that occurs nowhere from 0 on occurs nowhere from a later offset either. */
  lemma NoMatchFromZero(pattern: seq<Token>, form: seq<Token>, from: nat)
    requires FirstMatch(pattern, form, 0) < 0
    ensures FirstMatch(pattern, form, from) < 0
  {
    assert forall i :: from <= i ==> !MatchesAt(pattern, form, i);
  }

  /**
   * The cursor falls back to 0 once, and only then does the run give up:
   * from a form that still holds a group and that no rule matches from 0
   * on, the run is stuck on that very form, whatever the cursor.
   */
  lemma FallsBackOnceThenStuck(groups: seq<Rule>, c: Config, answers: nat -> int, fuel: nat)
    requires fuel >= 2 && HasGroup(c.form)
    requires forall j :: 1 <= j < |groups| ==> FirstMatch(groups[j].definition, c.form, 0) < 0
    ensures Derive(groups, c, answers, fuel) == Aborted(NoRuleFound(c.form))
  {
    forall j | 1 <= j < |groups|
      ensures FirstMatch(groups[j].definition, c.form, c.cursor) < 0
    {
      NoMatchFromZero(groups[j].definition, c.form, c.cursor);
    }
    PassFallsBack(groups, c, answers);
    if c.cursor != 0 {
      var reset := c.(cursor := 0);
      PassFallsBack(groups, reset, answers);
      assert Derive(groups, c, answers, fuel) == Derive(groups, reset, answers, fuel - 1);
    }
  }

  /**
   * The loop body runs before the first group test: when no rule matches
   * the chosen start form, the run is stuck even if that form holds no
   * group at all.
   */
  lemma StartFormIsRewrittenFirst(groups: seq<Rule>, answers: nat -> int, fuel: nat)
    requires |groups| >= 1 && fuel >= 1
    requires Choose(groups[0].outputs, answers(0)).Ok?
    requires forall j :: 1 <= j < |groups| ==>
      FirstMatch(groups[j].definition, Choose(groups[0].outputs, answers(0)).value, 0) < 0
    ensures RunSpec(groups, answers, fuel) == Aborted(NoRuleFound(Choose(groups[0].outputs, answers(0)).value))
  {
    var start := Choose(groups[0].outputs, answers(0)).value;
    var c := Config(start, 0, if Asks(groups[0].outputs) then 1 else 0);
    PassFallsBack(groups, c, answers);
  }

  /** A sentential form after the start symbol is gone: letters and groups only. */
  predicate FormOk(form: seq<Token>) {
    forall i :: 0 <= i < |form| ==> IsSymbol(form[i])
  }

  /** A chosen alternative of a parsed rule, epsilons dropped, is made of letters and groups. */
  lemma ChooseGivesSymbols(outputs: seq<seq<Token>>, answer: int)
    requires OutputsOk(outputs)
    ensures Choose(outputs, answer).Ok? ==> FormOk(Choose(outputs, answer).value)
  {
    var r := Choose(outputs, answer);
    if r.Ok? {
      var o := if Asks(outputs) then outputs[answer - 1] else outputs[0];
      assert r.value == RemoveEpsilons(o);
      forall i | 0 <= i < |r.value|
        ensures IsSymbol(r.value[i])
      {
        RemoveEpsilonsKeeps(o, r.value[i]);
      }
    }
  }

  lemma SpliceKeepsForm(form: seq<Token>, m: nat, n: nat, alt: seq<Token>)
    requires FormOk(form) && FormOk(alt) && m + n <= |form|
    ensures FormOk(form[..m] + alt + form[m + n..])
  {
    var f := form[..m] + alt + form[m + n..];
    assert forall i :: 0 <= i < |f| ==>
      (i < m ==> f[i] == form[i]) &&
      (m <= i < m + |alt| ==> f[i] == alt[i - m]) &&
      (m + |alt| <= i ==> f[i] == form[i - |alt| + n]);
  }

  /** A pass over a parsed grammar keeps the form made of letters and groups and the cursor inside it. */
  lemma StepKeepsForm(groups: seq<Rule>, c: Config, answers: nat -> int)
    requires GroupsFit(groups) && FormOk(c.form) && c.cursor <= |c.form|
    ensures Step(groups, c, answers).Ok? ==>
      FormOk(Step(groups, c, answers).value.form) &&
      Step(groups, c, answers).value.cursor <= |Step(groups, c, answers).value.form|
  {
    var s := SelectRule(groups, c.form, c.cursor, 1);
    if s.Some? {
      var k := s.value.0;
      assert RuleFits(k, groups[k]);
      ChooseGivesSymbols(groups[k].outputs, answers(c.asked));
      if Step(groups, c, answers).Ok? {
        var m := s.value.1;
        var alt := Choose(groups[k].outputs, answers(c.asked)).value;
        SpliceKeepsForm(c.form, m, |groups[k].definition|, alt);
      }
    }
  }

  /**
   * A finished derivation leaves no group in the form; over a parsed
   * grammar, from a form of letters and groups, it leaves letters only,
   * and an unfinished one keeps a form of letters and groups.
   */
  lemma {:induction false} DeriveSound(groups: seq<Rule>, c: Config, answers: nat -> int, fuel: nat)
    ensures Derive(groups, c, answers, fuel).Finished? ==> !HasGroup(Derive(groups, c, answers, fuel).form)
    ensures GroupsFit(groups) && FormOk(c.form) && c.cursor <= |c.form| ==>
      (Derive(groups, c, answers, fuel).Finished? ==>
         forall i :: 0 <= i < |Derive(groups, c, answers, fuel).form| ==> Derive(groups, c, answers, fuel).form[i].kind == Letter) &&
      (Derive(groups, c, answers, fuel).Unfinished? ==>
         FormOk(Derive(groups, c, answers, fuel).form) && Derive(groups, c, answers, fuel).cursor <= |Derive(groups, c, answers, fuel).form|)
    decreases fuel
  {
    if fuel > 0 {
      var step := Step(groups, c, answers);
      if GroupsFit(groups) && FormOk(c.form) && c.cursor <= |c.form| {
        StepKeepsForm(groups, c, answers);
      }
      if step.Ok? && HasGroup(step.value.form) {
        DeriveSound(groups, step.value, answers, fuel - 1);
      }
    }
  }

  /** A derivation stops with an error only when a choice is refused or no rule applies. */
  predicate RunError(e: Error) {
    e.EmptyGroup? || e.InvalidSelection? || e.NoRuleFound?
  }

  lemma {:induction false} DeriveErrors(groups: seq<Rule>, c: Config, answers: nat -> int, fuel: nat)
    ensures Derive(groups, c, answers, fuel).Aborted? ==> RunError(Derive(groups, c, answers, fuel).error)
    decreases fuel
  {
    if fuel > 0 {
      var step := Step(groups, c, answers);
      if step.Ok? && HasGroup(step.value.form) {
        DeriveErrors(groups, step.value, answers, fuel - 1);
      }
    }
  }

  /** The errors of `run`: an empty group, a refused answer, or a form no rule rewrites. */
  lemma RunErrors(groups: seq<Rule>, answers: nat -> int, fuel: nat)
    requires |groups| >= 1
    ensures RunSpec(groups, answers, fuel).Aborted? ==> RunError(RunSpec(groups, answers, fuel).error)
  {
    var choice := Choose(groups[0].outputs, answers(0));
    if choice.Ok? {
      DeriveErrors(groups, Config(choice.value, 0, if Asks(groups[0].outputs) then 1 else 0), answers, fuel);
    }
  }

  /**
   * A run over a well-formed grammar succeeds only with a form of letters
   * alone: no group, and no start, epsilon or other token, is left.
   */
  lemma RunSound(groups: seq<Rule>, answers: nat -> int, fuel: nat)
    requires WellFormedGrammar(groups)
    ensures RunSpec(groups, answers, fuel).Finished? ==>
      forall i :: 0 <= i < |RunSpec(groups, answers, fuel).form| ==> RunSpec(groups, answers, fuel).form[i].kind == Letter
  {
    assert RuleFits(0, groups[0]);
    ChooseGivesSymbols(groups[0].outputs, answers(0));
    var choice := Choose(groups[0].outputs, answers(0));
    if choice.Ok? {
      DeriveSound(groups, Config(choice.value, 0, if Asks(groups[0].outputs) then 1 else 0), answers, fuel);
    }
  }
}
