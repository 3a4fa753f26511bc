/**
 * The grammar parser of index.js: the `Parser` table of handlers, one per
 * state and token kind, and the `parser` driver that feeds it the token
 * stream one token at a time.
 */
module Parser {
  import opened Tokens
  import opened Errors
  import opened Grammar

  /** The parser states (`State` in the source; its unused `LETTER_GROUP_DEFINITION` has no table and is left out). */
  datatype State =
    | StartProgram
    | StartGroupDefinition
    | BeginningOfGroupDefinition
    | GroupDefinition
    | OutputDefinitionStart
    | OutputDefinition
    | EndOfProgram

  /**
   * `context.currentGroup`: the rule being read. Fields the source leaves
   * undefined read as empty lists, as its destructuring defaults do.
   */
  datatype Pending = Pending(definition: seq<Token>, currentOutput: seq<Token>, outputs: seq<seq<Token>>)

  /** The parser's context: the rules read so far and the one being read, if any. */
  datatype Context = Context(groups: seq<Rule>, currentGroup: Option<Pending>)

  /** The token kinds that are keys of a state's table; the end state has no table at all. */
  function Table(s: State): Option<set<Kind>> {
    match s
    case StartProgram => Some({Start})
    case StartGroupDefinition => Some({Assign})
    case BeginningOfGroupDefinition => Some({NewLine, Eof, Letter, Group})
    case GroupDefinition => Some({Letter, Group, Assign})
    case OutputDefinitionStart => Some({Letter, Group, Epsilon})
    case OutputDefinition => Some({Letter, Group, Or, Eof, NewLine})
    case EndOfProgram => None
  }

  /** The contexts the handlers meet in each state, starting from an empty context. */
  predicate Inv(s: State, ctx: Context) {
    GroupsFit(ctx.groups) &&
    match s
    case StartProgram =>
      ctx.groups == [] && ctx.currentGroup.None?
    case StartGroupDefinition =>
      ctx.groups == [] && ctx.currentGroup.Some? &&
      IsStartDefinition(ctx.currentGroup.value.definition) &&
      ctx.currentGroup.value.currentOutput == [] && ctx.currentGroup.value.outputs == []
    case BeginningOfGroupDefinition =>
      |ctx.groups| >= 1 && ctx.currentGroup.None?
    case GroupDefinition =>
      |ctx.groups| >= 1 &&
      (ctx.currentGroup.Some? ==>
        IsPattern(ctx.currentGroup.value.definition) &&
        ctx.currentGroup.value.currentOutput == [] && ctx.currentGroup.value.outputs == [])
    case OutputDefinitionStart =>
      ctx.currentGroup.Some? &&
      DefinitionFits(|ctx.groups|, ctx.currentGroup.value.definition) &&
      OutputsOk(ctx.currentGroup.value.outputs) && ctx.currentGroup.value.currentOutput == []
    case OutputDefinition =>
      ctx.currentGroup.Some? &&
      DefinitionFits(|ctx.groups|, ctx.currentGroup.value.definition) &&
      OutputsOk(ctx.currentGroup.value.outputs) && IsOutput(ctx.currentGroup.value.currentOutput)
    case EndOfProgram =>
      |ctx.groups| >= 1 && ctx.currentGroup.None?
  }

  /** Whether the token closes the rule being read (and so appends it to the grammar). */
  predicate Closes(s: State, t: Token) {
    s == OutputDefinition && (t.kind == NewLine || t.kind == Eof)
  }

  /**
   * The handler of state `s` for token `t`: the next state and context.
   * It keeps the invariant, only ever appends to the rules read so far
   * (so they stay in declaration order), ends the program on end-of-file,
   * and fails only on an arrow that follows no pattern.
   */
  function Transition(s: State, ctx: Context, t: Token): (r: Result<(State, Context)>)
    requires Inv(s, ctx) && Table(s).Some? && t.kind in Table(s).value
    ensures r.Ok? ==> Inv(r.value.0, r.value.1)
    ensures r.Ok? ==>
      (ctx.groups <= r.value.1.groups && |r.value.1.groups| == |ctx.groups| + (if Closes(s, t) then 1 else 0))
    ensures r.Ok? && t.kind == Eof ==> r.value.0 == EndOfProgram
    ensures r.Err? <==> s == GroupDefinition && t.kind == Assign && ctx.currentGroup.None?
    ensures r.Err? ==> r.error == NoDefinition(t)
  {
    match s
    case StartProgram =>
      Ok((StartGroupDefinition, ctx.(currentGroup := Some(Pending([t], [], [])))))
    case StartGroupDefinition =>
      Ok((OutputDefinitionStart, ctx))
    case BeginningOfGroupDefinition =>
      if t.kind == NewLine then Ok((GroupDefinition, ctx))
      else if t.kind == Eof then Ok((EndOfProgram, ctx))
      else Ok((GroupDefinition, ctx.(currentGroup := Some(Pending([t], [], [])))))
    case GroupDefinition =>
      if t.kind == Assign then
        if ctx.currentGroup.None? || |ctx.currentGroup.value.definition| == 0 then Err(NoDefinition(t))
        else Ok((OutputDefinitionStart, ctx))
      else
        var p := if ctx.currentGroup.Some? then ctx.currentGroup.value else Pending([], [], []);
        Ok((GroupDefinition, ctx.(currentGroup := Some(p.(definition := p.definition + [t])))))
    case OutputDefinitionStart =>
      var p := ctx.currentGroup.value;
      Ok((OutputDefinition, ctx.(currentGroup := Some(p.(currentOutput := p.currentOutput + [t])))))
    case OutputDefinition =>
      var p := ctx.currentGroup.value;
      if t.kind == Or then
        Ok((OutputDefinitionStart, ctx.(currentGroup := Some(p.(currentOutput := [], outputs := p.outputs + [p.currentOutput])))))
      else if t.kind == Eof || t.kind == NewLine then
        var closed := Context(ctx.groups + [Rule(p.definition, p.outputs + [p.currentOutput])], None);
        Ok((if t.kind == Eof then EndOfProgram else BeginningOfGroupDefinition, closed))
      else
        Ok((OutputDefinition, ctx.(currentGroup := Some(p.(currentOutput := p.currentOutput + [t])))))
  }

  /**
   * The driver from token `i` on: a state without a table, or a token kind
   * its table lacks, is a fatal error; running out of tokens returns the
   * rules read so far.
   */
  function Drive(s: State, ctx: Context, tokens: seq<Token>, i: nat): Result<seq<Rule>>
    requires Inv(s, ctx) && i <= |tokens|
    decreases |tokens| - i
  {
    if i == |tokens| then Ok(ctx.groups)
    else
      match Table(s)
      case None => Err(UnknownParserState)
      case Some(keys) =>
        if tokens[i].kind !in keys then Err(UnexpectedToken(tokens[i], keys))
        else
          match Transition(s, ctx, tokens[i])
          case Err(e) => Err(e)
          case Ok(next) => Drive(next.0, next.1, tokens, i + 1)
  }

  /** One step of the parser's driver. */
  lemma DriveStep(s: State, ctx: Context, tokens: seq<Token>, i: nat, s': State, ctx': Context)
    requires Inv(s, ctx) && i < |tokens| && Table(s).Some? && tokens[i].kind in Table(s).value
    requires Transition(s, ctx, tokens[i]) == Ok((s', ctx'))
    ensures Inv(s', ctx') && Drive(s, ctx, tokens, i) == Drive(s', ctx', tokens, i + 1)
  {
  }

  /** What `parser` returns for a token stream. */
  function ParseSpec(tokens: seq<Token>): Result<seq<Rule>> {
    Drive(StartProgram, Context([], None), tokens, 0)
  }

  /** `parser`: the loop that takes tokens from the front of the stream and dispatches on the table. */
  method Parse(tokens: seq<Token>) returns (r: Result<seq<Rule>>)
    ensures r == ParseSpec(tokens)
  {
    var state := StartProgram;
    var context := Context([], None);
    var i := 0;
    while i < |tokens|
      invariant 0 <= i <= |tokens|
      invariant Inv(state, context)
      invariant ParseSpec(tokens) == Drive(state, context, tokens, i)
    {
      var token := tokens[i];
      var table := Table(state);
      if table.None? {
        return Err(UnknownParserState);
      }
      if token.kind !in table.value {
        return Err(UnexpectedToken(token, table.value));
      }
      var next := Transition(state, context, token);
      if next.Err? {
        return Err(next.error);
      }
      state, context := next.value.0, next.value.1;
      i := i + 1;
    }
    return Ok(context.groups);
  }

  /**
   * The driver only appends to the rules read so far, every rule it
   * returns has its parser-given shape, and a stream that ends with an
   * end-of-file token yields at least the start rule.
   */
  lemma {:induction false} DriveSound(s: State, ctx: Context, tokens: seq<Token>, i: nat)
    requires Inv(s, ctx) && i <= |tokens|
    ensures Drive(s, ctx, tokens, i).Ok? ==>
      var groups := Drive(s, ctx, tokens, i).value;
      ctx.groups <= groups && GroupsFit(groups) &&
      (i < |tokens| && tokens[|tokens| - 1].kind == Eof ==> |groups| >= 1)
    decreases |tokens| - i
  {
    if i < |tokens| && Table(s).Some? && tokens[i].kind in Table(s).value {
      var r := Transition(s, ctx, tokens[i]);
      if r.Ok? {
        DriveSound(r.value.0, r.value.1, tokens, i + 1);
      }
    }
  }

  /** The parser stops with an error only for an unexpected token, a missing definition or a state without a table. */
  predicate ParseError(e: Error) {
    e.UnexpectedToken? || e.NoDefinition? || e.UnknownParserState?
  }

  lemma {:induction false} DriveErrors(s: State, ctx: Context, tokens: seq<Token>, i: nat)
    requires Inv(s, ctx) && i <= |tokens|
    ensures Drive(s, ctx, tokens, i).Err? ==> ParseError(Drive(s, ctx, tokens, i).error)
    ensures Drive(s, ctx, tokens, i).Err? && Drive(s, ctx, tokens, i).error.UnexpectedToken? ==>
      var e := Drive(s, ctx, tokens, i).error;
      e.token in tokens[i..] && e.token.kind !in e.expected &&
      exists st :: Table(st) == Some(e.expected)
    decreases |tokens| - i
  {
    if i < |tokens| && Table(s).Some? && tokens[i].kind in Table(s).value {
      var r := Transition(s, ctx, tokens[i]);
      if r.Ok? {
        DriveErrors(r.value.0, r.value.1, tokens, i + 1);
        assert tokens[i..] == [tokens[i]] + tokens[i + 1..];
      }
    }
  }

  /** The first token must be the start symbol and the second an arrow; anything else is rejected with the expected kind. */
  lemma ParseRejectsBadStart(tokens: seq<Token>)
    ensures |tokens| > 0 && tokens[0].kind != Start ==>
      ParseSpec(tokens) == Err(UnexpectedToken(tokens[0], {Start}))
    ensures |tokens| > 1 && tokens[0].kind == Start && tokens[1].kind != Assign ==>
      ParseSpec(tokens) == Err(UnexpectedToken(tokens[1], {Assign}))
  {
    if |tokens| > 1 && tokens[0].kind == Start {
      var ctx := Context([], Some(Pending([tokens[0]], [], [])));
      assert ParseSpec(tokens) == Drive(StartGroupDefinition, ctx, tokens, 1);
    }
  }

  /**
   * One new-line between rules is a separator: the next letter or group
   * starts a rule. A second new-line, or the end of the file, right after
   * that separator is a syntax error.
   */
  lemma BlankLineSeparates(ctx: Context, tokens: seq<Token>, i: nat)
    requires Inv(BeginningOfGroupDefinition, ctx) && i + 1 < |tokens| && tokens[i].kind == NewLine
    ensures tokens[i + 1].kind == NewLine || tokens[i + 1].kind == Eof ==>
      Drive(BeginningOfGroupDefinition, ctx, tokens, i) == Err(UnexpectedToken(tokens[i + 1], {Letter, Group, Assign}))
    ensures tokens[i + 1].kind == Letter || tokens[i + 1].kind == Group ==>
      Drive(BeginningOfGroupDefinition, ctx, tokens, i) ==
      Drive(GroupDefinition, ctx.(currentGroup := Some(Pending([tokens[i + 1]], [], []))), tokens, i + 2)
  {
    assert Drive(BeginningOfGroupDefinition, ctx, tokens, i) == Drive(GroupDefinition, ctx, tokens, i + 1);
    if tokens[i + 1].kind == Letter || tokens[i + 1].kind == Group {
      assert [] + [tokens[i + 1]] == [tokens[i + 1]];
    }
  }

  /** A token with no character and no position: how separators and the end of the file are written. */
  function Mark(k: Kind): Token {
    Token(k, None, 0, 0)
  }

  /** The tokens of `s` with their positions erased. */
  function Erase(s: seq<Token>): seq<Token> {
    seq(|s|, i requires 0 <= i < |s| => AtOrigin(s[i]))
  }

  /** The alternatives of a rule as written: in order, separated by bars. */
  function RenderOutputs(os: seq<seq<Token>>): seq<Token> {
    if os == [] then []
    else RenderOutputs(os[..|os| - 1]) + (if |os| > 1 then [Mark(Or)] else []) + Erase(os[|os| - 1])
  }

  /** A rule as written: its pattern, an arrow, and its alternatives. */
  function RenderRule(r: Rule): seq<Token> {
    Erase(r.definition) + [Mark(Assign)] + RenderOutputs(r.outputs)
  }

  /** Rules as written, in order, one declaration per line. */
  function RenderRules(groups: seq<Rule>): seq<Token> {
    if groups == [] then []
    else RenderRules(groups[..|groups| - 1]) + (if |groups| > 1 then [Mark(NewLine)] else []) + RenderRule(groups[|groups| - 1])
  }

  /** A grammar written out as a token stream: its rules, perhaps a final new-line, and the end of the file. */
  function Render(groups: seq<Rule>, trailing: bool): seq<Token> {
    RenderRules(groups) + (if trailing then [Mark(NewLine)] else []) + [Mark(Eof)]
  }

  /** A token stream with positions erased and the new-line of each blank line (one right after a new-line) dropped. */
  function Collapse(ts: seq<Token>): seq<Token> {
    if ts == [] then []
    else
      var init := ts[..|ts| - 1];
      var last := ts[|ts| - 1];
      Collapse(init) + (if last.kind == NewLine && init != [] && init[|init| - 1].kind == NewLine then [] else [AtOrigin(last)])
  }

  lemma CollapseSnoc(ts: seq<Token>, i: nat)
    requires i < |ts|
    ensures Collapse(ts[..i + 1]) ==
      Collapse(ts[..i]) + (if ts[i].kind == NewLine && i > 0 && ts[i - 1].kind == NewLine then [] else [AtOrigin(ts[i])])
  {
    assert ts[..i + 1][..i] == ts[..i];
  }

  /** Whether the last token the parser took in this state was a new-line. */
  predicate PrevNewLine(s: State, ctx: Context) {
    s == BeginningOfGroupDefinition || (s == GroupDefinition && ctx.currentGroup.None?)
  }

  /**
   * What the parser has read so far, as `Collapse` writes it, in terms of
   * its state and context: the finished rules and the rule being read,
   * up to the token that led to the state.
   */
  function Shown(s: State, ctx: Context): seq<Token> {
    var p := if ctx.currentGroup.Some? then ctx.currentGroup.value else Pending([], [], []);
    var head := RenderRules(ctx.groups) + (if ctx.groups == [] then [] else [Mark(NewLine)]) + Erase(p.definition);
    match s
    case OutputDefinitionStart => head + [Mark(Assign)] + RenderOutputs(p.outputs) + (if p.outputs == [] then [] else [Mark(Or)])
    case OutputDefinition => head + [Mark(Assign)] + RenderOutputs(p.outputs + [p.currentOutput])
    case EndOfProgram => RenderRules(ctx.groups)
    case _ => head
  }

  lemma EraseSnoc(s: seq<Token>, t: Token)
    ensures Erase(s + [t]) == Erase(s) + [AtOrigin(t)]
  {
  }

  lemma RenderOutputsSnoc(os: seq<seq<Token>>, o: seq<Token>)
    ensures RenderOutputs(os + [o]) == RenderOutputs(os) + (if os == [] then [] else [Mark(Or)]) + Erase(o)
  {
    assert (os + [o])[..|os|] == os;
  }

  lemma RenderRulesSnoc(groups: seq<Rule>, r: Rule)
    ensures RenderRules(groups + [r]) == RenderRules(groups) + (if groups == [] then [] else [Mark(NewLine)]) + RenderRule(r)
  {
    assert (groups + [r])[..|groups|] == groups;
  }

  /** The start symbol begins the start rule. */
  lemma ReadStart(ctx: Context, t: Token)
    requires Inv(StartProgram, ctx)
    ensures Shown(StartGroupDefinition, ctx.(currentGroup := Some(Pending([t], [], [])))) == Shown(StartProgram, ctx) + [AtOrigin(t)]
  {
    assert Erase([t]) == [AtOrigin(t)];
  }

  /** A letter or group right after a new-line begins a pattern. */
  lemma ReadPatternStart(ctx: Context, t: Token)
    requires Inv(BeginningOfGroupDefinition, ctx)
    ensures Shown(GroupDefinition, ctx.(currentGroup := Some(Pending([t], [], [])))) == Shown(BeginningOfGroupDefinition, ctx) + [AtOrigin(t)]
  {
    assert Erase([t]) == [AtOrigin(t)];
  }

  /** A letter or group inside a pattern extends it. */
  lemma ReadPattern(ctx: Context, t: Token)
    requires Inv(GroupDefinition, ctx)
    ensures var p := if ctx.currentGroup.Some? then ctx.currentGroup.value else Pending([], [], []);
      Shown(GroupDefinition, ctx.(currentGroup := Some(p.(definition := p.definition + [t])))) == Shown(GroupDefinition, ctx) + [AtOrigin(t)]
  {
    var p := if ctx.currentGroup.Some? then ctx.currentGroup.value else Pending([], [], []);
    EraseSnoc(p.definition, t);
  }

  /** The arrow after a pattern opens the first alternative. */
  lemma ReadArrow(s: State, ctx: Context, t: Token)
    requires s == StartGroupDefinition || s == GroupDefinition
    requires Inv(s, ctx) && ctx.currentGroup.Some? && t.kind == Assign && WellFormed(t)
    ensures Shown(OutputDefinitionStart, ctx) == Shown(s, ctx) + [AtOrigin(t)]
  {
  }

  /** The first token of an alternative starts it. */
  lemma ReadOutputStart(ctx: Context, t: Token)
    requires Inv(OutputDefinitionStart, ctx)
    ensures var p := ctx.currentGroup.value;
      Shown(OutputDefinition, ctx.(currentGroup := Some(p.(currentOutput := p.currentOutput + [t])))) ==
      Shown(OutputDefinitionStart, ctx) + [AtOrigin(t)]
  {
    var p := ctx.currentGroup.value;
    var q := p.(currentOutput := p.currentOutput + [t]);
    assert q.currentOutput == [t];
    var head := RenderRules(ctx.groups) + (if ctx.groups == [] then [] else [Mark(NewLine)]) + Erase(p.definition) + [Mark(Assign)];
    var sep := if p.outputs == [] then [] else [Mark(Or)];
    var before := RenderOutputs(p.outputs) + sep;
    assert RenderOutputs(p.outputs + [q.currentOutput]) == before + [AtOrigin(t)] by {
      RenderOutputsSnoc(p.outputs, [t]);
      assert Erase([t]) == [AtOrigin(t)];
    }
    assert Shown(OutputDefinitionStart, ctx) == head + RenderOutputs(p.outputs) + sep;
    assert head + RenderOutputs(p.outputs) + sep == head + before;
    assert Shown(OutputDefinition, ctx.(currentGroup := Some(q))) == head + (before + [AtOrigin(t)]);
    assert head + (before + [AtOrigin(t)]) == (head + before) + [AtOrigin(t)];
  }

  /** A bar closes the alternative being read and opens the next. */
  lemma ReadBar(ctx: Context, t: Token)
    requires Inv(OutputDefinition, ctx) && t.kind == Or && WellFormed(t)
    ensures var p := ctx.currentGroup.value;
      Shown(OutputDefinitionStart, ctx.(currentGroup := Some(p.(currentOutput := [], outputs := p.outputs + [p.currentOutput])))) ==
      Shown(OutputDefinition, ctx) + [AtOrigin(t)]
  {
  }

  /** A letter or group inside an alternative extends it. */
  lemma ReadSymbol(ctx: Context, t: Token)
    requires Inv(OutputDefinition, ctx)
    ensures var p := ctx.currentGroup.value;
      Shown(OutputDefinition, ctx.(currentGroup := Some(p.(currentOutput := p.currentOutput + [t])))) ==
      Shown(OutputDefinition, ctx) + [AtOrigin(t)]
  {
    var p := ctx.currentGroup.value;
    var q := p.(currentOutput := p.currentOutput + [t]);
    var head := RenderRules(ctx.groups) + (if ctx.groups == [] then [] else [Mark(NewLine)]) + Erase(p.definition) + [Mark(Assign)];
    var before := RenderOutputs(p.outputs + [p.currentOutput]);
    assert RenderOutputs(p.outputs + [q.currentOutput]) == before + [AtOrigin(t)] by {
      RenderOutputsSnoc(p.outputs, p.currentOutput + [t]);
      RenderOutputsSnoc(p.outputs, p.currentOutput);
      EraseSnoc(p.currentOutput, t);
    }
    assert Shown(OutputDefinition, ctx) == head + before;
    assert Shown(OutputDefinition, ctx.(currentGroup := Some(q))) == head + (before + [AtOrigin(t)]);
    assert head + (before + [AtOrigin(t)]) == (head + before) + [AtOrigin(t)];
  }

  /** A new-line or end-of-file after an alternative completes the rule, which renders as read so far. */
  lemma ReadClose(ctx: Context)
    requires Inv(OutputDefinition, ctx)
    ensures var p := ctx.currentGroup.value;
      RenderRules(ctx.groups + [Rule(p.definition, p.outputs + [p.currentOutput])]) == Shown(OutputDefinition, ctx)
  {
    var p := ctx.currentGroup.value;
    RenderRulesSnoc(ctx.groups, Rule(p.definition, p.outputs + [p.currentOutput]));
  }

  /**
   * One handler step, as the collapsed stream sees it: the token read is
   * appended to what was read (a blank line's new-line adds nothing), and
   * end-of-file completes the rendering of the rules.
   */
  predicate StepShown(s: State, ctx: Context, t: Token)
    requires Inv(s, ctx) && Table(s).Some? && t.kind in Table(s).value && WellFormed(t)
    requires Transition(s, ctx, t).Ok?
  {
    var next := Transition(s, ctx, t).value;
    (PrevNewLine(next.0, next.1) <==> t.kind == NewLine) &&
    (t.kind != Eof ==>
      Shown(next.0, next.1) == Shown(s, ctx) + (if t.kind == NewLine && PrevNewLine(s, ctx) then [] else [AtOrigin(t)])) &&
    (t.kind == Eof ==> Shown(s, ctx) + [AtOrigin(t)] == Render(next.1.groups, PrevNewLine(s, ctx)))
  }

  /** Every handler step is `StepShown`. */
  lemma ShownStep(s: State, ctx: Context, t: Token)
    requires Inv(s, ctx) && Table(s).Some? && t.kind in Table(s).value && WellFormed(t)
    requires Transition(s, ctx, t).Ok?
    ensures StepShown(s, ctx, t)
  {
    if s == StartProgram || s == StartGroupDefinition {
      StepAtStart(s, ctx, t);
    } else if s == BeginningOfGroupDefinition || s == GroupDefinition {
      StepInPattern(s, ctx, t);
    } else if s == OutputDefinitionStart {
      StepAtOutputStart(s, ctx, t);
    } else {
      StepInOutput(s, ctx, t);
    }
  }

  lemma StepAtStart(s: State, ctx: Context, t: Token)
    requires Inv(s, ctx) && Table(s).Some? && t.kind in Table(s).value && WellFormed(t)
    requires Transition(s, ctx, t).Ok?
    requires s == StartProgram || s == StartGroupDefinition
    ensures StepShown(s, ctx, t)
  {
    if s == StartProgram {
      ReadStart(ctx, t);
    } else {
      ReadArrow(s, ctx, t);
    }
  }

  lemma StepInPattern(s: State, ctx: Context, t: Token)
    requires Inv(s, ctx) && Table(s).Some? && t.kind in Table(s).value && WellFormed(t)
    requires Transition(s, ctx, t).Ok?
    requires s == BeginningOfGroupDefinition || s == GroupDefinition
    ensures StepShown(s, ctx, t)
  {
    if s == BeginningOfGroupDefinition {
      if t.kind == Letter || t.kind == Group {
        ReadPatternStart(ctx, t);
      }
    } else if t.kind == Assign {
      ReadArrow(s, ctx, t);
    } else {
      ReadPattern(ctx, t);
    }
  }

  lemma StepAtOutputStart(s: State, ctx: Context, t: Token)
    requires Inv(s, ctx) && Table(s).Some? && t.kind in Table(s).value && WellFormed(t)
    requires Transition(s, ctx, t).Ok?
    requires s == OutputDefinitionStart
    ensures StepShown(s, ctx, t)
  {
    ReadOutputStart(ctx, t);
  }

  lemma StepInOutput(s: State, ctx: Context, t: Token)
    requires Inv(s, ctx) && Table(s).Some? && t.kind in Table(s).value && WellFormed(t)
    requires Transition(s, ctx, t).Ok?
    requires s == OutputDefinition
    ensures StepShown(s, ctx, t)
  {
    if t.kind == Or {
      ReadBar(ctx, t);
    } else if t.kind == Eof || t.kind == NewLine {
      StepCloses(s, ctx, t);
    } else {
      StepExtends(s, ctx, t);
    }
  }

  lemma StepCloses(s: State, ctx: Context, t: Token)
    requires Inv(s, ctx) && Table(s).Some? && t.kind in Table(s).value && WellFormed(t)
    requires Transition(s, ctx, t).Ok?
    requires s == OutputDefinition && (t.kind == Eof || t.kind == NewLine)
    ensures StepShown(s, ctx, t)
  {
    var p := ctx.currentGroup.value;
    var closed := Context(ctx.groups + [Rule(p.definition, p.outputs + [p.currentOutput])], None);
    assert Transition(s, ctx, t) == Ok((if t.kind == Eof then EndOfProgram else BeginningOfGroupDefinition, closed));
    ReadClose(ctx);
  }

  lemma StepExtends(s: State, ctx: Context, t: Token)
    requires Inv(s, ctx) && Table(s).Some? && t.kind in Table(s).value && WellFormed(t)
    requires Transition(s, ctx, t).Ok?
    requires s == OutputDefinition && t.kind != Or && t.kind != Eof && t.kind != NewLine
    ensures StepShown(s, ctx, t)
  {
    var p := ctx.currentGroup.value;
    var q := p.(currentOutput := p.currentOutput + [t]);
    assert Transition(s, ctx, t) == Ok((OutputDefinition, ctx.(currentGroup := Some(q))));
    ReadSymbol(ctx, t);
  }

  /**
   * From a state whose context renders the tokens read so far, a
   * successful drive to the end of a stream ending in end-of-file renders
   * the whole stream.
   */
  lemma {:induction false} DriveRenders(s: State, ctx: Context, tokens: seq<Token>, i: nat)
    requires Inv(s, ctx) && i <= |tokens|
    requires forall j :: 0 <= j < |tokens| ==> WellFormed(tokens[j])
    requires Collapse(tokens[..i]) == Shown(s, ctx)
    requires (i > 0 && tokens[i - 1].kind == NewLine) <==> PrevNewLine(s, ctx)
    ensures Drive(s, ctx, tokens, i).Ok? && i < |tokens| && tokens[|tokens| - 1].kind == Eof ==>
      Collapse(tokens) == Render(Drive(s, ctx, tokens, i).value, |tokens| >= 2 && tokens[|tokens| - 2].kind == NewLine)
    decreases |tokens| - i
  {
    if i < |tokens| && Table(s).Some? && tokens[i].kind in Table(s).value && Transition(s, ctx, tokens[i]).Ok? {
      var t := tokens[i];
      var next := Transition(s, ctx, t).value;
      assert Drive(s, ctx, tokens, i) == Drive(next.0, next.1, tokens, i + 1);
      if t.kind == Eof {
        DriveRendersLast(s, ctx, tokens, i);
      } else {
        ShownStep(s, ctx, t);
        CollapseSnoc(tokens, i);
        assert Collapse(tokens[..i + 1]) == Shown(next.0, next.1);
        DriveRenders(next.0, next.1, tokens, i + 1);
      }
    }
  }

  /** End-of-file ends the drive: the program is over, and no token may follow. */
  lemma DriveRendersLast(s: State, ctx: Context, tokens: seq<Token>, i: nat)
    requires Inv(s, ctx) && i < |tokens| && tokens[i].kind == Eof && WellFormed(tokens[i])
    requires Table(s).Some? && tokens[i].kind in Table(s).value && Transition(s, ctx, tokens[i]).Ok?
    requires Collapse(tokens[..i]) == Shown(s, ctx)
    requires (i > 0 && tokens[i - 1].kind == NewLine) <==> PrevNewLine(s, ctx)
    ensures var next := Transition(s, ctx, tokens[i]).value;
      Drive(next.0, next.1, tokens, i + 1).Ok? && tokens[|tokens| - 1].kind == Eof ==>
      Collapse(tokens) == Render(Drive(next.0, next.1, tokens, i + 1).value, |tokens| >= 2 && tokens[|tokens| - 2].kind == NewLine)
  {
    var next := Transition(s, ctx, tokens[i]).value;
    if i + 1 == |tokens| {
      ShownStep(s, ctx, tokens[i]);
      CollapseSnoc(tokens, i);
      assert tokens[..i + 1] == tokens;
      assert Drive(next.0, next.1, tokens, i + 1) == Ok(next.1.groups);
    } else {
      assert Drive(next.0, next.1, tokens, i + 1) == Err(UnknownParserState);
    }
  }

  /**
   * A successful parse of a stream ending in end-of-file is a well-formed
   * grammar: rule 0 has the start symbol alone as its pattern, every later
   * pattern is a non-empty run of letters and groups, and every rule has
   * at least one alternative, each non-empty. And the parser reads the
   * rules as they are written: over well-formed tokens the grammar renders
   * back to the stream, positions and the new-lines of blank lines aside,
   * so rule `k`'s pattern and its alternatives, in their written order,
   * are the tokens of the `k`-th declaration.
   */
  lemma ParseSound(tokens: seq<Token>)
    ensures ParseSpec(tokens).Ok? ==> GroupsFit(ParseSpec(tokens).value)
    ensures ParseSpec(tokens).Ok? && |tokens| > 0 && tokens[|tokens| - 1].kind == Eof ==>
      WellFormedGrammar(ParseSpec(tokens).value)
    ensures ParseSpec(tokens).Err? ==> ParseError(ParseSpec(tokens).error)
    ensures ParseSpec(tokens).Err? && ParseSpec(tokens).error.UnexpectedToken? ==>
      ParseSpec(tokens).error.token in tokens && ParseSpec(tokens).error.token.kind !in ParseSpec(tokens).error.expected
    ensures ParseSpec(tokens).Ok? && |tokens| > 0 && tokens[|tokens| - 1].kind == Eof &&
            (forall j :: 0 <= j < |tokens| ==> WellFormed(tokens[j])) ==>
      Collapse(tokens) == Render(ParseSpec(tokens).value, |tokens| >= 2 && tokens[|tokens| - 2].kind == NewLine)
  {
    DriveSound(StartProgram, Context([], None), tokens, 0);
    DriveErrors(StartProgram, Context([], None), tokens, 0);
    assert tokens[0..] == tokens;
    if forall j :: 0 <= j < |tokens| ==> WellFormed(tokens[j]) {
      assert tokens[..0] == [];
      DriveRenders(StartProgram, Context([], None), tokens, 0);
    }
  }

  /** Tokens that carry no position, as `Render` writes them. */
  predicate Plain(d: seq<Token>) {
    forall j :: 0 <= j < |d| ==> AtOrigin(d[j]) == d[j]
  }

  predicate PlainRule(r: Rule) {
    Plain(r.definition) && forall k :: 0 <= k < |r.outputs| ==> Plain(r.outputs[k])
  }

  predicate PlainRules(groups: seq<Rule>) {
    forall i :: 0 <= i < |groups| ==> PlainRule(groups[i])
  }

  lemma ErasePlain(d: seq<Token>)
    requires Plain(d)
    ensures Erase(d) == d
  {
  }

  /** The tokens from index `i` on begin with `piece`. */
  predicate At(tokens: seq<Token>, i: nat, piece: seq<Token>)
    ensures At(tokens, i, piece) ==> i + |piece| <= |tokens|
    decreases |piece|
  {
    if piece == [] then i <= |tokens|
    else i < |tokens| && tokens[i] == piece[0] && At(tokens, i + 1, piece[1..])
  }

  lemma {:induction false} AtSplit(tokens: seq<Token>, i: nat, a: seq<Token>, b: seq<Token>)
    requires At(tokens, i, a + b)
    ensures At(tokens, i, a) && At(tokens, i + |a|, b)
    decreases |a|
  {
    if a == [] {
      assert a + b == b;
    } else {
      assert (a + b)[0] == a[0] && (a + b)[1..] == a[1..] + b;
      AtSplit(tokens, i + 1, a[1..], b);
    }
  }

  lemma AtHead(tokens: seq<Token>, i: nat, t: Token, rest: seq<Token>)
    requires At(tokens, i, [t] + rest)
    ensures i < |tokens| && tokens[i] == t && At(tokens, i + 1, rest)
  {
    assert ([t] + rest)[1..] == rest;
  }

  /** A whole stream begins with itself. */
  lemma {:induction false} AtWhole(tokens: seq<Token>, i: nat)
    requires i <= |tokens|
    ensures At(tokens, i, tokens[i..])
    decreases |tokens| - i
  {
    if i < |tokens| {
      assert tokens[i..][1..] == tokens[i + 1..];
      AtWhole(tokens, i + 1);
    }
  }

  /** Where the alternatives before the last one end, and the bar and last alternative that follow. */
  lemma AtOutputs(tokens: seq<Token>, i: nat, os: seq<seq<Token>>)
    requires |os| >= 2 && Plain(os[|os| - 1]) && At(tokens, i, RenderOutputs(os))
    ensures At(tokens, i, RenderOutputs(os[..|os| - 1]))
    ensures At(tokens, i + |RenderOutputs(os[..|os| - 1])|, [Mark(Or)] + os[|os| - 1])
    ensures |RenderOutputs(os)| == |RenderOutputs(os[..|os| - 1])| + 1 + |os[|os| - 1]|
  {
    var init := os[..|os| - 1];
    var o := os[|os| - 1];
    ErasePlain(o);
    assert init + [o] == os;
    RenderOutputsSnoc(init, o);
    assert RenderOutputs(os) == RenderOutputs(init) + ([Mark(Or)] + o);
    AtSplit(tokens, i, RenderOutputs(init), [Mark(Or)] + o);
  }

  /** Where a rule's pattern and arrow end, and its alternatives begin. */
  lemma AtRule(tokens: seq<Token>, i: nat, r: Rule)
    requires Plain(r.definition) && At(tokens, i, RenderRule(r))
    ensures At(tokens, i, r.definition + [Mark(Assign)])
    ensures At(tokens, i + |r.definition| + 1, RenderOutputs(r.outputs))
    ensures |RenderRule(r)| == |r.definition| + 1 + |RenderOutputs(r.outputs)|
  {
    ErasePlain(r.definition);
    AtSplit(tokens, i, r.definition + [Mark(Assign)], RenderOutputs(r.outputs));
  }

  /** The end of a rule's line as written by hand: its new-line, and a second one when an empty line follows. */
  function LineBreak(blank: bool): seq<Token> {
    if blank then [Mark(NewLine), Mark(NewLine)] else [Mark(NewLine)]
  }

  /** How many empty lines `LineBreak(blank)` leaves. */
  function Gap(blank: bool): nat {
    if blank then 1 else 0
  }

  /**
   * The rules one per line, as `RenderRules` writes them, except that
   * `blanks[k]` leaves an empty line before rule `k` (the flag of the first
   * rule is not used).
   */
  function Layout(groups: seq<Rule>, blanks: seq<bool>): seq<Token>
    requires |blanks| == |groups|
  {
    if groups == [] then []
    else Layout(groups[..|groups| - 1], blanks[..|groups| - 1]) + (if |groups| > 1 then LineBreak(blanks[|groups| - 1]) else []) + RenderRule(groups[|groups| - 1])
  }

  /** Without empty lines, the rules are laid out as `RenderRules` writes them. */
  lemma {:induction false} LayoutPlain(groups: seq<Rule>, blanks: seq<bool>)
    requires |blanks| == |groups| && forall k :: 0 <= k < |blanks| ==> !blanks[k]
    ensures Layout(groups, blanks) == RenderRules(groups)
    decreases |groups|
  {
    if groups != [] {
      var n := |groups|;
      var init, r := groups[..n - 1], groups[n - 1];
      LayoutPlain(init, blanks[..n - 1]);
      var sep := if n > 1 then [Mark(NewLine)] else [];
      assert Layout(groups, blanks) == Layout(init, blanks[..n - 1]) + sep + RenderRule(r);
      assert RenderRules(groups) == RenderRules(init) + sep + RenderRule(r);
    }
  }

  /** Where the rules before the last one end, and the line break and last rule that follow. */
  lemma AtLines(tokens: seq<Token>, groups: seq<Rule>, blanks: seq<bool>)
    requires |groups| >= 2 && |blanks| == |groups| && At(tokens, 0, Layout(groups, blanks))
    ensures At(tokens, 0, Layout(groups[..|groups| - 1], blanks[..|groups| - 1]))
    ensures At(tokens, |Layout(groups[..|groups| - 1], blanks[..|groups| - 1])|, LineBreak(blanks[|groups| - 1]) + RenderRule(groups[|groups| - 1]))
    ensures |Layout(groups, blanks)| ==
      |Layout(groups[..|groups| - 1], blanks[..|groups| - 1])| + |LineBreak(blanks[|groups| - 1])| + |RenderRule(groups[|groups| - 1])|
  {
    var n := |groups|;
    var head := Layout(groups[..n - 1], blanks[..n - 1]);
    var rest := LineBreak(blanks[n - 1]) + RenderRule(groups[n - 1]);
    assert Layout(groups, blanks) == head + rest;
    AtSplit(tokens, 0, head, rest);
  }

  /** Letters and groups only: what a pattern, and an alternative after its first token, consist of. */
  predicate Symbols(d: seq<Token>) {
    forall j :: 0 <= j < |d| ==> IsSymbol(d[j])
  }

  /** Letters and groups inside a pattern extend it, one token at a time. */
  lemma {:induction false} ReadsPattern(ctx: Context, tokens: seq<Token>, i: nat, d: seq<Token>, next: Context, j: nat)
    requires Inv(GroupDefinition, ctx) && ctx.currentGroup.Some? && At(tokens, i, d) && Symbols(d)
    requires next == ctx.(currentGroup := Some(ctx.currentGroup.value.(definition := ctx.currentGroup.value.definition + d)))
    requires j == i + |d|
    ensures Inv(GroupDefinition, next)
    ensures Drive(GroupDefinition, ctx, tokens, i) == Drive(GroupDefinition, next, tokens, j)
    decreases |d|
  {
    var p := ctx.currentGroup.value;
    if d == [] {
      assert p.definition + d == p.definition;
    } else {
      AtHead(tokens, i, d[0], d[1..]);
      var p1 := p.(definition := p.definition + [d[0]]);
      var ctx1 := ctx.(currentGroup := Some(p1));
      DriveStep(GroupDefinition, ctx, tokens, i, GroupDefinition, ctx1);
      assert p1.definition + d[1..] == p.definition + d;
      ReadsPattern(ctx1, tokens, i + 1, d[1..], next, j);
    }
  }

  /** Letters and groups inside an alternative extend it, one token at a time. */
  lemma {:induction false} ReadsOutputTail(ctx: Context, tokens: seq<Token>, i: nat, d: seq<Token>, next: Context, j: nat)
    requires Inv(OutputDefinition, ctx) && At(tokens, i, d) && Symbols(d)
    requires next == ctx.(currentGroup := Some(ctx.currentGroup.value.(currentOutput := ctx.currentGroup.value.currentOutput + d)))
    requires j == i + |d|
    ensures Inv(OutputDefinition, next)
    ensures Drive(OutputDefinition, ctx, tokens, i) == Drive(OutputDefinition, next, tokens, j)
    decreases |d|
  {
    var p := ctx.currentGroup.value;
    if d == [] {
      assert p.currentOutput + d == p.currentOutput;
    } else {
      assert d == [d[0]] + d[1..];
      AtHead(tokens, i, d[0], d[1..]);
      assert IsSymbol(d[0]) && Symbols(d[1..]);
      var p1 := p.(currentOutput := p.currentOutput + [d[0]]);
      var ctx1 := ctx.(currentGroup := Some(p1));
      DriveStep(OutputDefinition, ctx, tokens, i, OutputDefinition, ctx1);
      assert p1.currentOutput + d[1..] == p.currentOutput + d;
      ReadsOutputTail(ctx1, tokens, i + 1, d[1..], next, j);
    }
  }

  /** A whole alternative, epsilon first or not, becomes the alternative being read. */
  lemma ReadsOutput(ctx: Context, tokens: seq<Token>, i: nat, o: seq<Token>, next: Context, j: nat)
    requires Inv(OutputDefinitionStart, ctx) && IsOutput(o) && At(tokens, i, o)
    requires next == ctx.(currentGroup := Some(ctx.currentGroup.value.(currentOutput := o))) && j == i + |o|
    ensures Inv(OutputDefinition, next)
    ensures Drive(OutputDefinitionStart, ctx, tokens, i) == Drive(OutputDefinition, next, tokens, j)
  {
    var p := ctx.currentGroup.value;
    var rest := o[1..];
    assert o == [o[0]] + rest;
    AtHead(tokens, i, o[0], rest);
    assert Symbols(rest) by {
      forall k | 0 <= k < |rest| ensures IsSymbol(rest[k]) {
        assert rest[k] == o[k + 1];
      }
    }
    var p1 := p.(currentOutput := [o[0]]);
    var ctx1 := ctx.(currentGroup := Some(p1));
    assert Transition(OutputDefinitionStart, ctx, tokens[i]) == Ok((OutputDefinition, ctx1)) by {
      assert p.currentOutput + [o[0]] == [o[0]];
    }
    DriveStep(OutputDefinitionStart, ctx, tokens, i, OutputDefinition, ctx1);
    assert p1.currentOutput + rest == o;
    ReadsOutputTail(ctx1, tokens, i + 1, rest, next, j);
  }

  /** A bar closes the alternative being read, and the next alternative is read in its place. */
  lemma ReadsBarOutput(ctx: Context, tokens: seq<Token>, i: nat, o: seq<Token>, next: Context, j: nat)
    requires Inv(OutputDefinition, ctx) && IsOutput(o) && At(tokens, i, [Mark(Or)] + o)
    requires next == ctx.(currentGroup := Some(ctx.currentGroup.value.(
      outputs := ctx.currentGroup.value.outputs + [ctx.currentGroup.value.currentOutput], currentOutput := o)))
    requires j == i + 1 + |o|
    ensures Inv(OutputDefinition, next)
    ensures Drive(OutputDefinition, ctx, tokens, i) == Drive(OutputDefinition, next, tokens, j)
  {
    var p := ctx.currentGroup.value;
    AtHead(tokens, i, Mark(Or), o);
    var ctx1 := ctx.(currentGroup := Some(p.(currentOutput := [], outputs := p.outputs + [p.currentOutput])));
    DriveStep(OutputDefinition, ctx, tokens, i, OutputDefinitionStart, ctx1);
    ReadsOutput(ctx1, tokens, i + 1, o, next, j);
  }

  /** The alternatives of a rule, bars between them: all but the last are closed, the last is being read. */
  lemma {:induction false} ReadsOutputs(ctx: Context, tokens: seq<Token>, i: nat, os: seq<seq<Token>>, next: Context, j: nat)
    requires Inv(OutputDefinitionStart, ctx) && |os| >= 1 && OutputsOk(os)
    requires (forall k :: 0 <= k < |os| ==> Plain(os[k])) && At(tokens, i, RenderOutputs(os))
    requires next == ctx.(currentGroup := Some(ctx.currentGroup.value.(
      outputs := ctx.currentGroup.value.outputs + os[..|os| - 1], currentOutput := os[|os| - 1])))
    requires j == i + |RenderOutputs(os)|
    ensures Inv(OutputDefinition, next)
    ensures Drive(OutputDefinitionStart, ctx, tokens, i) == Drive(OutputDefinition, next, tokens, j)
    decreases |os|
  {
    var p := ctx.currentGroup.value;
    var n := |os|;
    var o := os[n - 1];
    if n == 1 {
      ErasePlain(o);
      assert RenderOutputs(os) == o;
      assert p.outputs + os[..0] == p.outputs;
      ReadsOutput(ctx, tokens, i, o, next, j);
    } else {
      var init := os[..n - 1];
      AtOutputs(tokens, i, os);
      var p1 := p.(outputs := p.outputs + init[..n - 2], currentOutput := init[n - 2]);
      var ctx1 := ctx.(currentGroup := Some(p1));
      var k := i + |RenderOutputs(init)|;
      ReadsOutputs(ctx, tokens, i, init, ctx1, k);
      assert p1.outputs + [p1.currentOutput] == p.outputs + os[..n - 1] by {
        assert init[..n - 2] + [init[n - 2]] == init;
      }
      ReadsBarOutput(ctx1, tokens, k, o, next, j);
    }
  }

  /** The rule being read, as the parser holds it once its last alternative has been read. */
  function Reading(groups: seq<Rule>, r: Rule): Context
    requires |r.outputs| >= 1
  {
    Context(groups, Some(Pending(r.definition, r.outputs[|r.outputs| - 1], r.outputs[..|r.outputs| - 1])))
  }

  /** The start rule as written: the start symbol, an arrow, and its alternatives. */
  lemma ReadsStartRule(tokens: seq<Token>, r: Rule, j: nat)
    requires RuleFits(0, r) && PlainRule(r) && At(tokens, 0, RenderRule(r)) && j == |RenderRule(r)|
    ensures Inv(OutputDefinition, Reading([], r))
    ensures ParseSpec(tokens) == Drive(OutputDefinition, Reading([], r), tokens, j)
  {
    var d := r.definition;
    var R := RenderOutputs(r.outputs);
    ErasePlain(d);
    assert RenderRule(r) == [d[0]] + ([Mark(Assign)] + R);
    AtHead(tokens, 0, d[0], [Mark(Assign)] + R);
    AtHead(tokens, 1, Mark(Assign), R);
    var ctx1 := Context([], Some(Pending([d[0]], [], [])));
    DriveStep(StartProgram, Context([], None), tokens, 0, StartGroupDefinition, ctx1);
    DriveStep(StartGroupDefinition, ctx1, tokens, 1, OutputDefinitionStart, ctx1);
    assert [d[0]] == d;
    assert [] + r.outputs[..|r.outputs| - 1] == r.outputs[..|r.outputs| - 1];
    ReadsOutputs(ctx1, tokens, 2, r.outputs, Reading([], r), j);
  }

  /** The first symbol of a pattern, at the start of its line or after an empty line, opens the rule being read. */
  lemma ReadsLineStart(groups: seq<Rule>, tokens: seq<Token>, i: nat, blank: bool, t: Token)
    requires Inv(BeginningOfGroupDefinition, Context(groups, None)) && IsSymbol(t)
    requires blank ==> i < |tokens| && tokens[i].kind == NewLine
    requires i + Gap(blank) < |tokens| && tokens[i + Gap(blank)] == t
    ensures Inv(GroupDefinition, Context(groups, Some(Pending([t], [], []))))
    ensures Drive(BeginningOfGroupDefinition, Context(groups, None), tokens, i) ==
      Drive(GroupDefinition, Context(groups, Some(Pending([t], [], []))), tokens, i + Gap(blank) + 1)
  {
    if blank {
      BlankLineSeparates(Context(groups, None), tokens, i);
    } else {
      DriveStep(BeginningOfGroupDefinition, Context(groups, None), tokens, i, GroupDefinition, Context(groups, Some(Pending([t], [], []))));
    }
  }

  /** The rest of a pattern and its arrow, once its first symbol is read, leave the rule's alternatives to be read. */
  lemma ReadsPatternArrow(groups: seq<Rule>, tokens: seq<Token>, k: nat, d: seq<Token>)
    requires IsPattern(d) && Inv(GroupDefinition, Context(groups, Some(Pending([d[0]], [], []))))
    requires At(tokens, k, d + [Mark(Assign)])
    ensures Inv(OutputDefinitionStart, Context(groups, Some(Pending(d, [], []))))
    ensures Drive(GroupDefinition, Context(groups, Some(Pending([d[0]], [], []))), tokens, k + 1) ==
      Drive(OutputDefinitionStart, Context(groups, Some(Pending(d, [], []))), tokens, k + |d| + 1)
  {
    AtSplit(tokens, k, d, [Mark(Assign)]);
    AtHead(tokens, k + |d|, Mark(Assign), []);
    assert d == [d[0]] + d[1..];
    AtHead(tokens, k, d[0], d[1..]);
    assert Symbols(d[1..]);
    var ctx2 := Context(groups, Some(Pending(d, [], [])));
    ReadsPattern(Context(groups, Some(Pending([d[0]], [], []))), tokens, k + 1, d[1..], ctx2, k + |d|);
    DriveStep(GroupDefinition, ctx2, tokens, k + |d|, OutputDefinitionStart, ctx2);
  }

  /** A later rule as written, once the first symbol of its pattern is read: the rest of its pattern, an arrow, and its alternatives. */
  lemma ReadsRule(groups: seq<Rule>, tokens: seq<Token>, k: nat, r: Rule, j: nat)
    requires RuleFits(|groups|, r) && PlainRule(r) && |groups| >= 1
    requires Inv(GroupDefinition, Context(groups, Some(Pending([r.definition[0]], [], []))))
    requires At(tokens, k, RenderRule(r)) && j == k + |RenderRule(r)|
    ensures Inv(OutputDefinition, Reading(groups, r))
    ensures Drive(GroupDefinition, Context(groups, Some(Pending([r.definition[0]], [], []))), tokens, k + 1) ==
      Drive(OutputDefinition, Reading(groups, r), tokens, j)
  {
    var d := r.definition;
    assert IsPattern(d) && Plain(d) && OutputsOk(r.outputs);
    AtRule(tokens, k, r);
    ReadsPatternArrow(groups, tokens, k, d);
    var ctx2 := Context(groups, Some(Pending(d, [], [])));
    var last := |r.outputs| - 1;
    assert [] + r.outputs[..last] == r.outputs[..last];
    assert Reading(groups, r) == Context(groups, Some(Pending(d, r.outputs[last], r.outputs[..last])));
    ReadsOutputs(ctx2, tokens, k + |d| + 1, r.outputs, Reading(groups, r), j);
  }

  /** A new-line or end-of-file after the last alternative adds the rule being read to the rules. */
  lemma ReadsClose(groups: seq<Rule>, r: Rule, tokens: seq<Token>, i: nat)
    requires |r.outputs| >= 1 && Inv(OutputDefinition, Reading(groups, r))
    requires i < |tokens| && (tokens[i].kind == NewLine || tokens[i].kind == Eof)
    ensures Inv(if tokens[i].kind == Eof then EndOfProgram else BeginningOfGroupDefinition, Context(groups + [r], None))
    ensures var s := if tokens[i].kind == Eof then EndOfProgram else BeginningOfGroupDefinition;
      Drive(OutputDefinition, Reading(groups, r), tokens, i) == Drive(s, Context(groups + [r], None), tokens, i + 1)
  {
    var n := |r.outputs|;
    assert r.outputs[..n - 1] + [r.outputs[n - 1]] == r.outputs;
    var s := if tokens[i].kind == Eof then EndOfProgram else BeginningOfGroupDefinition;
    DriveStep(OutputDefinition, Reading(groups, r), tokens, i, s, Context(groups + [r], None));
  }

  /** A shorter grammar keeps the shape of the rules it keeps, and its next rule fits its place. */
  lemma InitFits(groups: seq<Rule>)
    requires |groups| >= 2 && GroupsFit(groups) && PlainRules(groups)
    ensures GroupsFit(groups[..|groups| - 1]) && PlainRules(groups[..|groups| - 1])
    ensures RuleFits(|groups| - 1, groups[|groups| - 1]) && PlainRule(groups[|groups| - 1])
    ensures |groups[|groups| - 2].outputs| >= 1
    ensures groups[..|groups| - 1] == groups[..|groups| - 2] + [groups[|groups| - 2]]
  {
  }

  /** The line break before a later rule, and the first symbol of its pattern. */
  lemma AtBreak(tokens: seq<Token>, i: nat, blank: bool, r: Rule, index: nat)
    requires RuleFits(index, r) && index >= 1 && PlainRule(r) && At(tokens, i, LineBreak(blank) + RenderRule(r))
    ensures |LineBreak(blank)| == 1 + Gap(blank) && i + 1 + Gap(blank) < |tokens|
    ensures tokens[i].kind == NewLine && (blank ==> tokens[i + 1].kind == NewLine)
    ensures At(tokens, i + 1 + Gap(blank), RenderRule(r))
    ensures tokens[i + 1 + Gap(blank)] == r.definition[0] && IsSymbol(r.definition[0])
  {
    AtSplit(tokens, i, LineBreak(blank), RenderRule(r));
    AtHead(tokens, i, Mark(NewLine), LineBreak(blank)[1..]);
    if blank {
      AtHead(tokens, i + 1, Mark(NewLine), []);
    }
    var k := i + 1 + Gap(blank);
    var d := r.definition;
    AtRule(tokens, k, r);
    assert d + [Mark(Assign)] == [d[0]] + (d[1..] + [Mark(Assign)]);
    AtHead(tokens, k, d[0], d[1..] + [Mark(Assign)]);
  }

  /** The new-line after a rule adds it to the rules, and the next rule is read, after an empty line or not. */
  lemma ReadsNextRule(groups: seq<Rule>, prev: Rule, tokens: seq<Token>, i: nat, blank: bool, r: Rule, j: nat)
    requires |prev.outputs| >= 1 && Inv(OutputDefinition, Reading(groups, prev))
    requires RuleFits(|groups| + 1, r) && PlainRule(r) && At(tokens, i, LineBreak(blank) + RenderRule(r))
    requires j == i + |LineBreak(blank)| + |RenderRule(r)|
    ensures Inv(OutputDefinition, Reading(groups + [prev], r))
    ensures Drive(OutputDefinition, Reading(groups, prev), tokens, i) == Drive(OutputDefinition, Reading(groups + [prev], r), tokens, j)
  {
    AtBreak(tokens, i, blank, r, |groups| + 1);
    var k := i + 1 + Gap(blank);
    ReadsClose(groups, prev, tokens, i);
    ReadsLineStart(groups + [prev], tokens, i + 1, blank, r.definition[0]);
    ReadsRule(groups + [prev], tokens, k, r, j);
  }

  /** The rules as written, one per line: all but the last are added to the rules, the last is being read. */
  lemma {:induction false} ReadsRules(tokens: seq<Token>, groups: seq<Rule>, blanks: seq<bool>, j: nat)
    requires |groups| >= 1 && |blanks| == |groups| && GroupsFit(groups) && PlainRules(groups)
    requires At(tokens, 0, Layout(groups, blanks)) && j == |Layout(groups, blanks)|
    ensures Inv(OutputDefinition, Reading(groups[..|groups| - 1], groups[|groups| - 1]))
    ensures ParseSpec(tokens) == Drive(OutputDefinition, Reading(groups[..|groups| - 1], groups[|groups| - 1]), tokens, j)
    decreases |groups|
  {
    var n := |groups|;
    if n == 1 {
      assert Layout(groups, blanks) == RenderRule(groups[0]);
      assert groups[..0] == [];
      ReadsStartRule(tokens, groups[0], j);
    } else {
      var init := groups[..n - 1];
      AtLines(tokens, groups, blanks);
      InitFits(groups);
      var k := |Layout(init, blanks[..n - 1])|;
      ReadsRules(tokens, init, blanks[..n - 1], k);
      ReadsNextRule(init[..n - 2], init[n - 2], tokens, k, blanks[n - 1], groups[n - 1], j);
    }
  }

  /** The whole text: the rules laid out, an optional new-line after the last, and the end of the file. */
  function Written(groups: seq<Rule>, blanks: seq<bool>, trailing: bool): seq<Token>
    requires |blanks| == |groups|
  {
    Layout(groups, blanks) + (if trailing then [Mark(NewLine)] else []) + [Mark(Eof)]
  }

  /** Where the rules of a text end, and the new-line and end-of-file that follow them. */
  lemma AtWritten(groups: seq<Rule>, blanks: seq<bool>, trailing: bool)
    requires |blanks| == |groups|
    ensures At(Written(groups, blanks, trailing), 0, Layout(groups, blanks))
    ensures var tokens, j := Written(groups, blanks, trailing), |Layout(groups, blanks)|;
      |tokens| == j + (if trailing then 2 else 1) && tokens[|tokens| - 1] == Mark(Eof) && (trailing ==> tokens[j] == Mark(NewLine))
  {
    var tokens := Written(groups, blanks, trailing);
    var tail := (if trailing then [Mark(NewLine)] else []) + [Mark(Eof)];
    assert tokens == Layout(groups, blanks) + tail;
    AtWhole(tokens, 0);
    assert tokens[0..] == Layout(groups, blanks) + tail;
    AtSplit(tokens, 0, Layout(groups, blanks), tail);
  }

  /**
   * The parser accepts every well-formed grammar as written by hand, one
   * rule per line, with at most one empty line between two rules and at
   * most one new-line after the last, and reads back exactly that grammar,
   * alternatives led by an epsilon included.
   */
  lemma LayoutParses(groups: seq<Rule>, blanks: seq<bool>, trailing: bool)
    requires WellFormedGrammar(groups) && PlainRules(groups) && |blanks| == |groups|
    ensures ParseSpec(Written(groups, blanks, trailing)) == Ok(groups)
  {
    var tokens := Written(groups, blanks, trailing);
    var j := |Layout(groups, blanks)|;
    AtWritten(groups, blanks, trailing);
    ReadsRules(tokens, groups, blanks, j);
    var n := |groups|;
    assert groups[..n - 1] + [groups[n - 1]] == groups;
    ReadsClose(groups[..n - 1], groups[n - 1], tokens, j);
    var done := Context(groups, None);
    if trailing {
      DriveStep(BeginningOfGroupDefinition, done, tokens, j + 1, EndOfProgram, done);
    }
  }

  /** In particular, `Render`'s own text parses back to the grammar it renders: `ParseSound`'s converse. */
  lemma RenderParses(groups: seq<Rule>, trailing: bool)
    requires WellFormedGrammar(groups) && PlainRules(groups)
    ensures ParseSpec(Render(groups, trailing)) == Ok(groups)
  {
    var blanks := seq(|groups|, k => false);
    LayoutPlain(groups, blanks);
    LayoutParses(groups, blanks, trailing);
  }
}
