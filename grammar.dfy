/** Rules of a grammar (the `Group` class of index.js) and the shapes the parser gives them. */
module Grammar {
  import opened Tokens

  /** A rule: the pattern to rewrite (`definition`) and its alternatives (`outputs`), in declaration order. */
  datatype Rule = Rule(definition: seq<Token>, outputs: seq<seq<Token>>)

  /** The pattern of rule 0: the start symbol alone. */
  predicate IsStartDefinition(d: seq<Token>) {
    |d| == 1 && d[0].kind == Start
  }

  /** The pattern of every later rule: one or more letters and groups. */
  predicate IsPattern(d: seq<Token>) {
    |d| >= 1 && forall i :: 0 <= i < |d| ==> IsSymbol(d[i])
  }

  predicate DefinitionFits(index: nat, d: seq<Token>) {
    if index == 0 then IsStartDefinition(d) else IsPattern(d)
  }

  /** An alternative: one or more letters and groups, where only the first token may be an epsilon. */
  predicate IsOutput(o: seq<Token>) {
    |o| >= 1 && forall j :: 0 <= j < |o| ==> IsSymbol(o[j]) || (j == 0 && o[j].kind == Epsilon)
  }

  predicate OutputsOk(os: seq<seq<Token>>) {
    forall i :: 0 <= i < |os| ==> IsOutput(os[i])
  }

  /** Rule number `index` of a parsed grammar. */
  predicate RuleFits(index: nat, r: Rule) {
    DefinitionFits(index, r.definition) && |r.outputs| >= 1 && OutputsOk(r.outputs)
  }

  predicate GroupsFit(groups: seq<Rule>) {
    forall i :: 0 <= i < |groups| ==> RuleFits(i, groups[i])
  }

  /** What a successful parse of a whole token stream yields: a start rule first, then ordinary rules. */
  predicate WellFormedGrammar(groups: seq<Rule>) {
    |groups| >= 1 && GroupsFit(groups)
  }
}
