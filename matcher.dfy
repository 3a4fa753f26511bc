/** `Group.match` of index.js: the first contiguous occurrence of a rule's pattern at or after an offset. */
module Matcher {
  import opened Tokens
  import opened Grammar

  /** The pattern occurs at index `i`: it fits there, and each of its tokens equals the one under it. */
  predicate MatchesAt(pattern: seq<Token>, form: seq<Token>, i: nat) {
    i + |pattern| <= |form| && forall j :: 0 <= j < |pattern| ==> Equals(pattern[j], form[i + j])
  }

  /**
   * The least index at or after `from` where the pattern occurs, or -1 when
   * there is none (in particular when the pattern is longer than what is
   * left of the form).
   */
  function FirstMatch(pattern: seq<Token>, form: seq<Token>, from: nat): (r: int)
    ensures r == -1 || (from <= r <= |form| - |pattern| && MatchesAt(pattern, form, r))
    ensures r >= 0 ==> forall i :: from <= i < r ==> !MatchesAt(pattern, form, i)
    ensures r == -1 <==> forall i :: from <= i ==> !MatchesAt(pattern, form, i)
    decreases |form| - from
  {
    if from + |pattern| > |form| then -1
    else if MatchesAt(pattern, form, from) then from
    else FirstMatch(pattern, form, from + 1)
  }

  /** The inner loop of `match`: compare the pattern with the form at `i`, token by token, up to the first mismatch. */
  method MatchesHere(definition: seq<Token>, form: seq<Token>, i: nat) returns (b: bool)
    requires i + |definition| <= |form|
    ensures b == MatchesAt(definition, form, i)
  {
    var j := 0;
    while j < |definition| && Equals(definition[j], form[i + j])
      invariant 0 <= j <= |definition|
      invariant forall k :: 0 <= k < j ==> Equals(definition[k], form[i + k])
    {
      j := j + 1;
    }
    return j == |definition|;
  }

  /**
   * `match(tokens, from)`: try each start index in increasing order, moving
   * on at the first mismatching token, and answer the first index where the
   * whole pattern matches, or -1.
   */
  method Match(rule: Rule, form: seq<Token>, from: nat) returns (r: int)
    ensures r == FirstMatch(rule.definition, form, from)
    ensures r >= 0 ==> from <= r <= |form| - |rule.definition| && MatchesAt(rule.definition, form, r)
    ensures r >= 0 ==> forall i :: from <= i < r ==> !MatchesAt(rule.definition, form, i)
    ensures r < 0 ==> r == -1 && forall i :: from <= i ==> !MatchesAt(rule.definition, form, i)
  {
    var definition := rule.definition;
    var i := from;
    while i <= |form| - |definition|
      invariant from <= i
      invariant FirstMatch(definition, form, from) == FirstMatch(definition, form, i)
      decreases |form| - i
    {
      var found := MatchesHere(definition, form, i);
      if found {
        return i;
      }
      i := i + 1;
    }
    return -1;
  }
}
