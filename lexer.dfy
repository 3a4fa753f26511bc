/**
 * The tokenizer of index.js: each line is scanned character by character,
 * a new-line token follows every line but the last, and one end-of-file
 * token closes the stream.
 */
module Lexer {
  import opened Tokens
  import opened Errors

  /** The Greek letter epsilon, the second spelling of the empty alternative. */
  const EpsilonChar: char := '\U{03B5}'

  /** `line.charAt(col + 1) == c`; past the end `charAt` gives the empty string. */
  predicate NextIs(line: string, col: nat, c: char) {
    col + 1 < |line| && line[col + 1] == c
  }

  /**
   * The token a single character gives, in the order the scan tries them:
   * an epsilon (`E` or the Greek letter), the start symbol `S`, the bar,
   * a lower-case letter, and any other upper-case letter as a group.
   */
  function CharToken(c: char, col: nat, k: nat): Option<Token> {
    if c == 'E' || c == EpsilonChar then Some(Token(Epsilon, None, col, k))
    else if c == 'S' then Some(Token(Start, None, col, k))
    else if c == '|' then Some(Token(Or, None, col, k))
    else if IsLower(c) then Some(Token(Letter, Some(c), col, k))
    else if IsUpper(c) then Some(Token(Group, Some(c), col, k))
    else None
  }

  /**
   * The tokens of `line[col..]` (line number `k`), or the error for its
   * first unknown character. This is the inner loop of the tokenizer,
   * stated as a function: spaces are skipped, `//` ends the line, one
   * character gives one token, `=>` and `->` give one arrow token at the
   * column of their `>`, and anything else is an error.
   */
  function LexLine(line: string, k: nat, col: nat): Result<seq<Token>>
    decreases |line| - col
  {
    if col >= |line| then Ok([])
    else
      var c := line[col];
      if c == ' ' then LexLine(line, k, col + 1)
      else if c == '/' && NextIs(line, col, '/') then Ok([])
      else if CharToken(c, col, k).Some? then Prepend([CharToken(c, col, k).value], LexLine(line, k, col + 1))
      else if (c == '=' || c == '-') && NextIs(line, col, '>') then
        Prepend([Token(Assign, None, col + 1, k)], LexLine(line, k, col + 2))
      else Err(UnknownCharacter(c, k, col))
  }

  /** The new-line token pushed after line `k` when it is not the last one. */
  function LineEnd(lines: seq<string>, k: nat): seq<Token> {
    if k + 1 < |lines| then [Token(NewLine, None, 0, k)] else []
  }

  /** The end-of-file token: on the last line, at its last column. */
  function EofToken(lines: seq<string>): Token
    requires |lines| > 0
  {
    Token(Eof, None, |lines[|lines| - 1]| - 1, |lines| - 1)
  }

  /** The tokens of lines `k..`, their new-lines and the end-of-file token, or the first lexical error. */
  function LexFrom(lines: seq<string>, k: nat): Result<seq<Token>>
    requires |lines| > 0 && k <= |lines|
    decreases |lines| - k
  {
    if k == |lines| then Ok([EofToken(lines)])
    else
      match LexLine(lines[k], k, 0)
      case Err(e) => Err(e)
      case Ok(ts) => Prepend(ts + LineEnd(lines, k), LexFrom(lines, k + 1))
  }

  /** What the tokenizer returns for the lines of a file. */
  function TokenizeSpec(lines: seq<string>): Result<seq<Token>>
    requires |lines| > 0
  {
    LexFrom(lines, 0)
  }

  /**
   * `tokenizer`: the nested loops of the source, pushing onto one token
   * list and stopping at the first unknown character.
   */
  method Tokenize(lines: seq<string>) returns (r: Result<seq<Token>>)
    requires |lines| > 0
    ensures r == TokenizeSpec(lines)
  {
    var tokens: seq<Token> := [];
    var k := 0;
    PrependNothing(LexFrom(lines, 0));
    while k < |lines|
      invariant 0 <= k <= |lines|
      invariant TokenizeSpec(lines) == Prepend(tokens, LexFrom(lines, k))
    {
      var lineTokens := ScanLine(lines[k], k);
      if lineTokens.Err? {
        return Err(lineTokens.error);
      }
      ghost var before := tokens;
      assert LexFrom(lines, k) == Prepend(lineTokens.value + LineEnd(lines, k), LexFrom(lines, k + 1));
      PrependPrepend(before, lineTokens.value + LineEnd(lines, k), LexFrom(lines, k + 1));
      tokens := tokens + lineTokens.value;
      if k + 1 < |lines| {
        tokens := tokens + [Token(NewLine, None, 0, k)];
      }
      assert tokens == before + (lineTokens.value + LineEnd(lines, k));
      k := k + 1;
    }
    tokens := tokens + [EofToken(lines)];
    r := Ok(tokens);
  }

  /** The scan of one line (number `k`), column by column. */
  method ScanLine(line: string, k: nat) returns (r: Result<seq<Token>>)
    ensures r == LexLine(line, k, 0)
  {
    var tokens: seq<Token> := [];
    var col := 0;
    PrependNothing(LexLine(line, k, 0));
    while col < |line|
      invariant 0 <= col <= |line|
      invariant LexLine(line, k, 0) == Prepend(tokens, LexLine(line, k, col))
    {
      var c := line[col];
      ghost var at := col;
      var next: seq<Token> := [];
      if c == ' ' {
        PrependNothing(LexLine(line, k, col + 1));
      } else if c == '/' && col + 1 < |line| && line[col + 1] == '/' {
        assert tokens + [] == tokens;
        break;
      } else if c == 'E' {
        next := [Token(Epsilon, None, col, k)];
      } else if c == EpsilonChar {
        next := [Token(Epsilon, None, col, k)];
      } else if c == 'S' {
        next := [Token(Start, None, col, k)];
      } else if c == '|' {
        next := [Token(Or, None, col, k)];
      } else if 'a' <= c <= 'z' {
        next := [Token(Letter, Some(c), col, k)];
      } else if 'A' <= c <= 'Z' {
        next := [Token(Group, Some(c), col, k)];
      } else if c == '=' && col + 1 < |line| && line[col + 1] == '>' {
        col := col + 1;
        next := [Token(Assign, None, col, k)];
      } else if c == '-' && col + 1 < |line| && line[col + 1] == '>' {
        col := col + 1;
        next := [Token(Assign, None, col, k)];
      } else {
        return Err(UnknownCharacter(c, k, col));
      }
      assert LexLine(line, k, at) == Prepend(next, LexLine(line, k, col + 1));
      PrependPrepend(tokens, next, LexLine(line, k, col + 1));
      tokens := tokens + next;
      col := col + 1;
    }
    assert tokens + [] == tokens;
    r := Ok(tokens);
  }

  /** The token `t` is what the character (or the arrow ending) at its position in `line` gives. */
  predicate ReadFrom(line: string, t: Token) {
    0 <= t.col < |line| &&
    match t.kind
    case Letter => t.value == Some(line[t.col]) && IsLower(line[t.col])
    case Group => t.value == Some(line[t.col]) && IsUpper(line[t.col]) && line[t.col] != 'E' && line[t.col] != 'S'
    case Epsilon => t.value.None? && (line[t.col] == 'E' || line[t.col] == EpsilonChar)
    case Start => t.value.None? && line[t.col] == 'S'
    case Or => t.value.None? && line[t.col] == '|'
    case Assign => t.value.None? && 1 <= t.col && line[t.col] == '>' && (line[t.col - 1] == '=' || line[t.col - 1] == '-')
    case _ => false
  }

  /** No branch of the scan accepts the character at column `i`. */
  predicate Unrecognised(line: string, i: nat)
    requires i < |line|
  {
    var c := line[i];
    c != ' ' && c != 'E' && c != EpsilonChar && c != 'S' && c != '|' && !IsLower(c) && !IsUpper(c) &&
    (c == '/' ==> !NextIs(line, i, '/')) &&
    (c == '=' || c == '-' ==> !NextIs(line, i, '>'))
  }

  /** Tokens of line `k`, each read from its own column (at or after `col`), in column order. */
  predicate LineTokensFrom(line: string, k: nat, col: nat, ts: seq<Token>) {
    (forall i :: 0 <= i < |ts| ==> ts[i].line == k && col <= ts[i].col && ReadFrom(line, ts[i]) && WellFormed(ts[i])) &&
    (forall i, j :: 0 <= i < j < |ts| ==> ts[i].col < ts[j].col)
  }

  lemma ConsLineTokens(line: string, k: nat, col: nat, tok: Token, next: nat, ts: seq<Token>)
    requires LineTokensFrom(line, k, next, ts)
    requires tok.line == k && col <= tok.col < next && ReadFrom(line, tok) && WellFormed(tok)
    ensures LineTokensFrom(line, k, col, [tok] + ts)
  {
    var r := [tok] + ts;
    assert forall i :: 1 <= i < |r| ==> r[i] == ts[i - 1];
  }

  lemma CharTokenReads(line: string, k: nat, col: nat)
    requires col < |line| && CharToken(line[col], col, k).Some?
    ensures var t := CharToken(line[col], col, k).value;
      t.line == k && t.col == col && ReadFrom(line, t) && WellFormed(t)
  {
  }

  /**
   * Scanning a line: every token is on that line, in column order, and is
   * what the source characters at its column give; a lexical error names
   * a character no branch accepts, at its own position.
   */
  lemma {:induction false} LexLineSound(line: string, k: nat, col: nat)
    ensures LexLine(line, k, col).Ok? ==> LineTokensFrom(line, k, col, LexLine(line, k, col).value)
    ensures LexLine(line, k, col).Err? ==>
      var e := LexLine(line, k, col).error;
      e.UnknownCharacter? && e.line == k && col <= e.col < |line| && e.ch == line[e.col] && Unrecognised(line, e.col)
    decreases |line| - col
  {
    if col < |line| {
      var c := line[col];
      if c == ' ' {
        LexLineSound(line, k, col + 1);
        var rest := LexLine(line, k, col + 1);
        if rest.Ok? {
          assert LineTokensFrom(line, k, col, rest.value);
        }
      } else if c == '/' && NextIs(line, col, '/') {
      } else if CharToken(c, col, k).Some? {
        LexLineSound(line, k, col + 1);
        var rest := LexLine(line, k, col + 1);
        if rest.Ok? {
          CharTokenReads(line, k, col);
          ConsLineTokens(line, k, col, CharToken(c, col, k).value, col + 1, rest.value);
        }
      } else if (c == '=' || c == '-') && NextIs(line, col, '>') {
        LexLineSound(line, k, col + 2);
        var rest := LexLine(line, k, col + 2);
        if rest.Ok? {
          ConsLineTokens(line, k, col, Token(Assign, None, col + 1, k), col + 2, rest.value);
        }
      }
    }
  }

  /** A `//` that the scan reaches ends the line: no token comes from a column after it. */
  lemma {:induction false} CommentEndsLine(line: string, k: nat, col: nat)
    ensures LexLine(line, k, col).Ok? ==>
      forall i, j :: 0 <= i < |LexLine(line, k, col).value| && col <= j < LexLine(line, k, col).value[i].col && j < |line| ==>
        !(line[j] == '/' && NextIs(line, j, '/'))
    decreases |line| - col
  {
    if col < |line| {
      var c := line[col];
      if c == ' ' || CharToken(c, col, k).Some? {
        CommentEndsLine(line, k, col + 1);
        LexLineSound(line, k, col + 1);
      } else if c == '/' && NextIs(line, col, '/') {
      } else if (c == '=' || c == '-') && NextIs(line, col, '>') {
        CommentEndsLine(line, k, col + 2);
        LexLineSound(line, k, col + 2);
      }
    }
  }

  /** Whether `=>` or `->` starts at column `j`. */
  predicate ArrowAt(line: string, j: int)
    requires 0 <= j < |line|
  {
    (line[j] == '=' || line[j] == '-') && NextIs(line, j, '>')
  }

  /**
   * The columns the scan of `line` visits from column `col` on: it moves
   * one column past a space or a one-character token and two past an
   * arrow, and it stops at `//`, at an unknown character and at the end.
   */
  predicate Scanned(line: string, col: nat, j: int)
    decreases |line| - col
  {
    col <= j < |line| &&
    (j == col ||
     ((line[col] == ' ' || CharToken(line[col], col, 0).Some?) && Scanned(line, col + 1, j)) ||
     (ArrowAt(line, col) && Scanned(line, col + 2, j)))
  }

  /** The column whose character starts a token: an arrow token sits on its `>`, one column right of that. */
  function Origin(t: Token): int {
    if t.kind == Assign then t.col - 1 else t.col
  }

  /** At a visited column `j` the scan accepts the character, and the token it gives (if any) is in `ts`. */
  predicate Yields(line: string, k: nat, j: int, ts: seq<Token>)
    requires 0 <= j < |line|
  {
    !Unrecognised(line, j) &&
    (CharToken(line[j], j, k).Some? ==> CharToken(line[j], j, k).value in ts) &&
    (ArrowAt(line, j) ==> Token(Assign, None, j + 1, k) in ts)
  }

  /** Every column the scan visits from `col` on yields its token in `ts`. */
  predicate Covers(line: string, k: nat, col: nat, ts: seq<Token>) {
    forall j :: 0 <= j < |line| && Scanned(line, col, j) ==> Yields(line, k, j, ts)
  }

  /** No column the scan visits from `col` on, before `stop`, holds an unknown character. */
  predicate CleanBefore(line: string, col: nat, stop: int) {
    forall j :: 0 <= j < |line| && Scanned(line, col, j) && j < stop ==> !Unrecognised(line, j)
  }

  /** A column visited from the next stop of the scan is visited from this one. */
  lemma ScannedBack(line: string, col: nat, step: nat, j: int)
    requires col < |line| && Scanned(line, col + step, j)
    requires step == 1 ==> line[col] == ' ' || CharToken(line[col], col, 0).Some?
    requires step == 2 ==> ArrowAt(line, col)
    requires step == 1 || step == 2
    ensures Scanned(line, col, j)
  {
  }

  /**
   * Scanning a line, the other way round: every column the scan visits
   * holds a known character, and its token (a letter for a-z, a group for
   * any other A-Z, and so on) is in the result; every token starts at a
   * visited column; and a lexical error sits at a visited column that is
   * the first one holding an unknown character.
   */
  lemma {:induction false} LexLineComplete(line: string, k: nat, col: nat)
    ensures LexLine(line, k, col).Ok? ==> Covers(line, k, col, LexLine(line, k, col).value)
    ensures LexLine(line, k, col).Ok? ==>
      forall i :: 0 <= i < |LexLine(line, k, col).value| ==> Scanned(line, col, Origin(LexLine(line, k, col).value[i]))
    ensures LexLine(line, k, col).Err? ==>
      var e := LexLine(line, k, col).error;
      e.UnknownCharacter? && Scanned(line, col, e.col) && CleanBefore(line, col, e.col)
    decreases |line| - col
  {
    if col < |line| {
      var c := line[col];
      if c == ' ' {
        LexLineComplete(line, k, col + 1);
        var rest := LexLine(line, k, col + 1);
        if rest.Ok? {
          forall i | 0 <= i < |rest.value|
            ensures Scanned(line, col, Origin(rest.value[i]))
          {
            ScannedBack(line, col, 1, Origin(rest.value[i]));
          }
        }
      } else if c == '/' && NextIs(line, col, '/') {
      } else if CharToken(c, col, k).Some? {
        LexLineComplete(line, k, col + 1);
        var rest := LexLine(line, k, col + 1);
        if rest.Ok? {
          var ts := [CharToken(c, col, k).value] + rest.value;
          assert forall i :: 1 <= i < |ts| ==> ts[i] == rest.value[i - 1];
        }
      } else if ArrowAt(line, col) {
        LexLineComplete(line, k, col + 2);
        var rest := LexLine(line, k, col + 2);
        if rest.Ok? {
          var ts := [Token(Assign, None, col + 1, k)] + rest.value;
          assert forall i :: 1 <= i < |ts| ==> ts[i] == rest.value[i - 1];
        }
      }
    }
  }

  /** The lines carried by the new-line tokens, in stream order. */
  function NewLineLines(ts: seq<Token>): seq<int> {
    if ts == [] then []
    else (if ts[0].kind == NewLine then [ts[0].line] else []) + NewLineLines(ts[1..])
  }

  lemma {:induction false} NewLineLinesConcat(a: seq<Token>, b: seq<Token>)
    ensures NewLineLines(a + b) == NewLineLines(a) + NewLineLines(b)
  {
    if a == [] {
      assert a + b == b;
    } else {
      var head := if a[0].kind == NewLine then [a[0].line] else [];
      assert (a + b)[0] == a[0];
      assert (a + b)[1..] == a[1..] + b;
      assert NewLineLines(a + b) == head + NewLineLines(a[1..] + b);
      NewLineLinesConcat(a[1..], b);
      assert NewLineLines(a) == head + NewLineLines(a[1..]);
      assert head + (NewLineLines(a[1..]) + NewLineLines(b)) == (head + NewLineLines(a[1..])) + NewLineLines(b);
    }
  }

  lemma {:induction false} NoNewLineLines(a: seq<Token>)
    requires forall i :: 0 <= i < |a| ==> a[i].kind != NewLine
    ensures NewLineLines(a) == []
  {
    if a != [] {
      NoNewLineLines(a[1..]);
    }
  }

  /** The integers `lo`, `lo + 1`, ..., `hi - 1`. */
  function Range(lo: int, hi: int): (r: seq<int>)
    ensures |r| == if lo < hi then hi - lo else 0
    ensures forall i :: 0 <= i < |r| ==> r[i] == lo + i
    decreases hi - lo
  {
    if lo >= hi then [] else [lo] + Range(lo + 1, hi)
  }

  /** A new-line or end-of-file token: one that stands for no character of its line. */
  predicate LineMark(t: Token) {
    t.kind == NewLine || t.kind == Eof
  }

  /**
   * Tokens come line by line, nothing of a line follows its new-line token,
   * and the character tokens of one line come in strictly increasing
   * columns (so none is repeated or moved).
   */
  predicate Ordered(ts: seq<Token>) {
    forall i, j :: 0 <= i < j < |ts| ==>
      ts[i].line <= ts[j].line && (ts[i].kind == NewLine ==> ts[i].line < ts[j].line) &&
      (ts[i].line == ts[j].line && !LineMark(ts[i]) && !LineMark(ts[j]) ==> ts[i].col < ts[j].col)
  }

  /** The stream ends with the end-of-file token and holds no other one. */
  predicate EndsWithEof(lines: seq<string>, ts: seq<Token>)
    requires |lines| > 0
  {
    |ts| >= 1 && ts[|ts| - 1] == EofToken(lines) && (forall i :: 0 <= i < |ts| - 1 ==> ts[i].kind != Eof)
  }

  /** Every token of the stream names a line at or after `k` (the end-of-file token: the last line). */
  predicate LinesFrom(lines: seq<string>, k: nat, ts: seq<Token>) {
    (forall i :: 0 <= i < |ts| ==> 0 <= ts[i].line < |lines|) &&
    (forall i :: 0 <= i < |ts| && ts[i].kind != Eof ==> k <= ts[i].line)
  }

  /** New-line tokens sit at column 0; every other token but end-of-file is read from its line. */
  predicate FromSource(lines: seq<string>, ts: seq<Token>) {
    forall i :: 0 <= i < |ts| ==>
      (ts[i].kind == NewLine ==> ts[i].col == 0 && ts[i].value.None?) &&
      (ts[i].kind != NewLine && ts[i].kind != Eof ==>
         0 <= ts[i].line < |lines| && ReadFrom(lines[ts[i].line], ts[i]) && WellFormed(ts[i]))
  }

  /** The tokens of one line `k`, as `LexLineSound` describes them. */
  predicate OfLine(lines: seq<string>, k: nat, L: seq<Token>)
    requires k < |lines|
  {
    (forall i :: 0 <= i < |L| ==> L[i].line == k && ReadFrom(lines[k], L[i]) && WellFormed(L[i])) &&
    (forall i, j :: 0 <= i < j < |L| ==> L[i].col < L[j].col)
  }

  lemma ConcatEndsWithEof(lines: seq<string>, k: nat, L: seq<Token>, R: seq<Token>)
    requires k < |lines| && OfLine(lines, k, L) && EndsWithEof(lines, R)
    ensures EndsWithEof(lines, L + LineEnd(lines, k) + R)
  {
    var ts := L + LineEnd(lines, k) + R;
    assert forall i :: 0 <= i < |ts| ==>
      (i < |L| ==> ts[i] == L[i]) && (|ts| - |R| <= i ==> ts[i] == R[i - (|ts| - |R|)]);
  }

  lemma ConcatLinesFrom(lines: seq<string>, k: nat, L: seq<Token>, R: seq<Token>)
    requires k < |lines| && OfLine(lines, k, L) && LinesFrom(lines, k + 1, R)
    ensures LinesFrom(lines, k, L + LineEnd(lines, k) + R)
  {
    var ts := L + LineEnd(lines, k) + R;
    assert forall i :: 0 <= i < |ts| ==>
      (i < |L| ==> ts[i] == L[i]) && (|ts| - |R| <= i ==> ts[i] == R[i - (|ts| - |R|)]);
  }

  lemma ConcatFromSource(lines: seq<string>, k: nat, L: seq<Token>, R: seq<Token>)
    requires k < |lines| && OfLine(lines, k, L) && FromSource(lines, R)
    ensures FromSource(lines, L + LineEnd(lines, k) + R)
  {
    var ts := L + LineEnd(lines, k) + R;
    assert forall i :: 0 <= i < |ts| ==>
      (i < |L| ==> ts[i] == L[i]) && (|ts| - |R| <= i ==> ts[i] == R[i - (|ts| - |R|)]);
  }

  lemma ConcatOrdered(lines: seq<string>, k: nat, L: seq<Token>, R: seq<Token>)
    requires k < |lines| && OfLine(lines, k, L) && Ordered(R) && LinesFrom(lines, k + 1, R) && EndsWithEof(lines, R)
    ensures Ordered(L + LineEnd(lines, k) + R)
  {
    var E := LineEnd(lines, k);
    var ts := L + E + R;
    if k + 1 < |lines| {
      assert forall j :: 0 <= j < |R| ==> R[j].line > k;
    } else {
      assert R[|R| - 1].line == k;
      assert forall j :: 0 <= j < |R| ==> R[j].line >= k;
    }
    assert forall i :: 0 <= i < |ts| ==>
      (i < |L| ==> ts[i] == L[i]) && (|ts| - |R| <= i ==> ts[i] == R[i - (|ts| - |R|)]) &&
      (|L| <= i < |L| + |E| ==> ts[i] == E[i - |L|]);
  }

  lemma NewLineLinesOfLine(lines: seq<string>, k: nat, L: seq<Token>, R: seq<Token>)
    requires k < |lines| && OfLine(lines, k, L) && NewLineLines(R) == Range(k + 1, |lines| - 1)
    ensures NewLineLines(L + LineEnd(lines, k) + R) == Range(k, |lines| - 1)
  {
    var E := LineEnd(lines, k);
    NewLineLinesConcat(L + E, R);
    NewLineLinesConcat(L, E);
    NoNewLineLines(L);
    if k + 1 < |lines| {
      assert NewLineLines(E) == [k];
      assert Range(k, |lines| - 1) == [k] + Range(k + 1, |lines| - 1);
    } else {
      assert NewLineLines(E) == [];
    }
  }

  /**
   * The stream of lines `k..`: it ends with the one end-of-file token, holds
   * one new-line token after each of those lines but the last, comes line by
   * line, and every other token is read from its own line and column.
   */
  lemma {:induction false} LexFromSound(lines: seq<string>, k: nat)
    requires |lines| > 0 && k <= |lines|
    ensures LexFrom(lines, k).Ok? ==>
      var ts := LexFrom(lines, k).value;
      EndsWithEof(lines, ts) && NewLineLines(ts) == Range(k, |lines| - 1) &&
      LinesFrom(lines, if k < |lines| then k else |lines| - 1, ts) && Ordered(ts) && FromSource(lines, ts)
    ensures LexFrom(lines, k).Err? ==>
      var e := LexFrom(lines, k).error;
      e.UnknownCharacter? && k <= e.line < |lines| && e.col < |lines[e.line]| && e.ch == lines[e.line][e.col] &&
      Unrecognised(lines[e.line], e.col)
    decreases |lines| - k
  {
    if k == |lines| {
      assert NewLineLines([EofToken(lines)]) == [];
      return;
    }
    LexLineSound(lines[k], k, 0);
    if LexLine(lines[k], k, 0).Err? {
      return;
    }
    LexFromSound(lines, k + 1);
    if LexFrom(lines, k + 1).Err? {
      return;
    }
    var L := LexLine(lines[k], k, 0).value;
    var R := LexFrom(lines, k + 1).value;
    assert LexFrom(lines, k) == Ok(L + LineEnd(lines, k) + R);
    assert OfLine(lines, k, L);
    if k + 1 == |lines| {
      assert R == [EofToken(lines)];
      assert LinesFrom(lines, k + 1, R);
    }
    ConcatEndsWithEof(lines, k, L, R);
    ConcatLinesFrom(lines, k, L, R);
    ConcatFromSource(lines, k, L, R);
    ConcatOrdered(lines, k, L, R);
    NewLineLinesOfLine(lines, k, L, R);
  }

  /** Every token other than a new-line or end-of-file starts at a column the scan of its line visits. */
  predicate FromScan(lines: seq<string>, ts: seq<Token>) {
    forall i :: 0 <= i < |ts| && ts[i].kind != NewLine && ts[i].kind != Eof ==>
      0 <= ts[i].line < |lines| && Scanned(lines[ts[i].line], 0, Origin(ts[i]))
  }

  lemma CoversGrow(line: string, k: nat, col: nat, a: seq<Token>, b: seq<Token>)
    requires Covers(line, k, col, a) && forall t :: t in a ==> t in b
    ensures Covers(line, k, col, b)
  {
  }

  lemma CoversClean(line: string, k: nat, ts: seq<Token>)
    requires Covers(line, k, 0, ts)
    ensures CleanBefore(line, 0, |line|)
  {
  }

  lemma ConcatCovers(lines: seq<string>, k: nat, L: seq<Token>, R: seq<Token>)
    requires k < |lines| && Covers(lines[k], k, 0, L)
    requires forall n :: k < n < |lines| ==> Covers(lines[n], n, 0, R)
    ensures forall n :: k <= n < |lines| ==> Covers(lines[n], n, 0, L + LineEnd(lines, k) + R)
  {
    var ts := L + LineEnd(lines, k) + R;
    CoversGrow(lines[k], k, 0, L, ts);
    forall n | k < n < |lines|
      ensures Covers(lines[n], n, 0, ts)
    {
      CoversGrow(lines[n], n, 0, R, ts);
    }
  }

  lemma ConcatFromScan(lines: seq<string>, k: nat, L: seq<Token>, R: seq<Token>)
    requires k < |lines| && FromScan(lines, R)
    requires forall i :: 0 <= i < |L| ==> L[i].line == k && Scanned(lines[k], 0, Origin(L[i]))
    ensures FromScan(lines, L + LineEnd(lines, k) + R)
  {
    var ts := L + LineEnd(lines, k) + R;
    assert forall i :: 0 <= i < |ts| ==>
      (i < |L| ==> ts[i] == L[i]) && (|ts| - |R| <= i ==> ts[i] == R[i - (|ts| - |R|)]) &&
      (|L| <= i < |ts| - |R| ==> ts[i].kind == NewLine);
  }

  /**
   * The stream of lines `k..`, the other way round: every column the scan
   * of each line visits yields its token in the stream, every token but
   * new-lines and end-of-file starts at a visited column, and a lexical
   * error is the first unknown character the scan meets: at a visited
   * column, after clean visited columns of its own line and after clean
   * earlier lines.
   */
  lemma {:induction false} LexFromComplete(lines: seq<string>, k: nat)
    requires |lines| > 0 && k <= |lines|
    ensures LexFrom(lines, k).Ok? ==>
      forall n :: k <= n < |lines| ==> Covers(lines[n], n, 0, LexFrom(lines, k).value)
    ensures LexFrom(lines, k).Ok? ==> FromScan(lines, LexFrom(lines, k).value)
    ensures LexFrom(lines, k).Err? ==>
      var e := LexFrom(lines, k).error;
      e.UnknownCharacter? && k <= e.line < |lines| && Scanned(lines[e.line], 0, e.col) &&
      CleanBefore(lines[e.line], 0, e.col) &&
      forall n :: k <= n < e.line ==> CleanBefore(lines[n], 0, |lines[n]|)
    decreases |lines| - k
  {
    if k == |lines| {
      return;
    }
    LexLineComplete(lines[k], k, 0);
    LexLineSound(lines[k], k, 0);
    if LexLine(lines[k], k, 0).Err? {
      return;
    }
    var L := LexLine(lines[k], k, 0).value;
    CoversClean(lines[k], k, L);
    LexFromComplete(lines, k + 1);
    if LexFrom(lines, k + 1).Err? {
      return;
    }
    var R := LexFrom(lines, k + 1).value;
    assert LexFrom(lines, k) == Ok(L + LineEnd(lines, k) + R);
    ConcatCovers(lines, k, L, R);
    ConcatFromScan(lines, k, L, R);
  }

  /**
   * What the tokenizer promises for a whole file: one end-of-file token,
   * last; exactly one new-line token per line but the last (blank and
   * comment-only lines included), in line order; every other token read
   * from its own position, at a column the scan visits; every column the
   * scan visits yields its token; and an error names the first unknown
   * character the scan meets, at its position.
   */
  lemma TokenizeSound(lines: seq<string>)
    requires |lines| > 0
    ensures TokenizeSpec(lines).Ok? ==>
      var ts := TokenizeSpec(lines).value;
      EndsWithEof(lines, ts) && |NewLineLines(ts)| == |lines| - 1 &&
      NewLineLines(ts) == Range(0, |lines| - 1) && Ordered(ts) && FromSource(lines, ts)
    ensures TokenizeSpec(lines).Ok? ==> forall i :: 0 <= i < |TokenizeSpec(lines).value| ==> WellFormed(TokenizeSpec(lines).value[i])
    ensures TokenizeSpec(lines).Ok? ==>
      (forall n :: 0 <= n < |lines| ==> Covers(lines[n], n, 0, TokenizeSpec(lines).value)) &&
      FromScan(lines, TokenizeSpec(lines).value)
    ensures TokenizeSpec(lines).Err? ==>
      var e := TokenizeSpec(lines).error;
      e.UnknownCharacter? && e.line < |lines| && e.col < |lines[e.line]| &&
      e.ch == lines[e.line][e.col] && Unrecognised(lines[e.line], e.col) &&
      Scanned(lines[e.line], 0, e.col) && CleanBefore(lines[e.line], 0, e.col) &&
      forall n :: 0 <= n < e.line ==> CleanBefore(lines[n], 0, |lines[n]|)
  {
    LexFromSound(lines, 0);
    LexFromComplete(lines, 0);
  }
}
