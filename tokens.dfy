/** Tokens of the grammar language: the `Token` class of index.js and its kind tags. */
module Tokens {

  datatype Option<T> = None | Some(value: T)

  /** The `type` tag of a token (`Token.ASIGNATION`, `Token.LETTER`, ... in the source). */
  datatype Kind = Assign | Letter | Group | Epsilon | Start | Or | NewLine | Eof

  /**
   * A token: its kind, the character it carries (only `Letter` and `Group`
   * tokens carry one), and the 0-based column and line it was read at.
   * The column is an `int` because the end-of-file token of an empty last
   * line sits at column -1.
   */
  datatype Token = Token(kind: Kind, value: Option<char>, col: int, line: int)

  /** The token with its position erased. */
  function AtOrigin(t: Token): Token {
    t.(col := 0, line := 0)
  }

  /** `Token.equals`: same kind and same carried value. */
  predicate Equals(a: Token, b: Token) {
    a.kind == b.kind && a.value == b.value
  }

  /** Two tokens are equal exactly when they agree once their positions are erased. */
  lemma EqualsIgnoresPosition(a: Token, b: Token)
    ensures Equals(a, b) <==> AtOrigin(a) == AtOrigin(b)
  {
  }

  predicate IsLower(c: char) { 'a' <= c <= 'z' }

  predicate IsUpper(c: char) { 'A' <= c <= 'Z' }

  /** What the token factories produce: letters carry a-z, groups carry A-Z other than E and S, the rest nothing. */
  predicate WellFormed(t: Token) {
    match t.kind
    case Letter => t.value.Some? && IsLower(t.value.value)
    case Group => t.value.Some? && IsUpper(t.value.value) && t.value.value != 'E' && t.value.value != 'S'
    case _ => t.value.None?
  }

  /** A symbol of a sentential form: a terminal or a non-terminal. */
  predicate IsSymbol(t: Token) {
    t.kind == Letter || t.kind == Group
  }
}
