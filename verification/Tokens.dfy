/** The token enumeration shared by the scanner and the message parser (src/data_scanner.hh). */
module Tokens {

  datatype Token =
    | Invalid
    | QuotedString | Comment | Url | Path | MacAddress | Date | Time | DateTime
    | Ipv6Address | HexDump | XmlDeclTag | XmlEmptyTag | XmlOpenTag | XmlCloseTag
    | H1 | H2 | H3
    | Colon | Equals | Comma | Semi | EmDash
    | EmptyContainer
    | LCurly | RCurly | LSquare | RSquare | LParen | RParen | LAngle | RAngle
    | Ipv4Address | Uuid | CreditCardNumber | VersionNumber | OctalNumber | Percentage
    | Number | HexNumber | Email | Constant | Word | Id | Symbol | Unit | Line | White
    | Dot | EscapedChar | Csi | Garbage | ZeroWidthSpace | DiffFileHeader
    | DiffHunkHeading | CodeBlock | Anchor
    // Non-terminals built by the parser.
    | Key | Pair | Value | Row | Units | Measurement | VariableKey | RowRange | Group

  /** The tokens a scanner can return. */
  predicate IsTerminal(t: Token) {
    !(t.Invalid? || t.Key? || t.Pair? || t.Value? || t.Row? || t.Units? || t.Measurement?
      || t.VariableKey? || t.RowRange? || t.Group?)
  }

  predicate IsOpener(t: Token) {
    t.LParen? || t.LAngle? || t.LCurly? || t.LSquare?
  }

  predicate IsCloser(t: Token) {
    t.RParen? || t.RAngle? || t.RCurly? || t.RSquare?
  }

  /** The enumeration places each closer right after its opener, so this is "minus one". */
  function OpenerOf(t: Token): Token
    requires IsCloser(t)
  {
    match t
    case RParen => LParen
    case RAngle => LAngle
    case RCurly => LCurly
    case _ => LSquare
  }

  /** `element::is_value`; the two scans over key components switch on the same list. */
  predicate IsValueToken(t: Token) {
    match t
    case Measurement | Id | QuotedString | Url | Path | MacAddress | Date | Time | DateTime
      | Ipv4Address | Ipv6Address | HexDump | Uuid | CreditCardNumber | VersionNumber
      | OctalNumber | Percentage | Number | HexNumber | Email | Constant | Anchor => true
    case _ => false
  }

  /** The tokens whose presence makes a run of key components look like a key. */
  predicate IsNameToken(t: Token) {
    t.Word? || t.Symbol?
  }

  /** `element_is_space`. */
  predicate IsSpaceToken(t: Token) {
    t.White? || t.Csi?
  }
}
