/** The token model of the lexer: a kind, the construct's text and where it
    starts. */
module Tokens {

  datatype Kind =
    | BraceOpen
    | BraceClose
    | MediaQuery
    | Keyframe
    | KeyframeSelector
    | FontFace
    | Charset
    | Supports
    | Declaration
    | Selector

  /** `[line]` for most tokens, `[line, column]` for a synthesised `{`. */
  datatype Position = Line(line: nat) | LineCol(line: nat, col: nat)

  datatype Token = Token(kind: Kind, text: string, pos: Position)

  /** The kinds whose line ends in `{`, and that are followed by a `BraceOpen`. */
  predicate OpensBlock(k: Kind)
  {
    k == MediaQuery || k == Keyframe || k == FontFace || k == Supports
    || k == KeyframeSelector || k == Selector
  }

  datatype Option<T> = None | Some(value: T)

  /** The only error the lexer reports: the formatter rejected the CSS. */
  datatype LexError = InvalidCss

  datatype Result<T> = Success(value: T) | Failure(error: LexError)
}
