/** The tokenizer's output type (Token.cs). The tokenizer itself is not part of this model. */
module Tokens {

  datatype TokenKind = Unknown | Word | Number | QuotedString | WhiteSpace | Symbol | EOL | EOF

  /** An immutable token; `ToString()` is its value. */
  datatype Token = Token(kind: TokenKind, value: string, line: int, column: int)
}
