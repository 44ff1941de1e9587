/** Tokens as the lexer hands them on. */
module Tokens {
  datatype Option<+T> = None | Some(value: T)

  datatype Kind = Identifier | Keyword | Number | Text | Operator | Symbol | Eof

  datatype Token = Token(kind: Kind, value: string, file: string, line: nat, column: nat)
}
