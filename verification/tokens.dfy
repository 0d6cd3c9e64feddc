/**
 The lexical tokens shared by the tokenizer and the parser
 (chalk-core/src/tokenizer.rs and chalk-core/src/ast.rs).

 The tokenizer's `Token` enum declares nine variants, while the parser matches on
 further ones (variables, identifiers, booleans, comparison and logic operators,
 `^ ! | , =`).  `Token` here is the union of both; the tokenizer produces only
 its nine, the parser accepts any list.  A real literal is kept as the text it
 was read from rather than as an `f32`.
 */
module Tokens {

  datatype Token =
    | Integer(value: int)
    | Real(lexeme: string)
    | Bool(truth: bool)
    | Variable(name: char)
    | Ident(ident: string)
    | Multiply
    | Divide
    | Plus
    | Minus
    | OpenParen
    | CloseParen
    | Caret
    | Exclamation
    | Bar
    | Comma
    | Assign
    | And
    | Or
    | Eq
    | NEq
    | Gt
    | Lt
    | Gte
    | Lte
    | EOF

  /** The nine variants the tokenizer declares and produces. */
  predicate IsLexical(t: Token) {
    t.Integer? || t.Real? || t.Multiply? || t.Divide? || t.Plus? || t.Minus?
    || t.OpenParen? || t.CloseParen? || t.EOF?
  }

  /** A list whose only `EOF` is its last element. */
  predicate EndsWithSingleEof(ts: seq<Token>) {
    && |ts| >= 1
    && ts[|ts| - 1] == EOF
    && forall i :: 0 <= i < |ts| - 1 ==> ts[i] != EOF
  }
}
