/**
 The recursive-descent `Parser` of chalk-core/src/ast.rs, one function per
 precedence level, over a token list and a position:

   assignment  :=  Variable "=" chained  |  chained
   chained     :=  comparison (("&&" | "||") comparison)*
   comparison  :=  expression (("==" | "!=" | ">" | "<" | ">=" | "<=") expression)?
   expression  :=  term (("+" | "-") term)*
   term        :=  power (("*" | "/") power  |  "(" chained ")")*
   power       :=  factorial ("^" factorial)*
   factorial   :=  factor "!"*
   factor      :=  "-" factor | literal | variable | "(" chained ")" | "|" chained "|"
                 | binary-name "(" chained "," chained ")" | unary-name "(" chained ")"

 Each `while` loop of the source is a function of its own (`…Loop`) taking the
 tree built so far.  Reading past the end of the list panics in the source
 (`self.tokens[self.current]`); here it is the failure `IndexOutOfRange`.
 */
module Parser {
  import opened Results
  import Tokens
  import opened Ast

  datatype ParseFailure = ParseError | IndexOutOfRange

  /** A parsed tree and the position of the first token after it. */
  datatype Parsed = Parsed(expr: Expr, next: nat)

  type Outcome = Result<Parsed, ParseFailure>

  /** A successful parse consumed at least one token and stayed within the list. */
  predicate Advances(toks: seq<Tokens.Token>, pos: nat, r: Outcome) {
    r.Ok? ==> pos < r.value.next <= |toks|
  }

  /** A loop that succeeded stopped at or after where it started, within the list. */
  predicate Stays(toks: seq<Tokens.Token>, pos: nat, r: Outcome) {
    r.Ok? ==> pos <= r.value.next <= |toks|
  }

  /**
   On a list whose only `EOF` is its last token, starting before the end:
   no read goes past the end, and a success stops at a real token (at worst `EOF`).
   */
  predicate Safe(toks: seq<Tokens.Token>, pos: nat, r: Outcome) {
    Tokens.EndsWithSingleEof(toks) && pos < |toks| ==>
      r != Err(IndexOutOfRange) && (r.Ok? ==> r.value.next < |toks|)
  }

  /** No `=` token lies in the consumed range. */
  predicate NoAssign(toks: seq<Tokens.Token>, pos: nat, r: Outcome) {
    r.Ok? && r.value.next <= |toks| ==> forall i :: pos <= i < r.value.next ==> toks[i] != Tokens.Assign
  }

  /** A tree with no `Assignment` node anywhere in it. */
  predicate AssignFree(e: Expr) {
    match e
    case Assignment(_, _) => false
    case BinaryOp(_, left, right) => AssignFree(left) && AssignFree(right)
    case UnaryOp(_, node) => AssignFree(node)
    case Paren(inner) => AssignFree(inner)
    case AbsVal(abs) => AssignFree(abs)
    case _ => true
  }

  /** A successful parse below the assignment level builds no `Assignment` node. */
  predicate Builds(r: Outcome) {
    r.Ok? ==> AssignFree(r.value.expr)
  }

  /** `consume`: step over `tok` when it is the current token, fail otherwise. */
  function Consume(toks: seq<Tokens.Token>, pos: nat, tok: Tokens.Token): (r: Result<nat, ParseFailure>)
    ensures r.Ok? <==> pos < |toks| && toks[pos] == tok
    ensures r.Ok? ==> r.value == pos + 1
    ensures r == Err(IndexOutOfRange) <==> pos >= |toks|
  {
    if pos >= |toks| then Err(IndexOutOfRange)
    else if toks[pos] == tok then Ok(pos + 1)
    else Err(ParseError)
  }

  /** A bracket, a run without `=` after it, and the token that closes it hold no `=`. */
  lemma BracketNoAssign(toks: seq<Tokens.Token>, pos: nat, inner: Parsed, after: nat)
    requires pos < inner.next < |toks| && after == inner.next + 1
    requires toks[pos] != Tokens.Assign && toks[inner.next] != Tokens.Assign
    requires NoAssign(toks, pos + 1, Ok(inner))
    ensures forall i :: pos <= i < after ==> toks[i] != Tokens.Assign
  {
  }

  /** A token other than `=` in front of a parse without `=` leaves none in the longer range. */
  lemma NoAssignFrom(toks: seq<Tokens.Token>, pos: nat, r: Outcome)
    requires pos < |toks| && toks[pos] != Tokens.Assign
    requires Stays(toks, pos + 1, r) && NoAssign(toks, pos + 1, r)
    ensures NoAssign(toks, pos, r)
  {
  }

  /** An operator, its operand and the rest of the loop hold no `=` between them. */
  lemma OperatorThenNoAssign(toks: seq<Tokens.Token>, pos: nat, right: Parsed, r: Outcome)
    requires pos < right.next <= |toks| && toks[pos] != Tokens.Assign
    requires NoAssign(toks, pos + 1, Ok(right))
    requires Stays(toks, right.next, r) && NoAssign(toks, right.next, r)
    ensures NoAssign(toks, pos, r)
  {
  }

  /** A bracketed chain followed by the rest of the loop holds no `=`. */
  lemma BracketThenNoAssign(toks: seq<Tokens.Token>, pos: nat, inner: Parsed, after: nat, r: Outcome)
    requires pos < inner.next < |toks| && after == inner.next + 1
    requires toks[pos] != Tokens.Assign && toks[inner.next] != Tokens.Assign
    requires NoAssign(toks, pos + 1, Ok(inner))
    requires Stays(toks, after, r) && NoAssign(toks, after, r)
    ensures NoAssign(toks, pos, r)
  {
    BracketNoAssign(toks, pos, inner, after);
  }

  /** The comparison operator a token stands for. */
  function ComparisonOp(t: Tokens.Token): Option<BinaryOperator> {
    match t
    case Eq => Some(Eq)
    case NEq => Some(NEq)
    case Lt => Some(Lt)
    case Lte => Some(Lte)
    case Gt => Some(Gt)
    case Gte => Some(Gte)
    case _ => None
  }

  /** The operators a comparison token stands for. */
  predicate Compares(op: BinaryOperator) {
    op == Eq || op == NEq || op == Lt || op == Lte || op == Gt || op == Gte
  }

  /** `assignment`: `Variable "=" chained`, or else `chained`. */
  function Assignment(toks: seq<Tokens.Token>, pos: nat): (r: Outcome)
    requires pos <= |toks|
    ensures Advances(toks, pos, r)
    ensures Tokens.EndsWithSingleEof(toks) && pos + 1 < |toks| ==>
      r != Err(IndexOutOfRange) && (r.Ok? ==> r.value.next < |toks|)
    ensures r.Ok? ==>
      pos + 1 < |toks| && (r.value.expr.Assignment? <==> toks[pos].Variable? && toks[pos + 1] == Tokens.Assign)
    ensures r.Ok? && r.value.expr.Assignment? ==>
      r.value.expr.target == toks[pos].name && AssignFree(r.value.expr.value)
    ensures r.Ok? && !r.value.expr.Assignment? ==> AssignFree(r.value.expr)
    decreases |toks| - pos, 9
  {
    if pos + 1 >= |toks| then Err(IndexOutOfRange)
    else if toks[pos].Variable? && toks[pos + 1] == Tokens.Assign then
      var value :- Chained(toks, pos + 2);
      Ok(Parsed(Expr.Assignment(toks[pos].name, value.expr), value.next))
    else
      Chained(toks, pos)
  }

  /** `chained`: comparisons joined by `&&` and `||`, grouped to the left. */
  function Chained(toks: seq<Tokens.Token>, pos: nat): (r: Outcome)
    requires pos <= |toks|
    ensures Advances(toks, pos, r) && Safe(toks, pos, r) && NoAssign(toks, pos, r) && Builds(r)
    decreases |toks| - pos, 8
  {
    var first :- Comparison(toks, pos);
    ChainedLoop(toks, first.expr, first.next)
  }

  function ChainedLoop(toks: seq<Tokens.Token>, start: Expr, pos: nat): (r: Outcome)
    requires pos <= |toks|
    ensures Stays(toks, pos, r) && Safe(toks, pos, r) && NoAssign(toks, pos, r)
    ensures AssignFree(start) ==> Builds(r)
    ensures r.Ok? ==> r.value.next < |toks| && !(toks[r.value.next] == Tokens.And || toks[r.value.next] == Tokens.Or)
    decreases |toks| - pos, 0
  {
    if pos >= |toks| then Err(IndexOutOfRange)
    else if toks[pos] == Tokens.And || toks[pos] == Tokens.Or then
      var op := if toks[pos] == Tokens.And then And else Or;
      var right :- Comparison(toks, pos + 1);
      ChainedLoop(toks, BinaryOp(op, start, right.expr), right.next)
    else
      Ok(Parsed(start, pos))
  }

  /**
   `comparison`: one expression, optionally compared with a second one.  A
   comparison never continues into another: a success that stops at a
   comparison token has already taken the comparison branch.
   */
  function Comparison(toks: seq<Tokens.Token>, pos: nat): (r: Outcome)
    requires pos <= |toks|
    ensures Advances(toks, pos, r) && Safe(toks, pos, r) && NoAssign(toks, pos, r) && Builds(r)
    ensures r.Ok? && r.value.next < |toks| && ComparisonOp(toks[r.value.next]).Some? ==>
      r.value.expr.BinaryOp? && Compares(r.value.expr.op)
    decreases |toks| - pos, 7
  {
    var left :- Expression(toks, pos);
    Compared(toks, pos, left)
  }

  /** The optional second half of `comparison`, after its first expression `left`. */
  function Compared(toks: seq<Tokens.Token>, pos: nat, left: Parsed): (r: Outcome)
    requires pos < left.next <= |toks| && AssignFree(left.expr)
    requires Safe(toks, pos, Ok(left)) && NoAssign(toks, pos, Ok(left))
    ensures Advances(toks, pos, r) && Safe(toks, pos, r) && NoAssign(toks, pos, r) && Builds(r)
    ensures r.Ok? && r.value.next < |toks| && ComparisonOp(toks[r.value.next]).Some? ==>
      r.value.expr.BinaryOp? && Compares(r.value.expr.op)
    decreases |toks| - pos, 0
  {
    if left.next >= |toks| then Err(IndexOutOfRange)
    else
      match ComparisonOp(toks[left.next])
      case Some(op) =>
        var right :- Expression(toks, left.next + 1);
        Ok(Parsed(BinaryOp(op, left.expr, right.expr), right.next))
      case None =>
        Ok(left)
  }

  /** `expression`: terms joined by `+` and `-`, grouped to the left. */
  function Expression(toks: seq<Tokens.Token>, pos: nat): (r: Outcome)
    requires pos <= |toks|
    ensures Advances(toks, pos, r) && Safe(toks, pos, r) && NoAssign(toks, pos, r) && Builds(r)
    decreases |toks| - pos, 6
  {
    var first :- Term(toks, pos);
    ExpressionLoop(toks, first.expr, first.next)
  }

  function ExpressionLoop(toks: seq<Tokens.Token>, start: Expr, pos: nat): (r: Outcome)
    requires pos <= |toks|
    ensures Stays(toks, pos, r) && Safe(toks, pos, r) && NoAssign(toks, pos, r)
    ensures AssignFree(start) ==> Builds(r)
    ensures r.Ok? ==> r.value.next < |toks| && !(toks[r.value.next] == Tokens.Plus || toks[r.value.next] == Tokens.Minus)
    decreases |toks| - pos, 0
  {
    if pos >= |toks| then Err(IndexOutOfRange)
    else if toks[pos] == Tokens.Plus || toks[pos] == Tokens.Minus then
      var op := if toks[pos] == Tokens.Plus then Add else Subtract;
      var right :- Term(toks, pos + 1);
      ExpressionLoop(toks, BinaryOp(op, start, right.expr), right.next)
    else
      Ok(Parsed(start, pos))
  }

  /** `term`: powers joined by `*`, `/` and implicit multiplication by a parenthesised chain. */
  function Term(toks: seq<Tokens.Token>, pos: nat): (r: Outcome)
    requires pos <= |toks|
    ensures Advances(toks, pos, r) && Safe(toks, pos, r) && NoAssign(toks, pos, r) && Builds(r)
    decreases |toks| - pos, 5
  {
    var first :- Power(toks, pos);
    TermLoop(toks, first.expr, first.next)
  }

  function TermLoop(toks: seq<Tokens.Token>, start: Expr, pos: nat): (r: Outcome)
    requires pos <= |toks|
    ensures Stays(toks, pos, r) && Safe(toks, pos, r) && NoAssign(toks, pos, r)
    ensures AssignFree(start) ==> Builds(r)
    ensures r.Ok? ==> r.value.next < |toks| && !(toks[r.value.next] in {Tokens.Divide, Tokens.Multiply, Tokens.OpenParen})
    decreases |toks| - pos, 1
  {
    if pos >= |toks| then Err(IndexOutOfRange)
    else if toks[pos] == Tokens.OpenParen then
      ImplicitProduct(toks, start, pos)
    else if toks[pos] == Tokens.Divide || toks[pos] == Tokens.Multiply then
      var op := if toks[pos] == Tokens.Divide then Divide else Multiply;
      var right :- Power(toks, pos + 1);
      var r := TermLoop(toks, BinaryOp(op, start, right.expr), right.next);
      OperatorThenNoAssign(toks, pos, right, r);
      r
    else
      Ok(Parsed(start, pos))
  }

  /** A round of the `term` loop on `(`: the parenthesised chain multiplies the tree so far. */
  function ImplicitProduct(toks: seq<Tokens.Token>, start: Expr, pos: nat): (r: Outcome)
    requires pos < |toks| && toks[pos] == Tokens.OpenParen
    ensures Stays(toks, pos, r) && Safe(toks, pos, r) && NoAssign(toks, pos, r)
    ensures AssignFree(start) ==> Builds(r)
    ensures r.Ok? ==> r.value.next < |toks| && !(toks[r.value.next] in {Tokens.Divide, Tokens.Multiply, Tokens.OpenParen})
    decreases |toks| - pos, 0
  {
    var inner :- Chained(toks, pos + 1);
    var after :- Consume(toks, inner.next, Tokens.CloseParen);
    var r := TermLoop(toks, BinaryOp(Multiply, start, inner.expr), after);
    BracketThenNoAssign(toks, pos, inner, after, r);
    r
  }

  /** `power`: factorials joined by `^`, grouped to the left. */
  function Power(toks: seq<Tokens.Token>, pos: nat): (r: Outcome)
    requires pos <= |toks|
    ensures Advances(toks, pos, r) && Safe(toks, pos, r) && NoAssign(toks, pos, r) && Builds(r)
    decreases |toks| - pos, 4
  {
    var first :- Factorial(toks, pos);
    PowerLoop(toks, first.expr, first.next)
  }

  function PowerLoop(toks: seq<Tokens.Token>, start: Expr, pos: nat): (r: Outcome)
    requires pos <= |toks|
    ensures Stays(toks, pos, r) && Safe(toks, pos, r) && NoAssign(toks, pos, r)
    ensures AssignFree(start) ==> Builds(r)
    ensures r.Ok? ==> r.value.next < |toks| && toks[r.value.next] != Tokens.Caret
    decreases |toks| - pos, 0
  {
    if pos >= |toks| then Err(IndexOutOfRange)
    else if toks[pos] == Tokens.Caret then
      var exponent :- Factorial(toks, pos + 1);
      PowerLoop(toks, BinaryOp(Pow, start, exponent.expr), exponent.next)
    else
      Ok(Parsed(start, pos))
  }

  /** `factorial`: a factor followed by any number of `!`. */
  function Factorial(toks: seq<Tokens.Token>, pos: nat): (r: Outcome)
    requires pos <= |toks|
    ensures Advances(toks, pos, r) && Safe(toks, pos, r) && NoAssign(toks, pos, r) && Builds(r)
    decreases |toks| - pos, 3
  {
    var first :- Factor(toks, pos);
    FactorialLoop(toks, first.expr, first.next)
  }

  function FactorialLoop(toks: seq<Tokens.Token>, start: Expr, pos: nat): (r: Outcome)
    requires pos <= |toks|
    ensures Stays(toks, pos, r) && Safe(toks, pos, r) && NoAssign(toks, pos, r)
    ensures AssignFree(start) ==> Builds(r)
    ensures r.Ok? ==> r.value.next < |toks| && toks[r.value.next] != Tokens.Exclamation
    decreases |toks| - pos, 0
  {
    if pos >= |toks| then Err(IndexOutOfRange)
    else if toks[pos] == Tokens.Exclamation then
      FactorialLoop(toks, UnaryOp(Ast.Factorial, start), pos + 1)
    else
      Ok(Parsed(start, pos))
  }

  /** A chain and the token `closer` after it: the body of `( … )` and `| … |`, the opener already read. */
  function Enclosed(toks: seq<Tokens.Token>, pos: nat, closer: Tokens.Token): (r: Outcome)
    requires pos <= |toks| && closer != Tokens.Assign && closer != Tokens.EOF
    ensures Advances(toks, pos, r) && Safe(toks, pos, r) && NoAssign(toks, pos, r) && Builds(r)
    ensures r.Ok? ==> r.value.next >= 1 && toks[r.value.next - 1] == closer
    decreases |toks| - pos, 9
  {
    var inner :- Chained(toks, pos);
    var after :- Consume(toks, inner.next, closer);
    Ok(Parsed(inner.expr, after))
  }

  /** `factor`: advance over one token and build the atom it starts. */
  function Factor(toks: seq<Tokens.Token>, pos: nat): (r: Outcome)
    requires pos <= |toks|
    ensures Advances(toks, pos, r) && Safe(toks, pos, r) && NoAssign(toks, pos, r) && Builds(r)
    ensures pos < |toks| && toks[pos] == Tokens.EOF ==> r == Err(ParseError)
    decreases |toks| - pos, 2
  {
    if pos >= |toks| then Err(IndexOutOfRange)
    else
      var t := toks[pos];
      match t
      case Minus =>
        var operand :- Factor(toks, pos + 1);
        Ok(Parsed(UnaryOp(Neg, operand.expr), operand.next))
      case Real(lexeme) => Ok(Parsed(Expr.Real(lexeme), pos + 1))
      case Integer(i) => Ok(Parsed(Expr.Integer(i), pos + 1))
      case Bool(b) => Ok(Parsed(Expr.Bool(b), pos + 1))
      case OpenParen =>
        var inner :- Enclosed(toks, pos + 1, Tokens.CloseParen);
        NoAssignFrom(toks, pos, Ok(inner));
        Ok(Parsed(Paren(inner.expr), inner.next))
      case Bar =>
        var inner :- Enclosed(toks, pos + 1, Tokens.Bar);
        NoAssignFrom(toks, pos, Ok(inner));
        Ok(Parsed(AbsVal(inner.expr), inner.next))
      case Variable(v) => Ok(Parsed(Expr.Variable(v), pos + 1))
      case Ident(name) => Call(toks, pos, name)
      case _ => Err(ParseError)
  }

  /**
   The identifier at `pos` names an operator: a binary name takes
   `( chained , chained )`, a unary name takes `( chained )`; binary names are
   tried first, and any other name fails.
   */
  function Call(toks: seq<Tokens.Token>, pos: nat, name: string): (r: Outcome)
    requires pos < |toks| && toks[pos] == Tokens.Ident(name)
    ensures Advances(toks, pos, r) && Safe(toks, pos, r) && NoAssign(toks, pos, r) && Builds(r)
    decreases |toks| - pos, 1
  {
    match BinaryFromName(name)
    case Some(op) => BinaryCall(toks, pos, op)
    case None =>
      match UnaryFromName(name)
      case Some(op) => UnaryCall(toks, pos, op)
      case None => Err(ParseError)
  }

  /** `name ( chained , chained )` after a binary operator's name. */
  function BinaryCall(toks: seq<Tokens.Token>, pos: nat, op: BinaryOperator): (r: Outcome)
    requires pos < |toks| && toks[pos].Ident?
    ensures Advances(toks, pos, r) && Safe(toks, pos, r) && NoAssign(toks, pos, r) && Builds(r)
    ensures r.Ok? ==> r.value.expr.BinaryOp? && r.value.expr.op == op
    decreases |toks| - pos, 0
  {
    var open :- Consume(toks, pos + 1, Tokens.OpenParen);
    var left :- Chained(toks, open);
    var comma :- Consume(toks, left.next, Tokens.Comma);
    var right :- Chained(toks, comma);
    var close :- Consume(toks, right.next, Tokens.CloseParen);
    Ok(Parsed(BinaryOp(op, left.expr, right.expr), close))
  }

  /** `name ( chained )` after a unary operator's name. */
  function UnaryCall(toks: seq<Tokens.Token>, pos: nat, op: UnaryOperator): (r: Outcome)
    requires pos < |toks| && toks[pos].Ident?
    ensures Advances(toks, pos, r) && Safe(toks, pos, r) && NoAssign(toks, pos, r) && Builds(r)
    ensures r.Ok? ==> r.value.expr.UnaryOp? && r.value.expr.uop == op
    decreases |toks| - pos, 0
  {
    var open :- Consume(toks, pos + 1, Tokens.OpenParen);
    var node :- Chained(toks, open);
    var close :- Consume(toks, node.next, Tokens.CloseParen);
    Ok(Parsed(UnaryOp(op, node.expr), close))
  }

  /**
   `parse`: an assignment followed by `EOF`.  On a list of two or more tokens
   ending in its only `EOF` it never reads past the end; an accepted statement
   is an assignment exactly when it starts with a variable and `=`, and holds
   no other assignment; tokens left over after the statement are a parse error.
   */
  function Parse(toks: seq<Tokens.Token>): (r: Result<Expr, ParseFailure>)
    ensures Tokens.EndsWithSingleEof(toks) && |toks| >= 2 ==> r != Err(IndexOutOfRange)
    ensures r.Ok? ==> |toks| >= 2 && (r.value.Assignment? <==> toks[0].Variable? && toks[1] == Tokens.Assign)
    ensures r.Ok? && r.value.Assignment? ==> r.value.target == toks[0].name && AssignFree(r.value.value)
    ensures r.Ok? && !r.value.Assignment? ==> AssignFree(r.value)
    ensures Assignment(toks, 0).Ok? ==>
      Assignment(toks, 0).value.next < |toks| && toks[Assignment(toks, 0).value.next] != Tokens.EOF ==> r == Err(ParseError)
    ensures r.Ok? <==> Assignment(toks, 0).Ok? && Assignment(toks, 0).value.next < |toks|
                       && toks[Assignment(toks, 0).value.next] == Tokens.EOF
    ensures r.Ok? ==> r.value == Assignment(toks, 0).value.expr
  {
    var top :- Assignment(toks, 0);
    var _ :- Consume(toks, top.next, Tokens.EOF);
    Ok(top.expr)
  }
}
