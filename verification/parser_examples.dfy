/**
 How the parser of chalk-core/src/ast.rs groups operators, shown on token
 lists: each precedence level passes a finished operand up when the next
 token is not one of its operators, each loop folds one more operand into the
 left-hand tree, and the examples of the source's tests follow from those
 steps.
 */
module ParserExamples {
  import opened Results
  import Tokens
  import opened Ast
  import opened Parser
  import ParserProperties
  import Tokenizer
  import TokenizerExamples

  // ---------------------------------------------------------------------------
  // Passing an operand up a level
  // ---------------------------------------------------------------------------

  lemma RiseFactorial(toks: seq<Tokens.Token>, pos: nat, e: Expr, n: nat)
    requires pos <= |toks| && Factor(toks, pos) == Ok(Parsed(e, n)) && n < |toks| && toks[n] != Tokens.Exclamation
    ensures Parser.Factorial(toks, pos) == Ok(Parsed(e, n))
  {}

  lemma RisePower(toks: seq<Tokens.Token>, pos: nat, e: Expr, n: nat)
    requires pos <= |toks| && Parser.Factorial(toks, pos) == Ok(Parsed(e, n)) && toks[n] != Tokens.Caret
    ensures Power(toks, pos) == Ok(Parsed(e, n))
  {}

  lemma RiseTerm(toks: seq<Tokens.Token>, pos: nat, e: Expr, n: nat)
    requires pos <= |toks| && Power(toks, pos) == Ok(Parsed(e, n))
    requires toks[n] != Tokens.Multiply && toks[n] != Tokens.Divide && toks[n] != Tokens.OpenParen
    ensures Term(toks, pos) == Ok(Parsed(e, n))
  {}

  lemma RiseExpression(toks: seq<Tokens.Token>, pos: nat, e: Expr, n: nat)
    requires pos <= |toks| && Term(toks, pos) == Ok(Parsed(e, n)) && toks[n] != Tokens.Plus && toks[n] != Tokens.Minus
    ensures Expression(toks, pos) == Ok(Parsed(e, n))
  {}

  lemma RiseComparison(toks: seq<Tokens.Token>, pos: nat, e: Expr, n: nat)
    requires pos <= |toks| && Expression(toks, pos) == Ok(Parsed(e, n)) && ComparisonOp(toks[n]) == None
    ensures Comparison(toks, pos) == Ok(Parsed(e, n))
  {}

  lemma RiseChained(toks: seq<Tokens.Token>, pos: nat, e: Expr, n: nat)
    requires pos <= |toks| && Comparison(toks, pos) == Ok(Parsed(e, n)) && n < |toks| && toks[n] != Tokens.And && toks[n] != Tokens.Or
    ensures Chained(toks, pos) == Ok(Parsed(e, n))
  {}

  // ---------------------------------------------------------------------------
  // Entering a loop, one round of a loop, leaving a loop
  // ---------------------------------------------------------------------------

  lemma PowerFrom(toks: seq<Tokens.Token>, pos: nat, e: Expr, n: nat)
    requires pos <= |toks| && Parser.Factorial(toks, pos) == Ok(Parsed(e, n))
    ensures Power(toks, pos) == PowerLoop(toks, e, n)
  {}

  lemma TermFrom(toks: seq<Tokens.Token>, pos: nat, e: Expr, n: nat)
    requires pos <= |toks| && Power(toks, pos) == Ok(Parsed(e, n))
    ensures Term(toks, pos) == TermLoop(toks, e, n)
  {}

  lemma ExpressionFrom(toks: seq<Tokens.Token>, pos: nat, e: Expr, n: nat)
    requires pos <= |toks| && Term(toks, pos) == Ok(Parsed(e, n))
    ensures Expression(toks, pos) == ExpressionLoop(toks, e, n)
  {}

  lemma ChainedFrom(toks: seq<Tokens.Token>, pos: nat, e: Expr, n: nat)
    requires pos <= |toks| && Comparison(toks, pos) == Ok(Parsed(e, n))
    ensures Chained(toks, pos) == ChainedLoop(toks, e, n)
  {}

  /** The operator a `+`/`-` token stands for. */
  function AddOp(t: Tokens.Token): BinaryOperator {
    if t == Tokens.Plus then Add else Subtract
  }

  /** The operator a `*`/`/` token stands for. */
  function MulOp(t: Tokens.Token): BinaryOperator {
    if t == Tokens.Divide then Divide else Multiply
  }

  /** The operator a `&&`/`||` token stands for. */
  function LogicOp(t: Tokens.Token): BinaryOperator {
    if t == Tokens.And then And else Or
  }

  lemma PowerStep(toks: seq<Tokens.Token>, start: Expr, pos: nat, from: nat, right: Expr, n: nat)
    requires pos < |toks| && toks[pos] == Tokens.Caret
    requires from == pos + 1 && Parser.Factorial(toks, from) == Ok(Parsed(right, n))
    ensures PowerLoop(toks, start, pos) == PowerLoop(toks, BinaryOp(Pow, start, right), n)
  {}

  lemma TermStep(toks: seq<Tokens.Token>, start: Expr, pos: nat, from: nat, right: Expr, n: nat)
    requires pos < |toks| && (toks[pos] == Tokens.Multiply || toks[pos] == Tokens.Divide)
    requires from == pos + 1 && Power(toks, from) == Ok(Parsed(right, n))
    ensures TermLoop(toks, start, pos) == TermLoop(toks, BinaryOp(MulOp(toks[pos]), start, right), n)
  {}

  lemma TermParenStep(toks: seq<Tokens.Token>, start: Expr, pos: nat, from: nat, inner: Expr, n: nat, after: nat)
    requires pos < |toks| && toks[pos] == Tokens.OpenParen && from == pos + 1
    requires Chained(toks, from) == Ok(Parsed(inner, n)) && after == n + 1 && n < |toks| && toks[n] == Tokens.CloseParen
    ensures TermLoop(toks, start, pos) == TermLoop(toks, BinaryOp(Multiply, start, inner), after)
  {
    CloseParenConsumed(toks, n, after);
  }

  lemma CloseParenConsumed(toks: seq<Tokens.Token>, n: nat, after: nat)
    requires n < |toks| && toks[n] == Tokens.CloseParen && after == n + 1
    ensures Consume(toks, n, Tokens.CloseParen) == Ok(after)
  {}

  lemma ExpressionStep(toks: seq<Tokens.Token>, start: Expr, pos: nat, from: nat, right: Expr, n: nat)
    requires pos < |toks| && (toks[pos] == Tokens.Plus || toks[pos] == Tokens.Minus)
    requires from == pos + 1 && Term(toks, from) == Ok(Parsed(right, n))
    ensures ExpressionLoop(toks, start, pos) == ExpressionLoop(toks, BinaryOp(AddOp(toks[pos]), start, right), n)
  {}

  lemma ChainedStep(toks: seq<Tokens.Token>, start: Expr, pos: nat, from: nat, right: Expr, n: nat)
    requires pos < |toks| && (toks[pos] == Tokens.And || toks[pos] == Tokens.Or)
    requires from == pos + 1 && Comparison(toks, from) == Ok(Parsed(right, n))
    ensures ChainedLoop(toks, start, pos) == ChainedLoop(toks, BinaryOp(LogicOp(toks[pos]), start, right), n)
  {}

  lemma PowerStop(toks: seq<Tokens.Token>, e: Expr, n: nat)
    requires n < |toks| && toks[n] != Tokens.Caret
    ensures PowerLoop(toks, e, n) == Ok(Parsed(e, n))
  {}

  lemma TermStop(toks: seq<Tokens.Token>, e: Expr, n: nat)
    requires n < |toks| && toks[n] != Tokens.Multiply && toks[n] != Tokens.Divide && toks[n] != Tokens.OpenParen
    ensures TermLoop(toks, e, n) == Ok(Parsed(e, n))
  {}

  lemma ExpressionStop(toks: seq<Tokens.Token>, e: Expr, n: nat)
    requires n < |toks| && toks[n] != Tokens.Plus && toks[n] != Tokens.Minus
    ensures ExpressionLoop(toks, e, n) == Ok(Parsed(e, n))
  {}

  lemma ChainedStop(toks: seq<Tokens.Token>, e: Expr, n: nat)
    requires n < |toks| && toks[n] != Tokens.And && toks[n] != Tokens.Or
    ensures ChainedLoop(toks, e, n) == Ok(Parsed(e, n))
  {}

  // ---------------------------------------------------------------------------
  // Atoms and the top level
  // ---------------------------------------------------------------------------

  /** An integer literal followed by neither `!` nor `^` is a whole power. */
  lemma IntegerPower(toks: seq<Tokens.Token>, pos: nat, i: int)
    requires pos + 1 < |toks| && toks[pos] == Tokens.Integer(i)
    requires toks[pos + 1] != Tokens.Exclamation && toks[pos + 1] != Tokens.Caret
    ensures Power(toks, pos) == Ok(Parsed(Expr.Integer(i), pos + 1))
  {
    RiseFactorial(toks, pos, Expr.Integer(i), pos + 1);
  }

  /** An integer literal followed by no postfix, power or product operator is a whole term. */
  lemma IntegerTerm(toks: seq<Tokens.Token>, pos: nat, i: int)
    requires pos + 1 < |toks| && toks[pos] == Tokens.Integer(i)
    requires !(toks[pos + 1] in {Tokens.Exclamation, Tokens.Caret, Tokens.Multiply, Tokens.Divide, Tokens.OpenParen})
    ensures Term(toks, pos) == Ok(Parsed(Expr.Integer(i), pos + 1))
  {
    IntegerPower(toks, pos, i);
  }

  /** A `(` in atom position reads a chain and its `)` and keeps the parentheses as a `Paren` node. */
  lemma FactorParen(toks: seq<Tokens.Token>, pos: nat, from: nat, inner: Expr, n: nat)
    requires pos < |toks| && toks[pos] == Tokens.OpenParen && from == pos + 1
    requires Chained(toks, from) == Ok(Parsed(inner, n)) && n < |toks| && toks[n] == Tokens.CloseParen
    ensures Factor(toks, pos) == Ok(Parsed(Paren(inner), n + 1))
  {}

  /** A statement that does not start with a variable is a chain, and it parses when the chain stops at `EOF`. */
  lemma ParseOfChain(toks: seq<Tokens.Token>, e: Expr, n: nat)
    requires 1 <= n < |toks| && !toks[0].Variable?
    requires Chained(toks, 0) == Ok(Parsed(e, n))
    ensures Parse(toks) == if toks[n] == Tokens.EOF then Ok(e) else Err(ParseError)
  {}

  /** An expression followed by `)`, `,`, `|` or `EOF` is a whole chain. */
  lemma ExpressionChained(toks: seq<Tokens.Token>, pos: nat, e: Expr, n: nat)
    requires pos <= |toks| && Expression(toks, pos) == Ok(Parsed(e, n))
    requires toks[n] in {Tokens.CloseParen, Tokens.Comma, Tokens.Bar, Tokens.EOF}
    ensures Chained(toks, pos) == Ok(Parsed(e, n))
  {
    RiseComparison(toks, pos, e, n);
  }

  /** A term followed by `)`, `,`, `|` or `EOF` is a whole chain. */
  lemma TermChained(toks: seq<Tokens.Token>, pos: nat, e: Expr, n: nat)
    requires pos <= |toks| && Term(toks, pos) == Ok(Parsed(e, n))
    requires toks[n] in {Tokens.CloseParen, Tokens.Comma, Tokens.Bar, Tokens.EOF}
    ensures Chained(toks, pos) == Ok(Parsed(e, n))
  {
    RiseExpression(toks, pos, e, n);
    ExpressionChained(toks, pos, e, n);
  }

  /** A factor followed by `)`, `,`, `|` or `EOF` is a whole chain. */
  lemma FactorChained(toks: seq<Tokens.Token>, pos: nat, e: Expr, n: nat)
    requires pos <= |toks| && Factor(toks, pos) == Ok(Parsed(e, n)) && n < |toks|
    requires toks[n] in {Tokens.CloseParen, Tokens.Comma, Tokens.Bar, Tokens.EOF}
    ensures Chained(toks, pos) == Ok(Parsed(e, n))
  {
    RiseFactorial(toks, pos, e, n);
    RisePower(toks, pos, e, n);
    RiseTerm(toks, pos, e, n);
    TermChained(toks, pos, e, n);
  }

  /** An integer literal followed by `)`, `,`, `|` or `EOF` is a whole chain. */
  lemma IntegerChained(toks: seq<Tokens.Token>, pos: nat, i: int)
    requires pos + 1 < |toks| && toks[pos] == Tokens.Integer(i)
    requires toks[pos + 1] in {Tokens.CloseParen, Tokens.Comma, Tokens.Bar, Tokens.EOF}
    ensures Chained(toks, pos) == Ok(Parsed(Expr.Integer(i), pos + 1))
  {
    IntegerTerm(toks, pos, i);
    TermChained(toks, pos, Expr.Integer(i), pos + 1);
  }

  /** A failing term makes the whole chain fail the same way. */
  lemma TermFailureChained(toks: seq<Tokens.Token>, pos: nat, f: ParseFailure)
    requires pos <= |toks| && Term(toks, pos) == Err(f)
    ensures Chained(toks, pos) == Err(f)
  {
    assert Expression(toks, pos) == Err(f);
  }

  /** A statement that does not start with a variable fails exactly as its chain does. */
  lemma ParseOfChainFailure(toks: seq<Tokens.Token>, f: ParseFailure)
    requires 2 <= |toks| && !toks[0].Variable? && Chained(toks, 0) == Err(f)
    ensures Parse(toks) == Err(f)
  {}

  // ---------------------------------------------------------------------------
  // One comparison per chain
  // ---------------------------------------------------------------------------

  /** `a s b` with a comparison token `s` compares two integers. */
  lemma CompareIntegers(toks: seq<Tokens.Token>, a: int, b: int, op: BinaryOperator)
    requires |toks| >= 4 && toks[0] == Tokens.Integer(a) && ComparisonOp(toks[1]) == Some(op) && toks[2] == Tokens.Integer(b)
    requires ComparisonOp(toks[3]).Some? || toks[3] == Tokens.EOF
    ensures Comparison(toks, 0) == Ok(Parsed(BinaryOp(op, Expr.Integer(a), Expr.Integer(b)), 3))
  {
    IntegerTerm(toks, 0, a);
    RiseExpression(toks, 0, Expr.Integer(a), 1);
    IntegerTerm(toks, 2, b);
    RiseExpression(toks, 2, Expr.Integer(b), 3);
  }

  /**
   A chain holds one comparison per operand of `&&`/`||`: when two expressions
   `a` and `b` are compared and a second comparison token follows `b`, that
   token is left over and `parse` rejects the statement, whatever `a` and `b`
   are.
   */
  lemma ComparisonsOfExpressionsDoNotChain(toks: seq<Tokens.Token>, a: Expr, n1: nat, from: nat, b: Expr, n2: nat)
    requires Expression(toks, 0) == Ok(Parsed(a, n1)) && n1 < |toks| && ComparisonOp(toks[n1]).Some?
    requires from == n1 + 1 && Expression(toks, from) == Ok(Parsed(b, n2))
    requires n2 < |toks| && ComparisonOp(toks[n2]).Some? && !toks[0].Variable?
    ensures Comparison(toks, 0) == Ok(Parsed(BinaryOp(ComparisonOp(toks[n1]).value, a, b), n2))
    ensures Parse(toks) == Err(ParseError)
  {
    var ab := BinaryOp(ComparisonOp(toks[n1]).value, a, b);
    assert Comparison(toks, 0) == Ok(Parsed(ab, n2));
    ChainedFrom(toks, 0, ab, n2);
    ChainedStop(toks, ab, n2);
    ParseOfChain(toks, ab, n2);
  }

  /** Two integers compared, then a second comparison token: rejected. */
  lemma IntegersDoNotChain(toks: seq<Tokens.Token>, a: int, b: int)
    requires |toks| >= 4 && toks[0] == Tokens.Integer(a) && ComparisonOp(toks[1]).Some?
    requires toks[2] == Tokens.Integer(b) && ComparisonOp(toks[3]).Some?
    ensures Parse(toks) == Err(ParseError)
  {
    IntegerTerm(toks, 0, a);
    RiseExpression(toks, 0, Expr.Integer(a), 1);
    IntegerTerm(toks, 2, b);
    RiseExpression(toks, 2, Expr.Integer(b), 3);
    ComparisonsOfExpressionsDoNotChain(toks, Expr.Integer(a), 1, 2, Expr.Integer(b), 3);
  }

  /** `1 == 2 == 3`, with any two comparison operators and any three integers, is rejected. */
  lemma ComparisonsDoNotChain(a: int, b: int, c: int, s: Tokens.Token, t: Tokens.Token)
    requires ComparisonOp(s).Some? && ComparisonOp(t).Some?
    ensures Parse([Tokens.Integer(a), s, Tokens.Integer(b), t, Tokens.Integer(c), Tokens.EOF]) == Err(ParseError)
  {
    IntegersDoNotChain([Tokens.Integer(a), s, Tokens.Integer(b), t, Tokens.Integer(c), Tokens.EOF], a, b);
  }

  /** A single comparison is accepted. */
  lemma SingleComparison(a: int, b: int, s: Tokens.Token)
    requires ComparisonOp(s).Some?
    ensures Parse([Tokens.Integer(a), s, Tokens.Integer(b), Tokens.EOF]) == Ok(BinaryOp(ComparisonOp(s).value, Expr.Integer(a), Expr.Integer(b)))
  {
    var toks := [Tokens.Integer(a), s, Tokens.Integer(b), Tokens.EOF];
    var ab := BinaryOp(ComparisonOp(s).value, Expr.Integer(a), Expr.Integer(b));
    CompareIntegers(toks, a, b, ComparisonOp(s).value);
    RiseChained(toks, 0, ab, 3);
    ParseOfChain(toks, ab, 3);
  }

  // ---------------------------------------------------------------------------
  // Left associativity
  // ---------------------------------------------------------------------------

  /** One round of the `+`/`-` loop whose right operand is an integer literal. */
  lemma ExpressionStepInteger(toks: seq<Tokens.Token>, start: Expr, pos: nat, from: nat, after: nat, i: int)
    requires from == pos + 1 && after == pos + 2 && after < |toks|
    requires (toks[pos] == Tokens.Plus || toks[pos] == Tokens.Minus) && toks[from] == Tokens.Integer(i)
    requires !(toks[after] in {Tokens.Exclamation, Tokens.Caret, Tokens.Multiply, Tokens.Divide, Tokens.OpenParen})
    ensures ExpressionLoop(toks, start, pos) == ExpressionLoop(toks, BinaryOp(AddOp(toks[pos]), start, Expr.Integer(i)), after)
  {
    IntegerTerm(toks, from, i);
    ExpressionStep(toks, start, pos, from, Expr.Integer(i), after);
  }

  /**
   `a ± b ± c` groups to the left for any three terms: the `+`/`-` loop folds
   each term into the tree built so far.
   */
  lemma SumsOfTermsGroupLeft(toks: seq<Tokens.Token>, pos: nat, a: Expr, n1: nat, from1: nat, b: Expr, n2: nat,
                             from2: nat, c: Expr, n3: nat)
    requires pos <= |toks| && Term(toks, pos) == Ok(Parsed(a, n1))
    requires n1 < |toks| && (toks[n1] == Tokens.Plus || toks[n1] == Tokens.Minus)
    requires from1 == n1 + 1 && Term(toks, from1) == Ok(Parsed(b, n2))
    requires n2 < |toks| && (toks[n2] == Tokens.Plus || toks[n2] == Tokens.Minus)
    requires from2 == n2 + 1 && Term(toks, from2) == Ok(Parsed(c, n3))
    requires n3 < |toks| && toks[n3] != Tokens.Plus && toks[n3] != Tokens.Minus
    ensures Expression(toks, pos) == Ok(Parsed(BinaryOp(AddOp(toks[n2]), BinaryOp(AddOp(toks[n1]), a, b), c), n3))
  {
    var ab := BinaryOp(AddOp(toks[n1]), a, b);
    ExpressionFrom(toks, pos, a, n1);
    ExpressionStep(toks, a, n1, from1, b, n2);
    ExpressionStep(toks, ab, n2, from2, c, n3);
    ExpressionStop(toks, BinaryOp(AddOp(toks[n2]), ab, c), n3);
  }

  lemma SumOfThree(toks: seq<Tokens.Token>, a: int, b: int, c: int)
    requires |toks| == 6 && toks[0] == Tokens.Integer(a) && toks[2] == Tokens.Integer(b) && toks[4] == Tokens.Integer(c)
    requires toks[1] in {Tokens.Plus, Tokens.Minus} && toks[3] in {Tokens.Plus, Tokens.Minus} && toks[5] == Tokens.EOF
    ensures Expression(toks, 0) ==
      Ok(Parsed(BinaryOp(AddOp(toks[3]), BinaryOp(AddOp(toks[1]), Expr.Integer(a), Expr.Integer(b)), Expr.Integer(c)), 5))
  {
    IntegerTerm(toks, 0, a);
    IntegerTerm(toks, 2, b);
    IntegerTerm(toks, 4, c);
    SumsOfTermsGroupLeft(toks, 0, Expr.Integer(a), 1, 2, Expr.Integer(b), 3, 4, Expr.Integer(c), 5);
  }

  /** `a ± b ± c` groups to the left. */
  lemma SumsGroupLeft(a: int, b: int, c: int, s: Tokens.Token, t: Tokens.Token)
    requires s in {Tokens.Plus, Tokens.Minus} && t in {Tokens.Plus, Tokens.Minus}
    ensures Parse([Tokens.Integer(a), s, Tokens.Integer(b), t, Tokens.Integer(c), Tokens.EOF])
         == Ok(BinaryOp(AddOp(t), BinaryOp(AddOp(s), Expr.Integer(a), Expr.Integer(b)), Expr.Integer(c)))
  {
    var toks := [Tokens.Integer(a), s, Tokens.Integer(b), t, Tokens.Integer(c), Tokens.EOF];
    var abc := BinaryOp(AddOp(t), BinaryOp(AddOp(s), Expr.Integer(a), Expr.Integer(b)), Expr.Integer(c));
    SumOfThree(toks, a, b, c);
    RiseComparison(toks, 0, abc, 5);
    RiseChained(toks, 0, abc, 5);
    ParseOfChain(toks, abc, 5);
  }

  /** One round of the `*`/`/` loop whose right operand is an integer literal. */
  lemma TermStepInteger(toks: seq<Tokens.Token>, start: Expr, pos: nat, from: nat, after: nat, i: int)
    requires from == pos + 1 && after == pos + 2 && after < |toks|
    requires (toks[pos] == Tokens.Multiply || toks[pos] == Tokens.Divide) && toks[from] == Tokens.Integer(i)
    requires toks[after] != Tokens.Exclamation && toks[after] != Tokens.Caret
    ensures TermLoop(toks, start, pos) == TermLoop(toks, BinaryOp(MulOp(toks[pos]), start, Expr.Integer(i)), after)
  {
    IntegerPower(toks, from, i);
    TermStep(toks, start, pos, from, Expr.Integer(i), after);
  }

  /**
   `a × b × c`, with `×` either of `*` and `/`, groups to the left for any
   three powers: the `term` loop folds each power into the tree built so far.
   */
  lemma ProductsOfPowersGroupLeft(toks: seq<Tokens.Token>, pos: nat, a: Expr, n1: nat, from1: nat, b: Expr, n2: nat,
                                  from2: nat, c: Expr, n3: nat)
    requires pos <= |toks| && Power(toks, pos) == Ok(Parsed(a, n1))
    requires n1 < |toks| && (toks[n1] == Tokens.Multiply || toks[n1] == Tokens.Divide)
    requires from1 == n1 + 1 && Power(toks, from1) == Ok(Parsed(b, n2))
    requires n2 < |toks| && (toks[n2] == Tokens.Multiply || toks[n2] == Tokens.Divide)
    requires from2 == n2 + 1 && Power(toks, from2) == Ok(Parsed(c, n3))
    requires n3 < |toks| && toks[n3] != Tokens.Multiply && toks[n3] != Tokens.Divide && toks[n3] != Tokens.OpenParen
    ensures Term(toks, pos) == Ok(Parsed(BinaryOp(MulOp(toks[n2]), BinaryOp(MulOp(toks[n1]), a, b), c), n3))
  {
    var ab := BinaryOp(MulOp(toks[n1]), a, b);
    TermFrom(toks, pos, a, n1);
    TermStep(toks, a, n1, from1, b, n2);
    TermStep(toks, ab, n2, from2, c, n3);
    TermStop(toks, BinaryOp(MulOp(toks[n2]), ab, c), n3);
  }

  lemma ProductOfThree(toks: seq<Tokens.Token>, a: int, b: int, c: int)
    requires |toks| == 6 && toks[0] == Tokens.Integer(a) && toks[2] == Tokens.Integer(b) && toks[4] == Tokens.Integer(c)
    requires toks[1] in {Tokens.Multiply, Tokens.Divide} && toks[3] in {Tokens.Multiply, Tokens.Divide} && toks[5] == Tokens.EOF
    ensures Term(toks, 0) ==
      Ok(Parsed(BinaryOp(MulOp(toks[3]), BinaryOp(MulOp(toks[1]), Expr.Integer(a), Expr.Integer(b)), Expr.Integer(c)), 5))
  {
    IntegerPower(toks, 0, a);
    IntegerPower(toks, 2, b);
    IntegerPower(toks, 4, c);
    ProductsOfPowersGroupLeft(toks, 0, Expr.Integer(a), 1, 2, Expr.Integer(b), 3, 4, Expr.Integer(c), 5);
  }

  /** `a × b × c`, with `×` either of `*` and `/`, groups to the left. */
  lemma ProductsGroupLeft(a: int, b: int, c: int, s: Tokens.Token, t: Tokens.Token)
    requires s in {Tokens.Multiply, Tokens.Divide} && t in {Tokens.Multiply, Tokens.Divide}
    ensures Parse([Tokens.Integer(a), s, Tokens.Integer(b), t, Tokens.Integer(c), Tokens.EOF])
         == Ok(BinaryOp(MulOp(t), BinaryOp(MulOp(s), Expr.Integer(a), Expr.Integer(b)), Expr.Integer(c)))
  {
    var toks := [Tokens.Integer(a), s, Tokens.Integer(b), t, Tokens.Integer(c), Tokens.EOF];
    var abc := BinaryOp(MulOp(t), BinaryOp(MulOp(s), Expr.Integer(a), Expr.Integer(b)), Expr.Integer(c));
    ProductOfThree(toks, a, b, c);
    TermChained(toks, 0, abc, 5);
    ParseOfChain(toks, abc, 5);
  }

  /**
   `a ^ b ^ c` groups to the left for any three factorials: the `power` loop
   folds each exponent into the tree built so far.
   */
  lemma PowersOfFactorialsGroupLeft(toks: seq<Tokens.Token>, pos: nat, a: Expr, n1: nat, from1: nat, b: Expr, n2: nat,
                                    from2: nat, c: Expr, n3: nat)
    requires pos <= |toks| && Parser.Factorial(toks, pos) == Ok(Parsed(a, n1))
    requires n1 < |toks| && toks[n1] == Tokens.Caret
    requires from1 == n1 + 1 && Parser.Factorial(toks, from1) == Ok(Parsed(b, n2))
    requires n2 < |toks| && toks[n2] == Tokens.Caret
    requires from2 == n2 + 1 && Parser.Factorial(toks, from2) == Ok(Parsed(c, n3))
    requires n3 < |toks| && toks[n3] != Tokens.Caret
    ensures Power(toks, pos) == Ok(Parsed(BinaryOp(Pow, BinaryOp(Pow, a, b), c), n3))
  {
    var ab := BinaryOp(Pow, a, b);
    PowerFrom(toks, pos, a, n1);
    PowerStep(toks, a, n1, from1, b, n2);
    PowerStep(toks, ab, n2, from2, c, n3);
    PowerStop(toks, BinaryOp(Pow, ab, c), n3);
  }

  lemma PowerOfThree(toks: seq<Tokens.Token>, a: int, b: int, c: int)
    requires |toks| == 6 && toks[0] == Tokens.Integer(a) && toks[2] == Tokens.Integer(b) && toks[4] == Tokens.Integer(c)
    requires toks[1] == Tokens.Caret && toks[3] == Tokens.Caret && toks[5] == Tokens.EOF
    ensures Power(toks, 0) ==
      Ok(Parsed(BinaryOp(Pow, BinaryOp(Pow, Expr.Integer(a), Expr.Integer(b)), Expr.Integer(c)), 5))
  {
    RiseFactorial(toks, 0, Expr.Integer(a), 1);
    RiseFactorial(toks, 2, Expr.Integer(b), 3);
    RiseFactorial(toks, 4, Expr.Integer(c), 5);
    PowersOfFactorialsGroupLeft(toks, 0, Expr.Integer(a), 1, 2, Expr.Integer(b), 3, 4, Expr.Integer(c), 5);
  }

  /** `a ^ b ^ c` groups to the left, unlike the usual mathematical reading. */
  lemma PowersGroupLeft(a: int, b: int, c: int)
    ensures Parse([Tokens.Integer(a), Tokens.Caret, Tokens.Integer(b), Tokens.Caret, Tokens.Integer(c), Tokens.EOF])
         == Ok(BinaryOp(Pow, BinaryOp(Pow, Expr.Integer(a), Expr.Integer(b)), Expr.Integer(c)))
  {
    var toks := [Tokens.Integer(a), Tokens.Caret, Tokens.Integer(b), Tokens.Caret, Tokens.Integer(c), Tokens.EOF];
    var abc := BinaryOp(Pow, BinaryOp(Pow, Expr.Integer(a), Expr.Integer(b)), Expr.Integer(c));
    PowerOfThree(toks, a, b, c);
    RiseTerm(toks, 0, abc, 5);
    TermChained(toks, 0, abc, 5);
    ParseOfChain(toks, abc, 5);
  }

  /** `2^3^2` is `(2^3)^2`. */
  lemma TwoCubedSquared()
    ensures Parse([Tokens.Integer(2), Tokens.Caret, Tokens.Integer(3), Tokens.Caret, Tokens.Integer(2), Tokens.EOF])
         == Ok(BinaryOp(Pow, BinaryOp(Pow, Expr.Integer(2), Expr.Integer(3)), Expr.Integer(2)))
  {
    PowersGroupLeft(2, 3, 2);
  }

  /** The tokens that end a comparison without being part of one: a connective or what closes a chain. */
  predicate EndsComparison(t: Tokens.Token) {
    t in {Tokens.And, Tokens.Or, Tokens.CloseParen, Tokens.Comma, Tokens.Bar, Tokens.EOF}
  }

  /** None of those tokens continues a factor, a power, a term, an expression or a comparison. */
  lemma EndsComparisonFacts(t: Tokens.Token)
    requires EndsComparison(t)
    ensures !(t in {Tokens.Exclamation, Tokens.Caret, Tokens.Multiply, Tokens.Divide, Tokens.OpenParen})
    ensures t != Tokens.Plus && t != Tokens.Minus && ComparisonOp(t) == None
  {}

  /** An integer literal followed by `&&`, `||`, `)`, `,`, `|` or `EOF` is a whole comparison. */
  lemma IntegerComparison(toks: seq<Tokens.Token>, pos: nat, next: nat, i: int)
    requires next == pos + 1 && next < |toks| && toks[pos] == Tokens.Integer(i) && EndsComparison(toks[next])
    ensures Comparison(toks, pos) == Ok(Parsed(Expr.Integer(i), next))
  {
    EndsComparisonFacts(toks[next]);
    IntegerTerm(toks, pos, i);
    RiseExpression(toks, pos, Expr.Integer(i), next);
    RiseComparison(toks, pos, Expr.Integer(i), next);
  }

  /**
   `a && b || c`, with either connective in either place, groups to the left
   for any three comparisons: the `chained` loop folds each comparison into
   the tree built so far, and neither connective binds tighter.
   */
  lemma ConnectivesOfComparisonsGroupLeft(toks: seq<Tokens.Token>, pos: nat, a: Expr, n1: nat, from1: nat, b: Expr,
                                          n2: nat, from2: nat, c: Expr, n3: nat)
    requires pos <= |toks| && Comparison(toks, pos) == Ok(Parsed(a, n1))
    requires n1 < |toks| && (toks[n1] == Tokens.And || toks[n1] == Tokens.Or)
    requires from1 == n1 + 1 && Comparison(toks, from1) == Ok(Parsed(b, n2))
    requires n2 < |toks| && (toks[n2] == Tokens.And || toks[n2] == Tokens.Or)
    requires from2 == n2 + 1 && Comparison(toks, from2) == Ok(Parsed(c, n3))
    requires n3 < |toks| && toks[n3] != Tokens.And && toks[n3] != Tokens.Or
    ensures Chained(toks, pos) == Ok(Parsed(BinaryOp(LogicOp(toks[n2]), BinaryOp(LogicOp(toks[n1]), a, b), c), n3))
  {
    var ab := BinaryOp(LogicOp(toks[n1]), a, b);
    ChainedFrom(toks, pos, a, n1);
    ChainedStep(toks, a, n1, from1, b, n2);
    ChainedStep(toks, ab, n2, from2, c, n3);
    ChainedStop(toks, BinaryOp(LogicOp(toks[n2]), ab, c), n3);
  }

  lemma ConnectivesOfThree(toks: seq<Tokens.Token>, a: int, b: int, c: int)
    requires |toks| == 6 && toks[0] == Tokens.Integer(a) && toks[2] == Tokens.Integer(b) && toks[4] == Tokens.Integer(c)
    requires toks[1] in {Tokens.And, Tokens.Or} && toks[3] in {Tokens.And, Tokens.Or} && toks[5] == Tokens.EOF
    ensures Chained(toks, 0) ==
      Ok(Parsed(BinaryOp(LogicOp(toks[3]), BinaryOp(LogicOp(toks[1]), Expr.Integer(a), Expr.Integer(b)), Expr.Integer(c)), 5))
  {
    IntegerComparison(toks, 0, 1, a);
    IntegerComparison(toks, 2, 3, b);
    IntegerComparison(toks, 4, 5, c);
    ConnectivesOfComparisonsGroupLeft(toks, 0, Expr.Integer(a), 1, 2, Expr.Integer(b), 3, 4, Expr.Integer(c), 5);
  }

  /** `a && b || c`, with either connective in either place, groups to the left: neither binds tighter. */
  lemma ConnectivesGroupLeft(a: int, b: int, c: int, s: Tokens.Token, t: Tokens.Token)
    requires s in {Tokens.And, Tokens.Or} && t in {Tokens.And, Tokens.Or}
    ensures Parse([Tokens.Integer(a), s, Tokens.Integer(b), t, Tokens.Integer(c), Tokens.EOF])
         == Ok(BinaryOp(LogicOp(t), BinaryOp(LogicOp(s), Expr.Integer(a), Expr.Integer(b)), Expr.Integer(c)))
  {
    var toks := [Tokens.Integer(a), s, Tokens.Integer(b), t, Tokens.Integer(c), Tokens.EOF];
    var abc := BinaryOp(LogicOp(t), BinaryOp(LogicOp(s), Expr.Integer(a), Expr.Integer(b)), Expr.Integer(c));
    ConnectivesOfThree(toks, a, b, c);
    ParseOfChain(toks, abc, 5);
  }

  // ---------------------------------------------------------------------------
  // Parentheses
  // ---------------------------------------------------------------------------

  lemma ImplicitTerm(toks: seq<Tokens.Token>, a: int, b: int)
    requires |toks| == 5 && toks[0] == Tokens.Integer(a) && toks[1] == Tokens.OpenParen && toks[2] == Tokens.Integer(b)
    requires toks[3] == Tokens.CloseParen && toks[4] == Tokens.EOF
    ensures Term(toks, 0) == Ok(Parsed(BinaryOp(Multiply, Expr.Integer(a), Expr.Integer(b)), 4))
  {
    IntegerPower(toks, 0, a);
    TermFrom(toks, 0, Expr.Integer(a), 1);
    IntegerChained(toks, 2, b);
    TermParenStep(toks, Expr.Integer(a), 1, 2, Expr.Integer(b), 3, 4);
    TermStop(toks, BinaryOp(Multiply, Expr.Integer(a), Expr.Integer(b)), 4);
  }

  /** `a(b)`: a `(` right after an operand multiplies by the chain inside, with no `Paren` node. */
  lemma ImplicitMultiplication(a: int, b: int)
    ensures Parse([Tokens.Integer(a), Tokens.OpenParen, Tokens.Integer(b), Tokens.CloseParen, Tokens.EOF])
         == Ok(BinaryOp(Multiply, Expr.Integer(a), Expr.Integer(b)))
  {
    var toks := [Tokens.Integer(a), Tokens.OpenParen, Tokens.Integer(b), Tokens.CloseParen, Tokens.EOF];
    var ab := BinaryOp(Multiply, Expr.Integer(a), Expr.Integer(b));
    ImplicitTerm(toks, a, b);
    TermChained(toks, 0, ab, 4);
    ParseOfChain(toks, ab, 4);
  }

  /** `(b)`: a `(` in atom position keeps a `Paren` node. */
  lemma ParenthesisedAtom(b: int)
    ensures Parse([Tokens.OpenParen, Tokens.Integer(b), Tokens.CloseParen, Tokens.EOF]) == Ok(Paren(Expr.Integer(b)))
  {
    var toks := [Tokens.OpenParen, Tokens.Integer(b), Tokens.CloseParen, Tokens.EOF];
    var e := Paren(Expr.Integer(b));
    IntegerChained(toks, 1, b);
    FactorParen(toks, 0, 1, Expr.Integer(b), 2);
    FactorChained(toks, 0, e, 3);
    ParseOfChain(toks, e, 3);
  }

  /** A `(` in the `term` loop whose chain is not followed by `)` fails. */
  lemma TermParenUnclosed(toks: seq<Tokens.Token>, start: Expr, pos: nat, from: nat, inner: Expr, n: nat)
    requires pos < |toks| && toks[pos] == Tokens.OpenParen && from == pos + 1
    requires Chained(toks, from) == Ok(Parsed(inner, n)) && n < |toks| && toks[n] != Tokens.CloseParen
    ensures TermLoop(toks, start, pos) == Err(ParseError)
  {}

  lemma UnclosedTerm(toks: seq<Tokens.Token>, a: int, b: int)
    requires |toks| == 4 && toks[0] == Tokens.Integer(a) && toks[1] == Tokens.OpenParen
    requires toks[2] == Tokens.Integer(b) && toks[3] == Tokens.EOF
    ensures Term(toks, 0) == Err(ParseError)
  {
    IntegerPower(toks, 0, a);
    TermFrom(toks, 0, Expr.Integer(a), 1);
    IntegerChained(toks, 2, b);
    TermParenUnclosed(toks, Expr.Integer(a), 1, 2, Expr.Integer(b), 3);
  }

  /** `a(b` without its `)` is a parse error. */
  lemma ImplicitNeedsClose(a: int, b: int)
    ensures Parse([Tokens.Integer(a), Tokens.OpenParen, Tokens.Integer(b), Tokens.EOF]) == Err(ParseError)
  {
    var toks := [Tokens.Integer(a), Tokens.OpenParen, Tokens.Integer(b), Tokens.EOF];
    UnclosedTerm(toks, a, b);
    TermFailureChained(toks, 0, ParseError);
    ParseOfChainFailure(toks, ParseError);
  }

  // ---------------------------------------------------------------------------
  // Postfix `!`
  // ---------------------------------------------------------------------------

  /** `n` exclamation marks. */
  function Exclamations(n: nat): (r: seq<Tokens.Token>)
    ensures |r| == n && forall i :: 0 <= i < n ==> r[i] == Tokens.Exclamation
  {
    seq(n, _ => Tokens.Exclamation)
  }

  /** An integer literal followed by `n` exclamation marks and a token other than `!`. */
  lemma FactorialOfBangs(toks: seq<Tokens.Token>, i: int, n: nat, end: nat)
    requires end == n + 1 && end < |toks| && toks[0] == Tokens.Integer(i) && toks[end] != Tokens.Exclamation
    requires forall k :: 1 <= k < end ==> toks[k] == Tokens.Exclamation
    ensures Parser.Factorial(toks, 0) == Ok(Parsed(ParserProperties.Bangs(Expr.Integer(i), n), end))
  {
    ParserProperties.FactorialLoopRun(toks, Expr.Integer(i), 1, n);
  }

  lemma BangsParse(toks: seq<Tokens.Token>, i: int, n: nat, end: nat)
    requires end == n + 1 && |toks| == end + 1 && toks[0] == Tokens.Integer(i) && toks[end] == Tokens.EOF
    requires forall k :: 1 <= k < end ==> toks[k] == Tokens.Exclamation
    ensures Parse(toks) == Ok(ParserProperties.Bangs(Expr.Integer(i), n))
  {
    var e := ParserProperties.Bangs(Expr.Integer(i), n);
    FactorialOfBangs(toks, i, n, end);
    RisePower(toks, 0, e, end);
    RiseTerm(toks, 0, e, end);
    TermChained(toks, 0, e, end);
    ParseOfChain(toks, e, end);
  }

  /** An integer literal followed by `n` exclamation marks parses as `n` nested factorials of it. */
  lemma TrailingBangs(i: int, n: nat)
    ensures Parse([Tokens.Integer(i)] + Exclamations(n) + [Tokens.EOF]) == Ok(ParserProperties.Bangs(Expr.Integer(i), n))
  {
    BangsParse([Tokens.Integer(i)] + Exclamations(n) + [Tokens.EOF], i, n, n + 1);
  }

  /** `3!!` is the factorial of the factorial of 3. */
  lemma DoubleFactorial()
    ensures Parse([Tokens.Integer(3), Tokens.Exclamation, Tokens.Exclamation, Tokens.EOF])
         == Ok(UnaryOp(Ast.Factorial, UnaryOp(Ast.Factorial, Expr.Integer(3))))
  {
    BangsParse([Tokens.Integer(3), Tokens.Exclamation, Tokens.Exclamation, Tokens.EOF], 3, 2, 3);
    assert ParserProperties.Bangs(Expr.Integer(3), 2) == UnaryOp(Ast.Factorial, UnaryOp(Ast.Factorial, Expr.Integer(3)));
  }

  // ---------------------------------------------------------------------------
  // The parser test of chalk-core/src/ast.rs
  // ---------------------------------------------------------------------------

  /** The tokens of `(1 + 2) * 3 - 4 / 2`. */
  const TestTokens: seq<Tokens.Token> := [
    Tokens.OpenParen, Tokens.Integer(1), Tokens.Plus, Tokens.Integer(2), Tokens.CloseParen,
    Tokens.Multiply, Tokens.Integer(3), Tokens.Minus, Tokens.Integer(4), Tokens.Divide, Tokens.Integer(2),
    Tokens.EOF]

  /** The tree the test expects: `(1 + 2) * 3` minus `4 / 2`, the sum kept in a `Paren` node. */
  const TestTree: Expr :=
    BinaryOp(Subtract,
      BinaryOp(Multiply, Paren(BinaryOp(Add, Expr.Integer(1), Expr.Integer(2))), Expr.Integer(3)),
      BinaryOp(Divide, Expr.Integer(4), Expr.Integer(2)))

  lemma TestSum(toks: seq<Tokens.Token>)
    requires |toks| == 12 && toks[1] == Tokens.Integer(1) && toks[2] == Tokens.Plus && toks[3] == Tokens.Integer(2)
    requires toks[4] == Tokens.CloseParen
    ensures Chained(toks, 1) == Ok(Parsed(BinaryOp(Add, Expr.Integer(1), Expr.Integer(2)), 4))
  {
    var sum := BinaryOp(Add, Expr.Integer(1), Expr.Integer(2));
    IntegerTerm(toks, 1, 1);
    ExpressionFrom(toks, 1, Expr.Integer(1), 2);
    ExpressionStepInteger(toks, Expr.Integer(1), 2, 3, 4, 2);
    ExpressionStop(toks, sum, 4);
    ExpressionChained(toks, 1, sum, 4);
  }

  lemma TestProduct(toks: seq<Tokens.Token>)
    requires |toks| == 12 && toks[0] == Tokens.OpenParen && toks[1] == Tokens.Integer(1) && toks[2] == Tokens.Plus
    requires toks[3] == Tokens.Integer(2) && toks[4] == Tokens.CloseParen && toks[5] == Tokens.Multiply
    requires toks[6] == Tokens.Integer(3) && toks[7] == Tokens.Minus
    ensures Term(toks, 0) == Ok(Parsed(TestTree.left, 7))
  {
    var paren := Paren(BinaryOp(Add, Expr.Integer(1), Expr.Integer(2)));
    TestSum(toks);
    FactorParen(toks, 0, 1, paren.inner, 4);
    RiseFactorial(toks, 0, paren, 5);
    RisePower(toks, 0, paren, 5);
    TermFrom(toks, 0, paren, 5);
    TermStepInteger(toks, paren, 5, 6, 7, 3);
    TermStop(toks, TestTree.left, 7);
  }

  lemma TestQuotient(toks: seq<Tokens.Token>)
    requires |toks| == 12 && toks[8] == Tokens.Integer(4) && toks[9] == Tokens.Divide && toks[10] == Tokens.Integer(2)
    requires toks[11] == Tokens.EOF
    ensures Term(toks, 8) == Ok(Parsed(TestTree.right, 11))
  {
    IntegerPower(toks, 8, 4);
    TermFrom(toks, 8, Expr.Integer(4), 9);
    TermStepInteger(toks, Expr.Integer(4), 9, 10, 11, 2);
    TermStop(toks, TestTree.right, 11);
  }

  lemma TestExpression(toks: seq<Tokens.Token>)
    requires |toks| == 12 && toks[0] == Tokens.OpenParen && toks[1] == Tokens.Integer(1) && toks[2] == Tokens.Plus
    requires toks[3] == Tokens.Integer(2) && toks[4] == Tokens.CloseParen && toks[5] == Tokens.Multiply
    requires toks[6] == Tokens.Integer(3) && toks[7] == Tokens.Minus && toks[8] == Tokens.Integer(4)
    requires toks[9] == Tokens.Divide && toks[10] == Tokens.Integer(2) && toks[11] == Tokens.EOF
    ensures Parse(toks) == Ok(TestTree)
  {
    TestProduct(toks);
    TestQuotient(toks);
    ExpressionFrom(toks, 0, TestTree.left, 7);
    ExpressionStep(toks, TestTree.left, 7, 8, TestTree.right, 11);
    ExpressionStop(toks, TestTree, 11);
    ExpressionChained(toks, 0, TestTree, 11);
    ParseOfChain(toks, TestTree, 11);
  }

  /** `(1 + 2) * 3 - 4 / 2` parses to exactly the tree of the source's parser test. */
  lemma ParseTestExpression()
    ensures Parse(TestTokens) == Ok(TestTree)
  {
    TestExpression(TestTokens);
  }

  /** The whole test: the text tokenizes to the test's tokens, and those parse to the expected tree. */
  lemma ParserTestPipeline()
    ensures Tokenizer.Tokenize("(1 + 2) * 3 - 4 / 2") == Ok(TestTokens)
    ensures Parse(Tokenizer.Tokenize("(1 + 2) * 3 - 4 / 2").value) == Ok(TestTree)
  {
    TokenizerExamples.TokenizeParserTest();
    ParseTestExpression();
  }
}
