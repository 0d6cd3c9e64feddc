/**
 Properties of the parser of chalk-core/src/ast.rs: where assignments may
 appear, how postfix `!` and operator names are read, which inputs fail,
 and the empty-statement defect together with its correction.
 */
module ParserProperties {
  import opened Results
  import Tokens
  import opened Ast
  import opened Parser
  import Tokenizer

  // ---------------------------------------------------------------------------
  // The empty statement
  // ---------------------------------------------------------------------------

  /**
   As written, the assignment rule reads the current token and the one after
   it before deciding anything, so the token list of an empty statement,
   `EOF` alone, is read past its end.
   */
  lemma ParseEmptyOutOfRange()
    ensures Parse([Tokens.EOF]) == Err(IndexOutOfRange)
  {
    assert Parser.Assignment([Tokens.EOF], 0) == Err(IndexOutOfRange);
  }

  /** A blank line (the REPL trims the line it reads) tokenizes to `EOF` alone, which the parser reads past. */
  lemma BlankLineOutOfRange()
    ensures Tokenizer.Tokenize("") == Ok([Tokens.EOF])
    ensures Parse(Tokenizer.Tokenize("").value) == Err(IndexOutOfRange)
  {
    assert Tokenizer.Scan("") == Ok([]);
    assert [] + [Tokens.EOF] == [Tokens.EOF];
    ParseEmptyOutOfRange();
  }

  /** The assignment rule with the lookahead checked: it only looks at the second token when there is one. */
  function AssignmentChecked(toks: seq<Tokens.Token>, pos: nat): (r: Outcome)
    requires pos <= |toks|
    ensures Tokens.EndsWithSingleEof(toks) && pos < |toks| ==>
      r != Err(IndexOutOfRange) && (r.Ok? ==> r.value.next < |toks|)
    ensures pos + 1 < |toks| ==> r == Parser.Assignment(toks, pos)
  {
    if pos + 1 < |toks| && toks[pos].Variable? && toks[pos + 1] == Tokens.Assign then
      var value :- Chained(toks, pos + 2);
      Ok(Parsed(Expr.Assignment(toks[pos].name, value.expr), value.next))
    else
      Chained(toks, pos)
  }

  /**
   `parse` built on the checked assignment rule: it never reads past the end of
   a list the tokenizer can produce, rejects the empty statement, and agrees
   with `parse` on every list of two or more tokens.
   */
  function ParseChecked(toks: seq<Tokens.Token>): (r: Result<Expr, ParseFailure>)
    ensures Tokens.EndsWithSingleEof(toks) ==> r != Err(IndexOutOfRange)
    ensures |toks| >= 2 ==> r == Parse(toks)
    ensures toks == [Tokens.EOF] ==> r == Err(ParseError)
  {
    EofAloneRejected();
    var top :- AssignmentChecked(toks, 0);
    var _ :- Consume(toks, top.next, Tokens.EOF);
    Ok(top.expr)
  }

  /** Below the assignment level, `EOF` alone is a parse error: no rule starts with `EOF`. */
  lemma EofAloneRejected()
    ensures Chained([Tokens.EOF], 0) == Err(ParseError)
  {
    var toks := [Tokens.EOF];
    assert Factor(toks, 0) == Err(ParseError);
    assert Parser.Factorial(toks, 0) == Err(ParseError);
    assert Power(toks, 0) == Err(ParseError);
    assert Term(toks, 0) == Err(ParseError);
    assert Expression(toks, 0) == Err(ParseError);
    assert Comparison(toks, 0) == Err(ParseError);
  }

  /** As written, `parse` reads past the end of a tokenizer-shaped list only when it is `EOF` alone. */
  lemma ParseInRange(toks: seq<Tokens.Token>)
    requires Tokens.EndsWithSingleEof(toks)
    ensures Parse(toks) == Err(IndexOutOfRange) <==> toks == [Tokens.EOF]
  {
    if |toks| == 1 {
      assert toks == [Tokens.EOF];
      ParseEmptyOutOfRange();
    } else {
      assert ParseChecked(toks) == Parse(toks);
    }
  }

  /** Every line the tokenizer accepts reaches a verdict from the checked parser. */
  lemma PipelineInRange(s: string)
    requires Tokenizer.Tokenize(s).Ok?
    ensures ParseChecked(Tokenizer.Tokenize(s).value) != Err(IndexOutOfRange)
    ensures Tokenizer.Tokenize(s).value != [Tokens.EOF] ==>
      Parse(Tokenizer.Tokenize(s).value) == ParseChecked(Tokenizer.Tokenize(s).value)
  {
    var toks := Tokenizer.Tokenize(s).value;
    if toks != [Tokens.EOF] {
      assert |toks| >= 2;
    }
  }

  // ---------------------------------------------------------------------------
  // Assignments
  // ---------------------------------------------------------------------------

  /**
   An accepted statement is an assignment exactly when it starts with a
   variable and `=`; the assigned value, and any statement that is not an
   assignment, contain no assignment; and on a tokenizer-shaped list the only
   `=` token is the second one.
   */
  lemma ParseAssignmentShape(toks: seq<Tokens.Token>)
    requires Parse(toks).Ok?
    ensures Parse(toks).value.Assignment? <==> toks[0].Variable? && toks[1] == Tokens.Assign
    ensures Parse(toks).value.Assignment? ==>
      Parse(toks).value.target == toks[0].name && AssignFree(Parse(toks).value.value)
    ensures !Parse(toks).value.Assignment? ==> AssignFree(Parse(toks).value)
    ensures Tokens.EndsWithSingleEof(toks) ==>
      forall i :: 0 <= i < |toks| && toks[i] == Tokens.Assign ==> i == 1
  {
    var top := Parser.Assignment(toks, 0);
    assert top.Ok?;
    if toks[0].Variable? && toks[1] == Tokens.Assign {
      assert top.value.expr == Expr.Assignment(toks[0].name, Chained(toks, 2).value.expr);
    } else {
      assert top == Chained(toks, 0);
    }
    if Tokens.EndsWithSingleEof(toks) {
      assert top.value.next == |toks| - 1;
    }
  }

  // ---------------------------------------------------------------------------
  // Postfix `!`
  // ---------------------------------------------------------------------------

  /** `e` under `n` factorial nodes, `e` innermost. */
  function Bangs(e: Expr, n: nat): (r: Expr)
    ensures n > 0 ==> r.UnaryOp? && r.uop == Ast.Factorial
    ensures n == 0 ==> r == e
    decreases n
  {
    if n == 0 then e else Bangs(UnaryOp(Ast.Factorial, e), n - 1)
  }

  /** `n` consecutive `!` after a factor wrap it in `n` factorial nodes and are all consumed. */
  lemma {:induction false} FactorialLoopRun(toks: seq<Tokens.Token>, start: Expr, pos: nat, n: nat)
    requires pos + n < |toks|
    requires forall i :: pos <= i < pos + n ==> toks[i] == Tokens.Exclamation
    requires toks[pos + n] != Tokens.Exclamation
    ensures FactorialLoop(toks, start, pos) == Ok(Parsed(Bangs(start, n), pos + n))
    decreases n
  {
    if n > 0 {
      var next := pos + 1;
      var inner := UnaryOp(Ast.Factorial, start);
      assert toks[pos] == Tokens.Exclamation;
      assert FactorialLoop(toks, start, pos) == FactorialLoop(toks, inner, next);
      FactorialLoopRun(toks, inner, next, n - 1);
      assert Bangs(start, n) == Bangs(inner, n - 1);
    }
  }

  // ---------------------------------------------------------------------------
  // Operator names
  // ---------------------------------------------------------------------------

  /**
   An identifier parses only as a call of the operator it names, in any
   letter case: a binary call for one of a binary operator's names, a unary
   call for a unary operator's name, and a parse error for any other name.
   */
  lemma IdentifierCall(toks: seq<Tokens.Token>, pos: nat, name: string)
    requires pos < |toks| && toks[pos] == Tokens.Ident(name)
    ensures Factor(toks, pos).Ok? ==> Factor(toks, pos).value.expr.BinaryOp? || Factor(toks, pos).value.expr.UnaryOp?
    ensures Factor(toks, pos).Ok? && Factor(toks, pos).value.expr.BinaryOp? ==>
      Lower(name) in BinaryNames(Factor(toks, pos).value.expr.op)
    ensures Factor(toks, pos).Ok? && Factor(toks, pos).value.expr.UnaryOp? ==>
      Lower(name) == UnaryName(Factor(toks, pos).value.expr.uop)
    ensures (forall op :: Lower(name) !in BinaryNames(op)) && (forall op :: Lower(name) != UnaryName(op)) ==>
      Factor(toks, pos) == Err(ParseError)
  {
    var r := Factor(toks, pos);
    assert r == Call(toks, pos, name);
    match BinaryFromName(name)
    case Some(op) =>
      BinaryFromNameCorrect(name, op);
      assert r == BinaryCall(toks, pos, op);
    case None =>
      match UnaryFromName(name)
      case Some(op) =>
        UnaryFromNameCorrect(name, op);
        assert r == UnaryCall(toks, pos, op);
      case None =>
        assert r == Err(ParseError);
  }
}
