/**
 The syntax tree of chalk-core/src/ast.rs: `Expr`, the unary and binary
 operators, the case-insensitive operator names accepted by `try_from`, and
 `Display` for expressions and binary operators.

 A real literal keeps the text it was read from (the source stores an `f32`
 and prints it with Rust's float formatting); names are lower-cased over ASCII
 only.
 */
module Ast {
  import opened Results
  import Tokenizer

  datatype UnaryOperator = Neg | Factorial | Floor | Ceil | Tan | Cos | Sin | ATan | ACos | ASin

  datatype BinaryOperator =
    | Add | Subtract | Multiply | Divide | Pow | Gcd | Lcm
    | Eq | NEq | Gt | Lt | Gte | Lte | And | Or

  datatype Expr =
    | Assignment(target: char, value: Expr)
    | Variable(name: char)
    | Integer(number: int)
    | Real(lexeme: string)
    | Bool(truth: bool)
    | BinaryOp(op: BinaryOperator, left: Expr, right: Expr)
    | UnaryOp(uop: UnaryOperator, node: Expr)
    | Paren(inner: Expr)
    | AbsVal(abs: Expr)

  // ---------------------------------------------------------------------------
  // Operator names

  /** ASCII lower-casing of one character. */
  function LowerChar(c: char): (d: char)
    ensures !('A' <= d <= 'Z')
    ensures 'A' <= c <= 'Z' ==> d as int == c as int + 32
    ensures !('A' <= c <= 'Z') ==> d == c
  {
    if 'A' <= c <= 'Z' then (c as int + 32) as char else c
  }

  function Lower(s: string): (r: string)
    ensures |r| == |s|
    ensures forall i :: 0 <= i < |s| ==> r[i] == LowerChar(s[i])
  {
    if s == [] then [] else [LowerChar(s[0])] + Lower(s[1..])
  }

  /** Lower-casing twice is lower-casing once. */
  lemma LowerIdempotent(s: string)
    ensures Lower(Lower(s)) == Lower(s)
  {
  }

  /** A string without upper-case letters is its own lower-case form. */
  lemma LowerOfLower(s: string)
    requires forall i :: 0 <= i < |s| ==> !('A' <= s[i] <= 'Z')
    ensures Lower(s) == s
  {
  }

  /** The name a unary operator is written with. */
  function UnaryName(op: UnaryOperator): string {
    match op
    case Neg => "neg"
    case Factorial => "factorial"
    case Floor => "floor"
    case Ceil => "ceil"
    case Tan => "tan"
    case Cos => "cos"
    case Sin => "sin"
    case ATan => "atan"
    case ACos => "acos"
    case ASin => "asin"
  }

  /** The unary operator a lower-case name stands for. */
  function UnaryOfLower(n: string): Option<UnaryOperator> {
    if n == "neg" then Some(Neg)
    else if n == "factorial" then Some(Factorial)
    else if n == "floor" then Some(Floor)
    else if n == "ceil" then Some(Ceil)
    else if n == "tan" then Some(Tan)
    else if n == "cos" then Some(Cos)
    else if n == "sin" then Some(Sin)
    else if n == "atan" then Some(ATan)
    else if n == "acos" then Some(ACos)
    else if n == "asin" then Some(ASin)
    else None
  }

  /** `UnaryOperator::try_from`: the operator a name denotes, ignoring case. */
  function UnaryFromName(name: string): Option<UnaryOperator> {
    UnaryOfLower(Lower(name))
  }

  /** A name denotes a unary operator exactly when its lower-case form is that operator's name. */
  lemma UnaryFromNameCorrect(name: string, op: UnaryOperator)
    ensures UnaryFromName(name) == Some(op) <==> Lower(name) == UnaryName(op)
  {
    UnaryOfLowerCorrect(Lower(name), op);
  }

  /** A lower-case name stands for a unary operator exactly when it is that operator's name. */
  lemma UnaryOfLowerCorrect(n: string, op: UnaryOperator)
    ensures UnaryOfLower(n) == Some(op) <==> n == UnaryName(op)
  {
    match op {
      case Neg =>
      case Factorial =>
      case Floor =>
      case Ceil =>
      case Tan =>
      case Cos =>
      case Sin =>
      case ATan =>
      case ACos =>
      case ASin =>
    }
  }

  /** The names each binary operator is accepted under. */
  function BinaryNames(op: BinaryOperator): set<string> {
    match op
    case Add => {"add"}
    case Subtract => {"subtract", "sub"}
    case Multiply => {"multiply", "mul"}
    case Divide => {"divide", "div"}
    case Pow => {"pow"}
    case Gcd => {"gcd"}
    case Lcm => {"lcm"}
    case Eq => {"eq"}
    case NEq => {"neq"}
    case Gt => {"gt"}
    case Lt => {"lt"}
    case Gte => {"gte"}
    case Lte => {"lte"}
    case And => {"and"}
    case Or => {"or"}
  }

  /** The binary operator a lower-case name stands for. */
  function BinaryOfLower(n: string): Option<BinaryOperator> {
    if n == "add" then Some(Add)
    else if n == "subtract" || n == "sub" then Some(Subtract)
    else if n == "multiply" || n == "mul" then Some(Multiply)
    else if n == "divide" || n == "div" then Some(Divide)
    else if n == "pow" then Some(Pow)
    else if n == "gcd" then Some(Gcd)
    else if n == "lcm" then Some(Lcm)
    else if n == "eq" then Some(Eq)
    else if n == "neq" then Some(NEq)
    else if n == "gt" then Some(Gt)
    else if n == "lt" then Some(Lt)
    else if n == "gte" then Some(Gte)
    else if n == "lte" then Some(Lte)
    else if n == "and" then Some(And)
    else if n == "or" then Some(Or)
    else None
  }

  /** `BinaryOperator::try_from`: the operator a name denotes, ignoring case. */
  function BinaryFromName(name: string): Option<BinaryOperator> {
    BinaryOfLower(Lower(name))
  }

  /** A lower-case name stands for a binary operator exactly when it is one of that operator's names. */
  lemma BinaryOfLowerCorrect(n: string, op: BinaryOperator)
    ensures BinaryOfLower(n) == Some(op) <==> n in BinaryNames(op)
  {
    BinaryOfLowerSound(n);
    if n in BinaryNames(op) {
      BinaryOfLowerComplete(n, op);
    }
  }

  /** What a lower-case name stands for, it is a name of. */
  lemma BinaryOfLowerSound(n: string)
    ensures BinaryOfLower(n).Some? ==> n in BinaryNames(BinaryOfLower(n).value)
  {
  }

  /** Each name of an operator stands for that operator. */
  lemma BinaryOfLowerComplete(n: string, op: BinaryOperator)
    requires n in BinaryNames(op)
    ensures BinaryOfLower(n) == Some(op)
  {
    if op in {Add, Subtract, Multiply, Divide, Pow, Gcd, Lcm} {
      ArithmeticNameComplete(n, op);
    } else {
      ComparisonNameComplete(n, op);
    }
  }

  lemma ArithmeticNameComplete(n: string, op: BinaryOperator)
    requires op in {Add, Subtract, Multiply, Divide, Pow, Gcd, Lcm} && n in BinaryNames(op)
    ensures BinaryOfLower(n) == Some(op)
  {
    match op {
      case Subtract => assert n == "subtract" || n == "sub";
      case Multiply => assert n == "multiply" || n == "mul";
      case Divide => assert n == "divide" || n == "div";
      case _ =>
    }
  }

  lemma ComparisonNameComplete(n: string, op: BinaryOperator)
    requires !(op in {Add, Subtract, Multiply, Divide, Pow, Gcd, Lcm}) && n in BinaryNames(op)
    ensures BinaryOfLower(n) == Some(op)
  {
    assert n == "eq" || n == "neq" || n == "gt" || n == "lt" || n == "gte" || n == "lte" || n == "and" || n == "or";
  }

  /** A name denotes a binary operator exactly when its lower-case form is one of that operator's names. */
  lemma BinaryFromNameCorrect(name: string, op: BinaryOperator)
    ensures BinaryFromName(name) == Some(op) <==> Lower(name) in BinaryNames(op)
  {
    BinaryOfLowerCorrect(Lower(name), op);
  }

  /** No name denotes both a binary and a unary operator, so the order the parser tries them in is immaterial. */
  lemma NamesDisjoint(name: string)
    ensures BinaryFromName(name).Some? ==> UnaryFromName(name).None?
  {
    var n := Lower(name);
    BinaryOfLowerSound(n);
    if BinaryOfLower(n).Some? {
      BinaryNameNotUnary(n, BinaryOfLower(n).value);
    }
  }

  lemma BinaryNameNotUnary(n: string, op: BinaryOperator)
    requires n in BinaryNames(op)
    ensures UnaryOfLower(n).None?
  {
    if op in {Add, Subtract, Multiply, Divide, Pow, Gcd, Lcm} {
      match op {
        case Subtract => assert n == "subtract" || n == "sub";
        case Multiply => assert n == "multiply" || n == "mul";
        case Divide => assert n == "divide" || n == "div";
        case _ =>
      }
      ArithmeticNameNotUnary(n);
    } else {
      ComparisonNameNotUnary(n);
    }
  }

  lemma ArithmeticNameNotUnary(n: string)
    requires n in {"add", "subtract", "sub", "multiply", "mul", "divide", "div", "pow", "gcd", "lcm"}
    ensures UnaryOfLower(n).None?
  {
  }

  lemma ComparisonNameNotUnary(n: string)
    requires n in {"eq", "neq", "gt", "lt", "gte", "lte", "and", "or"}
    ensures UnaryOfLower(n).None?
  {
  }

  /** Operator lookup does not depend on letter case. */
  lemma NamesIgnoreCase(name: string)
    ensures UnaryFromName(name) == UnaryFromName(Lower(name))
    ensures BinaryFromName(name) == BinaryFromName(Lower(name))
  {
    LowerIdempotent(name);
  }

  // ---------------------------------------------------------------------------
  // Display

  /** `Display for BinaryOperator`: one character per operator. */
  function OpSymbol(op: BinaryOperator): char {
    match op
    case Add => '+'
    case Subtract => '-'
    case Multiply => '*'
    case Divide => '/'
    case Pow => '^'
    case Gt => '>'
    case Lt => '<'
    case Lcm => 'l'
    case Gcd => 'g'
    case Eq => 'e'
    case NEq => 'n'
    case Gte => 'G'
    case Lte => 'L'
    case And => '&'
    case Or => '|'
  }

  /** Distinct operators print as distinct characters. */
  lemma OpSymbolInjective(a: BinaryOperator, b: BinaryOperator)
    ensures OpSymbol(a) == OpSymbol(b) <==> a == b
  {
  }

  /** The decimal text of an integer, with a leading `-` when negative. */
  function IntToString(i: int): (s: string)
    ensures |s| >= 1
  {
    if i < 0 then "-" + Tokenizer.NatToString(-i) else Tokenizer.NatToString(i)
  }

  /** The separator `Display` writes between the operands of an infix operator. */
  function InfixText(op: BinaryOperator): string {
    match op
    case Eq => " == "
    case NEq => " != "
    case Gt => " > "
    case Lt => " < "
    case Gte => " >= "
    case Lte => " <= "
    case Or => " || "
    case And => " && "
    case _ => [' ', OpSymbol(op), ' ']
  }

  /**
   `Display for Expr`.  The bracketing forms print inside their own
   delimiters; the balance of the parentheses it writes is `ShowBalanced`.
   */
  function Show(e: Expr): (s: string)
    ensures e.Paren? ==> |s| >= 2 && s[0] == '(' && s[|s| - 1] == ')'
    ensures e.AbsVal? ==> |s| >= 2 && s[0] == '|' && s[|s| - 1] == '|'
    ensures e.UnaryOp? && e.uop == Factorial ==> |s| >= 1 && s[|s| - 1] == '!'
  {
    match e
    case Variable(v) => [v]
    case Assignment(v, node) => [v] + " = " + Show(node)
    case Real(r) => r
    case Integer(i) => IntToString(i)
    case Bool(b) => if b then "true" else "false"
    case UnaryOp(op, node) =>
      (match op
       case Neg => "-" + Show(node)
       case Factorial => Show(node) + "!"
       case _ => UnaryName(op) + "(" + Show(node) + ")")
    case BinaryOp(op, left, right) =>
      if op == Gcd || op == Lcm then
        (if op == Gcd then "gcd(" else "lcm(") + Show(left) + ", " + Show(right) + ")"
      else
        Show(left) + InfixText(op) + Show(right)
    case Paren(inner) => "(" + Show(inner) + ")"
    case AbsVal(inner) => "|" + Show(inner) + "|"
  }

  /** How often `c` occurs in `s`. */
  function Occurrences(s: string, c: char): (n: nat)
    ensures n <= |s|
  {
    if s == [] then 0 else (if s[0] == c then 1 else 0) + Occurrences(s[1..], c)
  }

  /** Leaves whose own text holds no parenthesis. */
  predicate PlainLeaves(e: Expr) {
    match e
    case Assignment(v, node) => v != '(' && v != ')' && PlainLeaves(node)
    case Variable(v) => v != '(' && v != ')'
    case Integer(_) => true
    case Real(r) => '(' !in r && ')' !in r
    case Bool(_) => true
    case BinaryOp(_, l, r) => PlainLeaves(l) && PlainLeaves(r)
    case UnaryOp(_, node) => PlainLeaves(node)
    case Paren(inner) => PlainLeaves(inner)
    case AbsVal(inner) => PlainLeaves(inner)
  }

  /**
   Parentheses that close properly: no prefix of `s` closes more `(` than it
   has opened, and the whole of `s` closes every `(` it opens.  `")("` has as
   many of each but is not balanced.
   */
  predicate Balanced(s: string) {
    NeverBelow(s, 0) && Occurrences(s, '(') == Occurrences(s, ')')
  }

  /** Starting with `d` parentheses open, no prefix of `s` closes more than are open. */
  predicate NeverBelow(s: string, d: nat) {
    forall k :: 0 <= k <= |s| ==> Occurrences(s[..k], ')') <= d + Occurrences(s[..k], '(')
  }

  /** `")("` has one `(` and one `)`, and is still not balanced: its first prefix closes what was never opened. */
  lemma CountsAreNotBalance()
    ensures Occurrences(")(", '(') == Occurrences(")(", ')') && !Balanced(")(")
  {
    assert ")("[..1] == ")";
    assert Occurrences(")", ')') == 1;
  }

  /** The number of open parentheses after reading `s` from depth `d`, or None once a `)` has nothing to close. */
  function Depth(s: string, d: nat): Option<nat> {
    if s == [] then Some(d)
    else if s[0] == '(' then Depth(s[1..], d + 1)
    else if s[0] == ')' then (if d == 0 then None else Depth(s[1..], d - 1))
    else Depth(s[1..], d)
  }

  /** The depth scan never fails exactly when no prefix closes too much, and it ends at the count difference. */
  lemma {:induction false} DepthCounts(s: string, d: nat)
    ensures Depth(s, d).Some? <==> NeverBelow(s, d)
    ensures Depth(s, d).Some? ==> Depth(s, d).value + Occurrences(s, ')') == d + Occurrences(s, '(')
    decreases |s|
  {
    assert s[..0] == [];
    if s != [] {
      var c, t := s[0], s[1..];
      var open, close := (if c == '(' then 1 else 0), (if c == ')' then 1 else 0);
      forall k | 0 <= k <= |t|
        ensures Occurrences(s[..k + 1], '(') == open + Occurrences(t[..k], '(')
        ensures Occurrences(s[..k + 1], ')') == close + Occurrences(t[..k], ')')
      {
        assert s[..k + 1][0] == c && s[..k + 1][1..] == t[..k];
      }
      if c == ')' && d == 0 {
        assert Occurrences(s[..1], ')') > d + Occurrences(s[..1], '(') by { assert t[..0] == []; }
      } else {
        var e: nat := d + open - close;
        DepthCounts(t, e);
        assert Depth(s, d) == Depth(t, e);
        if NeverBelow(s, d) {
          forall k | 0 <= k <= |t| ensures Occurrences(t[..k], ')') <= e + Occurrences(t[..k], '(') {
            assert Occurrences(s[..k + 1], ')') <= d + Occurrences(s[..k + 1], '(');
          }
        }
        if NeverBelow(t, e) {
          forall k | 0 <= k <= |s| ensures Occurrences(s[..k], ')') <= d + Occurrences(s[..k], '(') {
            if k > 0 {
              assert Occurrences(t[..k - 1], ')') <= e + Occurrences(t[..k - 1], '(');
            }
          }
        }
      }
    }
  }

  /** Balance is a depth scan from 0 that ends at 0. */
  lemma BalancedDepth(s: string)
    ensures Balanced(s) <==> Depth(s, 0) == Some(0)
  {
    DepthCounts(s, 0);
  }

  /** Reading `a + b` reads `a` and then `b` from where `a` left off. */
  lemma {:induction false} DepthAppend(a: string, b: string, d: nat)
    ensures Depth(a + b, d) == if Depth(a, d).None? then None else Depth(b, Depth(a, d).value)
    decreases |a|
  {
    if a == [] {
      assert a + b == b;
    } else {
      assert (a + b)[0] == a[0] && (a + b)[1..] == a[1..] + b;
      if a[0] == '(' {
        DepthAppend(a[1..], b, d + 1);
      } else if a[0] == ')' {
        if d > 0 {
          DepthAppend(a[1..], b, d - 1);
        }
      } else {
        DepthAppend(a[1..], b, d);
      }
    }
  }

  /** Text that never closes below its start reads the same with more parentheses open. */
  lemma {:induction false} DepthShift(s: string, d: nat, extra: nat)
    requires Depth(s, d).Some?
    ensures Depth(s, d + extra) == Some(Depth(s, d).value + extra)
    decreases |s|
  {
    if s != [] {
      if s[0] == '(' {
        DepthShift(s[1..], d + 1, extra);
      } else if s[0] == ')' {
        DepthShift(s[1..], d - 1, extra);
      } else {
        DepthShift(s[1..], d, extra);
      }
    }
  }

  /** Text without parentheses leaves the depth as it was. */
  lemma {:induction false} DepthPlain(s: string, d: nat)
    requires '(' !in s && ')' !in s
    ensures Depth(s, d) == Some(d)
    decreases |s|
  {
    if s != [] {
      assert s[0] in s;
      assert forall x :: x in s[1..] ==> x in s;
      DepthPlain(s[1..], d);
    }
  }

  /** Text whose depth scan from 0 never fails and ends at 0. */
  predicate Closes(s: string) {
    Depth(s, 0) == Some(0)
  }

  lemma ClosesAppend(a: string, b: string)
    requires Closes(a) && Closes(b)
    ensures Closes(a + b)
  {
    DepthAppend(a, b, 0);
  }

  lemma NoParens(s: string)
    requires '(' !in s && ')' !in s
    ensures Closes(s)
  {
    DepthPlain(s, 0);
  }

  /** `head(s)` closes when `s` does and `head` is a name followed by one `(`. */
  lemma ClosesCall(name: string, s: string)
    requires '(' !in name && ')' !in name && Closes(s)
    ensures Closes(name + "(" + s + ")")
  {
    DepthPlain(name, 0);
    DepthShift(s, 0, 1);
    DepthAppend(name, "(", 0);
    DepthAppend(name + "(", s, 0);
    DepthAppend(name + "(" + s, ")", 0);
  }

  /**
   The printed form of an expression whose variables and real lexemes hold no
   parenthesis has balanced parentheses: every `(` the printer writes (for a
   `Paren` or a call) is closed by a `)` after it, and no `)` comes before the
   `(` it closes.  The condition is needed: `Variable('(')` prints as `(`.
   */
  lemma ShowBalanced(e: Expr)
    requires PlainLeaves(e)
    ensures Balanced(Show(e))
  {
    ShowCloses(e);
    BalancedDepth(Show(e));
  }

  /** The depth scan of the printed form of an expression never fails and ends at 0. */
  lemma {:induction false} ShowCloses(e: Expr)
    requires PlainLeaves(e)
    ensures Closes(Show(e))
    decreases e, 1
  {
    match e
    case Assignment(v, node) =>
      ShowCloses(node);
      NoParens([v] + " = ");
      ClosesAppend([v] + " = ", Show(node));
    case Variable(v) =>
      NoParens([v]);
    case Integer(i) =>
      IntToStringPlain(i);
      NoParens(IntToString(i));
    case Real(r) =>
      NoParens(r);
    case Bool(b) =>
      NoParens(if b then "true" else "false");
    case UnaryOp(op, node) =>
      ShowClosesUnary(op, node);
    case BinaryOp(op, left, right) =>
      ShowClosesBinary(op, left, right);
    case Paren(inner) =>
      ShowCloses(inner);
      ClosesCall("", Show(inner));
      assert "" + "(" + Show(inner) + ")" == "(" + Show(inner) + ")";
    case AbsVal(inner) =>
      ShowCloses(inner);
      NoParens("|");
      ClosesAppend("|", Show(inner));
      ClosesAppend("|" + Show(inner), "|");
  }

  lemma {:induction false} ShowClosesUnary(op: UnaryOperator, node: Expr)
    requires PlainLeaves(node)
    ensures Closes(Show(UnaryOp(op, node)))
    decreases UnaryOp(op, node), 0
  {
    ShowCloses(node);
    var sn := Show(node);
    match op {
      case Neg =>
        NoParens("-");
        ClosesAppend("-", sn);
      case Factorial =>
        NoParens("!");
        ClosesAppend(sn, "!");
      case _ =>
        ClosesCall(UnaryName(op), sn);
    }
  }

  lemma {:induction false} ShowClosesBinary(op: BinaryOperator, left: Expr, right: Expr)
    requires PlainLeaves(left) && PlainLeaves(right)
    ensures Closes(Show(BinaryOp(op, left, right)))
    decreases BinaryOp(op, left, right), 0
  {
    ShowCloses(left);
    ShowCloses(right);
    var sl, sr := Show(left), Show(right);
    if op == Gcd || op == Lcm {
      var name := if op == Gcd then "gcd" else "lcm";
      ClosesPair(name, sl, sr);
      ShowCallText(op, left, right);
    } else {
      InfixPlain(op);
      ClosesInfix(sl, InfixText(op), sr);
      ShowInfixText(op, left, right);
    }
  }

  lemma ShowCallText(op: BinaryOperator, left: Expr, right: Expr)
    requires op == Gcd || op == Lcm
    ensures Show(BinaryOp(op, left, right)) ==
      (if op == Gcd then "gcd" else "lcm") + "(" + (Show(left) + ", " + Show(right)) + ")"
  {
  }

  /**
   The text of a unary form: `-x` for a negation, `x!` for a factorial, and
   otherwise a call of the operator's name, a name that reads back as the same
   operator.
   */
  lemma ShowUnaryText(op: UnaryOperator, node: Expr)
    ensures op == Neg ==> Show(UnaryOp(op, node)) == "-" + Show(node)
    ensures op == Factorial ==> Show(UnaryOp(op, node)) == Show(node) + "!"
    ensures op != Neg && op != Factorial ==>
      Show(UnaryOp(op, node)) == UnaryName(op) + "(" + Show(node) + ")" && UnaryFromName(UnaryName(op)) == Some(op)
  {
    UnaryNameReadsBack(op);
  }

  /** Every unary operator's name is looked up as that operator. */
  lemma UnaryNameReadsBack(op: UnaryOperator)
    ensures UnaryFromName(UnaryName(op)) == Some(op)
  {
    var name := UnaryName(op);
    assert forall i :: 0 <= i < |name| ==> !('A' <= name[i] <= 'Z');
    LowerOfLower(name);
    UnaryFromNameCorrect(name, op);
  }

  lemma ShowInfixText(op: BinaryOperator, left: Expr, right: Expr)
    requires op != Gcd && op != Lcm
    ensures Show(BinaryOp(op, left, right)) == Show(left) + InfixText(op) + Show(right)
  {
  }

  lemma InfixPlain(op: BinaryOperator)
    ensures '(' !in InfixText(op) && ')' !in InfixText(op)
  {
  }

  lemma ClosesPair(name: string, sl: string, sr: string)
    requires '(' !in name && ')' !in name && Closes(sl) && Closes(sr)
    ensures Closes(name + "(" + (sl + ", " + sr) + ")")
  {
    NoParens(", ");
    ClosesAppend(sl, ", ");
    ClosesAppend(sl + ", ", sr);
    ClosesCall(name, sl + ", " + sr);
  }

  lemma ClosesInfix(sl: string, mid: string, sr: string)
    requires '(' !in mid && ')' !in mid && Closes(sl) && Closes(sr)
    ensures Closes(sl + mid + sr)
  {
    NoParens(mid);
    ClosesAppend(sl, mid);
    ClosesAppend(sl + mid, sr);
  }

  lemma IntToStringPlain(i: int)
    ensures '(' !in IntToString(i) && ')' !in IntToString(i)
  {
    var d := if i < 0 then Tokenizer.NatToString(-i) else Tokenizer.NatToString(i);
    assert forall k :: 0 <= k < |d| ==> Tokenizer.IsDigit(d[k]);
  }

  /** The printed example of the source: `(1 + 2.5)`. */
  lemma ShowParenthesisedSum()
    ensures Show(Paren(BinaryOp(Add, Integer(1), Real("2.5")))) == "(1 + 2.5)"
  {
    assert Tokenizer.NatToString(1) == "1";
  }
}
