/**
 The tokenizer's own examples (chalk-core/src/tokenizer.rs, `mod tests`), stated
 as lemmas.  Real literals are compared by their text.
 */
module TokenizerExamples {
  import opened Results
  import opened Tokens
  import opened Tokenizer

  lemma DigitsOfOne(w: string)
    requires w == "1"
    ensures IsNumberLexeme(w) && NumberToken(w) == Integer(1)
  {
    assert w[0] == '1';
    assert CountDots(w) == 0;
    assert IsNumberLexeme(w);
    assert '.' !in w;
    assert DigitValue('1') == 1;
    assert w[..0] == [];
    assert DigitsValue(w) == 1;
  }

  lemma TokenizeOfScan(s: string, ts: seq<Token>)
    requires Scan(s) == Ok(ts)
    ensures Tokenize(s) == Ok(ts + [EOF])
  {
  }

  const Sum1: seq<Piece> := [Punct('('), Lexeme("1", Integer(1)), Punct('+')]
  const Sum2: seq<Piece> := [Lexeme("1", Integer(1)), Punct(')')]

  lemma SumFacts()
    ensures ValidPieces(Sum1) && Text(Sum1) == "(1+" && Toks(Sum1) == [OpenParen, Integer(1), Plus]
    ensures ValidPieces(Sum2) && Text(Sum2) == "1)" && Toks(Sum2) == [Integer(1), CloseParen]
  {
    SingleDigit("1", '1', 1);
  }

  /** `(1+1)` gives `( 1 + 1 ) EOF`. */
  lemma TokenizeParenthesisedSum()
    ensures Tokenize("(1+1)") == Ok([OpenParen, Integer(1), Plus, Integer(1), CloseParen, EOF])
  {
    SumFacts();
    JoinChunks(Sum1, Sum2, "(1+", "1)", [OpenParen, Integer(1), Plus], [Integer(1), CloseParen]);
    var ps := Sum1 + Sum2;
    ScanPieces(ps);
    SumText("(1+" + "1)", [OpenParen, Integer(1), Plus] + [Integer(1), CloseParen]);
    TokenizeOfScan(Text(ps), Toks(ps));
  }

  lemma SumText(t: string, k: seq<Token>)
    requires t == "(1+" + "1)" && k == [OpenParen, Integer(1), Plus] + [Integer(1), CloseParen]
    ensures t == "(1+1)"
    ensures k + [EOF] == [OpenParen, Integer(1), Plus, Integer(1), CloseParen, EOF]
  {
  }

  /** `3.1415` gives one real literal. */
  lemma TokenizeReal()
    ensures Tokenize("3.1415") == Ok([Real("3.1415"), EOF])
  {
    var w := "3.1415";
    assert w[1] == '.';
    assert CountDots(w) == 1;
    ScanLexeme(w, []);
    assert w + [] == w;
    assert [Real(w)] + [] == [Real(w)];
    TokenizeOfScan(w, [Real(w)]);
    assert [Real(w)] + [EOF] == [Real(w), EOF];
  }

  lemma DigitsOf1024(w: string)
    requires w == "1024"
    ensures IsNumberLexeme(w) && NumberToken(w) == Integer(1024)
  {
    assert CountDots(w) == 0;
    assert '.' !in w;
    assert DigitValue('1') == 1 && DigitValue('0') == 0 && DigitValue('2') == 2 && DigitValue('4') == 4;
    assert w[..3] == "102" && "102"[..2] == "10" && "10"[..1] == "1" && "1"[..0] == [];
    assert DigitsValue("1") == 1;
    assert DigitsValue("10") == 10;
    assert DigitsValue("102") == 102;
  }

  /** `1024` gives one integer literal. */
  lemma TokenizeInteger()
    ensures Tokenize("1024") == Ok([Integer(1024), EOF])
  {
    DigitsOf1024("1024");
    ScanLexeme("1024", []);
    assert "1024" + [] == "1024";
    assert [Integer(1024)] + [] == [Integer(1024)];
    TokenizeOfScan("1024", [Integer(1024)]);
    assert [Integer(1024)] + [EOF] == [Integer(1024), EOF];
  }

  // ---------------------------------------------------------------------------
  // Texts assembled from pieces

  /** A piece of input text: one punctuation character, one blank, or a number literal with its token. */
  datatype Piece = Punct(c: char) | Blank(b: char) | Lexeme(w: string, t: Token)

  predicate ValidPiece(p: Piece) {
    match p
    case Punct(c) => Punctuation(c).Some?
    case Blank(b) => IsSpace(b)
    case Lexeme(w, t) => IsNumberLexeme(w) && NumberToken(w) == t
  }

  /** Every piece is valid and no two literals are adjacent. */
  predicate ValidPieces(ps: seq<Piece>) {
    ps == [] ||
      (&& ValidPiece(ps[0])
       && (|ps| >= 2 ==> !(ps[0].Lexeme? && ps[1].Lexeme?))
       && ValidPieces(ps[1..]))
  }

  function PieceText(p: Piece): string {
    match p
    case Punct(c) => [c]
    case Blank(b) => [b]
    case Lexeme(w, _) => w
  }

  function Text(ps: seq<Piece>): string {
    if ps == [] then [] else PieceText(ps[0]) + Text(ps[1..])
  }

  /** The tokens the pieces stand for. */
  function Toks(ps: seq<Piece>): seq<Token> {
    if ps == [] then []
    else
      var rest := Toks(ps[1..]);
      match ps[0]
      case Punct(c) => (if Punctuation(c).Some? then [Punctuation(c).value] else []) + rest
      case Blank(_) => rest
      case Lexeme(_, t) => [t] + rest
  }

  /** Scanning the text of valid pieces yields exactly their tokens. */
  lemma {:induction false} ScanPieces(ps: seq<Piece>)
    requires ValidPieces(ps)
    ensures Scan(Text(ps)) == Ok(Toks(ps))
  {
    if ps != [] {
      var rest := Text(ps[1..]);
      ScanPieces(ps[1..]);
      match ps[0]
      case Punct(c) =>
        ScanPunctuation(c, rest);
      case Blank(b) =>
        ScanSpace(b, rest);
      case Lexeme(w, t) =>
        if ps[1..] != [] {
          assert ValidPiece(ps[1]);
          assert rest[0] == PieceText(ps[1])[0];
        }
        ScanLexeme(w, rest);
    }
  }

  lemma {:induction false} TextAppend(a: seq<Piece>, b: seq<Piece>)
    ensures Text(a + b) == Text(a) + Text(b)
  {
    if a == [] {
      assert a + b == b;
    } else {
      assert (a + b)[1..] == a[1..] + b;
      TextAppend(a[1..], b);
    }
  }

  lemma {:induction false} ToksAppend(a: seq<Piece>, b: seq<Piece>)
    ensures Toks(a + b) == Toks(a) + Toks(b)
  {
    if a == [] {
      assert a + b == b;
    } else {
      assert (a + b)[1..] == a[1..] + b;
      ToksAppend(a[1..], b);
    }
  }

  /** Valid pieces stay valid when joined, unless two literals meet at the seam. */
  lemma {:induction false} ValidPiecesAppend(a: seq<Piece>, b: seq<Piece>)
    requires ValidPieces(a) && ValidPieces(b)
    requires a == [] || b == [] || !(a[|a| - 1].Lexeme? && b[0].Lexeme?)
    ensures ValidPieces(a + b)
  {
    if a == [] {
      assert a + b == b;
    } else {
      assert (a + b)[1..] == a[1..] + b;
      ValidPiecesAppend(a[1..], b);
    }
  }

  /** Seven blanks. */
  const Blanks7: seq<Piece> := [Blank(' '), Blank(' '), Blank(' '), Blank(' '), Blank(' '), Blank(' '), Blank(' ')]
  const Blanks4: seq<Piece> := [Blank(' '), Blank(' '), Blank(' '), Blank(' ')]
  const Spaced1: seq<Piece> := [Blank(' '), Lexeme("1024", Integer(1024))]
  const Spaced2: seq<Piece> := [Punct('/')]
  const Spaced3: seq<Piece> := [Lexeme("1.23", Real("1.23")), Blank(' ')]

  lemma BlankFacts()
    ensures ValidPieces(Blanks7) && Text(Blanks7) == "       " && Toks(Blanks7) == []
    ensures ValidPieces(Blanks4) && Text(Blanks4) == "    " && Toks(Blanks4) == []
  {
  }

  lemma SpacedFacts()
    ensures ValidPieces(Spaced1) && Text(Spaced1) == " 1024" && Toks(Spaced1) == [Integer(1024)]
    ensures ValidPieces(Spaced2) && Text(Spaced2) == "/" && Toks(Spaced2) == [Divide]
    ensures ValidPieces(Spaced3) && Text(Spaced3) == "1.23 " && Toks(Spaced3) == [Real("1.23")]
  {
    Spaced1Facts();
    Spaced3Facts();
  }

  lemma Spaced1Facts()
    ensures ValidPieces(Spaced1) && Text(Spaced1) == " 1024" && Toks(Spaced1) == [Integer(1024)]
  {
    DigitsOf1024("1024");
  }

  lemma Spaced3Facts()
    ensures ValidPieces(Spaced3) && Text(Spaced3) == "1.23 " && Toks(Spaced3) == [Real("1.23")]
  {
    assert CountDots("1.23") == 1 && "1.23"[1] == '.';
  }

  /** Runs of whitespace around and between the tokens are skipped. */
  lemma TokenizeWithWhitespace()
    ensures Tokenize(" 1024              /           1.23 ") == Ok([Integer(1024), Divide, Real("1.23"), EOF])
  {
    BlankFacts();
    SpacedFacts();
    var b7 := "       ";
    JoinChunks(Blanks4, Spaced3, "    ", "1.23 ", [], [Real("1.23")]);
    var r5 := Blanks4 + Spaced3;
    JoinChunks(Blanks7, r5, b7, "    " + "1.23 ", [], [] + [Real("1.23")]);
    var r4 := Blanks7 + r5;
    JoinChunks(Spaced2, r4, "/", b7 + ("    " + "1.23 "), [Divide], [] + ([] + [Real("1.23")]));
    var r3 := Spaced2 + r4;
    JoinChunks(Blanks7, r3, b7, "/" + (b7 + ("    " + "1.23 ")), [], [Divide] + ([] + ([] + [Real("1.23")])));
    var r2 := Blanks7 + r3;
    JoinChunks(Blanks7, r2, b7, b7 + ("/" + (b7 + ("    " + "1.23 "))), [], [] + ([Divide] + ([] + ([] + [Real("1.23")]))));
    var r1 := Blanks7 + r2;
    JoinChunks(Spaced1, r1, " 1024", b7 + (b7 + ("/" + (b7 + ("    " + "1.23 ")))),
      [Integer(1024)], [] + ([] + ([Divide] + ([] + ([] + [Real("1.23")])))));
    var ps := Spaced1 + r1;
    ScanPieces(ps);
    SpacedText(Text(ps), Toks(ps));
    TokenizeOfScan(Text(ps), Toks(ps));
  }

  lemma SpacedText(t: string, k: seq<Token>)
    requires t == " 1024" + ("       " + ("       " + ("/" + ("       " + ("    " + "1.23 ")))))
    requires k == [Integer(1024)] + ([] + ([] + ([Divide] + ([] + ([] + [Real("1.23")])))))
    ensures t == " 1024              /           1.23 "
    ensures k + [EOF] == [Integer(1024), Divide, Real("1.23"), EOF]
  {
  }

  /** A literal with two dots is rejected. */
  lemma TokenizeTwoDots()
    ensures Tokenize("1.2.3").Err?
  {
    SecondDotRejected();
  }

  const Nested1: seq<Piece> := [Punct('('), Punct('('), Lexeme("360", Integer(360)), Blank(' ')]
  const Nested2: seq<Piece> := [Punct('*'), Blank(' '), Lexeme("9.2", Real("9.2")), Punct(')')]
  const Nested3: seq<Piece> := [Blank(' '), Punct('/'), Blank(' '), Lexeme("0.25", Real("0.25"))]
  const Nested4: seq<Piece> := [Punct(')'), Blank(' '), Punct('-'), Blank(' ')]
  const Nested5: seq<Piece> := [Punct('('), Lexeme("5", Integer(5)), Blank(' '), Punct('+')]
  const Nested6: seq<Piece> := [Blank(' '), Lexeme("5.0", Real("5.0")), Punct(')')]

  lemma Nested1Facts()
    ensures ValidPieces(Nested1) && Text(Nested1) == "((360 " && Toks(Nested1) == [OpenParen, OpenParen, Integer(360)]
  {
    DigitsOf360("360");
  }

  lemma Nested2Facts()
    ensures ValidPieces(Nested2) && Text(Nested2) == "* 9.2)" && Toks(Nested2) == [Multiply, Real("9.2"), CloseParen]
  {
    assert CountDots("9.2") == 1 && "9.2"[1] == '.';
  }

  lemma Nested3Facts()
    ensures ValidPieces(Nested3) && Text(Nested3) == " / 0.25" && Toks(Nested3) == [Divide, Real("0.25")]
  {
    assert CountDots("0.25") == 1 && "0.25"[1] == '.';
  }

  lemma Nested4Facts()
    ensures ValidPieces(Nested4) && Text(Nested4) == ") - " && Toks(Nested4) == [CloseParen, Minus]
  {
  }

  lemma Nested5Facts()
    ensures ValidPieces(Nested5) && Text(Nested5) == "(5 +" && Toks(Nested5) == [OpenParen, Integer(5), Plus]
  {
    DigitsOfFive("5");
  }

  lemma Nested6Facts()
    ensures ValidPieces(Nested6) && Text(Nested6) == " 5.0)" && Toks(Nested6) == [Real("5.0"), CloseParen]
  {
    assert CountDots("5.0") == 1 && "5.0"[1] == '.';
  }

  /** Joins two chunks of pieces, carrying their text and tokens along. */
  lemma JoinChunks(a: seq<Piece>, b: seq<Piece>, ta: string, tb: string, ka: seq<Token>, kb: seq<Token>)
    requires ValidPieces(a) && Text(a) == ta && Toks(a) == ka
    requires ValidPieces(b) && Text(b) == tb && Toks(b) == kb
    requires a == [] || b == [] || !(a[|a| - 1].Lexeme? && b[0].Lexeme?)
    ensures ValidPieces(a + b) && Text(a + b) == ta + tb && Toks(a + b) == ka + kb
  {
    ValidPiecesAppend(a, b);
    TextAppend(a, b);
    ToksAppend(a, b);
  }

  /** The longer mixed expression of the examples. */
  lemma TokenizeNested()
    ensures Tokenize("((360 * 9.2) / 0.25) - (5 + 5.0)") == Ok([
      OpenParen, OpenParen, Integer(360), Multiply, Real("9.2"), CloseParen, Divide,
      Real("0.25"), CloseParen, Minus, OpenParen, Integer(5), Plus, Real("5.0"), CloseParen, EOF])
  {
    Nested1Facts();
    Nested2Facts();
    Nested3Facts();
    Nested4Facts();
    Nested5Facts();
    Nested6Facts();
    JoinChunks(Nested5, Nested6, "(5 +", " 5.0)", [OpenParen, Integer(5), Plus], [Real("5.0"), CloseParen]);
    var r5 := Nested5 + Nested6;
    var t5 := "(5 +" + " 5.0)";
    var k5 := [OpenParen, Integer(5), Plus] + [Real("5.0"), CloseParen];
    JoinChunks(Nested4, r5, ") - ", t5, [CloseParen, Minus], k5);
    var r4 := Nested4 + r5;
    var t4 := ") - " + t5;
    var k4 := [CloseParen, Minus] + k5;
    JoinChunks(Nested3, r4, " / 0.25", t4, [Divide, Real("0.25")], k4);
    var r3 := Nested3 + r4;
    var t3 := " / 0.25" + t4;
    var k3 := [Divide, Real("0.25")] + k4;
    JoinChunks(Nested2, r3, "* 9.2)", t3, [Multiply, Real("9.2"), CloseParen], k3);
    var r2 := Nested2 + r3;
    var t2 := "* 9.2)" + t3;
    var k2 := [Multiply, Real("9.2"), CloseParen] + k3;
    JoinChunks(Nested1, r2, "((360 ", t2, [OpenParen, OpenParen, Integer(360)], k2);
    var ps := Nested1 + r2;
    ScanPieces(ps);
    NestedText("((360 " + t2, [OpenParen, OpenParen, Integer(360)] + k2);
    TokenizeOfScan(Text(ps), Toks(ps));
  }

  lemma NestedText(t: string, k: seq<Token>)
    requires t == "((360 " + ("* 9.2)" + (" / 0.25" + (") - " + ("(5 +" + " 5.0)"))))
    requires k == [OpenParen, OpenParen, Integer(360)] + ([Multiply, Real("9.2"), CloseParen] + ([Divide, Real("0.25")]
      + ([CloseParen, Minus] + ([OpenParen, Integer(5), Plus] + [Real("5.0"), CloseParen]))))
    ensures t == "((360 * 9.2) / 0.25) - (5 + 5.0)"
    ensures k + [EOF] == [OpenParen, OpenParen, Integer(360), Multiply, Real("9.2"), CloseParen, Divide,
      Real("0.25"), CloseParen, Minus, OpenParen, Integer(5), Plus, Real("5.0"), CloseParen, EOF]
  {
  }

  lemma DigitsOfFive(w: string)
    requires w == "5"
    ensures IsNumberLexeme(w) && NumberToken(w) == Integer(5)
  {
    assert CountDots(w) == 0;
    assert '.' !in w;
    assert DigitValue('5') == 5;
    assert w[..0] == [];
    assert DigitsValue(w) == 5;
  }

  lemma DigitsOf360(w: string)
    requires w == "360"
    ensures IsNumberLexeme(w) && NumberToken(w) == Integer(360)
  {
    assert CountDots(w) == 0;
    assert '.' !in w;
    assert DigitValue('3') == 3 && DigitValue('6') == 6 && DigitValue('0') == 0;
    assert w[..2] == "36" && "36"[..1] == "3" && "3"[..0] == [];
    assert DigitsValue("3") == 3;
    assert DigitsValue("36") == 36;
  }

  /** A single decimal digit is an integer literal of its value. */
  lemma SingleDigit(w: string, c: char, v: int)
    requires w == [c] && IsDigit(c) && DigitValue(c) == v
    ensures IsNumberLexeme(w) && NumberToken(w) == Integer(v)
  {
    assert CountDots(w) == 0;
    assert '.' !in w;
    assert w[..0] == [];
    assert DigitsValue(w) == v;
  }

  const Spread1: seq<Piece> := [Punct('('), Lexeme("1", Integer(1)), Blank(' '), Punct('+')]
  const Spread2: seq<Piece> := [Blank(' '), Lexeme("2", Integer(2)), Punct(')'), Blank(' ')]
  const Spread3: seq<Piece> := [Punct('*'), Blank(' '), Lexeme("3", Integer(3)), Blank(' ')]
  const Spread4: seq<Piece> := [Punct('-'), Blank(' '), Lexeme("4", Integer(4)), Blank(' ')]
  const Spread5: seq<Piece> := [Punct('/'), Blank(' '), Lexeme("2", Integer(2))]

  lemma Spread1Facts()
    ensures ValidPieces(Spread1) && Text(Spread1) == "(1 +" && Toks(Spread1) == [OpenParen, Integer(1), Plus]
  {
    SingleDigit("1", '1', 1);
  }

  lemma Spread2Facts()
    ensures ValidPieces(Spread2) && Text(Spread2) == " 2) " && Toks(Spread2) == [Integer(2), CloseParen]
  {
    SingleDigit("2", '2', 2);
  }

  lemma Spread3Facts()
    ensures ValidPieces(Spread3) && Text(Spread3) == "* 3 " && Toks(Spread3) == [Multiply, Integer(3)]
  {
    SingleDigit("3", '3', 3);
  }

  lemma Spread4Facts()
    ensures ValidPieces(Spread4) && Text(Spread4) == "- 4 " && Toks(Spread4) == [Minus, Integer(4)]
  {
    SingleDigit("4", '4', 4);
  }

  lemma Spread5Facts()
    ensures ValidPieces(Spread5) && Text(Spread5) == "/ 2" && Toks(Spread5) == [Divide, Integer(2)]
  {
    SingleDigit("2", '2', 2);
  }

  /** The text of the parser test of chalk-core/src/ast.rs. */
  lemma TokenizeParserTest()
    ensures Tokenize("(1 + 2) * 3 - 4 / 2") == Ok([
      OpenParen, Integer(1), Plus, Integer(2), CloseParen, Multiply, Integer(3), Minus, Integer(4), Divide,
      Integer(2), EOF])
  {
    Spread1Facts();
    Spread2Facts();
    Spread3Facts();
    Spread4Facts();
    Spread5Facts();
    JoinChunks(Spread4, Spread5, "- 4 ", "/ 2", [Minus, Integer(4)], [Divide, Integer(2)]);
    var r4 := Spread4 + Spread5;
    var t4 := "- 4 " + "/ 2";
    var k4 := [Minus, Integer(4)] + [Divide, Integer(2)];
    JoinChunks(Spread3, r4, "* 3 ", t4, [Multiply, Integer(3)], k4);
    var r3 := Spread3 + r4;
    var t3 := "* 3 " + t4;
    var k3 := [Multiply, Integer(3)] + k4;
    JoinChunks(Spread2, r3, " 2) ", t3, [Integer(2), CloseParen], k3);
    var r2 := Spread2 + r3;
    var t2 := " 2) " + t3;
    var k2 := [Integer(2), CloseParen] + k3;
    JoinChunks(Spread1, r2, "(1 +", t2, [OpenParen, Integer(1), Plus], k2);
    var ps := Spread1 + r2;
    ScanPieces(ps);
    SpreadText("(1 +" + t2, [OpenParen, Integer(1), Plus] + k2);
    TokenizeOfScan(Text(ps), Toks(ps));
  }

  lemma SpreadText(t: string, k: seq<Token>)
    requires t == "(1 +" + (" 2) " + ("* 3 " + ("- 4 " + "/ 2")))
    requires k == [OpenParen, Integer(1), Plus] + ([Integer(2), CloseParen] + ([Multiply, Integer(3)]
      + ([Minus, Integer(4)] + [Divide, Integer(2)])))
    ensures t == "(1 + 2) * 3 - 4 / 2"
    ensures k + [EOF] == [OpenParen, Integer(1), Plus, Integer(2), CloseParen, Multiply, Integer(3), Minus,
      Integer(4), Divide, Integer(2), EOF]
  {
  }
}
