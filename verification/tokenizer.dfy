/**
 `Tokenizable::tokenize` (chalk-core/src/tokenizer.rs): one left-to-right scan
 with one character of lookahead.  Whitespace is skipped, each of `( ) * x / ÷ + -`
 becomes one token, a number literal is a maximal run of digits holding at most
 one `.` (a `Real` if it holds one, an `Integer` otherwise), any other character
 rejects the whole input, and `EOF` is appended at the end.

 Only ASCII digits and ASCII whitespace are classified as such.
 */
module Tokenizer {
  import opened Results
  import opened Tokens

  /** The error `tokenize` returns. */
  datatype InvalidToken = InvalidToken

  predicate IsDigit(c: char) {
    '0' <= c <= '9'
  }

  /** The ASCII characters `char::is_whitespace` accepts. */
  predicate IsSpace(c: char) {
    c == ' ' || c == '\t' || c == '\n' || c == '\U{000B}' || c == '\U{000C}' || c == '\r'
  }

  /** The division sign `÷`, an alias for `/`. */
  const DivisionSign: char := '\U{00F7}'

  /** The token a single punctuation character stands for; `x` is an alias for `*`. */
  function Punctuation(c: char): Option<Token> {
    if c == '(' then Some(OpenParen)
    else if c == ')' then Some(CloseParen)
    else if c == '*' || c == 'x' then Some(Multiply)
    else if c == '/' || c == DivisionSign then Some(Divide)
    else if c == '+' then Some(Plus)
    else if c == '-' then Some(Minus)
    else None
  }

  /** A character that can continue a number literal. */
  predicate InNumber(c: char) {
    IsDigit(c) || c == '.'
  }

  function CountDots(w: string): (n: nat)
    ensures n <= |w|
    ensures n == 0 <==> '.' !in w
  {
    if w == [] then 0 else (if w[0] == '.' then 1 else 0) + CountDots(w[1..])
  }

  /**
   The text of a number literal: a digit followed by digits and at most one `.`.
   */
  predicate IsNumberLexeme(w: string) {
    && |w| >= 1
    && IsDigit(w[0])
    && (forall i :: 0 <= i < |w| ==> InNumber(w[i]))
    && CountDots(w) <= 1
  }

  /**
   The inner lookahead loop: from index `j` on, take digits, and a `.` while none
   has been taken (`dot` says whether one has); stop at anything else.
   */
  function NumberEnd(s: string, j: nat, dot: bool): (k: nat)
    requires j <= |s|
    ensures j <= k <= |s|
    ensures forall i :: j <= i < k ==> InNumber(s[i])
    ensures CountDots(s[j..k]) <= (if dot then 0 else 1)
    ensures k < |s| ==> !IsDigit(s[k]) && (s[k] != '.' || dot || CountDots(s[j..k]) == 1)
    decreases |s| - j
  {
    if j < |s| && IsDigit(s[j]) then
      var k := NumberEnd(s, j + 1, dot);
      assert s[j..k][1..] == s[j + 1..k];
      k
    else if j < |s| && s[j] == '.' && !dot then
      var k := NumberEnd(s, j + 1, true);
      assert s[j..k][1..] == s[j + 1..k];
      k
    else
      assert s[j..j] == [];
      j
  }

  function DigitValue(c: char): (d: nat)
    requires IsDigit(c)
    ensures d < 10
  {
    c as int - '0' as int
  }

  /** The value of a string of decimal digits, most significant first. */
  function DigitsValue(w: string): nat
    requires forall i :: 0 <= i < |w| ==> IsDigit(w[i])
  {
    if w == [] then 0 else DigitsValue(w[..|w| - 1]) * 10 + DigitValue(w[|w| - 1])
  }

  /** The token for a number literal: `Real` when it contains `.`, else `Integer`. */
  function NumberToken(w: string): (t: Token)
    requires IsNumberLexeme(w)
    ensures t.Real? <==> '.' in w
    ensures t.Real? ==> t.lexeme == w
  {
    if '.' in w then Real(w)
    else
      assert forall i :: 0 <= i < |w| ==> IsDigit(w[i]) by {
        forall i | 0 <= i < |w|
          ensures IsDigit(w[i])
        {
          assert w[i] != '.';
        }
      }
      Integer(DigitsValue(w))
  }

  /** `Ok([t] + ts)` when `r` is `Ok(ts)`; the error otherwise. */
  function Prepend(t: Token, r: Result<seq<Token>, InvalidToken>): Result<seq<Token>, InvalidToken> {
    match r
    case Ok(ts) => Ok([t] + ts)
    case Err(e) => Err(e)
  }

  /** Tokens the scan can produce: lexical, not `EOF`, with non-negative integers and real lexemes. */
  predicate Scanned(t: Token) {
    && IsLexical(t)
    && t != EOF
    && (t.Integer? ==> t.value >= 0)
    && (t.Real? ==> IsNumberLexeme(t.lexeme) && '.' in t.lexeme)
  }

  /** The main loop of `tokenize`, without the final `EOF`. */
  function Scan(s: string): (r: Result<seq<Token>, InvalidToken>)
    ensures r.Ok? ==> forall i :: 0 <= i < |r.value| ==> Scanned(r.value[i])
    ensures r.Ok? ==> |r.value| <= |s|
    decreases |s|
  {
    if s == [] then
      Ok([])
    else if Punctuation(s[0]).Some? then
      Prepend(Punctuation(s[0]).value, Scan(s[1..]))
    else if IsSpace(s[0]) then
      Scan(s[1..])
    else if IsDigit(s[0]) then
      var k := NumberEnd(s, 1, false);
      RunIsLexeme(s);
      Prepend(NumberToken(s[..k]), Scan(s[k..]))
    else
      Err(InvalidToken)
  }

  /**
   `tokenize`: the scanned tokens followed by `EOF`.  A successful result ends
   with exactly one `EOF`, and every other token is one of the tokenizer's own.
   */
  function Tokenize(s: string): (r: Result<seq<Token>, InvalidToken>)
    ensures r.Ok? ==> EndsWithSingleEof(r.value)
    ensures r.Ok? ==> forall i :: 0 <= i < |r.value| ==> IsLexical(r.value[i])
    ensures r.Ok? <==> Scan(s).Ok?
    ensures r.Ok? ==> r.value[..|r.value| - 1] == Scan(s).value
  {
    match Scan(s)
    case Ok(ts) =>
      assert (ts + [EOF])[..|ts|] == ts;
      Ok(ts + [EOF])
    case Err(e) => Err(e)
  }

  // ---------------------------------------------------------------------------
  // Scanning concatenated text

  /** `Ok(xs + ys)` when both are `Ok`; an error otherwise. */
  function Join(a: Result<seq<Token>, InvalidToken>, b: Result<seq<Token>, InvalidToken>): Result<seq<Token>, InvalidToken> {
    if a.Ok? && b.Ok? then Ok(a.value + b.value) else Err(InvalidToken)
  }

  /** The run the lookahead loop takes from a leading digit is a number lexeme. */
  lemma RunIsLexeme(s: string)
    requires s != [] && IsDigit(s[0])
    ensures IsNumberLexeme(s[..NumberEnd(s, 1, false)])
  {
    var k := NumberEnd(s, 1, false);
    assert s[..k][1..] == s[1..k];
  }

  /** One step of `Scan` on a text starting with a digit. */
  lemma ScanNumberStep(s: string)
    requires s != [] && IsDigit(s[0])
    ensures Scan(s) == Prepend(NumberToken(s[..NumberEnd(s, 1, false)]), Scan(s[NumberEnd(s, 1, false)..]))
  {
    assert Punctuation(s[0]).None? && !IsSpace(s[0]);
  }

  lemma PrependJoin(t: Token, a: Result<seq<Token>, InvalidToken>, b: Result<seq<Token>, InvalidToken>)
    ensures Join(Prepend(t, a), b) == Prepend(t, Join(a, b))
  {
    if a.Ok? && b.Ok? {
      assert [t] + a.value + b.value == [t] + (a.value + b.value);
    }
  }

  /** A text that cannot extend a number literal written before it. */
  predicate Separates(rest: string) {
    rest == [] || !InNumber(rest[0])
  }

  lemma {:induction false} NumberEndAppend(a: string, rest: string, j: nat, dot: bool)
    requires j <= |a| && Separates(rest)
    ensures NumberEnd(a + rest, j, dot) == NumberEnd(a, j, dot)
    decreases |a| - j
  {
    var s := a + rest;
    if j < |a| {
      assert s[j] == a[j];
      if IsDigit(a[j]) {
        NumberEndAppend(a, rest, j + 1, dot);
      } else if a[j] == '.' && !dot {
        NumberEndAppend(a, rest, j + 1, true);
      }
    }
  }

  /**
   Scanning a text followed by one that cannot extend its last number literal
   yields the two token lists one after the other (or fails if either part does).
   */
  lemma {:induction false} ScanAppend(a: string, rest: string)
    requires Separates(rest)
    ensures Scan(a + rest) == Join(Scan(a), Scan(rest))
    decreases |a|
  {
    var s := a + rest;
    if a == [] {
      assert s == rest;
      if Scan(rest).Ok? {
        assert [] + Scan(rest).value == Scan(rest).value;
      } else {
        assert Scan(rest).error.InvalidToken?;
      }
    } else {
      assert s[0] == a[0];
      if Punctuation(a[0]).Some? || IsSpace(a[0]) {
        assert s[1..] == a[1..] + rest;
        ScanAppend(a[1..], rest);
        if Punctuation(a[0]).Some? {
          PrependJoin(Punctuation(a[0]).value, Scan(a[1..]), Scan(rest));
        }
      } else if IsDigit(a[0]) {
        var k := NumberEnd(a, 1, false);
        ScanAppend(a[k..], rest);
        ScanAppendNumber(a, rest, k);
      }
    }
  }

  /** The number-literal step of `ScanAppend`: the literal ends at the same place in `a` and in `a + rest`. */
  lemma ScanAppendNumber(a: string, rest: string, k: nat)
    requires Separates(rest) && a != [] && IsDigit(a[0])
    requires k == NumberEnd(a, 1, false)
    requires Scan(a[k..] + rest) == Join(Scan(a[k..]), Scan(rest))
    ensures Scan(a + rest) == Join(Scan(a), Scan(rest))
  {
    RunIsLexeme(a);
    var t := NumberToken(a[..k]);
    ScanConcatHead(a, rest, k);
    ScanNumberStep(a);
    PrependJoin(t, Scan(a[k..]), Scan(rest));
  }

  /** The literal at the head of `a + rest` is the one at the head of `a`. */
  lemma ScanConcatHead(a: string, rest: string, k: nat)
    requires Separates(rest) && a != [] && IsDigit(a[0])
    requires k == NumberEnd(a, 1, false)
    ensures IsNumberLexeme(a[..k])
    ensures Scan(a + rest) == Prepend(NumberToken(a[..k]), Scan(a[k..] + rest))
  {
    var s := a + rest;
    RunIsLexeme(a);
    assert s[0] == a[0];
    NumberEndAppend(a, rest, 1, false);
    SliceConcat(a, rest, k);
    ScanNumberStep(s);
  }

  lemma SliceConcat(a: string, rest: string, k: nat)
    requires k <= |a|
    ensures (a + rest)[..k] == a[..k] && (a + rest)[k..] == a[k..] + rest
  {
  }

  /** A punctuation character becomes its token in front of the rest. */
  lemma ScanPunctuation(c: char, rest: string)
    requires Punctuation(c).Some?
    ensures Scan([c] + rest) == Prepend(Punctuation(c).value, Scan(rest))
  {
    assert ([c] + rest)[1..] == rest;
  }

  /** A whitespace character is skipped. */
  lemma ScanSpace(c: char, rest: string)
    requires IsSpace(c)
    ensures Scan([c] + rest) == Scan(rest)
  {
    assert ([c] + rest)[1..] == rest;
  }

  /**
   Two characters standing for the same token are interchangeable anywhere in
   the text: `x` reads as `*` and `÷` as `/`, whatever surrounds them.
   */
  lemma AliasAnywhere(a: string, c: char, d: char, t: Token, b: string)
    requires Punctuation(c) == Some(t) && Punctuation(d) == Some(t)
    ensures Scan(a + [c] + b) == Scan(a + [d] + b)
  {
    var x, y := [c] + b, [d] + b;
    PunctuationSeparates(c, b);
    PunctuationSeparates(d, b);
    assert x[1..] == b && y[1..] == b;
    assert Scan(x) == Prepend(t, Scan(b));
    assert Scan(y) == Prepend(t, Scan(b));
    ScanAppend(a, x);
    ScanAppend(a, y);
    assert a + [c] + b == a + x;
    assert a + [d] + b == a + y;
  }

  /** A punctuation character cannot extend a number literal. */
  lemma PunctuationSeparates(c: char, b: string)
    requires Punctuation(c).Some?
    ensures Separates([c] + b)
  {
    assert ([c] + b)[0] == c;
  }

  /** The aliases of the source: `x` for `*` and `÷` for `/`. */
  lemma Aliases(a: string, b: string)
    ensures Scan(a + ['x'] + b) == Scan(a + ['*'] + b)
    ensures Scan(a + [DivisionSign] + b) == Scan(a + ['/'] + b)
  {
    AliasAnywhere(a, 'x', '*', Multiply, b);
    AliasAnywhere(a, DivisionSign, '/', Divide, b);
  }

  /** A number lexeme followed by a separating text becomes one token in front of the rest. */
  lemma ScanLexeme(w: string, rest: string)
    requires IsNumberLexeme(w) && Separates(rest)
    ensures Scan(w + rest) == Prepend(NumberToken(w), Scan(rest))
  {
    ScanAppend(w, rest);
    ScanNumberLexeme(w);
    if Scan(rest).Err? {
      assert Scan(rest).error.InvalidToken?;
    }
  }

  // ---------------------------------------------------------------------------
  // Rendering tokens back to text

  function DigitChar(d: nat): (c: char)
    requires d < 10
    ensures IsDigit(c) && DigitValue(c) == d
  {
    ('0' as int + d) as char
  }

  /** The decimal digits of `n`. */
  function NatToString(n: nat): (w: string)
    ensures |w| >= 1
    ensures forall i :: 0 <= i < |w| ==> IsDigit(w[i])
    decreases n
  {
    if n < 10 then [DigitChar(n)] else NatToString(n / 10) + [DigitChar(n % 10)]
  }

  /** Reading back the decimal digits of `n` gives `n`. */
  lemma {:induction false} NatToStringValue(n: nat)
    ensures DigitsValue(NatToString(n)) == n
    decreases n
  {
    var w := NatToString(n);
    if n >= 10 {
      NatToStringValue(n / 10);
      assert w[..|w| - 1] == NatToString(n / 10);
    } else {
      assert w[..0] == [];
    }
  }

  lemma {:induction false} CountDotsAppend(a: string, b: string)
    ensures CountDots(a + b) == CountDots(a) + CountDots(b)
    decreases |a|
  {
    if a == [] {
      assert a + b == b;
    } else {
      assert (a + b)[1..] == a[1..] + b;
      CountDotsAppend(a[1..], b);
    }
  }

  /** On a number lexeme, the lookahead loop runs to its end. */
  lemma {:induction false} NumberEndOfLexeme(w: string, j: nat, dot: bool)
    requires IsNumberLexeme(w) && 1 <= j <= |w|
    requires dot <==> CountDots(w[..j]) > 0
    ensures NumberEnd(w, j, dot) == |w|
    decreases |w| - j
  {
    if j < |w| {
      assert w[..j + 1] == w[..j] + [w[j]];
      CountDotsAppend(w[..j], [w[j]]);
      assert w == w[..j + 1] + w[j + 1..];
      CountDotsAppend(w[..j + 1], w[j + 1..]);
      NumberEndOfLexeme(w, j + 1, dot || w[j] == '.');
    }
  }

  /** The text of a scanned token. */
  function RenderToken(t: Token): (w: string)
    requires Scanned(t)
    ensures |w| >= 1
  {
    match t
    case Integer(n) => NatToString(n)
    case Real(lexeme) => lexeme
    case Multiply => "*"
    case Divide => "/"
    case Plus => "+"
    case Minus => "-"
    case OpenParen => "("
    case CloseParen => ")"
  }

  /** Tokens written out, each followed by a space. */
  function Render(ts: seq<Token>): string
    requires forall i :: 0 <= i < |ts| ==> Scanned(ts[i])
  {
    if ts == [] then "" else RenderToken(ts[0]) + " " + Render(ts[1..])
  }

  /** A number lexeme scans to exactly its own token. */
  lemma ScanNumberLexeme(w: string)
    requires IsNumberLexeme(w)
    ensures Scan(w) == Ok([NumberToken(w)])
  {
    assert w[..1] == [w[0]];
    assert CountDots([w[0]]) == 0;
    NumberEndOfLexeme(w, 1, false);
    var k := NumberEnd(w, 1, false);
    assert k == |w|;
    assert w[..k] == w;
    assert w[k..] == [];
    ScanNumberStep(w);
    assert [NumberToken(w)] + [] == [NumberToken(w)];
  }

  lemma ScanRenderToken(t: Token)
    requires Scanned(t)
    ensures Scan(RenderToken(t)) == Ok([t])
  {
    var w := RenderToken(t);
    if t.Integer? {
      NatToStringValue(t.value);
      assert '.' !in w;
      ScanNumberLexeme(w);
    } else if t.Real? {
      ScanNumberLexeme(w);
    } else {
      assert Punctuation(w[0]) == Some(t);
      assert w[1..] == [];
      assert Scan(w) == Prepend(t, Scan([]));
      assert [t] + [] == [t];
    }
  }

  /** Scanning rendered tokens gives them back: rendering is a right inverse of scanning. */
  lemma {:induction false} ScanRender(ts: seq<Token>)
    requires forall i :: 0 <= i < |ts| ==> Scanned(ts[i])
    ensures Scan(Render(ts)) == Ok(ts)
  {
    if ts != [] {
      ScanRender(ts[1..]);
      ScanRenderCons(ts[0], Render(ts[1..]), ts[1..]);
      assert [ts[0]] + ts[1..] == ts;
    }
  }

  /** One rendered token, a space, then text that scans to `rest`. */
  lemma ScanRenderCons(t: Token, text: string, rest: seq<Token>)
    requires Scanned(t) && Scan(text) == Ok(rest)
    ensures Scan(RenderToken(t) + " " + text) == Ok([t] + rest)
  {
    var w := RenderToken(t);
    ScanRenderToken(t);
    var tail := " " + text;
    assert w + " " + text == w + tail;
    ScanAppend(w, tail);
    ScanSpace(' ', text);
  }

  /** Tokenizing rendered tokens yields them followed by `EOF`. */
  lemma TokenizeRender(ts: seq<Token>)
    requires forall i :: 0 <= i < |ts| ==> Scanned(ts[i])
    ensures Tokenize(Render(ts)) == Ok(ts + [EOF])
  {
    ScanRender(ts);
  }

  // ---------------------------------------------------------------------------
  // Acceptance and rejection

  /** The characters the tokenizer knows. */
  predicate Known(c: char) {
    Punctuation(c).Some? || IsSpace(c) || InNumber(c)
  }

  /** Any character outside the known ones rejects the whole input. */
  lemma {:induction false} UnknownCharRejected(s: string, i: nat)
    requires i < |s| && !Known(s[i])
    ensures Scan(s).Err?
    decreases |s|
  {
    if i > 0 {
      if Punctuation(s[0]).Some? || IsSpace(s[0]) {
        UnknownCharRejected(s[1..], i - 1);
      } else if IsDigit(s[0]) {
        var k := NumberEnd(s, 1, false);
        UnknownCharRejected(s[k..], i - k);
      }
    }
  }

  /** Text made only of punctuation, whitespace and digits is always accepted. */
  lemma {:induction false} DotFreeAccepted(s: string)
    requires forall i :: 0 <= i < |s| ==> Punctuation(s[i]).Some? || IsSpace(s[i]) || IsDigit(s[i])
    ensures Scan(s).Ok?
    decreases |s|
  {
    if s != [] {
      if Punctuation(s[0]).Some? || IsSpace(s[0]) {
        DotFreeAccepted(s[1..]);
      } else {
        var k := NumberEnd(s, 1, false);
        DotFreeAccepted(s[k..]);
      }
    }
  }

  /** A text that starts with `.` is rejected: `.5` fails. */
  lemma LeadingDotRejected(rest: string)
    ensures Scan("." + rest).Err?
  {
  }

  /**
   Text that cannot continue a literal of `a` is scanned on its own after `a`
   (the scan of `a` stops exactly at its end): if that text is rejected, so is
   `a` followed by it.
   */
  lemma {:induction false} RejectedAfter(a: string, t: string)
    requires a == [] || !InNumber(a[|a| - 1])
    requires Scan(t).Err?
    ensures Scan(a + t).Err?
    decreases |a|
  {
    var s := a + t;
    if a == [] {
      assert s == t;
    } else {
      assert s[0] == a[0];
      if Punctuation(a[0]).Some? || IsSpace(a[0]) {
        assert s[1..] == a[1..] + t;
        RejectedAfter(a[1..], t);
        assert Scan(s[1..]).Err?;
      } else if IsDigit(a[0]) {
        var k := NumberEnd(s, 1, false);
        assert s[|a| - 1] == a[|a| - 1];
        assert k < |a|;
        assert s[k..] == a[k..] + t;
        RejectedAfter(a[k..], t);
        ScanNumberStep(s);
      }
    }
  }

  /**
   A `.` that does not follow the digits of a literal is rejected wherever it
   stands: at the start, after a space, an operator or a parenthesis, as in
   `1 + .5` or `(.5)`.
   */
  lemma StrayDotRejected(a: string, rest: string)
    requires a == [] || !InNumber(a[|a| - 1])
    ensures Scan(a + "." + rest).Err?
  {
    LeadingDotRejected(rest);
    RejectedAfter(a, "." + rest);
    assert a + "." + rest == a + ("." + rest);
  }

  /**
   A literal that already holds a `.` ends at a second `.`, which is then
   rejected: `2.5.1` fails, and so does any text in which such a literal
   stands on its own, as in `1 + 2.5.1`.
   */
  lemma SecondDotInLiteralRejected(a: string, w: string, rest: string)
    requires a == [] || !InNumber(a[|a| - 1])
    requires IsNumberLexeme(w) && '.' in w
    ensures Scan(a + w + "." + rest).Err?
  {
    DotAfterLiteral(w, rest);
    RejectedAfter(a, w + "." + rest);
    assert a + w + "." + rest == a + (w + "." + rest);
  }

  /** A literal holding a `.`, directly followed by another `.`, is rejected. */
  lemma DotAfterLiteral(w: string, rest: string)
    requires IsNumberLexeme(w) && '.' in w
    ensures Scan(w + "." + rest).Err?
  {
    var s := w + "." + rest;
    assert w[..1] == [w[0]];
    assert CountDots([w[0]]) == 0;
    NumberEndAtSecondDot(w, s, 1, false);
    var k := NumberEnd(s, 1, false);
    assert s[k..] == "." + rest;
    LeadingDotRejected(rest);
    assert s[0] == w[0];
    ScanNumberStep(s);
  }

  /** On a text that continues a dotted lexeme `w` with `.`, the lookahead loop stops at the end of `w`. */
  lemma {:induction false} NumberEndAtSecondDot(w: string, s: string, j: nat, dot: bool)
    requires IsNumberLexeme(w) && '.' in w && 1 <= j <= |w|
    requires |w| < |s| && s[..|w|] == w && s[|w|] == '.'
    requires dot <==> CountDots(w[..j]) > 0
    ensures NumberEnd(s, j, dot) == |w|
    decreases |w| - j
  {
    if j < |w| {
      assert s[j] == s[..|w|][j] == w[j];
      assert w[..j + 1] == w[..j] + [w[j]];
      CountDotsAppend(w[..j], [w[j]]);
      assert w == w[..j + 1] + w[j + 1..];
      CountDotsAppend(w[..j + 1], w[j + 1..]);
      NumberEndAtSecondDot(w, s, j + 1, dot || w[j] == '.');
    } else {
      assert w[..j] == w;
    }
  }

  /** The second `.` of `1.2.3` ends the literal `1.2` and is then rejected. */
  lemma SecondDotRejected()
    ensures Tokenize("1.2.3").Err?
  {
    var w := "1.2";
    assert w[1] == '.';
    assert CountDots(w) == 1;
    SecondDotInLiteralRejected("", w, "3");
    assert "" + w + "." + "3" == "1.2.3";
  }
}
