# chalk-core in Dafny

A model of the core of chalk, a small calculator language written in Rust, together with proofs about it. Three pure, sequential parts are modelled:

- **Number theory** (`chalk-core/src/math`):
  - `PrimeMachine`, an iterator that yields the primes and caches the earlier ones;
  - the trial-division primality check `is_prime`;
  - the factoriser `prime_factorize`;
  - `generate_powers` and `Powerable::power`;
  - `gcd` and `lcm`. Both factorise their operands, group the exponents per prime in a `HashMap`, and multiply the chosen prime powers into a wrapping `u32` accumulator that is finally cast to `i32`.
- **The tokenizer** (`chalk-core/src/tokenizer.rs`):
  - a single left-to-right scan with one character of lookahead;
  - it emits punctuation tokens and integer or real literals, skips whitespace and appends `EOF`.
- **The parser and printer** (`chalk-core/src/ast.rs`):
  - the expression tree `Expr`;
  - the operator enums and their case-insensitive `try_from`;
  - the recursive-descent `Parser`, one rule per precedence level;
  - `Display` for operators and trees.

## Layout

| file | module | contents |
|---|---|---|
| results.dfy | Results | `Option` and `Result` |
| number_theory.dfy | NumberTheory | divisibility, primes, `Pow`, `Product`, Euclid's algorithm, Bézout, Euclid's lemma, least prime factor |
| valuations.dfy | Valuations | p-adic valuations; divisibility is componentwise order of valuations |
| u32_arith.dfy | U32Arith | wrap-around multiplication and power, and the `as i32` / `as u32` casts |
| primes.dfy | Primes | `PrimeMachine::next`, the prime search loops, `is_prime`, `prime_factorize` |
| powers.dfy | Powers | `generate_powers` and `Powerable::power` |
| grouping.dfy | Grouping | the exponent map shared by `gcd` and `lcm`, and the folding loop |
| gcd_lcm.dfy | GcdLcm | `gcd`, `lcm` and their tests |
| tokens.dfy | Tokens | the token type shared by the tokenizer and the parser |
| tokenizer.dfy | Tokenizer | `tokenize`, its concatenation and round-trip lemmas, and the rejections |
| tokenizer_examples.dfy | TokenizerExamples | the tokenizer's tests |
| ast.dfy | Ast | `Expr`, the operator names, `Display` |
| parser.dfy | Parser | one function per grammar rule |
| parser_props.dfy | ParserProperties | index safety, assignments, postfix `!`, operator names, and the empty-statement defect |
| parser_examples.dfy | ParserExamples | associativity, implicit multiplication, the parser test |

How the model is built:

- **Parser rules.** Each rule is a function of the token list and a position. It returns the tree and the position after it, or a failure.
- **Panics.** Reading past the end of the token list panics in Rust. Here that is the failure `IndexOutOfRange`, kept apart from `ParseError`.
- **Parser loops.** Each `while` loop of the parser is a function of its own, taking the tree built so far.
- **Termination.** Termination is measured by the number of tokens left, then by the precedence level.
- **Shared token type.** `tokenizer.rs` declares nine token variants, but `ast.rs` matches on sixteen more (`Variable`, `Assign`, `Ident`, `Caret`, `Exclamation`, `Bar`, `Comma`, `Bool`, the comparisons, `And`, `Or`). `Tokens.Token` is the union of both. The tokenizer produces only its nine, and the parser accepts any list.

## Model

| member | source | states |
|---|---|---|
| Primes.NextValue | chalk-core/src/math/prime.rs:13-23 | the value `next` picks is a prime above the cache and no larger than any such prime: 2 for an empty cache, the least prime above the newest entry otherwise |
| Primes.Next | chalk-core/src/math/prime.rs:12-27 | `next` yields the least prime above the cache and appends it, so the cache stays the increasing list of all primes up to its newest entry |
| Primes.FirstUndivided | chalk-core/src/math/prime.rs:16-20 | the inner `while` stops at the first number from `curr` on that no cached prime divides, and it stops by the product of the cache plus one |
| Primes.NextCandidateIsLeastPrime | chalk-core/src/math/prime.rs:16-22 | the first number above the cache that no cached prime divides is prime, and no prime lies between it and the cache |
| Primes.Search | chalk-core/src/math/prime.rs:45-51 | the `for prime in primes` loop only ever extends the machine's cache and keeps it valid |
| Primes.SearchCorrect | chalk-core/src/math/prime.rs:45-51 | the loop finds the least prime up to the bound that divides `n`, and finds nothing exactly when no such prime exists |
| Primes.FloorSqrt | chalk-core/src/math/prime.rs:43 | the bound of `is_prime_with_machine` is the largest number whose square is at most `n` |
| Primes.CeilSqrt | chalk-core/src/math/prime.rs:69 | the bound of `prime_factorize` is the least number whose square is at least `n` |
| Primes.CompositeHasSmallFactor | chalk-core/src/math/prime.rs:43-53 | a composite number has a prime factor at or below its floor square root, so trial division up to it is enough |
| Primes.PrimeCheckWithMachine | chalk-core/src/math/prime.rs:42-54 | the result is true exactly when no prime above the cache and at most the floor square root divides `n` |
| Primes.PrimeCheck | chalk-core/src/math/prime.rs:35-38 | `is_prime(n)` is true exactly for the primes, and also for 0 and 1 |
| Primes.PrimeCheckCorrect | chalk-core/src/math/prime.rs:42-54 | no prime at or below the floor square root divides `n` exactly when `n` is prime or below 2 |
| Primes.FactorStep | chalk-core/src/math/prime.rs:69-81 | one pass of the outer loop pushes the least prime factor of `curr`, whether the prime search finds it or `curr` is itself prime |
| Primes.PrimeFactorize | chalk-core/src/math/prime.rs:64-87 | for `n >= 1` the factors multiply to `n`, are all prime and come out non-decreasing, so `factors.sort()` changes nothing; the list is empty exactly for `n = 1` and starts with the least prime factor |
| Primes.FactorizationUnique | chalk-core/src/math/prime.rs:85-86 | two sorted lists of primes with the same product are equal, so the factorisation is the only correct output |
| Primes.FactorizeThree | chalk-core/src/math/prime.rs:100-104 | a prime factorises to itself: 3 gives `[3]` |
| Primes.FactorizeHundred | chalk-core/src/math/gcd.rs:79 | 100 factorises to `[2, 2, 5, 5]` |
| Powers.PowersFrom | chalk-core/src/math/gcd.rs:57-64 | from index `i` on, with `seen` holding the values before `i`, the loop emits each unseen value once, with its count in the whole list, in order of first occurrence |
| Powers.GeneratePowers | chalk-core/src/math/gcd.rs:53-68 | one `(v, count of v)` pair for each distinct value and for nothing else, keys in order of first occurrence, counts adding up to the length of the list |
| Powers.PowersDistinct | chalk-core/src/math/gcd.rs:55-63 | the `seen` set makes the emitted keys pairwise distinct |
| Powers.ExpsOfPowers | chalk-core/src/math/gcd.rs:57-63 | in the powers of a list, a value has the exponent list `[count]` if it occurs and `[]` otherwise |
| Powers.Power | chalk-core/src/math/gcd.rs:41-45 | `(b, e).power()` is `b^e` modulo 2^32, and exactly `b^e` when that fits in a `u32` |
| Powers.PowersOfTwoTwoFiveFive | chalk-core/src/math/gcd.rs:78-81 | the powers of `[2, 2, 5, 5]` are `[(2, 2), (5, 2)]` |
| Grouping.Push | chalk-core/src/math/gcd.rs:17 | `entry(key).or_default().push(e)` appends `e` to `key`'s exponents, changes no other key, adds no key but `key`, and keeps keys distinct |
| Grouping.Group | chalk-core/src/math/gcd.rs:14-18 | after the grouping loop, every key holds exactly the exponents the pairs list for it, in order, and only listed keys are present |
| Grouping.FoldLoop | chalk-core/src/math/gcd.rs:20-30 | the wrapping accumulator ends as the exact product of the chosen prime powers, times its start, modulo 2^32 |
| Grouping.ValOfFold | chalk-core/src/math/gcd.rs:22-29 | the exponent of each prime in the exact product is the exponent chosen for its entry, and 0 for an absent prime |
| GcdLcm.MinOr0 | chalk-core/src/math/gcd.rs:26 | `min().unwrap_or(0)` is 0 for an empty list, otherwise an element no larger than any other |
| GcdLcm.MaxOr0 | chalk-core/src/math/lcm.rs:27 | `max().unwrap_or(0)` is 0 for an empty list, otherwise an element no smaller than any other |
| GcdLcm.GcdExponentIsMin | chalk-core/src/math/gcd.rs:22-27 | a prime present in one operand only gets exponent 0; present in both, it gets the smaller exponent |
| GcdLcm.LcmExponentIsMax | chalk-core/src/math/lcm.rs:23-28 | a prime present in one operand only keeps its exponent; present in both, it gets the larger exponent |
| GcdLcm.ExponentsOf | chalk-core/src/math/gcd.rs:9-18 | for each prime, the map lists its exponent in `a`, if any, followed by its exponent in `b`, if any |
| GcdLcm.ValOfGcdProduct | chalk-core/src/math/gcd.rs:16-30 | each prime's exponent in `gcd`'s exact product is the minimum of its exponents in `a` and `b` |
| GcdLcm.ValOfLcmProduct | chalk-core/src/math/lcm.rs:17-31 | each prime's exponent in `lcm`'s exact product is the maximum of its exponents in `a` and `b` |
| GcdLcm.ExactGcdIsGcd | chalk-core/src/math/gcd.rs:7-30 | the exact product divides both operands, and every common divisor divides it |
| GcdLcm.ExactLcmIsLcm | chalk-core/src/math/lcm.rs:8-31 | the exact product is a multiple of both operands and divides every common multiple |
| GcdLcm.GcdAccumulator | chalk-core/src/math/gcd.rs:20-30 | `gcd`'s accumulator never wraps: it ends as the greatest common divisor, which is at most either operand |
| GcdLcm.LcmAccumulator | chalk-core/src/math/lcm.rs:21-31 | `lcm`'s accumulator ends as the least common multiple modulo 2^32 |
| GcdLcm.Gcd | chalk-core/src/math/gcd.rs:8-33 | the 32 bits of the `i32` result are the greatest common divisor; the result is that divisor whenever it is non-negative, which is always the case when an operand is below 2^31 |
| GcdLcm.Lcm | chalk-core/src/math/lcm.rs:9-34 | the 32 bits of the `i32` result are the least common multiple modulo 2^32, and the result is the least common multiple itself when that is below 2^31 |
| GcdLcm.ExactGcdTimesLcm | chalk-core/src/math/lcm.rs:23-30 | the exact products of `gcd` and `lcm` multiply to `a * b`, because min plus max of two exponents is their sum |
| GcdLcm.GcdTimesLcm | chalk-core/src/math/lcm.rs:9-34 | when `a * b` is below 2^31, `gcd(a, b) * lcm(a, b) == a * b` |
| GcdLcm.GcdOfCoprime | chalk-core/src/math/gcd.rs:20-30 | operands that share no prime have gcd 1 |
| GcdLcm.LcmOfOnes | chalk-core/src/math/lcm.rs:21 | `lcm(1, 1)` is 1, because both factorisations are empty |
| GcdLcm.GcdEightTwelve | chalk-core/src/math/gcd.rs:84-88 | `gcd(8, 12)` is 4 |
| GcdLcm.LcmTwelveFifteen | chalk-core/src/math/lcm.rs:41-44 | `lcm(12, 15)` is 60 |
| GcdLcm.PowersOfHundred | chalk-core/src/math/gcd.rs:78-81 | `100.prime_factorize().generate_powers()` is `[(2, 2), (5, 2)]` |
| U32Arith.AsI32 | chalk-core/src/math/gcd.rs:32 | `as i32` keeps the value below 2^31, subtracts 2^32 otherwise, and is negative exactly in that case |
| U32Arith.CastRoundTrip | chalk-core/src/math/lcm.rs:33 | the `as i32` and `as u32` casts are inverse bijections between the 32-bit ranges |
| Tokenizer.NumberEnd | chalk-core/src/tokenizer.rs:70-80 | the lookahead loop takes only digits and at most one `.`, and stops at the first character that is neither a digit nor a permitted `.` |
| Tokenizer.NumberToken | chalk-core/src/tokenizer.rs:82-90 | a literal is `Real` exactly when it contains a `.`, and a real keeps its text |
| Tokenizer.Scan | chalk-core/src/tokenizer.rs:57-96 | every scanned token is one of the tokenizer's own other than `EOF`, and there are no more tokens than characters |
| Tokenizer.Tokenize | chalk-core/src/tokenizer.rs:53-100 | a successful result ends with exactly one `EOF` and holds only the nine tokenizer variants; it succeeds exactly when the scan does, and the scan's tokens precede the `EOF` |
| Tokenizer.ScanPunctuation | chalk-core/src/tokenizer.rs:59-64 | each punctuation character becomes exactly one token in front of the rest |
| Tokenizer.ScanSpace | chalk-core/src/tokenizer.rs:65 | whitespace produces no token |
| Tokenizer.AliasAnywhere | chalk-core/src/tokenizer.rs:61-62 | two characters that stand for the same token are interchangeable anywhere in the text |
| Tokenizer.Aliases | chalk-core/src/tokenizer.rs:61-62 | `x` reads exactly as `*` and `÷` exactly as `/` |
| Tokenizer.ScanLexeme | chalk-core/src/tokenizer.rs:66-91 | a number literal followed by text that cannot extend it becomes one token in front of the rest |
| Tokenizer.ScanAppend | chalk-core/src/tokenizer.rs:57-96 | scanning text followed by text that cannot extend its last literal gives the two token lists one after the other |
| Tokenizer.NatToStringValue | chalk-core/src/tokenizer.rs:89 | reading back the decimal digits of `n` gives `n`, the inverse that rendering integer tokens relies on |
| Tokenizer.ScanRender | chalk-core/src/tokenizer.rs:57-96 | scanning the text of any scannable token list, each token followed by a space, gives the list back |
| Tokenizer.TokenizeRender | chalk-core/src/tokenizer.rs:53-100 | tokenizing that text gives the list followed by `EOF` |
| Tokenizer.UnknownCharRejected | chalk-core/src/tokenizer.rs:92 | any character outside the known ones rejects the whole input |
| Tokenizer.DotFreeAccepted | chalk-core/src/tokenizer.rs:57-96 | text made only of punctuation, whitespace and digits is always accepted |
| Tokenizer.LeadingDotRejected | chalk-core/src/tokenizer.rs:66-92 | a text that starts with `.` is rejected: no arm of the match takes a `.` |
| Tokenizer.RejectedAfter | chalk-core/src/tokenizer.rs:57-96 | text that is rejected on its own is still rejected after any text whose last character cannot continue a literal, because the scan of that text stops exactly at its end |
| Tokenizer.StrayDotRejected | chalk-core/src/tokenizer.rs:66-92 | a `.` that does not follow the digits of a literal is rejected wherever it stands, as in `1 + .5` or `(.5)` |
| Tokenizer.SecondDotInLiteralRejected | chalk-core/src/tokenizer.rs:71-92 | a literal that already holds a `.` ends at a second `.`, which is then rejected: `2.5.1` fails, and so does any text in which such a literal stands on its own |
| Tokenizer.SecondDotRejected | chalk-core/src/tokenizer.rs:71-92 | the second `.` of `1.2.3` ends the literal `1.2` and is then rejected |
| TokenizerExamples.ScanPieces | chalk-core/src/tokenizer.rs:57-96 | text built from punctuation, blanks and non-adjacent literals scans to exactly their tokens |
| TokenizerExamples.TokenizeParenthesisedSum | chalk-core/src/tokenizer.rs:110-124 | `(1+1)` gives `( 1 + 1 ) EOF` |
| TokenizerExamples.TokenizeReal | chalk-core/src/tokenizer.rs:127-131 | `3.1415` gives one real literal and `EOF` |
| TokenizerExamples.TokenizeWithWhitespace | chalk-core/src/tokenizer.rs:134-148 | runs of whitespace are skipped: ` 1024 … / … 1.23 ` gives `1024 / 1.23 EOF` |
| TokenizerExamples.TokenizeInteger | chalk-core/src/tokenizer.rs:151-155 | `1024` gives one integer literal and `EOF` |
| TokenizerExamples.TokenizeTwoDots | chalk-core/src/tokenizer.rs:158-162 | `1.2.3` is rejected |
| TokenizerExamples.TokenizeNested | chalk-core/src/tokenizer.rs:165-191 | `((360 * 9.2) / 0.25) - (5 + 5.0)` gives exactly the sixteen listed tokens |
| TokenizerExamples.TokenizeParserTest | chalk-core/src/ast.rs:501-503 | `(1 + 2) * 3 - 4 / 2` gives its twelve tokens |
| Ast.UnaryFromNameCorrect | chalk-core/src/ast.rs:110-127 | a name denotes a unary operator exactly when its lower-case form is that operator's name |
| Ast.BinaryFromNameCorrect | chalk-core/src/ast.rs:165-187 | a name denotes a binary operator exactly when its lower-case form is one of that operator's names (`sub`, `mul`, `div` included) |
| Ast.NamesIgnoreCase | chalk-core/src/ast.rs:113-168 | operator lookup does not depend on letter case |
| Ast.NamesDisjoint | chalk-core/src/ast.rs:452-464 | no name denotes both a binary and a unary operator, so trying binary names first decides nothing |
| Ast.OpSymbolInjective | chalk-core/src/ast.rs:189-217 | distinct binary operators print as distinct characters |
| Ast.Show | chalk-core/src/ast.rs:42-83 | a `Paren` prints inside `(` and `)`, an absolute value inside two bars, and a factorial ends with `!`; the text of each binary form is stated by `ShowInfixText` and `ShowCallText` and that of each unary form by `ShowUnaryText`, the balance of its parentheses by `ShowBalanced`, and the source's example by `ShowParenthesisedSum` |
| Ast.ShowUnaryText | chalk-core/src/ast.rs:50-61 | a negation prints as `-x`, a factorial as `x!`, and every other unary operator as a call `name(x)` whose name the operator lookup reads back as the same operator |
| Ast.ShowBalanced | chalk-core/src/ast.rs:42-83 | for trees whose variables and real lexemes hold no parenthesis, the printed text has balanced parentheses: no prefix closes more `(` than it opened, and every `(` written for a `Paren` or a call is closed after it; equal counts alone are not enough, as `CountsAreNotBalance` shows for `)(` |
| Ast.ShowParenthesisedSum | chalk-core/src/ast.rs:541-550 | `Paren(1 + 2.5)` prints as `(1 + 2.5)` |
| Parser.Consume | chalk-core/src/ast.rs:255-262 | `consume` succeeds exactly when the current token is the expected one, and then steps over it |
| Parser.Assignment | chalk-core/src/ast.rs:272-284 | a success consumes at least one token and had two tokens to look at; it is an `Assignment` node exactly when those are a variable and `=`, that node targets the variable and its value holds no assignment, and any other success holds none; on a list ending in its only `EOF`, with two tokens left, no read goes past the end |
| Parser.Chained | chalk-core/src/ast.rs:287-307 | a success consumes tokens, reads nothing past an `EOF`-terminated list, holds no `=` and builds no assignment |
| Parser.ChainedLoop | chalk-core/src/ast.rs:290-304 | the loop stops only at a token other than `&&` and `||` |
| Parser.Comparison | chalk-core/src/ast.rs:310-337 | at most one comparison: a success that stops at a comparison token has already built a comparison node, so that token is left for the levels above; a success consumes tokens, stays in range, holds no `=` and builds no assignment |
| Parser.Expression | chalk-core/src/ast.rs:340-358 | as `Chained`, for sums and differences |
| Parser.ExpressionLoop | chalk-core/src/ast.rs:343-355 | the loop stops only at a token other than `+` and `-` |
| Parser.Term | chalk-core/src/ast.rs:361-395 | as `Chained`, for products, quotients and implicit products |
| Parser.TermLoop | chalk-core/src/ast.rs:364-392 | the loop stops only at a token other than `*`, `/` and `(` |
| Parser.ImplicitProduct | chalk-core/src/ast.rs:372-385 | a round of the term loop on `(` keeps the loop's guarantees: it stays in range, holds no `=`, and stops only at a token other than `*`, `/` and `(` |
| Parser.Power | chalk-core/src/ast.rs:398-412 | as `Chained`, for powers |
| Parser.PowerLoop | chalk-core/src/ast.rs:401-409 | the loop stops only at a token other than `^` |
| Parser.Factorial | chalk-core/src/ast.rs:415-426 | as `Chained`, for a factor and its `!`s |
| Parser.FactorialLoop | chalk-core/src/ast.rs:417-423 | the loop stops only at a token other than `!` |
| Parser.Enclosed | chalk-core/src/ast.rs:438-447 | a bracketed chain ends with its closing token |
| Parser.Factor | chalk-core/src/ast.rs:429-479 | an atom consumes tokens and stays in range, and an `EOF` in atom position is a parse error |
| Parser.Call | chalk-core/src/ast.rs:451-476 | an operator call consumes tokens, stays in range, holds no `=` and builds no assignment |
| Parser.BinaryCall | chalk-core/src/ast.rs:452-463 | a binary name followed by `( chain , chain )` builds a node of that operator |
| Parser.UnaryCall | chalk-core/src/ast.rs:464-472 | a unary name followed by `( chain )` builds a node of that operator |
| Parser.Parse | chalk-core/src/ast.rs:482-487 | on a list of two or more tokens whose only `EOF` is the last, `parse` never reads past the end; an accepted statement is an assignment exactly when its first two tokens are a variable and `=`, it then targets that variable, and no other assignment appears anywhere in the tree; tokens left over after the statement are a parse error, not a panic |
| ParserProperties.ParseEmptyOutOfRange | chalk-core/src/ast.rs:272-273 | the statement `EOF` alone is read past its end |
| ParserProperties.BlankLineOutOfRange | chalk-core/src/ast.rs:273 | a blank line tokenizes to `EOF` alone, which `parse` reads past |
| ParserProperties.AssignmentChecked | chalk-core/src/ast.rs:272-284 | the assignment rule with its lookahead guarded never reads past an `EOF`-terminated list, and it agrees with the original wherever that one has two tokens to look at |
| ParserProperties.ParseChecked | chalk-core/src/ast.rs:482-487 | `parse` with the guarded rule never reads past the end of a tokenizer-shaped list, rejects the empty statement and agrees with `parse` on every list of two or more tokens |
| ParserProperties.EofAloneRejected | chalk-core/src/ast.rs:429-479 | no rule below the assignment level accepts `EOF`: `factor` advances over it and fails |
| ParserProperties.ParseInRange | chalk-core/src/ast.rs:245-252 | on a list ending in its only `EOF`, `parse` reads past the end exactly when the list is `EOF` alone |
| ParserProperties.PipelineInRange | chalk-core/src/ast.rs:245-252 | every line the tokenizer accepts gets a verdict from the guarded parser, the same verdict `parse` gives on every non-empty statement |
| ParserProperties.ParseAssignmentShape | chalk-core/src/ast.rs:272-284 | an accepted statement is an assignment exactly when it starts with a variable and `=`; its value and every other statement hold no assignment; on a tokenizer-shaped list the only `=` is the second token |
| ParserProperties.FactorialLoopRun | chalk-core/src/ast.rs:415-426 | `n` consecutive `!` wrap the factor in `n` nested factorial nodes and are all consumed |
| ParserProperties.IdentifierCall | chalk-core/src/ast.rs:451-476 | an identifier parses only as a call of the operator it names, in any letter case, and any other name is a parse error |
| ParserExamples.FactorParen | chalk-core/src/ast.rs:438-442 | a `(` in atom position reads a chain and its `)` and keeps a `Paren` node |
| ParserExamples.ParseOfChain | chalk-core/src/ast.rs:482-487 | a statement not starting with a variable parses exactly when its chain stops at `EOF`; leftover tokens are a parse error |
| ParserExamples.ParseOfChainFailure | chalk-core/src/ast.rs:482-487 | a statement not starting with a variable fails exactly as its chain does |
| ParserExamples.ComparisonsOfExpressionsDoNotChain | chalk-core/src/ast.rs:310-337 | for any two expressions `a` and `b` compared with each other, a second comparison token after `b` makes the statement a parse error |
| ParserExamples.ComparisonsDoNotChain | chalk-core/src/ast.rs:310-337 | `a == b == c` over integers, with any two comparison operators, is a parse error: the instance of the general lemma |
| ParserExamples.SingleComparison | chalk-core/src/ast.rs:310-337 | `a s b` with one comparison operator parses to that comparison |
| ParserExamples.SumsOfTermsGroupLeft | chalk-core/src/ast.rs:340-358 | for any three terms joined by `+` or `-`, the expression is `(a ± b) ± c` |
| ParserExamples.SumsGroupLeft | chalk-core/src/ast.rs:340-358 | `a ± b ± c` over integers parses as `(a ± b) ± c` |
| ParserExamples.ProductsOfPowersGroupLeft | chalk-core/src/ast.rs:361-395 | for any three powers joined by `*` or `/`, the term is `(a × b) × c` |
| ParserExamples.ProductsGroupLeft | chalk-core/src/ast.rs:361-395 | `a × b × c` over integers, with `×` either of `*` and `/`, parses as `(a × b) × c` |
| ParserExamples.PowersOfFactorialsGroupLeft | chalk-core/src/ast.rs:398-412 | for any three factorials joined by `^`, the power is `(a ^ b) ^ c` |
| ParserExamples.PowersGroupLeft | chalk-core/src/ast.rs:398-412 | `a ^ b ^ c` over integers parses as `(a ^ b) ^ c` |
| ParserExamples.TwoCubedSquared | chalk-core/src/ast.rs:398-412 | `2^3^2` is `Pow(Pow(2, 3), 2)` |
| ParserExamples.ConnectivesOfComparisonsGroupLeft | chalk-core/src/ast.rs:287-307 | for any three comparisons joined by `&&` or the or-connective, in any mix, the chain is `(a s b) t c` |
| ParserExamples.ConnectivesGroupLeft | chalk-core/src/ast.rs:287-307 | three integers joined by `&&` and the or-connective, in any mix, parse as `(a s b) t c`: neither connective binds tighter |
| ParserExamples.ImplicitMultiplication | chalk-core/src/ast.rs:364-385 | `a(b)` is `Multiply(a, b)`, with no `Paren` node |
| ParserExamples.ParenthesisedAtom | chalk-core/src/ast.rs:438-442 | `(b)` in atom position is `Paren(b)` |
| ParserExamples.ImplicitNeedsClose | chalk-core/src/ast.rs:379-382 | `a(b` without its `)` is a parse error |
| ParserExamples.TrailingBangs | chalk-core/src/ast.rs:415-426 | an integer followed by `n` exclamation marks parses as `n` nested factorials of it |
| ParserExamples.DoubleFactorial | chalk-core/src/ast.rs:619-622 | `3!!` parses as `Factorial(Factorial(3))` |
| ParserExamples.ParseTestExpression | chalk-core/src/ast.rs:507-525 | the tokens of `(1 + 2) * 3 - 4 / 2` parse to exactly the expected tree of the parser test |
| ParserExamples.ParserTestPipeline | chalk-core/src/ast.rs:500-526 | the whole test: the text tokenizes, and its tokens parse to the expected tree |

## Left out

- chalk-core/src/exec.rs, the evaluator, is not part of this model. It is floating-point arithmetic on `f32`. For the same reason the evaluation tests of chalk-core/src/ast.rs (lines 528-538 and 552-749) are not modelled; only the parse of `3!!` from one of them is.
- chalk/src/main.rs (command line and REPL), chalk-wasm/src/lib.rs (a wasm wrapper) and chalk-core/src/lib.rs (module declarations) are I/O or glue and are not part of this model.
- Primes.FloorSqrt: exact integer square root in place of `(n as f32).sqrt() as u32`; `f32` rounding is not modelled.
- Primes.CeilSqrt: exact integer square root in place of `f32::sqrt(n).ceil() as u32`; `f32` rounding is not modelled.
- Primes.PrimeFactorize: requires `n >= 1`. For 0 the source's `curr /= curr` divides by zero, and `gcd` and `lcm` with an operand 0 inherit that panic.
- Primes.Next: the machine's values are unbounded; the `u32` overflow of `+ 1` and `curr += 1` past 2^32 is not modelled. Every search in the source stops near a square root, well below that.
- Primes.Next: the `Option` returned by the iterator is dropped, since it is always `Some`.
- The factorisation tests of 8976986 and `u32::MAX` (prime.rs:95-98 and 106-110) are not proved as concrete values. They need 264029 and 65537 shown prime by trial division, which is too much unfolding for the verifier. `Primes.PrimeFactorize` and `Primes.FactorizationUnique` cover every input, these two included.
- The `HashMap` and `HashSet` of gcd.rs and lcm.rs are modelled as lists in insertion order. The iteration order of the Rust map is unspecified; the product does not depend on it.
- `u32` arithmetic follows release builds: products and powers wrap modulo 2^32. Debug builds panic on the same overflow instead.
- Token `Real` carries its lexeme, not an `f32`. Parsing and printing of floating-point values is not modelled, and printing a real prints its lexeme.
- Tokenizer.NumberToken: an integer literal too large for `i32` panics at the source's `unwrap`; here it yields its exact value.
- Tokenizer.IsDigit and Tokenizer.IsSpace: only ASCII digits and ASCII whitespace. Rust's `is_numeric` and `is_whitespace` also accept other Unicode characters.
- Ast.Lower: only ASCII letters are lower-cased. Rust's `to_lowercase` also maps other Unicode letters.
- In the source text of tokenizer.rs line 62, the division sign `÷` appears mis-decoded. It is modelled as U+00F7.
- The `Display` implementations of the error types `InvalidToken` and `ParseError` only write fixed messages and are not modelled.
- The printer is not an inverse of the parser, and no round trip between them is stated. Left-associative parsing loses nesting the printer does not restore. For example, a right-nested sum prints as `1 + 2 + 3`, and `gcd`'s text `gcd(a, b)` is printed although the tokenizer cannot read it back.
- The tokenizer of this snapshot cannot produce most of the tokens the parser matches on. Apart from the parser test `(1 + 2) * 3 - 4 / 2`, the parser's properties are therefore stated over token lists rather than over text.
- The mutable `current` index of `Parser` is modelled by passing the position along. A failed parse's final position is not observable and is not modelled.

## Findings

| source | as written | input that shows it | evidently intended | confidence | as-written member | corrected member |
|---|---|---|---|---|---|---|
| chalk-core/src/ast.rs:272-284 | `assignment` reads `peek_n(1)` before looking at anything else, so on a one-token list it indexes past the end and panics. That one-token list is `[EOF]`, which the tokenizer returns for an empty statement; the REPL trims each line it reads (chalk/src/main.rs:64) and passes a blank line through. | the token list `[EOF]`, i.e. the tokens of `""` | reject the empty statement with `ParseError`, reading the second token only when there is one | not executed | ParserProperties.ParseEmptyOutOfRange | ParserProperties.ParseChecked |
