/**
 `gcd` (chalk-core/src/math/gcd.rs) and `lcm` (chalk-core/src/math/lcm.rs):
 both operands are factorised, their `(prime, exponent)` pairs are grouped by
 prime, one exponent is chosen per prime (the least for `gcd`, the greatest for
 `lcm`) and the prime powers are multiplied in `u32` arithmetic, the result
 being cast to `i32`.  Their correctness is proved through valuations: the
 exponent of every prime in the result is the minimum (maximum) of its exponents
 in the operands.
 */
module GcdLcm {
  import opened NumberTheory
  import opened Valuations
  import opened Primes
  import opened Powers
  import opened U32Arith
  import opened Grouping

  /** `n.prime_factorize().generate_powers()`. */
  function FactorPowers(n: nat): seq<(nat, nat)>
    requires n >= 1
  {
    GeneratePowers(PrimeFactorize(n))
  }

  /** The smallest element, or 0 for the empty list (`min().unwrap_or(0)`). */
  function MinOr0(es: seq<nat>): (m: nat)
    ensures es == [] ==> m == 0
    ensures es != [] ==> m in es && forall k :: 0 <= k < |es| ==> m <= es[k]
  {
    if es == [] then 0
    else if |es| == 1 then es[0]
    else
      var rest := MinOr0(es[1..]);
      if es[0] <= rest then es[0] else rest
  }

  /** The largest element, or 0 for the empty list (`max().unwrap_or(0)`). */
  function MaxOr0(es: seq<nat>): (m: nat)
    ensures es == [] ==> m == 0
    ensures es != [] ==> m in es && forall k :: 0 <= k < |es| ==> es[k] <= m
  {
    if es == [] then 0
    else if |es| == 1 then es[0]
    else
      var rest := MaxOr0(es[1..]);
      if es[0] >= rest then es[0] else rest
  }

  function Min(x: nat, y: nat): nat {
    if x <= y then x else y
  }

  function Max(x: nat, y: nat): nat {
    if x >= y then x else y
  }

  /** `gcd`'s choice: a prime listed once (present in one operand only) gets 0, otherwise the least exponent. */
  function GcdExponent(es: seq<nat>): nat {
    if |es| == 1 then 0 else MinOr0(es)
  }

  /** `lcm`'s choice: a prime listed once keeps its exponent, otherwise the greatest exponent. */
  function LcmExponent(es: seq<nat>): nat {
    if |es| == 1 then es[0] else MaxOr0(es)
  }

  /** The exponent list of an operand for one prime: its exponent if the prime occurs, else nothing. */
  function Listed(v: nat): seq<nat> {
    if v > 0 then [v] else []
  }

  /** A prime present in only one operand contributes exponent 0; present in both, the smaller exponent. */
  lemma GcdExponentIsMin(x: nat, y: nat)
    ensures GcdExponent(Listed(x) + Listed(y)) == Min(x, y)
  {
    if x > 0 && y > 0 {
      assert Listed(x) + Listed(y) == [x, y];
    }
  }

  /** A prime present in only one operand keeps its exponent; present in both, the larger exponent. */
  lemma LcmExponentIsMax(x: nat, y: nat)
    ensures LcmExponent(Listed(x) + Listed(y)) == Max(x, y)
  {
    if x > 0 && y > 0 {
      assert Listed(x) + Listed(y) == [x, y];
    }
  }

  /** The grouped map of both operands' powers. */
  function Exponents(a: nat, b: nat): (m: seq<Entry>)
    requires a >= 1 && b >= 1
    ensures WellFormed(m)
  {
    Group(FactorPowers(a) + FactorPowers(b))
  }

  /** The exponent of `q` in a factorised number, as `generate_powers` lists it. */
  lemma ExpsOfFactorPowers(n: nat, q: nat)
    requires n >= 1 && IsPrime(q)
    ensures ExpsOf(FactorPowers(n), q) == Listed(Val(q, n))
  {
    var fs := PrimeFactorize(n);
    ExpsOfPowers(fs, q);
    ValOfProduct(q, fs);
  }

  /** For each prime, the map lists its exponent in `a` (if any) followed by its exponent in `b` (if any). */
  lemma ExponentsOf(a: nat, b: nat, q: nat)
    requires a >= 1 && b >= 1 && IsPrime(q)
    ensures ExpsIn(Exponents(a, b), q) == Listed(Val(q, a)) + Listed(Val(q, b))
  {
    ExpsOfAppend(FactorPowers(a), FactorPowers(b), q);
    ExpsOfFactorPowers(a, q);
    ExpsOfFactorPowers(b, q);
  }

  /** Only primes of `a` or `b` are keys of the map. */
  lemma ExponentKeysArePrime(a: nat, b: nat)
    requires a >= 1 && b >= 1
    ensures PrimeKeys(Exponents(a, b))
  {
    var pa := FactorPowers(a);
    var pb := FactorPowers(b);
    var m := Exponents(a, b);
    forall i | 0 <= i < |m|
      ensures IsPrime(m[i].key)
    {
      var q := m[i].key;
      ExpsOfAppend(pa, pb, q);
      ExpsOfPowers(PrimeFactorize(a), q);
      ExpsOfPowers(PrimeFactorize(b), q);
    }
  }

  /** The exponent of every prime in `gcd`'s exact product is the smaller of its exponents in `a` and `b`. */
  lemma ValOfGcdProduct(a: nat, b: nat, q: nat)
    requires a >= 1 && b >= 1 && IsPrime(q)
    ensures ExactFold(Exponents(a, b), GcdExponent) >= 1
    ensures Val(q, ExactFold(Exponents(a, b), GcdExponent)) == Min(Val(q, a), Val(q, b))
  {
    ExponentKeysArePrime(a, b);
    ValOfFold(Exponents(a, b), GcdExponent, q);
    ExponentsOf(a, b, q);
    GcdExponentIsMin(Val(q, a), Val(q, b));
  }

  /** The exponent of every prime in `lcm`'s exact product is the larger of its exponents in `a` and `b`. */
  lemma ValOfLcmProduct(a: nat, b: nat, q: nat)
    requires a >= 1 && b >= 1 && IsPrime(q)
    ensures ExactFold(Exponents(a, b), LcmExponent) >= 1
    ensures Val(q, ExactFold(Exponents(a, b), LcmExponent)) == Max(Val(q, a), Val(q, b))
  {
    ExponentKeysArePrime(a, b);
    ValOfFold(Exponents(a, b), LcmExponent, q);
    ExponentsOf(a, b, q);
    LcmExponentIsMax(Val(q, a), Val(q, b));
  }

  // ---------------------------------------------------------------------------
  // From valuations to gcd and lcm

  /** A number whose exponents are the minima of the operands' is their greatest common divisor. */
  lemma MinValuationsIsGcd(g: nat, a: nat, b: nat)
    requires g >= 1 && a >= 1 && b >= 1
    requires forall q: nat :: IsPrime(q) ==> Val(q, g) == Min(Val(q, a), Val(q, b))
    ensures IsGcd(g, a, b)
  {
    ValLeImpliesDivides(g, a);
    ValLeImpliesDivides(g, b);
    forall d | Divides(d, a) && Divides(d, b)
      ensures Divides(d, g)
    {
      forall q: nat | IsPrime(q)
        ensures Val(q, d) <= Val(q, g)
      {
        DividesImpliesValLe(d, a, q);
        DividesImpliesValLe(d, b, q);
      }
      ValLeImpliesDivides(d, g);
    }
  }

  /** A number whose exponents are the maxima of the operands' is their least common multiple. */
  lemma MaxValuationsIsLcm(l: nat, a: nat, b: nat)
    requires l >= 1 && a >= 1 && b >= 1
    requires forall q: nat :: IsPrime(q) ==> Val(q, l) == Max(Val(q, a), Val(q, b))
    ensures IsLcm(l, a, b)
  {
    ValLeImpliesDivides(a, l);
    ValLeImpliesDivides(b, l);
    forall n | n > 0 && Divides(a, n) && Divides(b, n)
      ensures Divides(l, n)
    {
      forall q: nat | IsPrime(q)
        ensures Val(q, l) <= Val(q, n)
      {
        DividesImpliesValLe(a, n, q);
        DividesImpliesValLe(b, n, q);
      }
      ValLeImpliesDivides(l, n);
    }
  }

  /** The exact product `gcd` computes is the greatest common divisor. */
  lemma ExactGcdIsGcd(a: nat, b: nat)
    requires a >= 1 && b >= 1
    ensures IsGcd(ExactFold(Exponents(a, b), GcdExponent), a, b)
  {
    var g := ExactFold(Exponents(a, b), GcdExponent);
    TwoIsPrime();
    ValOfGcdProduct(a, b, 2);
    forall q: nat | IsPrime(q)
      ensures Val(q, g) == Min(Val(q, a), Val(q, b))
    {
      ValOfGcdProduct(a, b, q);
    }
    MinValuationsIsGcd(g, a, b);
  }

  /** The exact product `lcm` computes is the least common multiple. */
  lemma ExactLcmIsLcm(a: nat, b: nat)
    requires a >= 1 && b >= 1
    ensures IsLcm(ExactFold(Exponents(a, b), LcmExponent), a, b)
  {
    var l := ExactFold(Exponents(a, b), LcmExponent);
    TwoIsPrime();
    ValOfLcmProduct(a, b, 2);
    forall q: nat | IsPrime(q)
      ensures Val(q, l) == Max(Val(q, a), Val(q, b))
    {
      ValOfLcmProduct(a, b, q);
    }
    MaxValuationsIsLcm(l, a, b);
  }

  // ---------------------------------------------------------------------------
  // The two operations

  /** `gcd`'s accumulator never wraps: it ends as the greatest common divisor, at most either operand. */
  lemma GcdAccumulator(a: nat, b: nat)
    requires 1 <= a < U32 && 1 <= b < U32
    ensures IsGcd(FoldLoop(Exponents(a, b), GcdExponent, 1), a, b)
    ensures FoldLoop(Exponents(a, b), GcdExponent, 1) <= a
    ensures FoldLoop(Exponents(a, b), GcdExponent, 1) <= b
  {
    var m := Exponents(a, b);
    var g := ExactFold(m, GcdExponent);
    ExactGcdIsGcd(a, b);
    DividesLe(g, a);
    DividesLe(g, b);
    assert FoldLoop(m, GcdExponent, 1) == (1 * g) % U32;
    DivModUnique(1 * g, U32, 0, g);
  }

  /** `lcm`'s accumulator is every least common multiple reduced modulo 2^32. */
  lemma LcmAccumulator(a: nat, b: nat)
    requires 1 <= a < U32 && 1 <= b < U32
    ensures forall l: nat :: IsLcm(l, a, b) ==> FoldLoop(Exponents(a, b), LcmExponent, 1) == l % U32
  {
    var l := ExactFold(Exponents(a, b), LcmExponent);
    ExactLcmIsLcm(a, b);
    forall l': nat | IsLcm(l', a, b)
      ensures FoldLoop(Exponents(a, b), LcmExponent, 1) == l' % U32
    {
      IsLcmUnique(l', l, a, b);
    }
  }

  /**
   `gcd(a, b)` for `u32` operands `a, b >= 1` (0 makes `prime_factorize` divide
   by zero).  The 32 bits of the result are the greatest common divisor; read as
   an `i32` they equal it whenever it is below 2^31, in particular when either
   operand is.
   */
  function Gcd(a: nat, b: nat): (r: int)
    requires 1 <= a < U32 && 1 <= b < U32
    ensures -(I32Limit as int) <= r < I32Limit
    ensures IsGcd(AsU32(r), a, b)
    ensures r >= 0 ==> IsGcd(r, a, b)
    ensures a < I32Limit || b < I32Limit ==> r >= 0
  {
    var acc := FoldLoop(Exponents(a, b), GcdExponent, 1);
    GcdAccumulator(a, b);
    CastRoundTrip(acc, 0);
    AsI32(acc)
  }

  /**
   `lcm(a, b)` for `u32` operands `a, b >= 1`.  The 32 bits of the result are
   the least common multiple modulo 2^32 (the accumulator wraps); read as an
   `i32` they equal it whenever it is below 2^31.
   */
  function Lcm(a: nat, b: nat): (r: int)
    requires 1 <= a < U32 && 1 <= b < U32
    ensures -(I32Limit as int) <= r < I32Limit
    ensures forall l: nat :: IsLcm(l, a, b) ==> AsU32(r) == l % U32
    ensures forall l: nat :: IsLcm(l, a, b) && l < I32Limit ==> r == l
  {
    var acc := FoldLoop(Exponents(a, b), LcmExponent, 1);
    LcmAccumulator(a, b);
    CastRoundTrip(acc, 0);
    var r := AsI32(acc);
    forall l: nat | IsLcm(l, a, b) && l < I32Limit
      ensures r == l
    {
      DivModUnique(l, U32, 0, l);
    }
    r
  }

  // ---------------------------------------------------------------------------
  // Properties relating the two

  /** The exact products satisfy gcd * lcm == a * b, since min + max of two exponents is their sum. */
  lemma ExactGcdTimesLcm(a: nat, b: nat)
    requires a >= 1 && b >= 1
    ensures ExactFold(Exponents(a, b), GcdExponent) * ExactFold(Exponents(a, b), LcmExponent) == a * b
  {
    var g := ExactFold(Exponents(a, b), GcdExponent);
    var l := ExactFold(Exponents(a, b), LcmExponent);
    TwoIsPrime();
    ValOfGcdProduct(a, b, 2);
    ValOfLcmProduct(a, b, 2);
    MulPositive(g, l);
    MulPositive(a, b);
    forall q: nat | IsPrime(q)
      ensures Val(q, g * l) == Val(q, a * b)
    {
      ValOfGcdProduct(a, b, q);
      ValOfLcmProduct(a, b, q);
      ValMul(q, g, l);
      ValMul(q, a, b);
    }
    ValEqImpliesEqual(g * l, a * b);
  }

  /** Every pair of operands has a least common multiple (the one `lcm` computes exactly). */
  lemma LcmExists(a: nat, b: nat) returns (l: nat)
    requires a >= 1 && b >= 1
    ensures IsLcm(l, a, b)
  {
    l := ExactFold(Exponents(a, b), LcmExponent);
    ExactLcmIsLcm(a, b);
  }

  /** gcd(a, b) * lcm(a, b) == a * b, for the mathematical gcd and lcm. */
  lemma GcdTimesLcmSpec(g: nat, l: nat, a: nat, b: nat)
    requires a >= 1 && b >= 1 && IsGcd(g, a, b) && IsLcm(l, a, b)
    ensures g * l == a * b
  {
    ExactGcdIsGcd(a, b);
    ExactLcmIsLcm(a, b);
    IsGcdUnique(g, ExactFold(Exponents(a, b), GcdExponent), a, b);
    IsLcmUnique(l, ExactFold(Exponents(a, b), LcmExponent), a, b);
    ExactGcdTimesLcm(a, b);
  }

  /** When `a * b` fits in an `i32`, the results of `gcd` and `lcm` multiply to `a * b`. */
  lemma GcdTimesLcm(a: nat, b: nat)
    requires 1 <= a < U32 && 1 <= b < U32 && a * b < I32Limit
    ensures Gcd(a, b) * Lcm(a, b) == a * b
  {
    MulAtLeast(a, b);
    var g := Gcd(a, b);
    assert g >= 0 && IsGcd(g, a, b);
    var l := LcmExists(a, b);
    GcdTimesLcmSpec(g, l, a, b);
    assert l <= a * b by {
      MulAtLeast(l, g);
    }
    assert Lcm(a, b) == l;
  }

  /** Operands with no common prime have gcd 1. */
  lemma GcdOfCoprime(a: nat, b: nat)
    requires 1 <= a < U32 && 1 <= b < U32
    requires forall p: nat :: IsPrime(p) ==> !(Divides(p, a) && Divides(p, b))
    ensures Gcd(a, b) == 1
  {
    var r := Gcd(a, b);
    var g := AsU32(r);
    if g != 1 {
      var p := LeastPrimeFactor(g);
      DividesTrans(p, g, a);
      DividesTrans(p, g, b);
      assert false;
    }
  }

  /** `lcm(1, 1) = 1`: both factorisations are empty, so the accumulator stays 1. */
  lemma LcmOfOnes()
    ensures Lcm(1, 1) == 1
  {
    assert IsLcm(1, 1, 1);
  }

  lemma IsGcdEightTwelve()
    ensures IsGcd(4, 8, 12)
  {
    forall d | Divides(d, 8) && Divides(d, 12)
      ensures Divides(d, 4)
    {
      DividesLe(d, 8);
    }
  }

  /** `gcd(8, 12) = 4`. */
  lemma GcdEightTwelve()
    ensures Gcd(8, 12) == 4
  {
    IsGcdEightTwelve();
    IsGcdUnique(AsU32(Gcd(8, 12)), 4, 8, 12);
  }

  lemma IsLcmTwelveFifteen()
    ensures IsLcm(60, 12, 15)
  {
    assert IsPrime(5) by {
      assert !Divides(2, 5) && !Divides(3, 5) && !Divides(4, 5);
    }
    forall n | n > 0 && Divides(12, n) && Divides(15, n)
      ensures Divides(60, n)
    {
      var k := n / 12;
      assert n == 12 * k;
      DividesTrans(5, 15, n);
      EuclidLemma(5, 12, k);
      var j := k / 5;
      assert k == 5 * j;
      DividesWitness(60, n, j);
    }
  }

  /** `lcm(12, 15) = 60`. */
  lemma LcmTwelveFifteen()
    ensures Lcm(12, 15) == 60
  {
    IsLcmTwelveFifteen();
  }

  /** `100.prime_factorize().generate_powers()` is `[(2, 2), (5, 2)]`. */
  lemma PowersOfHundred()
    ensures FactorPowers(100) == [(2, 2), (5, 2)]
  {
    FactorizeHundred();
    PowersOfTwoTwoFiveFive(PrimeFactorize(100));
  }
}
