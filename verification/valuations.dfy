/**
 The exponent of a prime in a positive integer (its p-adic valuation), and the
 facts that make it a complete description of divisibility: valuations add under
 multiplication, and `x` divides `y` exactly when every prime occurs in `x` at most
 as often as in `y`.  The gcd and lcm models are proved correct through these.
 */
module Valuations {
  import opened NumberTheory

  /** How many times `p` divides `n`. */
  function Val(p: nat, n: nat): nat
    requires p >= 2 && n >= 1
    decreases n
  {
    if n % p == 0 then
      QuotientBounds(p, n);
      1 + Val(p, n / p)
    else
      0
  }

  lemma ValOfMultiple(p: nat, m: nat)
    requires p >= 2 && m >= 1
    ensures Val(p, p * m) == 1 + Val(p, m)
  {
    MulModZero(p, m);
  }

  lemma ValOne(p: nat)
    requires p >= 2
    ensures Val(p, 1) == 0
  {
  }

  /** Valuations add under multiplication (needs Euclid's lemma). */
  lemma {:induction false} ValMul(p: nat, x: nat, y: nat)
    requires IsPrime(p) && x >= 1 && y >= 1
    ensures Val(p, x * y) == Val(p, x) + Val(p, y)
    decreases x + y
  {
    if Divides(p, x) {
      var x' := x / p;
      QuotientBounds(p, x);
      MulAssoc(p, x', y);
      MulPositive(x', y);
      ValOfMultiple(p, x');
      ValOfMultiple(p, x' * y);
      ValMul(p, x', y);
    } else if Divides(p, y) {
      var y' := y / p;
      QuotientBounds(p, y);
      MulAssoc(x, p, y');
      assert x * p == p * x;
      MulAssoc(p, x, y');
      MulPositive(x, y');
      ValOfMultiple(p, y');
      ValOfMultiple(p, x * y');
      ValMul(p, x, y');
    } else {
      if Divides(p, x * y) {
        EuclidLemma(p, x, y);
      }
    }
  }

  lemma ValOfPrime(p: nat, q: nat)
    requires IsPrime(p) && IsPrime(q)
    ensures Val(p, q) == if p == q then 1 else 0
  {
    if p == q {
      MulModZero(p, 1);
      ValOne(p);
    } else {
      PrimeNotDividesPrime(p, q);
    }
  }

  lemma {:induction false} ValOfPrimePower(p: nat, q: nat, e: nat)
    requires IsPrime(p) && IsPrime(q)
    ensures Pow(q, e) >= 1
    ensures Val(p, Pow(q, e)) == if p == q then e else 0
  {
    PowPositive(q, e);
    if e == 0 {
      ValOne(p);
    } else {
      ValOfPrimePower(p, q, e - 1);
      ValMul(p, q, Pow(q, e - 1));
      ValOfPrime(p, q);
    }
  }

  /** In a product of primes, the exponent of `p` is how often `p` occurs. */
  lemma {:induction false} ValOfProduct(p: nat, fs: seq<nat>)
    requires IsPrime(p)
    requires forall i :: 0 <= i < |fs| ==> IsPrime(fs[i])
    ensures Product(fs) >= 1
    ensures Val(p, Product(fs)) == Count(fs, p)
  {
    ProductPositive(fs);
    if fs == [] {
      ValOne(p);
    } else {
      ProductPositive(fs[1..]);
      ValOfProduct(p, fs[1..]);
      ValMul(p, fs[0], Product(fs[1..]));
      ValOfPrime(p, fs[0]);
    }
  }

  lemma DividesImpliesValLe(x: nat, y: nat, p: nat)
    requires x >= 1 && y >= 1 && Divides(x, y) && IsPrime(p)
    ensures Val(p, x) <= Val(p, y)
  {
    var k := y / x;
    assert y == x * k;
    assert k != 0;
    ValMul(p, x, k);
  }

  /** The converse: componentwise smaller valuations give divisibility. */
  lemma {:induction false} ValLeImpliesDivides(x: nat, y: nat)
    requires x >= 1 && y >= 1
    requires forall p: nat :: IsPrime(p) ==> Val(p, x) <= Val(p, y)
    ensures Divides(x, y)
    decreases x
  {
    if x == 1 {
      MulModZero(1, y);
    } else {
      var p := LeastPrimeFactor(x);
      QuotientBounds(p, x);
      var x' := x / p;
      ValOfMultiple(p, x');
      assert Val(p, y) >= 1;
      assert y % p == 0;
      QuotientBounds(p, y);
      var y' := y / p;
      forall q: nat | IsPrime(q)
        ensures Val(q, x') <= Val(q, y')
      {
        ValMul(q, p, x');
        ValMul(q, p, y');
      }
      ValLeImpliesDivides(x', y');
      DividesScale(x', y', p);
      assert x' * p == x && y' * p == y;
    }
  }

  /** Two positive numbers with the same valuations at every prime are equal. */
  lemma ValEqImpliesEqual(x: nat, y: nat)
    requires x >= 1 && y >= 1
    requires forall p: nat :: IsPrime(p) ==> Val(p, x) == Val(p, y)
    ensures x == y
  {
    ValLeImpliesDivides(x, y);
    ValLeImpliesDivides(y, x);
    DividesAntisym(x, y);
  }
}
