/**
 Reference number theory shared by the prime, gcd and lcm models: divisibility,
 primality, powers, products, Euclid's lemma, and the defining properties of the
 greatest common divisor and the least common multiple.  Nothing here models a
 source function; these are the independent definitions the models are proved
 against.
 */
module NumberTheory {

  /** `d` divides `n` (only positive divisors are considered). */
  predicate Divides(d: nat, n: nat) {
    d > 0 && n % d == 0
  }

  /** The textbook definition: at least 2 and no divisor strictly between 1 and itself. */
  predicate IsPrime(n: nat) {
    n >= 2 && forall d :: 2 <= d < n ==> !Divides(d, n)
  }

  function Pow(b: nat, e: nat): nat {
    if e == 0 then 1 else b * Pow(b, e - 1)
  }

  function Product(xs: seq<nat>): nat {
    if xs == [] then 1 else xs[0] * Product(xs[1..])
  }

  /** Number of occurrences of `v` in `xs`. */
  function Count(xs: seq<nat>, v: nat): (c: nat)
    ensures c <= |xs|
    ensures c > 0 <==> v in xs
  {
    if xs == [] then 0 else (if xs[0] == v then 1 else 0) + Count(xs[1..], v)
  }

  /** `g` divides both operands and every common divisor divides `g`. */
  ghost predicate IsGcd(g: nat, a: nat, b: nat) {
    && Divides(g, a)
    && Divides(g, b)
    && forall d :: Divides(d, a) && Divides(d, b) ==> Divides(d, g)
  }

  /** `l` is a multiple of both operands and divides every positive common multiple. */
  ghost predicate IsLcm(l: nat, a: nat, b: nat) {
    && l > 0
    && Divides(a, l)
    && Divides(b, l)
    && forall m :: m > 0 && Divides(a, m) && Divides(b, m) ==> Divides(l, m)
  }

  // ---------------------------------------------------------------------------
  // Divisibility arithmetic

  lemma Distrib(d: int, x: int, y: int)
    ensures d * x - d * y == d * (x - y)
  {
  }

  lemma {:induction false} MulAtLeast(d: int, m: int)
    requires d > 0 && m >= 1
    ensures d * m >= d
    decreases m
  {
    if m > 1 {
      MulAtLeast(d, m - 1);
      assert d * m == d * (m - 1) + d;
    }
  }

  lemma MulGap(d: int, x: int, y: int)
    requires d > 0 && x > y
    ensures d * x >= d * y + d
  {
    Distrib(d, x, y);
    MulAtLeast(d, x - y);
  }

  lemma MulLe(a: nat, b: nat, c: nat)
    requires a <= b
    ensures a * c <= b * c
  {
    if a < b && c > 0 {
      MulGap(c, b, a);
    }
  }

  /** Euclidean division is unique. */
  lemma DivModUnique(a: int, d: int, q: int, r: int)
    requires d > 0 && a == d * q + r && 0 <= r < d
    ensures a / d == q && a % d == r
  {
    var q' := a / d;
    if q > q' {
      MulGap(d, q, q');
    } else if q' > q {
      MulGap(d, q', q);
    }
  }

  lemma MulModZero(d: int, k: int)
    requires d > 0
    ensures (d * k) % d == 0 && (d * k) / d == k
  {
    DivModUnique(d * k, d, k, 0);
  }

  lemma MulAssoc(a: int, b: int, c: int)
    ensures (a * b) * c == a * (b * c)
  {
  }

  lemma MulPositive(a: int, b: int)
    requires a >= 1 && b >= 1
    ensures a * b >= 1 && a * b >= a && a * b >= b
  {
    MulAtLeast(a, b);
    MulAtLeast(b, a);
  }

  /** Dividing by a proper divisor of a positive number leaves a smaller positive quotient. */
  lemma QuotientBounds(p: nat, n: nat)
    requires p >= 2 && n >= 1 && n % p == 0
    ensures n == p * (n / p)
    ensures 1 <= n / p < n
  {
    var q := n / p;
    assert n == p * q;
    assert q != 0;
    MulGap(q, p, 1);
  }

  lemma DividesWitness(d: nat, n: nat, k: int)
    requires d > 0 && n == d * k
    ensures Divides(d, n)
  {
    MulModZero(d, k);
  }

  lemma DividesQuotient(d: nat, n: nat)
    requires Divides(d, n)
    ensures n == d * (n / d)
  {
  }

  lemma DividesMul(d: nat, x: nat, y: nat)
    requires Divides(d, x)
    ensures Divides(d, x * y)
  {
    var k := x / d;
    assert x * y == d * (k * y) by {
      assert x == d * k;
    }
    DividesWitness(d, x * y, k * y);
  }

  lemma DividesTrans(a: nat, b: nat, c: nat)
    requires Divides(a, b) && Divides(b, c)
    ensures Divides(a, c)
  {
    var k := b / a;
    var m := c / b;
    assert c == a * (k * m) by {
      assert b == a * k;
      assert c == b * m;
    }
    DividesWitness(a, c, k * m);
  }

  lemma DividesSum(d: nat, x: nat, y: nat)
    requires Divides(d, x) && Divides(d, y)
    ensures Divides(d, x + y)
  {
    var k := x / d;
    var m := y / d;
    assert x + y == d * (k + m);
    DividesWitness(d, x + y, k + m);
  }

  lemma DividesLe(d: nat, n: nat)
    requires Divides(d, n) && n > 0
    ensures d <= n
  {
    var k := n / d;
    assert n == d * k;
    MulAtLeast(d, k);
  }

  lemma DividesAntisym(a: nat, b: nat)
    requires a > 0 && b > 0 && Divides(a, b) && Divides(b, a)
    ensures a == b
  {
    DividesLe(a, b);
    DividesLe(b, a);
  }

  /** Multiplying both sides of a divisibility by the same positive factor. */
  lemma DividesScale(a: nat, b: nat, c: nat)
    requires Divides(a, b) && c > 0
    ensures Divides(a * c, b * c)
  {
    var k := b / a;
    assert b * c == (a * c) * k by {
      assert b == a * k;
    }
    DividesWitness(a * c, b * c, k);
  }

  lemma DividesOne(d: nat)
    requires Divides(d, 1)
    ensures d == 1
  {
    DividesLe(d, 1);
  }

  lemma ProductPositive(xs: seq<nat>)
    requires forall i :: 0 <= i < |xs| ==> xs[i] > 0
    ensures Product(xs) > 0
  {
    if xs != [] {
      ProductPositive(xs[1..]);
    }
  }

  lemma ProductAppend(xs: seq<nat>, ys: seq<nat>)
    ensures Product(xs + ys) == Product(xs) * Product(ys)
  {
    if xs == [] {
      assert xs + ys == ys;
    } else {
      assert (xs + ys)[1..] == xs[1..] + ys;
      ProductAppend(xs[1..], ys);
    }
  }

  lemma ElementDividesProduct(xs: seq<nat>, i: nat)
    requires i < |xs|
    requires forall k :: 0 <= k < |xs| ==> xs[k] > 0
    ensures Divides(xs[i], Product(xs))
  {
    if i == 0 {
      DividesWitness(xs[0], Product(xs), Product(xs[1..]));
    } else {
      ElementDividesProduct(xs[1..], i - 1);
      DividesMul(xs[i], Product(xs[1..]), xs[0]);
      assert Product(xs[1..]) * xs[0] == Product(xs);
    }
  }

  lemma MulCancel(p: int, a: int, b: int)
    requires p > 0 && p * a == p * b
    ensures a == b
  {
    if a > b {
      MulGap(p, a, b);
    } else if b > a {
      MulGap(p, b, a);
    }
  }

  lemma PowPositive(b: nat, e: nat)
    requires b > 0
    ensures Pow(b, e) > 0
  {
    if e > 0 {
      PowPositive(b, e - 1);
    }
  }

  lemma PowAdd(b: nat, e1: nat, e2: nat)
    ensures Pow(b, e1 + e2) == Pow(b, e1) * Pow(b, e2)
  {
    if e1 > 0 {
      PowAdd(b, e1 - 1, e2);
      assert Pow(b, e1 + e2) == b * Pow(b, e1 - 1 + e2);
    }
  }

  // ---------------------------------------------------------------------------
  // Euclid's algorithm and Euclid's lemma

  function EuclidGcd(a: nat, b: nat): (g: nat)
    ensures b > 0 ==> g > 0
    decreases b
  {
    if b == 0 then a else EuclidGcd(b, a % b)
  }

  lemma {:induction false} EuclidGcdDivides(a: nat, b: nat)
    requires b > 0
    ensures Divides(EuclidGcd(a, b), a) && Divides(EuclidGcd(a, b), b)
    decreases b
  {
    var g := EuclidGcd(a, b);
    if a % b == 0 {
      assert g == EuclidGcd(b, 0) == b;
    } else {
      EuclidGcdDivides(b, a % b);
      DividesMul(g, b, a / b);
      DividesSum(g, b * (a / b), a % b);
      QuotientSplit(a, b);
    }
  }

  lemma QuotientSplit(a: nat, b: nat)
    requires b > 0
    ensures b * (a / b) + a % b == a
  {
  }

  lemma {:induction false} Bezout(a: nat, b: nat) returns (x: int, y: int)
    ensures a * x + b * y == EuclidGcd(a, b)
    decreases b
  {
    if b == 0 {
      x, y := 1, 0;
    } else {
      var x', y' := Bezout(b, a % b);
      var q, r := a / b, a % b;
      QuotientSplit(a, b);
      x, y := y', x' - q * y';
      BezoutStep(a, b, q, r, x', y');
    }
  }

  /** One step of the extended algorithm: the coefficients for `(b, r)` give ones for `(a, b)`. */
  lemma BezoutStep(a: int, b: int, q: int, r: int, x: int, y: int)
    requires a == b * q + r
    ensures a * y + b * (x - q * y) == b * x + r * y
  {
    assert a * y == b * q * y + r * y;
    assert b * (x - q * y) == b * x - b * q * y;
  }

  /** The divisors of a prime are 1 and itself. */
  lemma PrimeDivisor(p: nat, d: nat)
    requires IsPrime(p) && Divides(d, p)
    ensures d == 1 || d == p
  {
    DividesLe(d, p);
  }

  /** A prime dividing a product divides one of its factors. */
  lemma EuclidLemma(p: nat, a: nat, b: nat)
    requires IsPrime(p) && Divides(p, a * b)
    ensures Divides(p, a) || Divides(p, b)
  {
    if !Divides(p, a) {
      var g := EuclidGcd(p, a);
      EuclidGcdDivides(p, a);
      PrimeDivisor(p, g);
      assert g == 1;
      var x, y := Bezout(p, a);
      var k := (a * b) / p;
      assert a * b == p * k;
      assert b * (p * x + a * y) == p * (b * x) + (a * b) * y;
      assert (p * k) * y == p * (k * y);
      DividesWitness(p, b, b * x + k * y);
    }
  }

  /** A prime dividing a product of primes is one of them. */
  lemma PrimeDividesProductOfPrimes(p: nat, xs: seq<nat>)
    requires IsPrime(p) && Divides(p, Product(xs))
    requires forall i :: 0 <= i < |xs| ==> IsPrime(xs[i])
    ensures p in xs
  {
    if xs == [] {
      DividesOne(p);
    } else {
      EuclidLemma(p, xs[0], Product(xs[1..]));
      if Divides(p, xs[0]) {
        PrimeDivisor(xs[0], p);
      } else {
        PrimeDividesProductOfPrimes(p, xs[1..]);
      }
    }
  }

  // ---------------------------------------------------------------------------
  // Least prime factor

  function LeastDivisorFrom(n: nat, d: nat): (r: nat)
    requires 2 <= d <= n
    requires forall k :: 2 <= k < d ==> !Divides(k, n)
    ensures d <= r <= n && Divides(r, n)
    ensures forall k :: 2 <= k < r ==> !Divides(k, n)
    decreases n - d
  {
    if Divides(d, n) then d else LeastDivisorFrom(n, d + 1)
  }

  /** The smallest divisor of `n` that is at least 2; it is prime. */
  function LeastPrimeFactor(n: nat): (p: nat)
    requires n >= 2
    ensures IsPrime(p) && Divides(p, n)
    ensures forall k :: 2 <= k < p ==> !Divides(k, n)
  {
    var p := LeastDivisorFrom(n, 2);
    assert IsPrime(p) by {
      forall k | 2 <= k < p
        ensures !Divides(k, p)
      {
        if Divides(k, p) {
          DividesTrans(k, p, n);
        }
      }
    }
    p
  }

  /** Two distinct primes never divide each other. */
  lemma PrimeNotDividesPrime(p: nat, q: nat)
    requires IsPrime(p) && IsPrime(q) && p != q
    ensures !Divides(p, q)
  {
    if Divides(p, q) {
      DividesLe(p, q);
    }
  }

  lemma IsGcdUnique(g1: nat, g2: nat, a: nat, b: nat)
    requires IsGcd(g1, a, b) && IsGcd(g2, a, b)
    ensures g1 == g2
  {
    assert Divides(g1, g2) && Divides(g2, g1);
    DividesAntisym(g1, g2);
  }

  lemma IsLcmUnique(l1: nat, l2: nat, a: nat, b: nat)
    requires IsLcm(l1, a, b) && IsLcm(l2, a, b)
    ensures l1 == l2
  {
    assert Divides(l1, l2) && Divides(l2, l1);
    DividesAntisym(l1, l2);
  }
}
