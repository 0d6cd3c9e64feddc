/**
 Model of `math/prime.rs`: the caching prime generator `PrimeMachine`, trial
 division primality (`is_prime_with_machine`, `is_prime`) and the trial-division
 factoriser `prime_factorize`.  The `f32` square roots are exact integer square
 roots here.
 */
module Primes {
  import opened NumberTheory
  import opened Results

  /** `PrimeMachine { cache: Vec<u32> }`; the default machine has an empty cache. */
  datatype PrimeMachine = PrimeMachine(cache: seq<nat>)

  /** The most recently yielded prime, or 0 before the first one. */
  function Top(cache: seq<nat>): nat {
    if cache == [] then 0 else cache[|cache| - 1]
  }

  /** The cache is the increasing list of all primes up to its newest entry. */
  ghost predicate Valid(m: PrimeMachine) {
    && (forall i :: 0 <= i < |m.cache| ==> IsPrime(m.cache[i]))
    && (forall i, j :: 0 <= i < j < |m.cache| ==> m.cache[i] < m.cache[j])
    && (forall p: nat :: IsPrime(p) && p <= Top(m.cache) ==> p in m.cache)
  }

  /** `self.cache.iter().any(|val| curr % *val == 0)` */
  predicate AnyDivides(cache: seq<nat>, n: nat) {
    exists i :: 0 <= i < |cache| && Divides(cache[i], n)
  }

  predicate Sorted(xs: seq<nat>) {
    forall i, j :: 0 <= i < j < |xs| ==> xs[i] <= xs[j]
  }

  lemma ProductPlusOneUndivided(cache: seq<nat>)
    requires forall i :: 0 <= i < |cache| ==> cache[i] >= 2
    ensures !AnyDivides(cache, Product(cache) + 1)
  {
    forall i | 0 <= i < |cache|
      ensures !Divides(cache[i], Product(cache) + 1)
    {
      var d, a := cache[i], Product(cache);
      ElementDividesProduct(cache, i);
      DividesQuotient(d, a);
      DivModUnique(a + 1, d, a / d, 1);
    }
  }

  /**
   The inner `while` of `next`: the first number from `curr` on that no cached
   prime divides.  It stops at the latest at the product of the cache plus one.
   */
  function FirstUndivided(cache: seq<nat>, curr: nat): (r: nat)
    requires forall i :: 0 <= i < |cache| ==> cache[i] >= 2
    requires curr <= Product(cache) + 1
    ensures curr <= r <= Product(cache) + 1
    ensures !AnyDivides(cache, r)
    ensures forall m :: curr <= m < r ==> AnyDivides(cache, m)
    decreases Product(cache) + 1 - curr
  {
    if AnyDivides(cache, curr) then
      ProductPlusOneUndivided(cache);
      FirstUndivided(cache, curr + 1)
    else
      curr
  }

  /** A prime above every cached prime is divided by none of them. */
  lemma NewPrimeUndivided(m: PrimeMachine, q: nat)
    requires Valid(m) && IsPrime(q) && q > Top(m.cache)
    ensures !AnyDivides(m.cache, q)
  {
    forall i | 0 <= i < |m.cache|
      ensures !Divides(m.cache[i], q)
    {
      if i < |m.cache| - 1 {
        assert m.cache[i] < m.cache[|m.cache| - 1];
      }
      if Divides(m.cache[i], q) {
        PrimeDivisor(q, m.cache[i]);
      }
    }
  }

  /** The candidate chosen by `next` for a non-empty cache is the least prime above the cache. */
  lemma NextCandidateIsLeastPrime(m: PrimeMachine, n: nat)
    requires Valid(m) && m.cache != []
    requires n > Top(m.cache) && !AnyDivides(m.cache, n)
    requires forall k :: Top(m.cache) < k < n ==> AnyDivides(m.cache, k)
    ensures IsPrime(n)
    ensures forall p: nat :: IsPrime(p) && p > Top(m.cache) ==> n <= p
  {
    forall p: nat | IsPrime(p) && p > Top(m.cache)
      ensures n <= p
    {
      if p < n {
        NewPrimeUndivided(m, p);
        assert false;
      }
    }
    forall d | 2 <= d < n
      ensures !Divides(d, n)
    {
      if Divides(d, n) {
        var q := LeastPrimeFactor(d);
        DividesTrans(q, d, n);
        DividesLe(q, d);
        assert false;
      }
    }
  }

  lemma TwoIsPrime()
    ensures IsPrime(2)
  {
  }

  /** The value `next` yields: 2 for an empty cache, else the first candidate above the cache. */
  function NextValue(m: PrimeMachine): (n: nat)
    requires Valid(m)
    ensures IsPrime(n) && n > Top(m.cache)
    ensures forall p: nat :: IsPrime(p) && p > Top(m.cache) ==> n <= p
  {
    if m.cache == [] then
      TwoIsPrime();
      2
    else
      var last := |m.cache| - 1;
      ElementDividesProduct(m.cache, last);
      ProductPositive(m.cache);
      DividesLe(m.cache[last], Product(m.cache));
      var n := FirstUndivided(m.cache, m.cache[last] + 1);
      NextCandidateIsLeastPrime(m, n);
      n
  }

  /** `PrimeMachine::next`: yields the least prime above the cache and caches it. */
  function Next(m: PrimeMachine): (r: (nat, PrimeMachine))
    requires Valid(m)
    ensures IsPrime(r.0) && r.0 > Top(m.cache)
    ensures forall p: nat :: IsPrime(p) && p > Top(m.cache) ==> r.0 <= p
    ensures r.1 == PrimeMachine(m.cache + [r.0])
    ensures Valid(r.1)
  {
    var next := NextValue(m);
    var m' := PrimeMachine(m.cache + [next]);
    assert Valid(m') by {
      forall p: nat | IsPrime(p) && p <= Top(m'.cache)
        ensures p in m'.cache
      {
        if p > Top(m.cache) {
          assert p == next;
        }
      }
    }
    (next, m')
  }

  /**
   The `for prime in primes` loops of `is_prime_with_machine` and
   `prime_factorize`: draw primes from the machine until one exceeds `bound`
   (`None`) or divides `n` (`Some`).  Returns the advanced machine.
   */
  function Search(n: nat, bound: nat, m: PrimeMachine): (r: (Option<nat>, PrimeMachine))
    requires Valid(m)
    ensures Valid(r.1)
    ensures m.cache < r.1.cache
    decreases bound - Top(m.cache)
  {
    var (p, m') := Next(m);
    if p > bound then
      (None, m')
    else if n % p == 0 then
      (Some(p), m')
    else
      Search(n, bound, m')
  }

  /**
   What `Search` finds: the least prime above the cache, up to `bound`, that
   divides `n`; and nothing exactly when no such prime exists.
   */
  lemma {:induction false} SearchCorrect(n: nat, bound: nat, m: PrimeMachine)
    requires Valid(m)
    ensures var r := Search(n, bound, m).0;
            r.Some? ==>
              && IsPrime(r.value)
              && Top(m.cache) < r.value <= bound
              && Divides(r.value, n)
              && forall q: nat :: IsPrime(q) && Top(m.cache) < q < r.value ==> !Divides(q, n)
    ensures Search(n, bound, m).0.None? <==>
              forall q: nat :: IsPrime(q) && Top(m.cache) < q <= bound ==> !Divides(q, n)
    decreases bound - Top(m.cache)
  {
    var (p, m') := Next(m);
    if p <= bound && n % p != 0 {
      SearchCorrect(n, bound, m');
      var r := Search(n, bound, m').0;
      SkipUndividing(n, Top(m.cache), p, if r.Some? then r.value - 1 else bound);
    }
  }

  /**
   With `p` the least prime above `lo` and `p` not dividing `n`, no prime in
   `(lo, hi]` divides `n` exactly when none in `(p, hi]` does.
   */
  lemma SkipUndividing(n: nat, lo: nat, p: nat, hi: nat)
    requires IsPrime(p) && lo < p && !Divides(p, n)
    requires forall q: nat :: IsPrime(q) && lo < q ==> p <= q
    ensures (forall q: nat :: IsPrime(q) && lo < q <= hi ==> !Divides(q, n)) <==>
            (forall q: nat :: IsPrime(q) && p < q <= hi ==> !Divides(q, n))
  {
  }

  /** Largest integer whose square is at most `n`; the exact value of `(n as f32).sqrt() as u32`. */
  function FloorSqrt(n: nat): (r: nat)
    ensures r * r <= n < (r + 1) * (r + 1)
  {
    FloorSqrtFrom(n, 0)
  }

  function FloorSqrtFrom(n: nat, r: nat): (s: nat)
    requires r * r <= n
    ensures s * s <= n < (s + 1) * (s + 1)
    decreases n - r
  {
    if (r + 1) * (r + 1) <= n then
      MulPositive(r + 1, r + 1);
      FloorSqrtFrom(n, r + 1)
    else
      r
  }

  /** Least integer whose square is at least `n`; the exact value of `f32::sqrt(n).ceil() as u32`. */
  function CeilSqrt(n: nat): (r: nat)
    ensures n <= r * r
    ensures r == 0 || (r - 1) * (r - 1) < n
  {
    var s := FloorSqrt(n);
    if s * s == n then s else s + 1
  }

  /** A number whose square is at most `n` is at most the floor square root of `n`. */
  lemma SquareBelow(p: nat, n: nat)
    requires p * p <= n
    ensures p <= FloorSqrt(n)
  {
    var s := FloorSqrt(n);
    if p > s {
      MulLe(s + 1, p, s + 1);
      MulLe(s + 1, p, p);
      assert false;
    }
  }

  /** A composite number has its least prime factor at or below its square root. */
  lemma CompositeHasSmallFactor(n: nat)
    requires n >= 2 && !IsPrime(n)
    ensures LeastPrimeFactor(n) <= FloorSqrt(n)
  {
    var p := LeastPrimeFactor(n);
    var k := n / p;
    QuotientBounds(p, n);
    assert k != 1;
    DividesWitness(k, n, p);
    assert p <= k;
    MulLe(p, k, p);
    SquareBelow(p, n);
  }

  /** `is_prime_with_machine`: trial division by the machine's primes up to the floor square root. */
  function PrimeCheckWithMachine(n: nat, m: PrimeMachine): (r: (bool, PrimeMachine))
    requires Valid(m)
    ensures Valid(r.1)
    ensures r.0 <==> forall q: nat :: IsPrime(q) && Top(m.cache) < q <= FloorSqrt(n) ==> !Divides(q, n)
  {
    var (found, m') := Search(n, FloorSqrt(n), m);
    SearchCorrect(n, FloorSqrt(n), m);
    (found.None?, m')
  }

  /** `is_prime`: the same check with a fresh machine; also true for 0 and 1. */
  function PrimeCheck(n: nat): (r: bool)
    ensures r <==> n < 2 || IsPrime(n)
  {
    var empty := PrimeMachine([]);
    var r := PrimeCheckWithMachine(n, empty).0;
    PrimeCheckCorrect(n, r);
    r
  }

  lemma PrimeCheckCorrect(n: nat, r: bool)
    requires r <==> forall q: nat :: IsPrime(q) && 0 < q <= FloorSqrt(n) ==> !Divides(q, n)
    ensures r <==> n < 2 || IsPrime(n)
  {
    var s := FloorSqrt(n);
    if n >= 2 && !IsPrime(n) {
      CompositeHasSmallFactor(n);
      assert !r;
    } else if n >= 2 {
      forall q: nat | IsPrime(q) && 0 < q <= s
        ensures !Divides(q, n)
      {
        MulGap(s, s, 1);
      }
    } else {
      SquareAtMostOne(s);
      assert s <= 1;
    }
  }

  /** Only 0 and 1 have a square below 2. */
  lemma SquareAtMostOne(s: nat)
    ensures s * s < 2 ==> s <= 1
  {
    if s >= 2 {
      MulGap(s, s, 1);
    }
  }

  lemma FactorStepCorrect(curr: nat, found: Option<nat>)
    requires curr >= 2
    requires found.Some? ==>
               && IsPrime(found.value)
               && Divides(found.value, curr)
               && forall q: nat :: IsPrime(q) && 0 < q < found.value ==> !Divides(q, curr)
    requires found.None? ==> forall q: nat :: IsPrime(q) && 0 < q <= CeilSqrt(curr) ==> !Divides(q, curr)
    ensures (match found case Some(p) => p case None => curr) == LeastPrimeFactor(curr)
  {
    var lp := LeastPrimeFactor(curr);
    if found.None? {
      if !IsPrime(curr) {
        CompositeHasSmallFactor(curr);
        assert false;
      }
      PrimeDivisor(curr, lp);
    }
  }

  /**
   One pass of the outer `while curr != 1` loop of `prime_factorize`: the factor
   it pushes for `curr` (the first prime up to the ceiling square root that
   divides `curr`, or `curr` itself when there is none) is its least prime factor.
   */
  function FactorStep(curr: nat): (f: nat)
    requires curr >= 2
    ensures f == LeastPrimeFactor(curr)
  {
    var found := Search(curr, CeilSqrt(curr), PrimeMachine([])).0;
    SearchCorrect(curr, CeilSqrt(curr), PrimeMachine([]));
    FactorStepCorrect(curr, found);
    match found
    case Some(p) => p
    case None => curr
  }

  lemma LeastFactorOfQuotient(n: nat)
    requires n >= 2
    ensures n / LeastPrimeFactor(n) >= 2 ==>
              LeastPrimeFactor(n / LeastPrimeFactor(n)) >= LeastPrimeFactor(n)
  {
    var f := LeastPrimeFactor(n);
    QuotientBounds(f, n);
    if n / f >= 2 {
      var q := LeastPrimeFactor(n / f);
      DividesWitness(n / f, n, f);
      DividesTrans(q, n / f, n);
    }
  }

  /**
   `prime_factorize` for `n >= 1`: the factors pushed by the loop, each pass
   dividing `curr` by the factor it pushes.  The list comes out non-decreasing,
   so the final `factors.sort()` leaves it unchanged.
   */
  function PrimeFactorize(n: nat): (fs: seq<nat>)
    requires n >= 1
    ensures Product(fs) == n
    ensures forall i :: 0 <= i < |fs| ==> IsPrime(fs[i])
    ensures Sorted(fs)
    ensures fs == [] <==> n == 1
    ensures fs != [] ==> fs[0] == LeastPrimeFactor(n)
    decreases n
  {
    if n == 1 then
      []
    else
      var f := FactorStep(n);
      QuotientBounds(f, n);
      var rest := PrimeFactorize(n / f);
      LeastFactorOfQuotient(n);
      [f] + rest
  }

  /** A non-empty list of primes multiplies to more than 1. */
  lemma PrimesProductAboveOne(xs: seq<nat>)
    ensures (forall i :: 0 <= i < |xs| ==> IsPrime(xs[i])) && xs != [] ==> Product(xs) >= 2
  {
    if xs != [] && forall i :: 0 <= i < |xs| ==> IsPrime(xs[i]) {
      assert forall i :: 0 <= i < |xs[1..]| ==> xs[1..][i] == xs[i + 1];
      ProductPositive(xs[1..]);
      MulPositive(xs[0], Product(xs[1..]));
    }
  }

  /** Sorted lists of primes with the same product are equal: the factorisation is unique. */
  lemma {:induction false} FactorizationUnique(fs: seq<nat>, gs: seq<nat>)
    requires Sorted(fs) && Sorted(gs)
    requires forall i :: 0 <= i < |fs| ==> IsPrime(fs[i])
    requires forall i :: 0 <= i < |gs| ==> IsPrime(gs[i])
    requires Product(fs) == Product(gs)
    ensures fs == gs
    decreases |fs|
  {
    if fs == [] || gs == [] {
      PrimesProductAboveOne(fs);
      PrimesProductAboveOne(gs);
    } else {
      ProductPositive(fs[1..]);
      ProductPositive(gs[1..]);
      ElementDividesProduct(fs, 0);
      ElementDividesProduct(gs, 0);
      PrimeDividesProductOfPrimes(fs[0], gs);
      PrimeDividesProductOfPrimes(gs[0], fs);
      assert fs[0] == gs[0];
      MulCancel(fs[0], Product(fs[1..]), Product(gs[1..]));
      FactorizationUnique(fs[1..], gs[1..]);
    }
  }

  /** The factorisation of 3 is [3]. */
  lemma FactorizeThree()
    ensures PrimeFactorize(3) == [3]
  {
    assert IsPrime(3);
    FactorizationUnique(PrimeFactorize(3), [3]);
  }

  /** The factorisation of 100 is [2, 2, 5, 5], the list behind the powers [(2, 2), (5, 2)]. */
  lemma FactorizeHundred()
    ensures PrimeFactorize(100) == [2, 2, 5, 5]
  {
    var fs: seq<nat> := [2, 2, 5, 5];
    HundredFactors(fs);
    FactorizationUnique(PrimeFactorize(100), fs);
  }

  /** [2, 2, 5, 5] is a sorted list of primes whose product is 100. */
  lemma HundredFactors(fs: seq<nat>)
    requires fs == [2, 2, 5, 5]
    ensures Sorted(fs) && Product(fs) == 100
    ensures forall i :: 0 <= i < |fs| ==> IsPrime(fs[i])
  {
    assert IsPrime(2);
    assert IsPrime(5) by {
      assert !Divides(2, 5) && !Divides(3, 5) && !Divides(4, 5);
    }
    assert Product(fs[3..]) == 5;
    assert Product(fs[2..]) == 25 by { assert fs[2..][1..] == fs[3..]; }
    assert Product(fs[1..]) == 50 by { assert fs[1..][1..] == fs[2..]; }
  }
}
