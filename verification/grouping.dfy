/**
 The machinery `gcd` and `lcm` share (chalk-core/src/math/gcd.rs, lcm.rs): the
 `HashMap<u32, Vec<u32>>` that collects, per prime, the exponents listed for it,
 and the loop that multiplies the chosen prime powers into a `u32` accumulator.

 The map is kept as a list of entries in insertion order.  Rust's `HashMap`
 visits its entries in an unspecified order; the accumulated product does not
 depend on it because multiplication modulo 2^32 is commutative.
 */
module Grouping {
  import opened NumberTheory
  import opened Valuations
  import opened Powers
  import opened U32Arith

  /** One map entry: a key and the exponents pushed for it, in push order. */
  datatype Entry = Entry(key: nat, exps: seq<nat>)

  /** The exponents stored under `q`, or the empty list (`or_default`) when `q` is absent. */
  function ExpsIn(m: seq<Entry>, q: nat): seq<nat> {
    if m == [] then [] else if m[0].key == q then m[0].exps else ExpsIn(m[1..], q)
  }

  /** The invariant of the map: keys are distinct and every entry holds at least one exponent. */
  predicate WellFormed(m: seq<Entry>) {
    && (forall i, j :: 0 <= i < j < |m| ==> m[i].key != m[j].key)
    && (forall i :: 0 <= i < |m| ==> m[i].exps != [])
  }

  lemma {:induction false} ExpsInAbsent(m: seq<Entry>, q: nat)
    requires forall i :: 0 <= i < |m| ==> m[i].key != q
    ensures ExpsIn(m, q) == []
  {
    if m != [] {
      ExpsInAbsent(m[1..], q);
    }
  }

  lemma {:induction false} ExpsInAt(m: seq<Entry>, i: nat)
    requires WellFormed(m) && i < |m|
    ensures ExpsIn(m, m[i].key) == m[i].exps
  {
    if i > 0 {
      ExpsInAt(m[1..], i - 1);
    }
  }

  /** `r` is `m` after pushing `e` under `key`: well formed, `key` extended by `e`, no other key changed or added. */
  ghost predicate Pushed(m: seq<Entry>, key: nat, e: nat, r: seq<Entry>) {
    && WellFormed(r)
    && (forall q :: ExpsIn(r, q) == ExpsIn(m, q) + (if q == key then [e] else []))
    && (forall i :: 0 <= i < |r| ==> r[i].key == key || exists j :: 0 <= j < |m| && m[j].key == r[i].key)
  }

  /**
   `powers.entry(key).or_default().push(e)`: afterwards `key` holds its old
   exponents followed by `e`, and every other key is unchanged.
   */
  function Push(m: seq<Entry>, key: nat, e: nat): (r: seq<Entry>)
    requires WellFormed(m)
    ensures WellFormed(r)
    ensures forall q :: ExpsIn(r, q) == ExpsIn(m, q) + (if q == key then [e] else [])
    ensures forall i :: 0 <= i < |r| ==> r[i].key == key || exists j :: 0 <= j < |m| && m[j].key == r[i].key
  {
    if m == [] then
      [Entry(key, [e])]
    else if m[0].key == key then
      PushHere(m, key, e);
      [Entry(key, m[0].exps + [e])] + m[1..]
    else
      var rest := Push(m[1..], key, e);
      PushPast(m, key, e, rest);
      [m[0]] + rest
  }

  /** Pushing under the first key extends that entry in place. */
  lemma PushHere(m: seq<Entry>, key: nat, e: nat)
    requires WellFormed(m) && m != [] && m[0].key == key
    ensures Pushed(m, key, e, [Entry(key, m[0].exps + [e])] + m[1..])
  {
    var r := [Entry(key, m[0].exps + [e])] + m[1..];
    assert forall i :: 0 < i < |r| ==> r[i] == m[i];
    ExpsInAbsent(m[1..], key);
  }

  /** Pushing under another key leaves the first entry in front of the pushed rest. */
  lemma PushPast(m: seq<Entry>, key: nat, e: nat, rest: seq<Entry>)
    requires WellFormed(m) && m != [] && m[0].key != key
    requires Pushed(m[1..], key, e, rest)
    ensures Pushed(m, key, e, [m[0]] + rest)
  {
    var r := [m[0]] + rest;
    assert forall i :: 0 < i < |r| ==> r[i] == rest[i - 1];
    forall i | 0 < i < |r| && r[i].key != key
      ensures exists j :: 0 <= j < |m| && m[j].key == r[i].key
    {
      var j :| 0 <= j < |m[1..]| && m[1..][j].key == r[i].key;
      assert m[j + 1].key == r[i].key;
    }
    forall i | 0 < i < |r|
      ensures r[i].key != m[0].key
    {
      if r[i].key != key {
        var j :| 0 <= j < |m[1..]| && m[1..][j].key == r[i].key;
        assert m[j + 1].key == r[i].key;
      }
    }
  }

  /**
   The loop `for (val, pow) in pairs { powers.entry(*val).or_default().push(*pow) }`:
   the map sends each key to the exponents the pairs list for it, in order, and
   holds no other key.
   */
  function Group(pairs: seq<(nat, nat)>): (m: seq<Entry>)
    ensures WellFormed(m)
    ensures forall q :: ExpsIn(m, q) == ExpsOf(pairs, q)
    ensures forall i :: 0 <= i < |m| ==> ExpsOf(pairs, m[i].key) != []
  {
    if pairs == [] then
      []
    else
      var n := |pairs| - 1;
      var prev := Group(pairs[..n]);
      var m := Push(prev, pairs[n].0, pairs[n].1);
      assert pairs == pairs[..n] + [pairs[n]];
      forall q
        ensures ExpsIn(m, q) == ExpsOf(pairs, q)
      {
        ExpsOfAppend(pairs[..n], [pairs[n]], q);
      }
      forall i | 0 <= i < |m|
        ensures ExpsOf(pairs, m[i].key) != []
      {
        ExpsInAt(m, i);
      }
      m
  }

  // ---------------------------------------------------------------------------
  // Folding the map into a product

  /** The product of `key ^ pick(exps)` over the entries, in exact arithmetic. */
  function ExactFold(m: seq<Entry>, pick: seq<nat> -> nat): nat {
    if m == [] then 1 else Pow(m[0].key, pick(m[0].exps)) * ExactFold(m[1..], pick)
  }

  /** Every key is prime. */
  predicate PrimeKeys(m: seq<Entry>) {
    forall i :: 0 <= i < |m| ==> IsPrime(m[i].key)
  }

  /**
   The loop `for (val, power) in powers { acc *= val.pow(pick(power)) }` with
   `u32` wrap-around: it yields the exact product, times the starting value,
   reduced modulo 2^32.
   */
  function FoldLoop(m: seq<Entry>, pick: seq<nat> -> nat, acc: nat): (r: nat)
    requires acc < U32
    ensures r < U32
    ensures r == (acc * ExactFold(m, pick)) % U32
  {
    if m == [] then
      acc
    else
      var p := Pow(m[0].key, pick(m[0].exps));
      var e := ExactFold(m[1..], pick);
      var acc' := WrapMul(acc, WrapPow(m[0].key, pick(m[0].exps)));
      var r := FoldLoop(m[1..], pick, acc');
      WrapStep(acc, p, e);
      r
  }

  /** Reducing after each multiplication gives the same residue as reducing once at the end. */
  lemma WrapStep(acc: nat, p: nat, e: nat)
    ensures (WrapMul(acc, p % U32) * e) % U32 == (acc * (p * e)) % U32
  {
    var x := acc * (p % U32);
    ModMulLeft(x, e, U32);
    var ae := acc * e;
    assert x * e == ae * (p % U32) by {
      MulAssoc(acc, p % U32, e);
      MulAssoc(acc, e, p % U32);
    }
    ModMulRight(ae, p, U32);
    assert ae * p == acc * (p * e) by {
      MulAssoc(acc, e, p);
      MulAssoc(acc, p, e);
    }
  }

  /**
   The exponent of a prime `q` in the exact product is the exponent picked for
   `q`'s entry, provided picking from the empty list gives 0 (so absent primes
   contribute nothing).
   */
  lemma {:induction false} ValOfFold(m: seq<Entry>, pick: seq<nat> -> nat, q: nat)
    requires WellFormed(m) && PrimeKeys(m) && pick([]) == 0 && IsPrime(q)
    ensures ExactFold(m, pick) >= 1
    ensures Val(q, ExactFold(m, pick)) == pick(ExpsIn(m, q))
  {
    if m == [] {
      ValOne(q);
    } else {
      var rest := m[1..];
      assert WellFormed(rest) && PrimeKeys(rest);
      ValOfFold(rest, pick, q);
      var e := pick(m[0].exps);
      ValOfPrimePower(q, m[0].key, e);
      MulPositive(Pow(m[0].key, e), ExactFold(rest, pick));
      ValMul(q, Pow(m[0].key, e), ExactFold(rest, pick));
      if m[0].key == q {
        ExpsInAbsent(rest, q);
      }
    }
  }
}
