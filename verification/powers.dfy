/**
 `generate_powers` and `Powerable::power` (chalk-core/src/math/gcd.rs): turning a
 list of prime factors into `(value, multiplicity)` pairs, one per distinct value
 in order of first occurrence, and raising such a pair.
 */
module Powers {
  import opened NumberTheory
  import opened U32Arith

  /** Where `v` first occurs in `xs`. */
  function FirstIndex(xs: seq<nat>, v: nat): (k: nat)
    requires v in xs
    ensures k < |xs| && xs[k] == v
    ensures forall j :: 0 <= j < k ==> xs[j] != v
  {
    if xs[0] == v then 0 else 1 + FirstIndex(xs[1..], v)
  }

  lemma FirstIndexAt(xs: seq<nat>, j: nat)
    requires j < |xs| && xs[j] !in xs[..j]
    ensures FirstIndex(xs, xs[j]) == j
  {
  }

  lemma FirstIndexAtLeast(xs: seq<nat>, i: nat, v: nat)
    requires i <= |xs| && v in xs && v !in xs[..i]
    ensures FirstIndex(xs, v) >= i
  {
  }

  /** The multiplicities of the pairs, summed. */
  function SumCounts(ps: seq<(nat, nat)>): nat {
    if ps == [] then 0 else ps[0].1 + SumCounts(ps[1..])
  }

  /** How many elements of `xs` lie outside `s`. */
  function CountOutside(xs: seq<nat>, s: set<nat>): (c: nat)
    ensures c <= |xs|
  {
    if xs == [] then 0 else (if xs[0] in s then 0 else 1) + CountOutside(xs[1..], s)
  }

  lemma {:induction false} CountOutsideSplit(xs: seq<nat>, s: set<nat>, v: nat)
    requires v !in s
    ensures CountOutside(xs, s) == Count(xs, v) + CountOutside(xs, s + {v})
  {
    if xs != [] {
      CountOutsideSplit(xs[1..], s, v);
    }
  }

  lemma {:induction false} CountSplit(xs: seq<nat>, i: nat, v: nat)
    requires i <= |xs|
    ensures Count(xs, v) == Count(xs[..i], v) + Count(xs[i..], v)
  {
    if i > 0 {
      CountSplit(xs[1..], i - 1, v);
      assert xs[1..][..i - 1] == xs[..i][1..];
      assert xs[1..][i - 1..] == xs[i..];
    }
  }

  /** Every pair emitted is an unseen value of `xs` with its count in `xs`. */
  ghost predicate KeysUnseen(xs: seq<nat>, seen: set<nat>, ps: seq<(nat, nat)>) {
    forall k :: 0 <= k < |ps| ==>
      && ps[k].0 in xs
      && ps[k].0 !in seen
      && ps[k].1 == Count(xs, ps[k].0)
  }

  /** Every unseen value of `xs[i..]` is emitted. */
  ghost predicate CoversUnseen(xs: seq<nat>, i: nat, seen: set<nat>, ps: seq<(nat, nat)>)
    requires i <= |xs|
  {
    forall j :: i <= j < |xs| && xs[j] !in seen ==> exists k :: 0 <= k < |ps| && ps[k].0 == xs[j]
  }

  /** The emitted keys appear in order of their first occurrence in `xs`. */
  ghost predicate FirstOccurrenceOrder(xs: seq<nat>, ps: seq<(nat, nat)>)
    requires forall k :: 0 <= k < |ps| ==> ps[k].0 in xs
  {
    forall k, l :: 0 <= k < l < |ps| ==> FirstIndex(xs, ps[k].0) < FirstIndex(xs, ps[l].0)
  }

  /**
   What the loop of `generate_powers` emits from index `i` on, with `seen`
   holding the values before `i`: each value not seen yet exactly once, with its
   count in the whole list, in order of first occurrence.
   */
  ghost predicate EmitsUnseen(xs: seq<nat>, i: nat, seen: set<nat>, ps: seq<(nat, nat)>)
    requires i <= |xs|
  {
    && KeysUnseen(xs, seen, ps)
    && CoversUnseen(xs, i, seen, ps)
    && FirstOccurrenceOrder(xs, ps)
    && SumCounts(ps) == CountOutside(xs[i..], seen)
  }

  lemma PowersSkip(xs: seq<nat>, i: nat, seen: set<nat>, ps: seq<(nat, nat)>)
    requires i < |xs| && xs[i] in seen
    requires EmitsUnseen(xs, i + 1, seen, ps)
    ensures EmitsUnseen(xs, i, seen, ps)
  {
    assert xs[i..] == [xs[i]] + xs[i + 1..];
  }

  lemma EmitKeys(xs: seq<nat>, i: nat, seen: set<nat>, rest: seq<(nat, nat)>)
    requires i < |xs| && xs[i] !in seen
    requires KeysUnseen(xs, seen + {xs[i]}, rest)
    ensures KeysUnseen(xs, seen, [(xs[i], Count(xs, xs[i]))] + rest)
  {
    assert xs[i..] == [xs[i]] + xs[i + 1..];
  }

  lemma EmitCovers(xs: seq<nat>, i: nat, seen: set<nat>, rest: seq<(nat, nat)>)
    requires i < |xs| && xs[i] !in seen
    requires CoversUnseen(xs, i + 1, seen + {xs[i]}, rest)
    ensures CoversUnseen(xs, i, seen, [(xs[i], Count(xs, xs[i]))] + rest)
  {
    var ps := [(xs[i], Count(xs, xs[i]))] + rest;
    forall j | i <= j < |xs| && xs[j] !in seen
      ensures exists k :: 0 <= k < |ps| && ps[k].0 == xs[j]
    {
      if xs[j] == xs[i] {
        assert ps[0].0 == xs[j];
      } else {
        var k :| 0 <= k < |rest| && rest[k].0 == xs[j];
        assert ps[k + 1].0 == xs[j];
      }
    }
  }

  lemma EmitOrder(xs: seq<nat>, i: nat, seen: set<nat>, rest: seq<(nat, nat)>)
    requires i < |xs| && xs[i] !in seen
    requires forall v :: v in seen <==> v in xs[..i]
    requires KeysUnseen(xs, seen + {xs[i]}, rest)
    requires FirstOccurrenceOrder(xs, rest)
    ensures FirstOccurrenceOrder(xs, [(xs[i], Count(xs, xs[i]))] + rest)
  {
    FirstIndexAt(xs, i);
    forall m | 0 <= m < |rest|
      ensures FirstIndex(xs, xs[i]) < FirstIndex(xs, rest[m].0)
    {
      RestAfter(xs, i, seen, rest, m);
    }
    OrderCons(xs, (xs[i], Count(xs, xs[i])), rest);
  }

  /** A pair whose key first occurs before every key of an ordered list keeps the list ordered in front of it. */
  lemma OrderCons(xs: seq<nat>, head: (nat, nat), rest: seq<(nat, nat)>)
    requires head.0 in xs && forall m :: 0 <= m < |rest| ==> rest[m].0 in xs
    requires forall m :: 0 <= m < |rest| ==> FirstIndex(xs, head.0) < FirstIndex(xs, rest[m].0)
    requires FirstOccurrenceOrder(xs, rest)
    ensures FirstOccurrenceOrder(xs, [head] + rest)
  {
    var ps := [head] + rest;
    forall k, l | 0 <= k < l < |ps|
      ensures FirstIndex(xs, ps[k].0) < FirstIndex(xs, ps[l].0)
    {
      assert ps[l] == rest[l - 1];
      if k > 0 {
        assert ps[k] == rest[k - 1];
      }
    }
  }

  /** A key emitted after the one for `xs[i]` first occurs after `i`. */
  lemma RestAfter(xs: seq<nat>, i: nat, seen: set<nat>, rest: seq<(nat, nat)>, m: nat)
    requires i < |xs| && m < |rest|
    requires forall v :: v in seen <==> v in xs[..i]
    requires KeysUnseen(xs, seen + {xs[i]}, rest)
    ensures FirstIndex(xs, rest[m].0) > i
  {
    var w := rest[m].0;
    assert w !in xs[..i + 1] by {
      assert w !in seen + {xs[i]};
      assert xs[..i + 1] == xs[..i] + [xs[i]];
    }
    FirstIndexAtLeast(xs, i + 1, w);
  }

  lemma EmitSum(xs: seq<nat>, i: nat, seen: set<nat>, rest: seq<(nat, nat)>)
    requires i < |xs| && xs[i] !in seen
    requires forall v :: v in seen <==> v in xs[..i]
    requires SumCounts(rest) == CountOutside(xs[i + 1..], seen + {xs[i]})
    ensures SumCounts([(xs[i], Count(xs, xs[i]))] + rest) == CountOutside(xs[i..], seen)
  {
    var v := xs[i];
    assert xs[i..] == [v] + xs[i + 1..];
    assert ([(v, Count(xs, v))] + rest)[1..] == rest;
    CountOutsideSplit(xs[i + 1..], seen, v);
    CountSplit(xs, i + 1, v);
    assert xs[..i + 1] == xs[..i] + [v];
    CountSplit(xs[..i + 1], i, v);
    assert xs[..i + 1][..i] == xs[..i];
    assert Count(xs[..i], v) == 0;
  }

  lemma PowersEmit(xs: seq<nat>, i: nat, seen: set<nat>, rest: seq<(nat, nat)>)
    requires i < |xs| && xs[i] !in seen
    requires forall v :: v in seen <==> v in xs[..i]
    requires EmitsUnseen(xs, i + 1, seen + {xs[i]}, rest)
    ensures EmitsUnseen(xs, i, seen, [(xs[i], Count(xs, xs[i]))] + rest)
  {
    EmitKeys(xs, i, seen, rest);
    EmitCovers(xs, i, seen, rest);
    EmitOrder(xs, i, seen, rest);
    EmitSum(xs, i, seen, rest);
  }

  /** The loop of `generate_powers` from index `i` on, with `seen` holding the values before `i`. */
  function PowersFrom(xs: seq<nat>, i: nat, seen: set<nat>): (ps: seq<(nat, nat)>)
    requires i <= |xs|
    requires forall v :: v in seen <==> v in xs[..i]
    ensures EmitsUnseen(xs, i, seen, ps)
    decreases |xs| - i
  {
    if i == |xs| then
      []
    else
      assert xs[..i + 1] == xs[..i] + [xs[i]];
      if xs[i] in seen then
        var ps := PowersFrom(xs, i + 1, seen);
        PowersSkip(xs, i, seen, ps);
        ps
      else
        var rest := PowersFrom(xs, i + 1, seen + {xs[i]});
        PowersEmit(xs, i, seen, rest);
        [(xs[i], Count(xs, xs[i]))] + rest
  }

  /**
   `generate_powers`: one `(v, count of v)` pair per distinct value `v`, in order
   of first occurrence (hence with distinct keys), the counts adding up to the
   length of the list.
   */
  function GeneratePowers(xs: seq<nat>): (ps: seq<(nat, nat)>)
    ensures forall k :: 0 <= k < |ps| ==> ps[k].0 in xs && ps[k].1 == Count(xs, ps[k].0)
    ensures forall v :: v in xs ==> exists k :: 0 <= k < |ps| && ps[k].0 == v
    ensures forall k, l :: 0 <= k < l < |ps| ==>
              FirstIndex(xs, ps[k].0) < FirstIndex(xs, ps[l].0)
    ensures SumCounts(ps) == |xs|
  {
    assert xs[0..] == xs;
    var ps := PowersFrom(xs, 0, {});
    forall v | v in xs
      ensures exists k :: 0 <= k < |ps| && ps[k].0 == v
    {
      var j := FirstIndex(xs, v);
      assert xs[j] !in {};
    }
    CountOutsideNone(xs);
    ps
  }

  lemma {:induction false} CountOutsideNone(xs: seq<nat>)
    ensures CountOutside(xs, {}) == |xs|
  {
    if xs != [] {
      CountOutsideNone(xs[1..]);
    }
  }

  /** Pairs whose keys are pairwise different. */
  predicate DistinctKeys(ps: seq<(nat, nat)>) {
    forall k, l :: 0 <= k < l < |ps| ==> ps[k].0 != ps[l].0
  }

  lemma PowersDistinct(xs: seq<nat>)
    ensures DistinctKeys(GeneratePowers(xs))
  {
  }

  /** The exponents listed for key `v`, in order: what a map of lists built from `ps` holds for `v`. */
  function ExpsOf(ps: seq<(nat, nat)>, v: nat): (es: seq<nat>)
    ensures |es| <= |ps|
  {
    if ps == [] then [] else (if ps[0].0 == v then [ps[0].1] else []) + ExpsOf(ps[1..], v)
  }

  lemma {:induction false} ExpsOfAppend(ps: seq<(nat, nat)>, qs: seq<(nat, nat)>, v: nat)
    ensures ExpsOf(ps + qs, v) == ExpsOf(ps, v) + ExpsOf(qs, v)
  {
    if ps != [] {
      assert (ps + qs)[1..] == ps[1..] + qs;
      ExpsOfAppend(ps[1..], qs, v);
    } else {
      assert ps + qs == qs;
    }
  }

  /** With distinct keys, a key has a single exponent, or none when absent. */
  lemma {:induction false} ExpsOfDistinct(ps: seq<(nat, nat)>, v: nat)
    requires DistinctKeys(ps)
    ensures (forall k :: 0 <= k < |ps| ==> ps[k].0 != v) ==> ExpsOf(ps, v) == []
    ensures forall k :: 0 <= k < |ps| && ps[k].0 == v ==> ExpsOf(ps, v) == [ps[k].1]
  {
    if ps != [] {
      ExpsOfDistinct(ps[1..], v);
      if ps[0].0 == v {
        assert forall k :: 0 <= k < |ps[1..]| ==> ps[1..][k].0 != v by {
          forall k | 0 <= k < |ps[1..]|
            ensures ps[1..][k].0 != v
          {
            assert ps[0].0 != ps[k + 1].0;
          }
        }
      } else {
        forall k | 0 <= k < |ps| && ps[k].0 == v
          ensures ExpsOf(ps, v) == [ps[k].1]
        {
          assert ps[1..][k - 1] == ps[k];
        }
      }
    }
  }

  /** In the powers of a list, `v` has exponent list `[count]` if it occurs, and `[]` otherwise. */
  lemma ExpsOfPowers(xs: seq<nat>, v: nat)
    ensures ExpsOf(GeneratePowers(xs), v) == if v in xs then [Count(xs, v)] else []
  {
    var ps := GeneratePowers(xs);
    ExpsOfDistinct(ps, v);
    if v in xs {
      var k :| 0 <= k < |ps| && ps[k].0 == v;
    }
  }

  /** `Powerable::power`: the base raised to the exponent, in `u32` arithmetic. */
  function Power(pair: (nat, nat)): (r: nat)
    requires pair.0 < U32
    ensures r < U32
    ensures Pow(pair.0, pair.1) < U32 ==> r == Pow(pair.0, pair.1)
    ensures r % U32 == Pow(pair.0, pair.1) % U32
  {
    WrapPow(pair.0, pair.1)
  }

  /** Pairs with distinct keys drawn from `s` number at most `|s|`. */
  lemma {:induction false} KeysBound(ps: seq<(nat, nat)>, s: set<nat>)
    requires DistinctKeys(ps)
    requires forall k :: 0 <= k < |ps| ==> ps[k].0 in s
    ensures |ps| <= |s|
  {
    if ps != [] {
      var rest := ps[1..];
      forall k | 0 <= k < |rest|
        ensures rest[k].0 in s - {ps[0].0}
      {
        assert rest[k] == ps[k + 1];
      }
      KeysBound(rest, s - {ps[0].0});
    }
  }

  lemma TwoTwoFiveFive(xs: seq<nat>)
    requires xs == [2, 2, 5, 5]
    ensures Count(xs, 2) == 2 && Count(xs, 5) == 2
    ensures FirstIndex(xs, 2) == 0 && FirstIndex(xs, 5) == 2
    ensures forall k :: 0 <= k < |xs| ==> xs[k] == 2 || xs[k] == 5
  {
    var t1, t2, t3 := xs[1..], xs[2..], xs[3..];
    assert t1 == [2, 5, 5] && t1[1..] == t2 && t2 == [5, 5] && t2[1..] == t3 && t3 == [5];
    assert Count(t3, 2) == 0 && Count(t3, 5) == 1;
    assert Count(t2, 2) == 0 && Count(t2, 5) == 2;
    assert Count(t1, 2) == 1 && Count(t1, 5) == 2;
    assert FirstIndex(t2, 5) == 0;
    assert FirstIndex(t1, 5) == 1;
  }

  /** A list of two distinct values has two pairs, the value met first leading. */
  lemma PowersOfTwoValues(xs: seq<nat>, a: nat, b: nat)
    requires a != b && a in xs && b in xs
    requires forall k :: 0 <= k < |xs| ==> xs[k] == a || xs[k] == b
    requires FirstIndex(xs, a) < FirstIndex(xs, b)
    ensures GeneratePowers(xs) == [(a, Count(xs, a)), (b, Count(xs, b))]
  {
    var ps := GeneratePowers(xs);
    PowersDistinct(xs);
    KeysOfTwo(xs, ps, a, b);
    var ka :| 0 <= ka < |ps| && ps[ka].0 == a;
    var kb :| 0 <= kb < |ps| && ps[kb].0 == b;
    PairsOfTwo(xs, ps, a, b, ka, kb);
  }

  lemma KeysOfTwo(xs: seq<nat>, ps: seq<(nat, nat)>, a: nat, b: nat)
    requires forall k :: 0 <= k < |xs| ==> xs[k] == a || xs[k] == b
    requires forall k :: 0 <= k < |ps| ==> ps[k].0 in xs
    ensures forall k :: 0 <= k < |ps| ==> ps[k].0 in {a, b}
  {
  }

  lemma PairsOfTwo(xs: seq<nat>, ps: seq<(nat, nat)>, a: nat, b: nat, ka: nat, kb: nat)
    requires a != b && DistinctKeys(ps)
    requires forall k :: 0 <= k < |ps| ==> ps[k].0 in {a, b}
    requires forall k :: 0 <= k < |ps| ==> ps[k].1 == Count(xs, ps[k].0)
    requires ka < |ps| && ps[ka].0 == a && kb < |ps| && ps[kb].0 == b
    requires b in xs && a in xs && FirstIndex(xs, a) < FirstIndex(xs, b)
    requires forall k, l :: 0 <= k < l < |ps| ==> FirstIndex(xs, ps[k].0) < FirstIndex(xs, ps[l].0)
    ensures ps == [(a, Count(xs, a)), (b, Count(xs, b))]
  {
    KeysBound(ps, {a, b});
    assert |{a, b}| == 2;
    assert ka == 0 && kb == 1;
  }

  /** The powers of `[2, 2, 5, 5]` are `[(2, 2), (5, 2)]`. */
  lemma PowersOfTwoTwoFiveFive(xs: seq<nat>)
    requires xs == [2, 2, 5, 5]
    ensures GeneratePowers(xs) == [(2, 2), (5, 2)]
  {
    TwoTwoFiveFive(xs);
    assert xs[0] == 2 && xs[2] == 5;
    PowersOfTwoValues(xs, 2, 5);
  }
}
