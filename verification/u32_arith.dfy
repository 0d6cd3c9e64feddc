/**
 Rust's 32-bit integer arithmetic as used by the gcd and lcm code: `u32`
 multiplication and `u32::pow` wrap modulo 2^32 (release-build semantics), and
 `x as i32` reinterprets the 32 bits as a two's-complement number.
 */
module U32Arith {
  import opened NumberTheory

  const U32: nat := 0x1_0000_0000
  const I32Limit: nat := 0x8000_0000

  /** `u32` multiplication with wrap-around. */
  function WrapMul(a: nat, b: nat): (r: nat)
    ensures r < U32
  {
    (a * b) % U32
  }

  /** `u32::pow` with wrap-around. */
  function WrapPow(b: nat, e: nat): (r: nat)
    ensures r < U32
  {
    Pow(b, e) % U32
  }

  /** `x as i32` for a `u32` value `x`. */
  function AsI32(x: nat): (r: int)
    requires x < U32
    ensures -(I32Limit as int) <= r < I32Limit
    ensures r >= 0 <==> x < I32Limit
    ensures r == x || r == x - U32
  {
    if x < I32Limit then x else x - U32
  }

  /** `y as u32` for an `i32` value `y`: the inverse of `AsI32`. */
  function AsU32(y: int): (r: nat)
    requires -(I32Limit as int) <= y < I32Limit
    ensures r < U32
    ensures r % U32 == y % U32
  {
    if y >= 0 then y else y + U32
  }

  /** The two casts are mutually inverse bijections between the 32-bit ranges. */
  lemma CastRoundTrip(x: nat, y: int)
    requires x < U32 && -(I32Limit as int) <= y < I32Limit
    ensures AsU32(AsI32(x)) == x
    ensures AsI32(AsU32(y)) == y
  {
  }

  /** Reducing a factor modulo `m` before multiplying does not change the product modulo `m`. */
  lemma ModMulRight(x: nat, y: nat, m: nat)
    requires m > 0
    ensures (x * (y % m)) % m == (x * y) % m
  {
    var q := y / m;
    var r := y % m;
    assert y == m * q + r;
    assert x * y == m * (x * q) + x * r by {
      Distrib(x, m * q + r, r);
      MulAssoc(x, m, q);
    }
    var q2 := (x * r) / m;
    var r2 := (x * r) % m;
    assert x * r == m * q2 + r2;
    assert x * y == m * (x * q + q2) + r2;
    DivModUnique(x * y, m, x * q + q2, r2);
  }

  lemma ModMulLeft(x: nat, y: nat, m: nat)
    requires m > 0
    ensures ((x % m) * y) % m == (x * y) % m
  {
    ModMulRight(y, x, m);
  }
}
