/** Fixed-width unsigned C integers (`unsigned int`, `uint64_t`) and their
    wrap-around arithmetic, written out explicitly over unbounded `int`. */
module Unsigned {

  const U32_MODULUS: int := 0x1_0000_0000
  const U64_MODULUS: int := 0x1_0000_0000_0000_0000

  /** A 32-bit `unsigned int` / `uint`. */
  type u32 = x: int | 0 <= x < 0x1_0000_0000

  /** A 64-bit `uint64_t` / `unsigned long`. */
  type u64 = x: int | 0 <= x < 0x1_0000_0000_0000_0000

  /** `x + 1` on a 32-bit unsigned value. */
  function Inc32(x: u32): (r: u32)
    ensures x < U32_MODULUS - 1 ==> r == x + 1
    ensures x == U32_MODULUS - 1 ==> r == 0
  {
    (x + 1) % U32_MODULUS
  }

  /** `x - 1` on a 32-bit unsigned value. */
  function Dec32(x: u32): (r: u32)
    ensures x > 0 ==> r == x - 1
    ensures x == 0 ==> r == U32_MODULUS - 1
  {
    (x - 1) % U32_MODULUS
  }

  /** `a + b` on 32-bit unsigned values. */
  function Add32(a: u32, b: u32): (r: u32)
    ensures a + b < U32_MODULUS ==> r == a + b
    ensures a + b >= U32_MODULUS ==> r == a + b - U32_MODULUS
  {
    (a + b) % U32_MODULUS
  }

  /** `a * b` on 32-bit unsigned values: the product when it fits, and in
      every case a value congruent to it modulo 2^32. */
  function Mul32(a: u32, b: u32): (p: u32)
    ensures a * b < U32_MODULUS ==> p == a * b
    ensures (a * b - p) % U32_MODULUS == 0
  {
    (a * b) % U32_MODULUS
  }

  /** `a / b` on 32-bit unsigned values: the truncated quotient, which never
      exceeds the dividend. */
  function Div32(a: u32, b: u32): (q: u32)
    requires b > 0
    ensures q <= a
    ensures q * b <= a < (q + 1) * b
  {
    QuotientBelow(a, b);
    a / b
  }

  /** A quotient by a positive divisor is at most the dividend. */
  lemma QuotientBelow(a: nat, b: nat)
    requires b > 0
    ensures a / b <= a
  {
    var q := a / b;
    assert q * b + a % b == a;
    assert q * b == q * (b - 1) + q;
    NatProduct(q, b - 1);
  }

  lemma NatProduct(x: nat, y: nat)
    ensures x * y >= 0
  {
  }

  /** `a + b` on 64-bit unsigned values. */
  function Add64(a: u64, b: u64): (r: u64)
    ensures a + b < U64_MODULUS ==> r == a + b
    ensures a + b >= U64_MODULUS ==> r == a + b - U64_MODULUS
  {
    (a + b) % U64_MODULUS
  }

  /** `a - b` on 64-bit unsigned values: the delta of two counter readings.
      Adding the delta back to `b` gives `a` again. */
  function Sub64(a: u64, b: u64): (d: u64)
    ensures a >= b ==> d == a - b
    ensures a < b ==> d == a + U64_MODULUS - b
    ensures Add64(b, d) == a
  {
    (a - b) % U64_MODULUS
  }

  /** Incrementing modulo 2^32 commutes with reducing modulo 2^32. */
  lemma Inc32Mod(n: nat)
    ensures Inc32(n % U32_MODULUS) == (n + 1) % U32_MODULUS
  {
    var q := n / U32_MODULUS;
    assert n == q * U32_MODULUS + n % U32_MODULUS;
    if n % U32_MODULUS < U32_MODULUS - 1 {
      assert n + 1 == q * U32_MODULUS + (n % U32_MODULUS + 1);
    } else {
      assert n + 1 == (q + 1) * U32_MODULUS;
    }
  }

  /** Adding modulo 2^32 commutes with reducing modulo 2^32. */
  lemma Add32Mod(n: nat, b: u32)
    ensures Add32(n % U32_MODULUS, b) == (n + b) % U32_MODULUS
  {
    var q := n / U32_MODULUS;
    var m := n % U32_MODULUS;
    assert n == q * U32_MODULUS + m;
    if m + b < U32_MODULUS {
      assert n + b == q * U32_MODULUS + (m + b);
    } else {
      assert n + b == (q + 1) * U32_MODULUS + (m + b - U32_MODULUS);
    }
  }

  /** Wrapping after each of two multiplications equals wrapping once at the end. */
  lemma Mul32Twice(a: u32, b: u32, c: u32)
    ensures Mul32(Mul32(a, b), c) == (a * b * c) % U32_MODULUS
  {
    var q := (a * b) / U32_MODULUS;
    var m := (a * b) % U32_MODULUS;
    assert a * b == q * U32_MODULUS + m;
    assert a * b * c == (q * c) * U32_MODULUS + m * c;
    ModAddMultiple(m * c, q * c);
  }

  /** Adding a multiple of 2^32 does not change the residue. */
  lemma ModAddMultiple(x: nat, k: nat)
    ensures (k * U32_MODULUS + x) % U32_MODULUS == x % U32_MODULUS
  {
    var q := x / U32_MODULUS;
    assert x == q * U32_MODULUS + x % U32_MODULUS;
    assert k * U32_MODULUS + x == (k + q) * U32_MODULUS + x % U32_MODULUS;
  }
}
