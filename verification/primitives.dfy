/** Fixed-width integers of the on-chain program, the Option type, account
    keys, and the checked / saturating arithmetic the program uses. Dafny
    integers are unbounded, so every width and every overflow rule is written
    out here. */
module Primitives {

  const U8_MAX: int := 0xFF
  const U16_MAX: int := 0xFFFF
  const U32_MAX: int := 0xFFFF_FFFF
  const U64_MAX: int := 0xFFFF_FFFF_FFFF_FFFF
  const I64_MIN: int := -0x8000_0000_0000_0000
  const I64_MAX: int := 0x7FFF_FFFF_FFFF_FFFF

  type U8 = x: int | 0 <= x <= 0xFF
  type U16 = x: int | 0 <= x <= 0xFFFF
  type U32 = x: int | 0 <= x <= 0xFFFF_FFFF
  type U64 = x: int | 0 <= x <= 0xFFFF_FFFF_FFFF_FFFF
  type I64 = x: int | -0x8000_0000_0000_0000 <= x <= 0x7FFF_FFFF_FFFF_FFFF

  datatype Option<+T> = None | Some(value: T)

  /** A 32-byte account address. Only equality matters to the model. */
  datatype Pubkey = Pubkey(bytes: seq<U8>)

  /** `n` zero bytes, the default contents of a fixed-size byte array. */
  function ZeroBytes(n: nat): (r: seq<U8>)
    ensures |r| == n
    ensures forall i :: 0 <= i < n ==> r[i] == 0
  {
    if n == 0 then [] else ZeroBytes(n - 1) + [0]
  }

  /** The all-zero address, `Pubkey::default()`. */
  const DEFAULT_PUBKEY: Pubkey := Pubkey(ZeroBytes(32))

  /** `u64::checked_add`: None exactly when the sum leaves the u64 range. */
  function CheckedAdd(a: U64, b: U64): (r: Option<U64>)
    ensures r.Some? <==> a + b <= U64_MAX
    ensures r.Some? ==> r.value == a + b
  {
    if a + b <= U64_MAX then Some(a + b) else None
  }

  /** `u64::checked_sub`: None exactly when the difference would be negative. */
  function CheckedSub(a: U64, b: U64): (r: Option<U64>)
    ensures r.Some? <==> b <= a
    ensures r.Some? ==> r.value + b == a
  {
    if b <= a then Some(a - b) else None
  }

  /** `a.checked_mul(b).and_then(|p| p.checked_div(c))`: the quotient
      floor(a * b / c), or None when the product overflows or c is zero. */
  function MulDiv(a: U64, b: U64, c: U64): (r: Option<U64>)
    ensures r.Some? <==> a * b <= U64_MAX && c != 0
    ensures r.Some? ==> r.value * c <= a * b < (r.value + 1) * c
  {
    var p: nat := a * b;
    if p <= U64_MAX && c != 0 then
      DivBounds(p, c);
      var q: U64 := p / c;
      Some(q)
    else
      None
  }

  /** Euclidean division of a natural number brackets the dividend, and the
      quotient never exceeds it. */
  lemma DivBounds(x: nat, c: nat)
    requires c > 0
    ensures (x / c) * c <= x < (x / c + 1) * c
    ensures x / c <= x
  {
    var q, m := x / c, x % c;
    assert x == q * c + m;
    assert (q + 1) * c == q * c + c;
    MulMonotone(q, 1, c);
  }

  /** Multiplying by a natural number preserves order. */
  lemma {:induction false} MulMonotone(a: nat, b: int, c: int)
    requires b <= c
    ensures a * b <= a * c
  {
    if a > 0 {
      MulMonotone(a - 1, b, c);
      assert a * b == (a - 1) * b + b;
      assert a * c == (a - 1) * c + c;
    }
  }

  /** A floor quotient is bounded by any bound that brackets the dividend:
      q * c <= n <= bound * c forces q <= bound. */
  lemma QuotientAtMost(q: nat, c: nat, n: nat, bound: nat)
    requires c > 0
    requires q * c <= n <= bound * c
    ensures q <= bound
  {
    if q > bound {
      MulMonotone(c, bound + 1, q);
    }
  }

  /** The converse step: n < (q + 1) * c together with bound * c <= n forces
      bound <= q. */
  lemma QuotientAtLeast(q: nat, c: nat, n: nat, bound: nat)
    requires c > 0
    requires bound * c <= n < (q + 1) * c
    ensures bound <= q
  {
    if bound > q {
      MulMonotone(c, q + 1, bound);
    }
  }

  /** `u64::saturating_add`. */
  function SaturatingAdd(a: U64, b: U64): (r: U64)
    ensures a + b <= U64_MAX ==> r == a + b
    ensures a + b > U64_MAX ==> r == U64_MAX
  {
    if a + b <= U64_MAX then a + b else U64_MAX
  }

  /** `u64::saturating_sub`. */
  function SaturatingSub(a: U64, b: U64): (r: U64)
    ensures b <= a ==> r + b == a
    ensures b > a ==> r == 0
  {
    if b <= a then a - b else 0
  }

  /** `u32::saturating_add(1)`. */
  function SaturatingIncrement(n: U32): (r: U32)
    ensures n < U32_MAX ==> r == n + 1
    ensures n == U32_MAX ==> r == n
  {
    if n < U32_MAX then n + 1 else n
  }

  /** `x as i64` for a u64: the same 64 bits read as two's complement. */
  function AsI64(x: U64): (r: I64)
    ensures x <= I64_MAX ==> r == x
    ensures x > I64_MAX ==> r < 0 && r + U64_MAX + 1 == x
  {
    if x <= I64_MAX then x else x - (U64_MAX + 1)
  }

  /** 10 to the power n. */
  function Pow10(n: nat): (r: nat)
    ensures r >= 1
  {
    if n == 0 then 1 else 10 * Pow10(n - 1)
  }

  /** Powers of ten up to 10^19 fit in a u64, so `10_u64.pow(d)` does not
      overflow for d <= 19. */
  lemma {:induction false} Pow10FitsU64(n: nat)
    requires n <= 19
    ensures Pow10(n) <= U64_MAX
  {
    Pow10Monotone(n, 19);
    assert Pow10(5) == 100_000;
    assert Pow10(10) == 10_000_000_000;
    assert Pow10(15) == 1_000_000_000_000_000;
    assert Pow10(19) == 10_000_000_000_000_000_000;
  }

  lemma {:induction false} Pow10Monotone(m: nat, n: nat)
    requires m <= n
    ensures Pow10(m) <= Pow10(n)
    decreases n - m
  {
    if m < n {
      Pow10Monotone(m, n - 1);
    }
  }
}
