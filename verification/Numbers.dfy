/** Option, the bounded integer types of the fixtures, and Rust's numeric casts. */
module Numbers {

  datatype Option<+T> = None | Some(value: T) {
    predicate IsFailure() {
      None?
    }

    function PropagateFailure<U>(): (r: Option<U>)
      requires None?
    {
      None
    }

    function Extract(): (r: T)
      requires Some?
    {
      value
    }
  }

  const U16_LIMIT := 0x1_0000
  const U32_LIMIT := 0x1_0000_0000
  const I32_LIMIT := 0x8000_0000
  const I64_LIMIT := 0x8000_0000_0000_0000
  const USIZE_LIMIT := 0x1_0000_0000_0000_0000

  type byte = x: int | 0 <= x < 256
  type u16 = x: int | 0 <= x < U16_LIMIT
  type u32 = x: int | 0 <= x < U32_LIMIT
  type i32 = x: int | -I32_LIMIT <= x < I32_LIMIT
  type i64 = x: int | -I64_LIMIT <= x < I64_LIMIT

  /** `x as i32` on a 64-bit integer: keep the low 32 bits. */
  function WrapI32(x: int): (r: i32) {
    (x + I32_LIMIT) % U32_LIMIT - I32_LIMIT
  }

  /** Two's-complement wrap-around of a 64-bit product. */
  function WrapI64(x: int): (r: i64) {
    (x + I64_LIMIT) % USIZE_LIMIT - I64_LIMIT
  }

  function Clamp(x: real, lo: real, hi: real): (r: real) {
    if x < lo then lo else if x > hi then hi else x
  }

  /** `f64::round`: to the nearest integer, halves away from zero. */
  function Round(x: real): (r: int)
    ensures -0.5 <= r as real - x <= 0.5
    ensures x >= 0.0 ==> r as real - x > -0.5
    ensures x <= 0.0 ==> r as real - x < 0.5
  {
    if x >= 0.0 then (x + 0.5).Floor else -((-x + 0.5).Floor)
  }

  /** Float-to-integer `as` casts saturate. */
  function SaturateI32(n: int): (r: i32) {
    if n < -I32_LIMIT then -I32_LIMIT else if n >= I32_LIMIT then I32_LIMIT - 1 else n
  }

  function SaturateU16(n: int): (r: u16) {
    if n < 0 then 0 else if n >= U16_LIMIT then U16_LIMIT - 1 else n
  }

  function SaturateI64(n: int): (r: i64) {
    if n < -I64_LIMIT then -I64_LIMIT else if n >= I64_LIMIT then I64_LIMIT - 1 else n
  }

  /** Saturation gives the representable integer nearest to `n`. */
  lemma SaturationIsNearest(n: int)
    ensures forall v: i32 :: Gap(SaturateI32(n), n) <= Gap(v, n)
    ensures forall v: u16 :: Gap(SaturateU16(n), n) <= Gap(v, n)
    ensures forall v: i64 :: Gap(SaturateI64(n), n) <= Gap(v, n)
  {
  }

  function Gap(x: int, y: int): (r: nat) {
    if x < y then y - x else x - y
  }

  /** Truncation to 32 bits changes a value by a multiple of 2^32 only. */
  lemma WrapIsCongruent(x: int)
    ensures (x - WrapI32(x)) % U32_LIMIT == 0
  {
  }

  lemma RoundIsMonotone(x: real, y: real)
    requires x <= y
    ensures Round(x) <= Round(y)
  {
  }

  lemma RoundIsOdd(x: real)
    ensures Round(-x) == -Round(x)
  {
  }

  lemma RoundOfInteger(n: int)
    ensures Round(n as real) == n
  {
  }

  lemma QuotientUnique(x: int, n: int, q: int, r: int)
    requires n > 0 && 0 <= r < n && x == n * q + r
    ensures x / n == q && x % n == r
  {
    var d := x / n - q;
    assert n * d == r - x % n by {
      assert x == n * (x / n) + x % n;
      assert n * (x / n) == n * q + n * d;
    }
    assert d >= 1 ==> n * d >= n;
    assert d <= -1 ==> n * d <= -n;
  }

  /** A real power, for the closed forms of repeated proportional steps. */
  function Pow(base: real, n: nat): (r: real)
    ensures base >= 0.0 ==> r >= 0.0
    ensures base > 0.0 ==> r > 0.0
  {
    if n == 0 then 1.0 else base * Pow(base, n - 1)
  }
}
