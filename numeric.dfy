/** Fixed-width integers of the Rust crates, and Rust's integer division. */
module Numeric {

  const I32_MIN: int := -0x8000_0000
  const I32_MAX: int := 0x7fff_ffff
  const U32_MAX: int := 0xffff_ffff

  type i32 = x: int | I32_MIN <= x <= I32_MAX
  type u32 = x: int | 0 <= x <= U32_MAX
  type u8 = x: int | 0 <= x < 0x100
  type usize = x: int | 0 <= x < 0x1_0000_0000_0000_0000

  function Abs(x: int): nat
  {
    if x < 0 then -x else x
  }

  /**
   * Rust's `/` on signed integers: the quotient is truncated toward zero,
   * so the remainder takes the sign of the dividend.
   */
  function TDiv(a: int, b: int): (q: int)
    requires b != 0
    ensures var rem := a - q * b;
      Abs(rem) < Abs(b) && (a >= 0 ==> rem >= 0) && (a < 0 ==> rem <= 0)
  {
    if a >= 0 then
      (if b > 0 then a / b else -(a / -b))
    else
      (if b > 0 then -((-a) / b) else (-a) / (-b))
  }

  /** Rust's `Ord::clamp`. */
  function Clamp(x: int, lo: int, hi: int): (r: int)
    requires lo <= hi
    ensures lo <= r <= hi
    ensures lo <= x <= hi ==> r == x
    ensures x < lo ==> r == lo
    ensures x > hi ==> r == hi
  {
    if x < lo then lo else if x > hi then hi else x
  }
}
