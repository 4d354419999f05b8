/** Fixed-width C integer types and the error wrappers shared by the model.

    The firmware is written in C for a 32-bit ARM core: `uint8_t`, `uint16_t`,
    `uint32_t` and `int16_t` are modelled as bounded integers, and every place
    where the C code relies on wrap-around spells the modulus out. */
module CTypes {

  const U8_LIMIT: int := 0x100
  const U16_LIMIT: int := 0x1_0000
  const U32_LIMIT: int := 0x1_0000_0000

  type u8 = x: int | 0 <= x < U8_LIMIT
  type u16 = x: int | 0 <= x < U16_LIMIT
  type u32 = x: int | 0 <= x < U32_LIMIT
  type i16 = x: int | -0x8000 <= x < 0x8000

  /** The value a C unsigned 32-bit expression takes after wrap-around. */
  function Wrap32(x: int): (r: u32)
    ensures 0 <= x < U32_LIMIT ==> r == x
    ensures (r - x) % U32_LIMIT == 0
  {
    x % U32_LIMIT
  }

  /** `a - b` evaluated on `uint32_t` operands. */
  function Sub32(a: u32, b: u32): (r: u32)
    ensures r == Wrap32(a - b)
    ensures Add32(b, r) == a
  {
    if b <= a then a - b else a - b + U32_LIMIT
  }

  /** `a + b` evaluated on `uint32_t` operands. */
  function Add32(a: u32, b: u32): (r: u32)
    ensures r == Wrap32(a + b)
  {
    if a + b < U32_LIMIT then a + b else a + b - U32_LIMIT
  }

  /** 2 to the power n. */
  function Pow2(n: nat): (r: nat)
    ensures r >= 1
  {
    if n == 0 then 1 else 2 * Pow2(n - 1)
  }

  lemma Pow2Sixteen()
    ensures Pow2(16) == 0x1_0000
  {
    assert Pow2(4) == 16;
    assert Pow2(8) == 256 by {
      assert Pow2(8) == 2 * 2 * 2 * 2 * Pow2(4);
    }
    assert Pow2(12) == 2 * 2 * 2 * 2 * Pow2(8);
    assert Pow2(16) == 2 * 2 * 2 * 2 * Pow2(12);
  }

  /** Wrapping once or at the end gives the same `uint32_t`. */
  lemma Wrap32Add(x: int, y: int)
    ensures Wrap32(Wrap32(x) + y) == Wrap32(x + y)
  {
    var q := x / U32_LIMIT;
    assert x == q * U32_LIMIT + Wrap32(x);
    assert Wrap32(x) + y == (x + y) - q * U32_LIMIT;
    ModShift(x + y, -q);
  }

  /** Adding a multiple of 2^32 does not change the wrapped value. */
  lemma ModShift(z: int, k: int)
    ensures (z + k * U32_LIMIT) % U32_LIMIT == z % U32_LIMIT
  {
  }

  /** 2^n grows with n. */
  lemma {:induction false} Pow2Monotone(n: nat, m: nat)
    requires n <= m
    ensures Pow2(n) <= Pow2(m)
  {
    if n < m {
      Pow2Monotone(n, m - 1);
    }
  }

  /** Converting a `uint32_t` to `int16_t` keeps the low 16 bits as a two's
      complement number (the conversion GCC defines for the ARM target). */
  function ToInt16(x: u32): (r: i16)
    ensures x < 0x8000 ==> r == x
    ensures (r - x) % U16_LIMIT == 0
  {
    var low := x % U16_LIMIT;
    if low >= 0x8000 then low - U16_LIMIT else low
  }

  /** Bit k of x (0 or 1). */
  function Bit(x: nat, k: nat): (b: nat)
    ensures b <= 1
  {
    if k == 0 then x % 2 else Bit(x / 2, k - 1)
  }

  /** No bit of 0 is set. */
  lemma {:induction false} BitOfZero(k: nat)
    ensures Bit(0, k) == 0
  {
    if k > 0 {
      BitOfZero(k - 1);
    }
  }

  /** 2^j has exactly bit j set. */
  lemma {:induction false} BitOfPow2(j: nat, k: nat)
    ensures Bit(Pow2(j), k) == (if j == k then 1 else 0)
  {
    if k == 0 {
    } else if j == 0 {
      BitOfZero(k - 1);
    } else {
      BitOfPow2(j - 1, k - 1);
    }
  }

  /** A result that may be NULL in C: `None` is NULL. */
  datatype Option<+T> = None | Some(value: T)

  datatype Result<+T, +E> = Ok(value: T) | Err(error: E)
}
