/** Fixed-width integer types of the C, WebAssembly and Rust code, as
subsets of the unbounded integers, and the facts about division the
model needs. Wrap-around and sign conversions are written out where the
code performs them. */
module Ints {

  const U8_LIMIT: int := 0x100
  const U16_LIMIT: int := 0x1_0000
  const U32_LIMIT: int := 0x1_0000_0000
  const U64_LIMIT: int := 0x1_0000_0000_0000_0000
  const I32_LIMIT: int := 0x8000_0000
  const I64_LIMIT: int := 0x8000_0000_0000_0000
  /** `usize` on the 64-bit hosts the harness and the generator run on. */
  const USIZE_LIMIT: int := U64_LIMIT
  /** `isize::MAX`: no Rust `Vec` holds more elements than this. */
  const ISIZE_MAX: int := I64_LIMIT - 1

  type U8 = x: int | 0 <= x < U8_LIMIT
  type U16 = x: int | 0 <= x < U16_LIMIT
  type U32 = x: int | 0 <= x < U32_LIMIT
  type U64 = x: int | 0 <= x < U64_LIMIT
  type Usize = x: int | 0 <= x < USIZE_LIMIT
  type I32 = x: int | -I32_LIMIT <= x < I32_LIMIT
  type I64 = x: int | -I64_LIMIT <= x < I64_LIMIT

  /** `v as usize` for a signed 64-bit value on a 64-bit host: the same
      bits read as unsigned, so a negative value becomes 2^64 + v, beyond
      `isize::MAX`. */
  function I64AsUsize(v: I64): (r: Usize)
    ensures v >= 0 ==> r == v
    ensures v < 0 ==> r > ISIZE_MAX
    ensures r % USIZE_LIMIT == v % USIZE_LIMIT
  {
    if v >= 0 then v else USIZE_LIMIT + v
  }

  /** Division by a positive constant is determined by quotient and remainder. */
  lemma DivModOf(q: int, r: int, d: int)
    requires d > 0 && 0 <= r < d
    ensures (q * d + r) / d == q && (q * d + r) % d == r
  {
    var x := q * d + r;
    var q', r' := x / d, x % d;
    assert x == q' * d + r';
    if q' > q {
      assert (q' - q) * d == q' * d - q * d;
      MulAtLeast(q' - q, d);
    } else if q' < q {
      assert (q - q') * d == q * d - q' * d;
      MulAtLeast(q - q', d);
    }
  }

  lemma MulAtLeast(k: int, d: int)
    requires k >= 1 && d > 0
    ensures k * d >= d
  {
  }
}
