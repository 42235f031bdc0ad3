/** Fixed-width integers of the limiter: saturating, wrapping and casting arithmetic. */
module I64 {

  const I64_MIN: int := -0x8000_0000_0000_0000
  const I64_MAX: int := 0x7FFF_FFFF_FFFF_FFFF
  const U32_COUNT: int := 0x1_0000_0000
  const U64_COUNT: int := 0x1_0000_0000_0000_0000

  type Int64 = x: int | -0x8000_0000_0000_0000 <= x <= 0x7FFF_FFFF_FFFF_FFFF
  type UInt32 = x: int | 0 <= x < 0x1_0000_0000
  type UInt64 = x: int | 0 <= x < 0x1_0000_0000_0000_0000

  function Max(a: int, b: int): int {
    if a < b then b else a
  }

  function Min(a: int, b: int): int {
    if a < b then a else b
  }

  function Clamp(x: int): Int64 {
    if x < I64_MIN then I64_MIN else if x > I64_MAX then I64_MAX else x
  }

  function SatAdd(a: Int64, b: Int64): Int64 { Clamp(a + b) }

  function SatSub(a: Int64, b: Int64): Int64 { Clamp(a - b) }

  function SatMul(a: Int64, b: Int64): Int64 { Clamp(a * b) }

  // Two's complement wrap-around, the behaviour of an atomic fetch_sub.
  function Wrap(x: int): Int64 {
    if I64_MIN <= x <= I64_MAX then x else (x - I64_MIN) % U64_COUNT + I64_MIN
  }

  // Division truncates towards zero.
  function TruncDiv(a: int, b: int): int
    requires b > 0
  {
    if a >= 0 then a / b else -((-a) / b)
  }

  // `as u32` and `as u64` keep the low bits.
  function AsU32(x: int): UInt32 { if 0 <= x < U32_COUNT then x else x % U32_COUNT }

  function AsU64(x: int): UInt64 { if 0 <= x < U64_COUNT then x else x % U64_COUNT }

  lemma MulMonotone(a: int, b: int, e: int)
    requires a <= b && 0 <= e
    ensures a * e <= b * e
  {
  }

  lemma MulCompare(a: int, b: int, e: int)
    requires 0 < e
    ensures a * e <= b * e <==> a <= b
  {
    if a <= b {
      MulMonotone(a, b, e);
    } else {
      MulMonotone(b + 1, a, e);
    }
  }

  lemma OneMoreSpan(n: int, e: int)
    ensures (n + 1) * e == n * e + e
  {
  }

  // Dividing by e is the largest multiple that fits.
  lemma DivFits(x: int, e: int, k: int)
    requires 0 < e
    ensures k * e <= x <==> k <= x / e
  {
    var q := x / e;
    assert q * e <= x < (q + 1) * e;
    if k <= q {
      MulMonotone(k, q, e);
    } else {
      MulMonotone(q + 1, k, e);
    }
  }

  // A part of b whole spans holds at most b of them.
  lemma DivBounded(x: int, e: int, b: int)
    requires 0 < e && 0 <= x <= b * e
    ensures 0 <= x / e <= b
  {
    var q := x / e;
    assert q * e <= x;
    MulCompare(q, b, e);
    DivFits(x, e, 0);
  }
}
