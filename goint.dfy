/** Go's fixed-width integer behaviour: int64/uint64 wrap-around and truncating division. */
module GoInt {

  const TwoTo63: int := 0x8000_0000_0000_0000
  const TwoTo64: int := 0x1_0000_0000_0000_0000
  const MaxInt64: int := TwoTo63 - 1
  const MinInt64: int := -TwoTo63
  const MaxUint64: int := TwoTo64 - 1

  predicate IsInt64(x: int) { MinInt64 <= x <= MaxInt64 }

  /** The values of Go's int64 and uint64 types. */
  type Int64 = x: int | MinInt64 <= x <= MaxInt64
  type Uint64 = x: int | 0 <= x < TwoTo64

  /** Two's-complement reinterpretation of an unbounded integer as an int64. */
  function WrapInt64(x: int): (r: int)
    ensures IsInt64(r)
    ensures (r - x) % TwoTo64 == 0
    ensures IsInt64(x) ==> r == x
  {
    (x + TwoTo63) % TwoTo64 - TwoTo63
  }

  /** Reduction modulo 2^64, the result of uint64 arithmetic. */
  function WrapUint64(x: int): (r: nat)
    ensures r < TwoTo64
    ensures (r - x) % TwoTo64 == 0
    ensures 0 <= x < TwoTo64 ==> r == x
  {
    x % TwoTo64
  }

  /** Two integers congruent modulo 2^64 wrap to the same int64. */
  lemma WrapInt64Congruent(x: int, y: int)
    requires (x - y) % TwoTo64 == 0
    ensures WrapInt64(x) == WrapInt64(y)
  {
    var k := (x - y) / TwoTo64;
    assert x == y + k * TwoTo64;
    assert (x + TwoTo63) % TwoTo64 == (y + TwoTo63 + k * TwoTo64) % TwoTo64;
    ModAddMultiple(y + TwoTo63, k);
  }

  lemma ModAddMultiple(a: int, k: int)
    ensures (a + k * TwoTo64) % TwoTo64 == a % TwoTo64
  {
  }

  /** Go's `/` on signed integers: the quotient is truncated toward zero. */
  function Quot(a: int, b: int): int
    requires b > 0
  {
    if a >= 0 then a / b else -((-a) / b)
  }
}
