/**
  The integer behaviour of the JavaScript operators and typed arrays that the
  ripple engine relies on. JavaScript numbers are modelled as exact integers.
  The sums, differences and products the engine forms are integers far below
  2^53, which double precision holds exactly. The one non-integer value, the
  quotient `(coord - half) * height / 1024` of the refraction, is only ever
  used through `<< 0`, which keeps its integer part (`TruncDiv`) and then
  applies ToInt32 (`Int32`).
 */
module JsNumbers {
  import Arith

  /** An element of a `Uint8ClampedArray` (one RGBA channel). */
  newtype byte = b: int | 0 <= b < 256

  const TwoTo16: int := 0x1_0000
  const TwoTo31: int := 0x8000_0000
  const TwoTo32: int := 0x1_0000_0000

  predicate IsInt16(v: int) {
    -0x8000 <= v < 0x8000
  }

  predicate IsInt32(v: int) {
    -TwoTo31 <= v < TwoTo31
  }

  /** The value an `Int16Array` element holds after `v` is stored into it (ToInt16). */
  function Int16(v: int): (r: int)
    ensures IsInt16(r)
    ensures (v - r) % TwoTo16 == 0
    ensures IsInt16(v) ==> r == v
  {
    (v + 0x8000) % TwoTo16 - 0x8000
  }

  /** ToInt32, applied by every JavaScript shift operator to its left operand. */
  function Int32(v: int): (r: int)
    ensures IsInt32(r)
    ensures (v - r) % TwoTo32 == 0
    ensures IsInt32(v) ==> r == v
  {
    (v + TwoTo31) % TwoTo32 - TwoTo31
  }

  function Pow2(k: nat): (r: nat)
    ensures r >= 1
  {
    if k == 0 then 1 else 2 * Pow2(k - 1)
  }

  /**
    `a >> k`: the arithmetic right shift of ToInt32(a). On an int32 operand it
    is division rounding toward negative infinity.
   */
  function Sar(a: int, k: nat): (r: int)
    requires k < 32
    ensures IsInt32(a) ==> r * Pow2(k) <= a < r * Pow2(k) + Pow2(k)
  {
    Arith.DivBracket(Int32(a), Pow2(k));
    Int32(a) / Pow2(k)
  }

  /**
    The integer part of the real quotient `a / d`, i.e. division rounding
    toward zero, which is what `(a / d) << 0` keeps before ToInt32.
   */
  function TruncDiv(a: int, d: nat): (r: int)
    requires d > 0
    ensures 0 <= a ==> 0 <= r && r * d <= a < r * d + d
    ensures a < 0 ==> r <= 0 && r * d - d < a <= r * d
  {
    if a >= 0 then a / d else -((-a) / d)
  }

  /** `a >> k` agrees with floor division on every int32 operand. */
  lemma SarIsFloorDivision(a: int, k: nat)
    requires k < 32 && IsInt32(a)
    ensures Sar(a, k) == a / Pow2(k)
  {
    FloorDivisionUnique(a, Pow2(k), Sar(a, k));
  }

  /** A quotient that brackets `a` between two consecutive multiples of `d` is `a / d`. */
  lemma FloorDivisionUnique(a: int, d: int, q: int)
    requires d > 0 && q * d <= a < q * d + d
    ensures q == a / d
  {
    var q' := a / d;
    assert (q - q') * d == q * d - q' * d;
    Arith.SmallMultipleIsZero(q - q', d);
  }
}
