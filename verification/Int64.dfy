/** Go's 64-bit integers, and the casts between the signed and the unsigned ones. */
module Int64 {

  const TWO_TO_THE_63: int := 0x8000_0000_0000_0000
  const TWO_TO_THE_64: int := 0x1_0000_0000_0000_0000

  predicate IsInt64(x: int) { -TWO_TO_THE_63 <= x < TWO_TO_THE_63 }

  /** The cast to uint64, which keeps the bit pattern. */
  function ToUint64(x: int): (u: nat)
    requires IsInt64(x)
    ensures u < TWO_TO_THE_64 && (u - x) % TWO_TO_THE_64 == 0
  {
    if x < 0 then x + TWO_TO_THE_64 else x
  }

  function ToInt64(u: nat): (x: int)
    requires u < TWO_TO_THE_64
    ensures IsInt64(x)
  {
    if u >= TWO_TO_THE_63 then u - TWO_TO_THE_64 else u
  }

  /** The result of int64 arithmetic whose exact result is `x`. */
  function Wrap(x: int): int {
    (x + TWO_TO_THE_63) % TWO_TO_THE_64 - TWO_TO_THE_63
  }
}
