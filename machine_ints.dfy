/** Go's fixed-width signed integers, as far as the coordinator uses them. */
module MachineInts {

  const TwoTo63: int := 0x8000_0000_0000_0000
  const TwoTo64: int := 0x1_0000_0000_0000_0000

  newtype int32 = x: int | -0x8000_0000 <= x < 0x8000_0000
  newtype int64 = x: int | -0x8000_0000_0000_0000 <= x < 0x8000_0000_0000_0000

  /** True when a - b is representable as an int64, that is, when Go's subtraction does not overflow. */
  predicate NoOverflowSub(a: int64, b: int64)
  {
    -TwoTo63 <= a as int - b as int < TwoTo63
  }

  /** Go's `a - b` on int64 operands: two's-complement wrap-around on overflow. */
  function Sub64(a: int64, b: int64): (d: int64)
    ensures NoOverflowSub(a, b) ==> d as int == a as int - b as int
    ensures !NoOverflowSub(a, b) ==> d as int == a as int - b as int + TwoTo64 || d as int == a as int - b as int - TwoTo64
    ensures a as int > b as int && !NoOverflowSub(a, b) ==> d < 0
  {
    var diff := a as int - b as int;
    if diff < -TwoTo63 then (diff + TwoTo64) as int64
    else if diff >= TwoTo63 then (diff - TwoTo64) as int64
    else diff as int64
  }
}
