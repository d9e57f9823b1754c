/** Go's `int` on a 64-bit target: the range of values the z-buffer and the
    parsed face indices live in, and the wrap-around of its arithmetic. */
module MachineInt {

  const MinInt: int := -0x8000_0000_0000_0000
  const MaxInt: int := 0x7fff_ffff_ffff_ffff
  const MaxUint: int := 0xffff_ffff_ffff_ffff
  const Modulus: int := 0x1_0000_0000_0000_0000

  type Int64 = v: int | MinInt <= v <= MaxInt

  /** Two's-complement reduction of an unbounded integer into the 64-bit range. */
  function Wrap(v: int): (r: Int64)
    ensures MinInt <= v <= MaxInt ==> r == v
    ensures (r - v) % Modulus == 0
  {
    (v - MinInt) % Modulus + MinInt
  }

  /** `v - 1` evaluated in Go's `int`: the least value wraps to the greatest. */
  function Pred(v: Int64): (r: Int64)
    ensures v > MinInt ==> r == v - 1
    ensures v == MinInt ==> r == MaxInt
  {
    Wrap(v - 1)
  }
}
