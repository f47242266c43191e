/** Whole numbers and the bytes that carry them. */
module Bytes {

  /** The range of a `uint16_t`, the type of the layout's sizes and offsets. */
  const U16: nat := 0x1_0000

  /** The byte holding a number below 256, counted up from zero. The count
      stands in for the cast `x as bv8`: the solver handles an addition of
      bytes readily, but a conversion from an unbounded integer to a
      bit-vector made the proofs about the header's bytes unstable. */
  function ToByte(x: nat): (b: bv8)
    requires x < 256
    ensures b as int == x
  {
    if x == 0 then 0 else ToByte(x - 1) + 1
  }

  /** The high and low digits base 256 of a number's low 16 bits. */
  lemma BigEndianDigits(v: nat)
    ensures ((v / 256) % 256) * 256 + v % 256 == v % U16
  {
    var q := v / 256;
    assert v == q * 256 + v % 256;
    assert q == (q / 256) * 256 + q % 256;
    assert v == (q / 256) * U16 + (q % 256) * 256 + v % 256;
  }
}
