// Signed 64-bit integers, which wrap around.
module Int64 {

  const TWO_63: int := 0x8000_0000_0000_0000
  const TWO_64: int := 0x1_0000_0000_0000_0000

  const MIN_INT64: int := -TWO_63
  const MAX_INT64: int := TWO_63 - 1

  /** The signed 64-bit value of an integer. */
  function Wrap64(x: int): int {
    (x + TWO_63) % TWO_64 - TWO_63
  }

  /** Wrapping at every addition is wrapping once at the end. */
  lemma WrapsOnce(x: int, y: int)
    ensures Wrap64(Wrap64(x) + y) == Wrap64(x + y)
  {
    var q := (x + TWO_63) / TWO_64;
    assert Wrap64(x) == x - TWO_64 * q;
    assert (x + y + TWO_63 - TWO_64 * q) % TWO_64 == (x + y + TWO_63) % TWO_64;
  }
}
