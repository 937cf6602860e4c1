/** Signed 64-bit integers, which Go computes with wrap-around. */
module Int64 {
  const TWO_63 := 0x8000_0000_0000_0000

  /** A value an int64 can hold. */
  predicate Fits(n: int) {
    -TWO_63 <= n < TWO_63
  }

  function Wrap64(n: int): int {
    (n + TWO_63) % (2 * TWO_63) - TWO_63
  }

  /** The sum of a non-negative value and any other wraps only to a negative value. */
  lemma {:induction false} WrappedSum(a: int, b: int)
    requires 0 <= a < TWO_63 && Fits(b)
    ensures if a + b < TWO_63 then Wrap64(a + b) == a + b else Wrap64(a + b) < 0
  {
    if a + b >= TWO_63 {
      assert a + b + TWO_63 == 2 * TWO_63 + (a + b - TWO_63);
    }
  }
}
