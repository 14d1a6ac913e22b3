/** The optional value and the arithmetic helpers every other module uses. */
module Options {

  /** A value that may be missing: Python's `None`, or an absent Redis key. */
  datatype Option<+T> = None | Some(value: T)

  function MaxInt(a: int, b: int): int {
    if a < b then b else a
  }

  function MaxReal(a: real, b: real): real {
    if a < b then b else a
  }

  function MinReal(a: real, b: real): real {
    if b < a then b else a
  }

  /** Scaling by a non-negative factor keeps an inequality. */
  lemma Scale(a: real, b: real, r: real)
    requires a <= b && 0.0 <= r
    ensures a * r <= b * r
  {
    assert (b - a) * r >= 0.0;
  }

  /** Scaling by a positive factor keeps an inequality in both directions. */
  lemma ScaleIff(a: real, b: real, r: real)
    requires 0.0 < r
    ensures a <= b <==> a * r <= b * r
  {
    if a <= b {
      Scale(a, b, r);
    } else {
      assert (a - b) * r > 0.0;
    }
  }
}
