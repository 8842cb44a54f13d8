/** Machine integer widths, the Option/Result wrappers and the numeric
    conversions shared by the colour ramp and the temperature schedule. */
module Common {

  /** Rust's `u16`. */
  type u16 = x: int | 0 <= x < 0x1_0000

  /** Rust's `u32`. */
  type u32 = x: int | 0 <= x < 0x1_0000_0000

  const U16_MAX: u16 := 0xFFFF

  datatype Option<+T> = None | Some(value: T)

  datatype Result<+T, +E> = Success(value: T) | Failure(error: E)

  /** Rust's `x as u16` for an `f64` x, idealised over the reals: the cast
      truncates toward zero and saturates at both ends of the `u16` range. */
  function AsU16(x: real): (r: u16)
    ensures x <= 0.0 ==> r == 0
    ensures x >= U16_MAX as real ==> r == U16_MAX
    ensures 0.0 <= x < U16_MAX as real ==> r as real <= x < r as real + 1.0
  {
    if x <= 0.0 then 0
    else if x >= U16_MAX as real then U16_MAX
    else x.Floor
  }

  /** The cast never reverses the order of its arguments. */
  lemma AsU16Monotone(x: real, y: real)
    requires x <= y
    ensures AsU16(x) <= AsU16(y)
  {
  }

  /** A real that is already a `u16` value survives the cast unchanged. */
  lemma AsU16Exact(n: u16)
    ensures AsU16(n as real) == n
  {
  }

  /** `f64::clamp(0.0, 1.0)`, also the clamping that `vek`'s `lerp` applies
      to its interpolation factor. */
  function Clamp01(x: real): (r: real)
    ensures 0.0 <= r <= 1.0
    ensures 0.0 <= x <= 1.0 ==> r == x
    ensures x < 0.0 ==> r == 0.0
    ensures x > 1.0 ==> r == 1.0
  {
    if x < 0.0 then 0.0 else if x > 1.0 then 1.0 else x
  }

  /** `v` lies between `a` and `b`, whichever of the two is larger. */
  predicate Between(v: real, a: real, b: real) {
    (a <= b ==> a <= v <= b) && (b <= a ==> b <= v <= a)
  }

  lemma NonNegativeProduct(a: real, b: real)
    requires 0.0 <= a && 0.0 <= b
    ensures 0.0 <= a * b
  {
  }

  /** Scaling a difference by a factor in [0, 1] keeps it between 0 and itself. */
  lemma ScaledDifference(d: real, f: real)
    requires 0.0 <= f <= 1.0
    ensures 0.0 <= d ==> 0.0 <= d * f <= d
    ensures d <= 0.0 ==> d <= d * f <= 0.0
  {
    if 0.0 <= d {
      NonNegativeProduct(d, f);
      NonNegativeProduct(d, 1.0 - f);
      assert d * (1.0 - f) == d - d * f;
    } else {
      NonNegativeProduct(-d, f);
      NonNegativeProduct(-d, 1.0 - f);
      assert (-d) * (1.0 - f) == d * f - d;
      assert (-d) * f == -(d * f);
    }
  }
}
