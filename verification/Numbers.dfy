/** Smaller and larger of two numbers, and arithmetic that stops at the ends of its range. */
module Numbers {
  const USIZE_MAX: nat := 0xFFFF_FFFF_FFFF_FFFF

  function Min(a: nat, b: nat): nat {
    if a <= b then a else b
  }

  function Max(a: nat, b: nat): nat {
    if a >= b then a else b
  }

  /** `saturating_add` on integers from `low` to `high`. */
  function SaturatingAdd(a: int, b: int, low: int, high: int): (r: int)
    requires low <= high
    ensures low <= r <= high
  {
    if a + b > high then high else if a + b < low then low else a + b
  }

  /** `saturating_sub` on unsigned integers. */
  function SaturatingSub(a: nat, b: nat): nat {
    if a >= b then a - b else 0
  }
}
