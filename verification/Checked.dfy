/** Overflow-safe arithmetic on machine integers. */
module Checked {
  import opened Options

  const SIZE_MAX: nat := 0xFFFF_FFFF_FFFF_FFFF
  const INT64_MAX: nat := 0x7FFF_FFFF_FFFF_FFFF

  type int64 = x: int | -0x8000_0000_0000_0000 <= x <= 0x7FFF_FFFF_FFFF_FFFF

  /** The sum, or nothing when it does not fit in a size. */
  function CheckedAdd(left: nat, right: nat): (sum: Option<nat>)
    requires left <= SIZE_MAX
    ensures sum.Some? <==> left + right <= SIZE_MAX
    ensures sum.Some? ==> sum.value == left + right
  {
    if right > SIZE_MAX - left then None else Some(left + right)
  }

  /** The sum, or the largest size when it does not fit. */
  function SaturatingAdd(left: nat, right: nat): (sum: nat)
    requires left <= SIZE_MAX
    ensures sum <= SIZE_MAX
    ensures sum == if left + right <= SIZE_MAX then left + right else SIZE_MAX
  {
    match CheckedAdd(left, right)
    case Some(value) => value
    case None => SIZE_MAX
  }

  /** Whether the unbounded sum is over the limit: overflow never hides an excess. */
  predicate AdditionExceeds(left: nat, right: nat, limit: nat)
    requires left <= SIZE_MAX && limit <= SIZE_MAX
    ensures AdditionExceeds(left, right, limit) <==> left + right > limit
  {
    match CheckedAdd(left, right)
    case Some(value) => value > limit
    case None => true
  }

  /** A reported count is never below nothing. */
  function Nonnegative(value: int64): (n: int64)
    ensures n >= 0 && n >= value && (n == value || n == 0)
  {
    if value > 0 then value else 0
  }

  /** The sum of what is not negative, or the largest count when it does not fit. */
  function SaturatingNonnegativeAdd(left: int64, right: int64): (sum: int64)
    ensures sum >= 0
    ensures var exact := (if left < 0 then 0 else left) + (if right < 0 then 0 else right);
            sum == if exact <= INT64_MAX then exact else INT64_MAX
  {
    var l, r := Nonnegative(left), Nonnegative(right);
    if r > INT64_MAX - l then INT64_MAX else l + r
  }

  /** Saturated addition of counters does not depend on grouping or order, and zero is neutral
      to whatever an addition can return. */
  lemma SaturatingAddIsMonoid(a: int64, b: int64, c: int64)
    ensures SaturatingNonnegativeAdd(a, b) == SaturatingNonnegativeAdd(b, a)
    ensures SaturatingNonnegativeAdd(SaturatingNonnegativeAdd(a, b), c)
         == SaturatingNonnegativeAdd(a, SaturatingNonnegativeAdd(b, c))
    ensures SaturatingNonnegativeAdd(0, SaturatingNonnegativeAdd(a, b)) == SaturatingNonnegativeAdd(a, b)
  {
  }
}
