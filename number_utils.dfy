/** `isInRange`: whether a number lies between the two ends of a range given
    in either order. Numbers are modelled as exact reals. */
module NumberUtils {

  function Abs(x: real): (r: real) { if x < 0.0 then -x else x }

  function Min(x: real, y: real): (r: real) { if x <= y then x else y }

  function Max(x: real, y: real): (r: real) { if x <= y then y else x }

  /** `isInRange([x, y], n, isInclusive)`, computed as the source does: the
      width of the range against the offset of `n` from its lower end. An
      absent `isInclusive` is the exclusive mode (`false`). */
  function IsInRange(range: (real, real), n: real, isInclusive: bool): (r: bool)
    ensures isInclusive ==> (r <==> Min(range.0, range.1) <= n <= Max(range.0, range.1))
    ensures !isInclusive ==> (r <==> Min(range.0, range.1) < n < Max(range.0, range.1))
  {
    var (x, y) := range;
    var total := Abs(x - y);
    var m := n - Min(x, y);
    if isInclusive then total >= m && m >= 0.0 else total > m && m > 0.0
  }

  /** The two ends of the range may be given in either order. */
  lemma EndpointOrderIrrelevant(x: real, y: real, n: real, isInclusive: bool)
    ensures IsInRange((x, y), n, isInclusive) == IsInRange((y, x), n, isInclusive)
  {
  }

  /** A number strictly inside the range is also inside the closed range. */
  lemma ExclusiveImpliesInclusive(range: (real, real), n: real)
    requires IsInRange(range, n, false)
    ensures IsInRange(range, n, true)
  {
  }

  /** The ends of the range count as in range only in inclusive mode. */
  lemma EndpointsOnlyInclusive(x: real, y: real)
    ensures IsInRange((x, y), x, true) && IsInRange((x, y), y, true)
    ensures !IsInRange((x, y), x, false) && !IsInRange((x, y), y, false)
  {
  }

  /** A range with equal ends contains nothing exclusively, and only its one
      point inclusively. */
  lemma DegenerateRange(x: real, n: real)
    ensures !IsInRange((x, x), n, false)
    ensures IsInRange((x, x), n, true) <==> n == x
  {
  }
}
