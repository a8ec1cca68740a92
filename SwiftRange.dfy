/** Swift's half-open `Range` over timestamps, as far as the core uses it. */
module SwiftRange {

  datatype Bounds = Bounds(lower: real, upper: real)

  /** `lower ..< upper`. Swift traps when forming a range whose upper bound is
      below its lower bound, so only ordered bounds make a `Range`. */
  type Range = b: Bounds | b.lower <= b.upper witness Bounds(0.0, 0.0)

  /** `Range.contains`: the lower bound is in, the upper bound is out. */
  predicate RangeContains(r: Range, x: real) {
    r.lower <= x < r.upper
  }
}
