/** Rust's `Option`, and the extended upper bound used for ray windows. */
module Optional {

  /** `Option<T>` as in the source: either nothing or one value. */
  datatype Option<+T> = None | Some(value: T)

  /** An upper bound of a parametric window: a real number, or `f32::INFINITY`. */
  datatype Bound = Finite(value: real) | Infinite

  /** `x > b` for an extended bound (nothing exceeds infinity). */
  predicate Exceeds(x: real, b: Bound) {
    b.Finite? && x > b.value
  }

  /** `b < x` for an extended bound (infinity is below nothing). */
  predicate BoundBelow(b: Bound, x: real) {
    b.Finite? && b.value < x
  }

  /** `a <= b` on extended bounds. */
  predicate BoundLe(a: Bound, b: Bound) {
    b.Infinite? || (a.Finite? && a.value <= b.value)
  }

  /** The smaller of a bound and a real: `if x < b { x } else { b }`. */
  function Tighten(b: Bound, x: real): (r: Bound)
    ensures r.Finite?
    ensures BoundLe(r, b) && r.value <= x
    ensures r.value == x || r == b
  {
    if !b.Finite? || x < b.value then Finite(x) else b
  }

  /** The smaller of two extended bounds. */
  function Meet(a: Bound, b: Bound): (r: Bound)
    ensures BoundLe(r, a) && BoundLe(r, b)
    ensures r == a || r == b
  {
    if a.Infinite? then b
    else if b.Infinite? then a
    else if b.value < a.value then b
    else a
  }
}
