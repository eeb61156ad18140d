/** Numbers, as several modules use them. */
module Numbers {
  /** `Math.min`. */
  function Min(a: int, b: int): (m: int)
    ensures m <= a && m <= b && (m == a || m == b)
  {
    if a < b then a else b
  }
}
