/** The optional value that stands for Python's `None`. */
module Options {
  datatype Option<+T> = None | Some(value: T)

  /** Python's `max` on two integers. */
  function Max(a: int, b: int): (r: int)
    ensures r >= a && r >= b && (r == a || r == b)
  {
    if a >= b then a else b
  }
}
