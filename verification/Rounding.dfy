/** Python's `round` on the reals: to the nearest multiple, ties to the even one. */
module Rounding {
  function RoundInt(y: real): int {
    var f := y.Floor;
    var rest := y - f as real;
    if rest < 0.5 then f
    else if rest > 0.5 then f + 1
    else if f % 2 == 0 then f else f + 1
  }

  /** `round(x, d)` with `scale` the power of ten of `d`. */
  function Round(x: real, scale: int): real
    requires scale > 0
  {
    RoundInt(x * scale as real) as real / scale as real
  }

  function Distance(y: real, n: int): real {
    if y >= n as real then y - n as real else n as real - y
  }

  /** The nearest whole number, and of two equally near ones the even one. */
  lemma RoundIntNearest(y: real, n: int)
    ensures Distance(y, RoundInt(y)) <= Distance(y, n)
    ensures n != RoundInt(y) && Distance(y, n) == Distance(y, RoundInt(y)) ==> RoundInt(y) % 2 == 0
  {
  }

  lemma RoundIntMonotone(y: real, z: real)
    requires y <= z
    ensures RoundInt(y) <= RoundInt(z)
  {
    if y.Floor == z.Floor {
    } else {
      assert y.Floor < z.Floor;
    }
  }

  lemma RoundIntExact(n: int)
    ensures RoundInt(n as real) == n
  {
  }

  lemma ScaleMonotone(x: real, y: real, k: real)
    requires x <= y && k > 0.0
    ensures x * k <= y * k && x / k <= y / k
  {
    assert y * k - x * k == (y - x) * k;
    assert y / k - x / k == (y - x) / k;
  }

  lemma RoundAs(x: real, scale: int, p: real)
    requires scale > 0 && p == x * scale as real
    ensures Round(x, scale) == RoundInt(p) as real / scale as real
  {
    hide RoundInt;
  }

  /** Rounding keeps the order. */
  lemma RoundMonotone(x: real, y: real, scale: int)
    requires x <= y && scale > 0
    ensures Round(x, scale) <= Round(y, scale)
  {
    hide RoundInt, Round;
    var k := scale as real;
    var p, q := x * k, y * k;
    RoundAs(x, scale, p);
    RoundAs(y, scale, q);
    ScaleMonotone(x, y, k);
    RoundIntMonotone(p, q);
    ScaleMonotone(RoundInt(p) as real, RoundInt(q) as real, k);
  }

  lemma TimesAfterDivide(n: real, k: real)
    requires k > 0.0
    ensures n / k * k == n
  {
  }

  /** A multiple stays what it is, so rounding never crosses one. */
  lemma RoundExact(n: int, scale: int)
    requires scale > 0
    ensures Round(n as real / scale as real, scale) == n as real / scale as real
  {
    hide RoundInt, Round;
    TimesAfterDivide(n as real, scale as real);
    RoundAs(n as real / scale as real, scale, n as real);
    RoundIntExact(n);
  }
}
