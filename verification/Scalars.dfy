/**
 Products of reals with the laws that the linear algebra rests on.  Proofs
 elsewhere hide the definition of `Mul` and use only these laws.
 */
module Scalars {
  function Mul(a: real, b: real): real {
    a * b
  }

  lemma MulCommutes(a: real, b: real)
    ensures Mul(a, b) == Mul(b, a)
  {
  }

  lemma MulAdd(a: real, b: real, c: real)
    ensures Mul(a + b, c) == Mul(a, c) + Mul(b, c)
    ensures Mul(c, a + b) == Mul(c, a) + Mul(c, b)
  {
  }

  lemma MulAssociates(a: real, b: real, c: real)
    ensures Mul(Mul(a, b), c) == Mul(a, Mul(b, c))
  {
  }

  lemma MulUnit(a: real)
    ensures Mul(1.0, a) == a && Mul(0.0, a) == 0.0 && Mul(a, 0.0) == 0.0 && Mul(-1.0, a) == -a
  {
  }

  lemma MulMinus(a: real, b: real)
    ensures Mul(-a, b) == -Mul(a, b) && Mul(a, -b) == -Mul(a, b)
  {
  }

  lemma MulSign(a: real, b: real)
    ensures a > 0.0 && b > 0.0 ==> Mul(a, b) > 0.0
    ensures a >= 0.0 && b >= 0.0 ==> Mul(a, b) >= 0.0
  {
  }

  lemma MulSquare(a: real)
    ensures Mul(a, a) >= 0.0
    ensures a != 0.0 ==> Mul(a, a) > 0.0
  {
    hide Mul;
    MulSign(a, a);
    MulSign(-a, -a);
    MulMinus(a, -a);
    MulMinus(a, a);
  }

  /** The share `c = a / (1 + p)`, told without a division. */
  ghost predicate Share(c: real, a: real, p: real) {
    c + Mul(c, p) == a
  }

  ghost function ShareOf(a: real, p: real): (c: real)
    requires p >= 0.0
    ensures Share(c, a, p)
  {
    var q := 1.0 + p;
    var c := a / q;
    assert c * q == a;
    MulAdd(1.0, p, c);
    c
  }

  /** `c a` is `c² + c² p`, so never negative. */
  lemma ShareSign(c: real, a: real, p: real)
    requires p >= 0.0 && Share(c, a, p)
    ensures Mul(c, a) >= 0.0
  {
    hide Mul;
    MulAdd(c, Mul(c, p), c);
    MulAssociates(c, c, p);
    MulSquare(c);
    MulSign(Mul(c, c), p);
  }

  lemma DifferenceSquared(r: real, d: real)
    ensures Mul(r - d, r - d) == Mul(r, r) - Mul(2.0, Mul(r, d)) + Mul(d, d)
  {
  }

  /** A width that is at least `k` times its square is at most `1/k`. */
  lemma AtMostOne(k: real, w: real)
    requires k >= 0.0 && w >= Mul(k, Mul(w, w))
    ensures Mul(k, w) <= 1.0
  {
    hide Mul;
    MulSquare(w);
    MulSign(k, Mul(w, w));
    if w == 0.0 {
      MulUnit(k);
    } else {
      MulAssociates(k, w, w);
      MulSign(Mul(k, w) - 1.0, w);
      MulAdd(Mul(k, w), -1.0, w);
      MulUnit(w);
    }
  }
}
