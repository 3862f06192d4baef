/**
 Ridge regression over a history of samples: the matrix `I + Σ x xᵀ`, the
 vector `Σ r x`, the weights that solve `A w = b`, and the confidence width
 `xᵀ A⁻¹ x`.
 */
module Ridge {
  import opened Scalars
  import opened Vectors

  datatype Sample = Sample(x: Vector, r: real)

  ghost predicate Fits(h: seq<Sample>, n: nat) {
    forall s | s in h :: |s.x| == n
  }

  /** `I + Σ x xᵀ`, built up one sample at a time. */
  ghost function Design(n: nat, h: seq<Sample>): (m: Matrix)
    requires Fits(h, n)
    ensures IsSquare(m, n)
  {
    if h == [] then Identity(n)
    else AddOuter(Design(n, h[..|h| - 1]), h[|h| - 1].x)
  }

  /** `Σ r x`. */
  ghost function Response(n: nat, h: seq<Sample>): (v: Vector)
    requires Fits(h, n)
    ensures |v| == n
  {
    if h == [] then Zeros(n)
    else Add(Response(n, h[..|h| - 1]), Scale(h[|h| - 1].r, h[|h| - 1].x))
  }

  lemma DesignVec(n: nat, h: seq<Sample>, v: Vector)
    requires Fits(h, n) && |v| == n && h != []
    ensures var x := h[|h| - 1].x;
      MatVec(Design(n, h), v) == Add(MatVec(Design(n, h[..|h| - 1]), v), Scale(Dot(x, v), x))
  {
    AddOuterVec(Design(n, h[..|h| - 1]), h[|h| - 1].x, v);
  }

  /** `Σ (x·u)(x·v)`. */
  ghost function Cross(h: seq<Sample>, u: Vector, v: Vector): real
    requires Fits(h, |u|) && |u| == |v|
  {
    if h == [] then 0.0
    else var x := h[|h| - 1].x; Cross(h[..|h| - 1], u, v) + Mul(Dot(x, u), Dot(x, v))
  }

  /** The bilinear form of the design matrix: `uᵀ A v = u·v + Σ (x·u)(x·v)`. */
  lemma {:induction false} DesignForm(n: nat, h: seq<Sample>, u: Vector, v: Vector)
    requires Fits(h, n) && |u| == |v| == n
    ensures Dot(u, MatVec(Design(n, h), v)) == Dot(u, v) + Cross(h, u, v)
  {
    if h == [] {
      IdentityVec(v);
    } else {
      var x := h[|h| - 1].x;
      var before := MatVec(Design(n, h[..|h| - 1]), v);
      DesignForm(n, h[..|h| - 1], u, v);
      DesignVec(n, h, v);
      hide Mul, Dot, Design;
      DotAddRight(u, before, Scale(Dot(x, v), x));
      DotScaleRight(u, Dot(x, v), x);
      DotCommutes(u, x);
      MulCommutes(Dot(x, v), Dot(x, u));
    }
  }

  lemma {:induction false} CrossCommutes(h: seq<Sample>, u: Vector, v: Vector)
    requires Fits(h, |u|) && |u| == |v|
    ensures Cross(h, u, v) == Cross(h, v, u)
  {
    if h != [] {
      CrossCommutes(h[..|h| - 1], u, v);
      var x := h[|h| - 1].x;
      MulCommutes(Dot(x, u), Dot(x, v));
    }
  }

  lemma {:induction false} CrossSelf(h: seq<Sample>, v: Vector)
    requires Fits(h, |v|)
    ensures Cross(h, v, v) >= 0.0
  {
    if h != [] {
      CrossSelf(h[..|h| - 1], v);
      MulSquare(Dot(h[|h| - 1].x, v));
    }
  }

  /** The design matrix is symmetric, as a form and entry by entry. */
  lemma DesignSymmetric(n: nat, h: seq<Sample>, u: Vector, v: Vector)
    requires Fits(h, n) && |u| == |v| == n
    ensures Dot(u, MatVec(Design(n, h), v)) == Dot(v, MatVec(Design(n, h), u))
  {
    DesignForm(n, h, u, v);
    DesignForm(n, h, v, u);
    CrossCommutes(h, u, v);
    DotCommutes(u, v);
  }

  lemma {:induction false} DesignEntriesSymmetric(n: nat, h: seq<Sample>, i: nat, j: nat)
    requires Fits(h, n) && i < n && j < n
    ensures Design(n, h)[i][j] == Design(n, h)[j][i]
  {
    if h != [] {
      var before, x := Design(n, h[..|h| - 1]), h[|h| - 1].x;
      DesignEntriesSymmetric(n, h[..|h| - 1], i, j);
      AddOuterAt(before, x, i, j);
      AddOuterAt(before, x, j, i);
      MulCommutes(x[i], x[j]);
    }
  }

  /** It is positive definite: `vᵀ A v` is at least `|v|²`, and so zero only for the zero vector. */
  lemma DesignPositive(n: nat, h: seq<Sample>, v: Vector)
    requires Fits(h, n) && |v| == n
    ensures Dot(v, MatVec(Design(n, h), v)) >= Dot(v, v) >= 0.0
    ensures v != Zeros(n) ==> Dot(v, MatVec(Design(n, h), v)) > 0.0
  {
    DesignForm(n, h, v, v);
    CrossSelf(h, v);
    DotSelf(v);
  }

  function Minus(u: Vector, v: Vector): Vector
    requires |u| == |v|
  {
    Add(u, Scale(-1.0, v))
  }

  lemma MinusIsZero(u: Vector, v: Vector)
    requires |u| == |v| && Minus(u, v) == Zeros(|u|)
    ensures u == v
  {
    forall i | 0 <= i < |u| ensures u[i] == v[i] {
      assert Minus(u, v)[i] == 0.0;
    }
  }

  /** A linear system with the design matrix has at most one solution. */
  lemma SolutionUnique(n: nat, h: seq<Sample>, y: Vector, z: Vector)
    requires Fits(h, n) && |y| == |z| == n
    requires MatVec(Design(n, h), y) == MatVec(Design(n, h), z)
    ensures y == z
  {
    var m, d := Design(n, h), Minus(y, z);
    var w := MatVec(m, y);
    MatVecAdd(m, y, Scale(-1.0, z));
    MatVecScale(m, -1.0, z);
    assert MatVec(m, d) == Add(w, Scale(-1.0, w));
    DotAddRight(d, w, Scale(-1.0, w));
    DotScaleRight(d, -1.0, w);
    DesignPositive(n, h, d);
    MinusIsZero(y, z);
  }

  lemma WidthNonNegative(n: nat, h: seq<Sample>, x: Vector, u: Vector)
    requires Fits(h, n) && |x| == |u| == n && MatVec(Design(n, h), u) == x
    ensures Dot(x, u) >= Dot(u, u) >= 0.0
  {
    DesignPositive(n, h, u);
    DotCommutes(u, x);
  }

  /** From the solutions for `m` to the one for `m + x xᵀ`. */
  lemma ShermanMorrison(m: Matrix, x: Vector, v: Vector, z: Vector, u: Vector, c: real)
    requires |x| == |v| == |z| == |u| && IsSquare(m, |x|)
    requires MatVec(m, z) == v && MatVec(m, u) == x
    requires Share(c, Dot(x, z), Dot(x, u))
    ensures MatVec(AddOuter(m, x), Add(z, Scale(-c, u))) == v
  {
    hide Mul, Dot, MatVec, Add, Scale, Share, IsSquare, AddOuter;
    var y := Add(z, Scale(-c, u));
    AddOuterVec(m, x, y);
    MatVecAdd(m, z, Scale(-c, u));
    MatVecScale(m, -c, u);
    ShareLeft(x, z, u, c);
    TakeAndGiveBack(v, x, c);
  }

  lemma ShareLeft(x: Vector, z: Vector, u: Vector, c: real)
    requires |x| == |z| == |u| && Share(c, Dot(x, z), Dot(x, u))
    ensures Dot(x, Add(z, Scale(-c, u))) == c
  {
    hide Mul, Dot, Add, Scale;
    DotAddRight(x, z, Scale(-c, u));
    DotScaleRight(x, -c, u);
    MulMinus(c, Dot(x, u));
  }

  lemma TakeAndGiveBack(v: Vector, x: Vector, c: real)
    requires |v| == |x|
    ensures Add(Add(v, Scale(-c, x)), Scale(c, x)) == v
  {
    forall i | 0 <= i < |v| ensures Add(Add(v, Scale(-c, x)), Scale(c, x))[i] == v[i] {
      MulMinus(c, x[i]);
    }
  }

  /**
   The solution of `A y = v`, by taking the samples in one at a time
   (the Sherman-Morrison formula).
   */
  ghost function Solve(n: nat, h: seq<Sample>, v: Vector): (y: Vector)
    requires Fits(h, n) && |v| == n
    ensures |y| == n && MatVec(Design(n, h), y) == v
    decreases |h|
  {
    if h == [] then
      IdentityVec(v);
      v
    else
      var before, x := h[..|h| - 1], h[|h| - 1].x;
      var z, u := Solve(n, before, v), Solve(n, before, x);
      WidthNonNegative(n, before, x, u);
      var c := ShareOf(Dot(x, z), Dot(x, u));
      ShermanMorrison(Design(n, before), x, v, z, u, c);
      Add(z, Scale(-c, u))
  }

  /** `A y = v` has exactly one solution, so `numpy.linalg.solve` and `inv` are well defined on `A`. */
  lemma SolvesIff(n: nat, h: seq<Sample>, v: Vector, y: Vector)
    requires Fits(h, n) && |v| == |y| == n
    ensures MatVec(Design(n, h), y) == v <==> y == Solve(n, h, v)
  {
    if MatVec(Design(n, h), y) == v {
      SolutionUnique(n, h, y, Solve(n, h, v));
    }
  }

  /** The ridge weights of a history. */
  ghost function Theta(n: nat, h: seq<Sample>): (y: Vector)
    requires Fits(h, n)
    ensures |y| == n
  {
    Solve(n, h, Response(n, h))
  }

  /** The penalised squared error `|w|² + Σ (r - w·x)²`. */
  ghost function Loss(h: seq<Sample>, w: Vector): real
    requires Fits(h, |w|)
  {
    if h == [] then Dot(w, w)
    else
      var e := h[|h| - 1].r - Dot(w, h[|h| - 1].x);
      Loss(h[..|h| - 1], w) + Mul(e, e)
  }

  ghost function RewardSquares(h: seq<Sample>): real {
    if h == [] then 0.0 else RewardSquares(h[..|h| - 1]) + Mul(h[|h| - 1].r, h[|h| - 1].r)
  }

  lemma {:induction false} LossExpands(n: nat, h: seq<Sample>, w: Vector)
    requires Fits(h, n) && |w| == n
    ensures Loss(h, w) == Dot(w, w) + Cross(h, w, w) - Mul(2.0, Dot(Response(n, h), w)) + RewardSquares(h)
  {
    if h == [] {
      DotZeros(n, w);
    } else {
      var before, x, r := h[..|h| - 1], h[|h| - 1].x, h[|h| - 1].r;
      LossExpands(n, before, w);
      DotCommutes(w, x);
      DifferenceSquared(r, Dot(w, x));
      DotAdd(Response(n, before), Scale(r, x), w);
      DotScale(r, x, w);
    }
  }

  /** How much worse any weights are than the ridge weights: the form of their difference. */
  lemma LossAboveTheta(n: nat, h: seq<Sample>, w: Vector)
    requires Fits(h, n) && |w| == n
    ensures var d := Minus(w, Theta(n, h));
      Loss(h, w) == Loss(h, Theta(n, h)) + Dot(d, MatVec(Design(n, h), d))
  {
    var m, t, b := Design(n, h), Theta(n, h), Response(n, h);
    var d := Minus(w, t);
    LossExpands(n, h, w);
    LossExpands(n, h, t);
    DesignForm(n, h, w, w);
    DesignForm(n, h, t, t);
    DesignSymmetric(n, h, w, t);
    assert Dot(b, w) == Dot(w, MatVec(m, t)) by { DotCommutes(b, w); }
    assert Dot(b, t) == Dot(t, MatVec(m, t)) by { DotCommutes(b, t); }
    FormOfDifference(m, w, t);
  }

  lemma FormOfDifference(m: Matrix, w: Vector, t: Vector)
    requires |w| == |t| && IsSquare(m, |w|)
    ensures var d := Minus(w, t);
      Dot(d, MatVec(m, d)) == Dot(w, MatVec(m, w)) - Dot(w, MatVec(m, t)) - Dot(t, MatVec(m, w)) + Dot(t, MatVec(m, t))
  {
    var nt := Scale(-1.0, t);
    var d, mw, mt := Add(w, nt), MatVec(m, w), MatVec(m, t);
    MatVecAdd(m, w, nt);
    MatVecScale(m, -1.0, t);
    var r := Add(mw, Scale(-1.0, mt));
    DotAdd(w, nt, r);
    DotScale(-1.0, t, r);
    DotAddRight(w, mw, Scale(-1.0, mt));
    DotScaleRight(w, -1.0, mt);
    DotAddRight(t, mw, Scale(-1.0, mt));
    DotScaleRight(t, -1.0, mt);
  }

  /** The ridge weights minimise the penalised squared error, and nothing else does. */
  lemma ThetaMinimises(n: nat, h: seq<Sample>, w: Vector)
    requires Fits(h, n) && |w| == n
    ensures Loss(h, Theta(n, h)) <= Loss(h, w)
    ensures Loss(h, Theta(n, h)) == Loss(h, w) <==> w == Theta(n, h)
  {
    LossAboveTheta(n, h, w);
    var d := Minus(w, Theta(n, h));
    DesignPositive(n, h, d);
    if Dot(d, MatVec(Design(n, h), d)) == 0.0 {
      MinusIsZero(w, Theta(n, h));
    }
  }

  /** The squared confidence width `xᵀ A⁻¹ x`. */
  ghost function Width(n: nat, h: seq<Sample>, x: Vector): real
    requires Fits(h, n) && |x| == n
  {
    Dot(x, Solve(n, h, x))
  }

  /** A further sample never widens the confidence of any context. */
  lemma WidthShrinks(n: nat, h: seq<Sample>, s: Sample, x: Vector)
    requires Fits(h, n) && |s.x| == |x| == n
    ensures Fits(h + [s], n)
    ensures 0.0 <= Width(n, h + [s], x) <= Width(n, h, x)
  {
    hide Mul, Dot, Design, MatVec, Add, Scale, Share;
    var h', z := h + [s], s.x;
    assert h'[..|h'| - 1] == h;
    var u, t := Solve(n, h, x), Solve(n, h, z);
    WidthNonNegative(n, h, z, t);
    WidthNonNegative(n, h', x, Solve(n, h', x));
    var c := ShareOf(Dot(z, u), Dot(z, t));
    assert Solve(n, h', x) == Add(u, Scale(-c, t));
    WidthShrinksBy(n, h, x, z, u, t, c);
  }

  lemma WidthShrinksBy(n: nat, h: seq<Sample>, x: Vector, z: Vector, u: Vector, t: Vector, c: real)
    requires Fits(h, n) && |x| == |z| == |u| == |t| == n
    requires MatVec(Design(n, h), u) == x && MatVec(Design(n, h), t) == z
    requires Dot(z, t) >= 0.0 && Share(c, Dot(z, u), Dot(z, t))
    ensures Dot(x, Add(u, Scale(-c, t))) <= Dot(x, u)
  {
    DesignSymmetric(n, h, u, t);
    hide Mul, Dot, Design, MatVec, Add, Scale, Share;
    DotAddRight(x, u, Scale(-c, t));
    DotScaleRight(x, -c, t);
    DotCommutes(t, x);
    DotCommutes(u, z);
    ShareSign(c, Dot(z, u), Dot(z, t));
    MulMinus(c, Dot(x, t));
  }

  /** How many samples of the history have context `x`. */
  ghost function Times(h: seq<Sample>, x: Vector): nat {
    if h == [] then 0 else Times(h[..|h| - 1], x) + if h[|h| - 1].x == x then 1 else 0
  }

  /** The positions of the history at which the context is `x`. */
  ghost function PositionsOf(h: seq<Sample>, x: Vector): set<int> {
    set i | 0 <= i < |h| && h[i].x == x
  }

  lemma PositionsOfOneMore(h: seq<Sample>, x: Vector)
    requires h != []
    ensures var n := |h| - 1;
      n !in PositionsOf(h[..n], x)
      && PositionsOf(h, x) == if h[n].x == x then PositionsOf(h[..n], x) + {n} else PositionsOf(h[..n], x)
  {
    var n := |h| - 1;
    assert forall i | 0 <= i < n :: h[..n][i] == h[i];
  }

  lemma {:induction false} TimesCounts(h: seq<Sample>, x: Vector)
    ensures Times(h, x) == |PositionsOf(h, x)|
  {
    if h != [] {
      TimesCounts(h[..|h| - 1], x);
      PositionsOfOneMore(h, x);
      hide PositionsOf;
    }
  }

  lemma {:induction false} CrossCountsRepeats(h: seq<Sample>, x: Vector, u: Vector)
    requires Fits(h, |u|) && |x| == |u|
    ensures Cross(h, u, u) >= Mul(Times(h, x) as real, Mul(Dot(x, u), Dot(x, u)))
  {
    if h != [] {
      var before, z := h[..|h| - 1], h[|h| - 1].x;
      CrossCountsRepeats(before, x, u);
      var q := Mul(Dot(x, u), Dot(x, u));
      MulSquare(Dot(z, u));
      if z == x {
        MulAdd(Times(before, x) as real, 1.0, q);
        MulUnit(q);
      }
    }
  }

  /** After `k` samples at context `x`, with any others between them, the width at `x` is at most `1/k`. */
  lemma WidthAfterRepeats(n: nat, h: seq<Sample>, x: Vector)
    requires Fits(h, n) && |x| == n
    ensures Mul(Times(h, x) as real, Width(n, h, x)) <= 1.0
  {
    var u := Solve(n, h, x);
    var k := Times(h, x);
    hide Mul, Dot, Design, MatVec, Solve, Times, Cross;
    DesignForm(n, h, u, u);
    DotCommutes(u, x);
    DotSelf(u);
    CrossCountsRepeats(h, x, u);
    AtMostOne(k as real, Dot(x, u));
  }


  ghost predicate AllAt(h: seq<Sample>, x: Vector) {
    forall s | s in h :: s.x == x
  }

  ghost function TotalReward(h: seq<Sample>): real {
    if h == [] then 0.0 else TotalReward(h[..|h| - 1]) + h[|h| - 1].r
  }

  lemma {:induction false} CrossAllAt(h: seq<Sample>, x: Vector, u: Vector, v: Vector)
    requires Fits(h, |u|) && |x| == |u| == |v| && AllAt(h, x)
    ensures Cross(h, u, v) == Mul(|h| as real, Mul(Dot(x, u), Dot(x, v)))
  {
    hide Mul, Dot;
    var q := Mul(Dot(x, u), Dot(x, v));
    MulUnit(q);
    if h != [] {
      CrossAllAt(h[..|h| - 1], x, u, v);
      MulAdd((|h| - 1) as real, 1.0, q);
    }
  }

  lemma {:induction false} ResponseAllAt(n: nat, h: seq<Sample>, x: Vector, v: Vector)
    requires Fits(h, n) && |x| == |v| == n && AllAt(h, x)
    ensures Dot(v, Response(n, h)) == Mul(TotalReward(h), Dot(v, x))
  {
    hide Mul, Dot;
    MulUnit(Dot(v, x));
    if h == [] {
      DotZeros(n, v);
      DotCommutes(v, Zeros(n));
    } else {
      var before, r := h[..|h| - 1], h[|h| - 1].r;
      ResponseAllAt(n, before, x, v);
      DotAddRight(v, Response(n, before), Scale(r, x));
      DotScaleRight(v, r, x);
      MulAdd(TotalReward(before), r, Dot(v, x));
    }
  }

  /** When every sample has context `x`, the predicted mean there is the total reward shrunk by `1 + k |x|²`. */
  lemma MeanAllAt(n: nat, h: seq<Sample>, x: Vector)
    requires Fits(h, n) && |x| == n && AllAt(h, x)
    ensures var mean, q := Dot(Theta(n, h), x), Dot(x, x);
      mean + Mul(|h| as real, Mul(q, mean)) == Mul(TotalReward(h), q)
  {
    var t := Theta(n, h);
    hide Mul, Dot, Design, Response, Cross;
    DesignForm(n, h, x, t);
    CrossAllAt(h, x, x, t);
    ResponseAllAt(n, h, x, x);
    DotCommutes(t, x);
  }

  /** So it has the sign of the total reward. */
  lemma MeanFollowsReward(n: nat, h: seq<Sample>, x: Vector)
    requires Fits(h, n) && |x| == n && AllAt(h, x) && x != Zeros(n)
    ensures TotalReward(h) > 0.0 <==> Dot(Theta(n, h), x) > 0.0
    ensures TotalReward(h) < 0.0 <==> Dot(Theta(n, h), x) < 0.0
  {
    MeanAllAt(n, h, x);
    DotSelf(x);
    var mean, q, k, total := Dot(Theta(n, h), x), Dot(x, x), |h| as real, TotalReward(h);
    hide Mul, Dot, Theta, TotalReward;
    SameSign(mean, q, k, total);
  }

  lemma SameSign(mean: real, q: real, k: real, total: real)
    requires q > 0.0 && k >= 0.0 && mean + Mul(k, Mul(q, mean)) == Mul(total, q)
    ensures (total > 0.0 <==> mean > 0.0) && (total < 0.0 <==> mean < 0.0)
  {
    hide Mul;
    MulSign(q, mean);
    MulSign(q, -mean);
    MulMinus(q, mean);
    MulSign(k, Mul(q, mean));
    MulSign(k, -Mul(q, mean));
    MulMinus(k, Mul(q, mean));
    MulSign(total, q);
    MulSign(-total, q);
    MulMinus(total, q);
    MulUnit(q);
    MulUnit(k);
  }
}
