/** The anomaly scorer: fixed positive weights over a feature vector and its neighbourhood, then a sigmoid. */
module MlScorer {
  import opened Options
  import opened Scalars
  import opened Vectors
  import opened Rounding
  import opened RiskScore

  const W_SELF: Vector := [0.9, 0.6, 0.7, 0.8, 1.0, 0.5, 0.4]
  const W_NEIGHBOR: Vector := [0.5, 0.4, 0.5, 0.6, 0.7, 0.3, 0.2]
  const BIAS: real := -1.2

  datatype Features = Features(
    assetCriticality: real,
    degree: nat,
    rareEdgeScore: real,
    pathLengthToKnownBad: Option<nat>,
    intelHitCount: nat,
    distinctTechniquesWindow: nat,
    eventCountWindow: nat)

  /** How far a count fills up to `full`, and 1 beyond. */
  function UpTo(count: nat, full: real): real
    requires full > 0.0
  {
    Least(count as real / full, 1.0)
  }

  function FeatureVector(f: Features): (v: Vector)
    ensures |v| == 7
  {
    [f.assetCriticality, UpTo(f.degree, 20.0), f.rareEdgeScore, PathToBad(f.pathLengthToKnownBad),
     UpTo(f.intelHitCount, 3.0), UpTo(f.distinctTechniquesWindow, 5.0), UpTo(f.eventCountWindow, 20.0)]
  }

  /** Without neighbour features, the node's own, scaled by 0.6, stand in for them. */
  function MlScore(exp: real -> real, self: Vector, neighbor: Option<Vector>): real
    requires |self| == 7 && (neighbor.Some? ==> |neighbor.value| == 7)
    requires forall v :: exp(v) > 0.0
  {
    var around := if neighbor.Some? then neighbor.value else Scale(0.6, self);
    Round(Sigmoid(exp, Dot(W_SELF, self) + Dot(W_NEIGHBOR, around) + BIAS), 10000)
  }

  ghost predicate NoGreater(x: Vector, y: Vector) {
    |x| == |y| && forall i | 0 <= i < |x| :: x[i] <= y[i]
  }

  ghost predicate NonNegative(w: Vector) {
    forall i | 0 <= i < |w| :: w[i] >= 0.0
  }

  lemma MulMonotone(w: real, x: real, y: real)
    requires w >= 0.0 && x <= y
    ensures Mul(w, x) <= Mul(w, y)
  {
    hide Mul;
    MulSign(w, y - x);
    MulAdd(y, -x, w);
    MulMinus(w, x);
  }

  /** A dot product with non-negative weights keeps the order. */
  lemma {:induction false} DotMonotone(w: Vector, x: Vector, y: Vector)
    requires |w| == |x| && NonNegative(w) && NoGreater(x, y)
    ensures Dot(w, x) <= Dot(w, y)
  {
    hide Mul;
    if w != [] {
      MulMonotone(w[0], x[0], y[0]);
      DotMonotone(w[1..], x[1..], y[1..]);
    }
  }

  lemma ScaleMonotoneVector(c: real, x: Vector, y: Vector)
    requires c >= 0.0 && NoGreater(x, y)
    ensures NoGreater(Scale(c, x), Scale(c, y))
  {
    hide Mul;
    forall i | 0 <= i < |x| ensures Scale(c, x)[i] <= Scale(c, y)[i] {
      MulMonotone(c, x[i], y[i]);
    }
  }

  lemma MlScoreRange(exp: real -> real, self: Vector, neighbor: Option<Vector>)
    requires IsExp(exp) && |self| == 7 && (neighbor.Some? ==> |neighbor.value| == 7)
    ensures 0.0 <= MlScore(exp, self, neighbor) <= 1.0
  {
    hide Round, Sigmoid, Dot, Scale;
    var around := if neighbor.Some? then neighbor.value else Scale(0.6, self);
    var z := Dot(W_SELF, self) + Dot(W_NEIGHBOR, around) + BIAS;
    SigmoidRange(exp, z);
    RoundUnit(Sigmoid(exp, z), 10000);
  }

  /** Raising any own or neighbour feature never lowers the score. */
  lemma MlScoreMonotone(exp: real -> real, x: Vector, y: Vector, nx: Option<Vector>, ny: Option<Vector>)
    requires IsExp(exp) && |x| == |y| == 7 && NoGreater(x, y)
    requires match (nx, ny)
      case (Some(a), Some(b)) => |a| == 7 && NoGreater(a, b)
      case (None, None) => true
      case _ => false
    ensures MlScore(exp, x, nx) <= MlScore(exp, y, ny)
  {
    hide Round, Sigmoid, Dot, Scale;
    var around := if nx.Some? then nx.value else Scale(0.6, x);
    var around' := if ny.Some? then ny.value else Scale(0.6, y);
    if nx.None? {
      ScaleMonotoneVector(0.6, x, y);
    }
    DotMonotone(W_SELF, x, y);
    DotMonotone(W_NEIGHBOR, around, around');
    var z, z' := Dot(W_SELF, x) + Dot(W_NEIGHBOR, around) + BIAS, Dot(W_SELF, y) + Dot(W_NEIGHBOR, around') + BIAS;
    SigmoidMonotone(exp, z, z');
    RoundMonotone(Sigmoid(exp, z), Sigmoid(exp, z'), 10000);
  }

  /** More of everything that points to an attack, and a path to a known bad node no longer than before. */
  predicate NoRiskier(f: Features, g: Features) {
    && f.assetCriticality <= g.assetCriticality
    && f.degree <= g.degree
    && f.rareEdgeScore <= g.rareEdgeScore
    && (f.pathLengthToKnownBad.Some? ==>
          g.pathLengthToKnownBad.Some? && g.pathLengthToKnownBad.value <= f.pathLengthToKnownBad.value)
    && f.intelHitCount <= g.intelHitCount
    && f.distinctTechniquesWindow <= g.distinctTechniquesWindow
    && f.eventCountWindow <= g.eventCountWindow
  }

  lemma FeaturesMonotone(f: Features, g: Features)
    requires NoRiskier(f, g)
    ensures NoGreater(FeatureVector(f), FeatureVector(g))
  {
    ScaleMonotone(f.degree as real, g.degree as real, 20.0);
    ScaleMonotone(f.intelHitCount as real, g.intelHitCount as real, 3.0);
    ScaleMonotone(f.distinctTechniquesWindow as real, g.distinctTechniquesWindow as real, 5.0);
    ScaleMonotone(f.eventCountWindow as real, g.eventCountWindow as real, 20.0);
  }

  lemma DotSeven(w: Vector, x: Vector)
    requires |w| == |x| == 7
    ensures Dot(w, x) == w[0] * x[0] + w[1] * x[1] + w[2] * x[2] + w[3] * x[3] + w[4] * x[4] + w[5] * x[5] + w[6] * x[6]
  {
    DotFrom(w, x, 0);
    DotFrom(w, x, 1);
    DotFrom(w, x, 2);
    DotFrom(w, x, 3);
    DotFrom(w, x, 4);
    DotFrom(w, x, 5);
    DotFrom(w, x, 6);
    assert w[0..] == w && x[0..] == x && w[7..] == [] && x[7..] == [];
  }

  lemma DotFrom(w: Vector, x: Vector, i: nat)
    requires i < |w| == |x|
    ensures Dot(w[i..], x[i..]) == w[i] * x[i] + Dot(w[i + 1..], x[i + 1..])
  {
    assert w[i..][1..] == w[i + 1..] && x[i..][1..] == x[i + 1..];
  }

  /** What each feature of a node adds before the sigmoid, when its neighbours' features are not known. */
  lemma MlScoreIs(exp: real -> real, x: Vector)
    requires IsExp(exp) && |x| == 7
    ensures MlScore(exp, x, None) == Round(Sigmoid(exp,
      1.2 * x[0] + 0.84 * x[1] + x[2] + 1.16 * x[3] + 1.42 * x[4] + 0.68 * x[5] + 0.52 * x[6] - 1.2), 10000)
  {
    hide Round, Sigmoid, Dot;
    DotSeven(W_SELF, x);
    DotSeven(W_NEIGHBOR, Scale(0.6, x));
  }

  /** When each of the counted features is full, and that it grows evenly until then. */
  lemma FeaturesFill(f: Features)
    ensures var v := FeatureVector(f);
      && v[0] == f.assetCriticality && v[2] == f.rareEdgeScore && v[3] == PathToBad(f.pathLengthToKnownBad)
      && (if f.degree < 20 then v[1] * 20.0 == f.degree as real else v[1] == 1.0)
      && (if f.intelHitCount < 3 then v[4] * 3.0 == f.intelHitCount as real else v[4] == 1.0)
      && (if f.distinctTechniquesWindow < 5 then v[5] * 5.0 == f.distinctTechniquesWindow as real else v[5] == 1.0)
      && (if f.eventCountWindow < 20 then v[6] * 20.0 == f.eventCountWindow as real else v[6] == 1.0)
  {
  }
}
