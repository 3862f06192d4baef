/** The ensemble risk score, its calibration, and the scores that go into it. */
module RiskScore {
  import opened Options
  import opened Severities
  import opened Rounding

  /** The exponential, as far as the scores need it: positive, increasing, and at 0.9 above 2.4. */
  ghost predicate IsExp(exp: real -> real) {
    && (forall v :: exp(v) > 0.0)
    && (forall u, v | u <= v :: exp(u) <= exp(v))
    && exp(0.9) >= 2.4
  }

  function Least(a: real, b: real): real {
    if a <= b then a else b
  }

  function Greatest(a: real, b: real): real {
    if a >= b then a else b
  }

  /** `1 / (1 + exp(-x))`. */
  function Sigmoid(exp: real -> real, x: real): real
    requires forall v :: exp(v) > 0.0
  {
    1.0 / (1.0 + exp(-x))
  }

  lemma ReciprocalFalls(a: real, b: real)
    requires 0.0 < a <= b
    ensures 0.0 < 1.0 / b <= 1.0 / a
  {
    assert 1.0 / a - 1.0 / b == (b - a) / (a * b);
  }

  lemma SigmoidRange(exp: real -> real, x: real)
    requires IsExp(exp)
    ensures 0.0 < Sigmoid(exp, x) <= 1.0
  {
    ReciprocalFalls(1.0, 1.0 + exp(-x));
  }

  lemma SigmoidMonotone(exp: real -> real, x: real, y: real)
    requires IsExp(exp) && x <= y
    ensures Sigmoid(exp, x) <= Sigmoid(exp, y)
  {
    ReciprocalFalls(1.0 + exp(-y), 1.0 + exp(-x));
  }

  // Component scores.

  function SeverityWeight(s: Severity): real {
    match s
    case Informational => 0.1
    case Low => 0.3
    case Medium => 0.55
    case High => 0.8
    case Critical => 1.0
  }

  /** Graver severities weigh strictly more, from a tenth to one. */
  lemma WeightRises(s: Severity, t: Severity)
    ensures SeverityWeight(s) < SeverityWeight(t) <==> Level(s) < Level(t)
    ensures 0.1 <= SeverityWeight(s) <= 1.0
    ensures SeverityWeight(s) == 1.0 <==> s == Critical
    ensures SeverityWeight(s) == 0.1 <==> s == Informational
  {
  }

  function GreatestWeight(hits: seq<Severity>): (r: real)
    requires hits != []
    ensures forall s | s in hits :: SeverityWeight(s) <= r
    ensures exists s | s in hits :: SeverityWeight(s) == r
  {
    var n := |hits| - 1;
    if n == 0 then assert hits[0] in hits; SeverityWeight(hits[0])
    else
      assert hits == hits[..n] + [hits[n]];
      Greatest(GreatestWeight(hits[..n]), SeverityWeight(hits[n]))
  }

  function RuleScore(hits: seq<Severity>): real {
    if hits == [] then 0.0 else Round(GreatestWeight(hits), 1000)
  }

  function GreatestConfidence(confidences: seq<real>): (r: real)
    requires confidences != []
    ensures r in confidences && forall c | c in confidences :: c <= r
  {
    var n := |confidences| - 1;
    if n == 0 then confidences[0]
    else
      assert confidences == confidences[..n] + [confidences[n]];
      Greatest(GreatestConfidence(confidences[..n]), confidences[n])
  }

  function IntelScore(confidences: seq<real>): real {
    if confidences == [] then 0.0
    else Round(Least(1.0, GreatestConfidence(confidences) + 0.05 * (|confidences| - 1) as real), 1000)
  }

  /** What the heuristics look at in an event. */
  datatype Signs = Signs(offHours: bool, suspiciousCommand: bool, criticalAsset: bool, highSeverity: bool,
                         benignAdminHint: bool)

  /** Benign context is claimed only when no intelligence matched. */
  predicate BenignContext(signs: Signs, intelMatches: nat) {
    signs.benignAdminHint && intelMatches == 0
  }

  function HeuristicScore(signs: Signs, intelMatches: nat): real {
    var raised := (if signs.offHours then 0.15 else 0.0) + (if signs.suspiciousCommand then 0.35 else 0.0)
      + (if signs.criticalAsset then 0.2 else 0.0) + (if signs.highSeverity then 0.25 else 0.0)
      + 0.05 * intelMatches as real;
    var score := if BenignContext(signs, intelMatches) then Greatest(0.0, raised - 0.45) else raised;
    Round(Least(score, 1.0), 1000)
  }

  /** How near a known bad node is: 1 at the node itself, 0 from four arcs on or without a path. */
  function PathToBad(path: Option<nat>): real {
    if path.None? then 0.0 else Greatest(0.0, 1.0 - path.value as real / 4.0)
  }

  function GraphScore(degree: nat, rareEdge: real, path: Option<nat>): real {
    Round(0.4 * Least(degree as real / 20.0, 1.0) + 0.3 * rareEdge + 0.3 * PathToBad(path), 10000)
  }

  // The ensemble.

  datatype Components = Components(rule: real, heuristic: real, graph: real, intel: real, ml: real)

  function Weighted(c: Components): real {
    0.35 * c.rule + 0.15 * c.heuristic + 0.20 * c.graph + 0.15 * c.intel + 0.15 * c.ml
  }

  /** The benign cut: explainable activity without corroboration is scaled down and capped. */
  function Cut(c: Components, benign: bool): real {
    if benign && c.intel < 0.1 then Least(Weighted(c) * 0.45, 0.35) else Weighted(c)
  }

  function Ensemble(c: Components, benign: bool): real {
    Round(Least(Cut(c, benign), 1.0), 10000)
  }

  function Calibrated(exp: real -> real, c: Components, benign: bool): real
    requires forall v :: exp(v) > 0.0
  {
    Round(Sigmoid(exp, 6.0 * (Ensemble(c, benign) - 0.5)), 10000)
  }

  predicate AtMost(c: Components, d: Components) {
    c.rule <= d.rule && c.heuristic <= d.heuristic && c.graph <= d.graph && c.intel <= d.intel && c.ml <= d.ml
  }

  lemma RoundUnit(x: real, scale: int)
    requires 0.0 <= x <= 1.0 && scale > 0
    ensures 0.0 <= Round(x, scale) <= 1.0
  {
    hide Round;
    RoundExact(0, scale);
    RoundExact(scale, scale);
    assert 0 as real / scale as real == 0.0 && scale as real / scale as real == 1.0;
    RoundMonotone(0.0, x, scale);
    RoundMonotone(x, 1.0, scale);
  }

  /** The calibrated score of any components is a probability. */
  lemma CalibratedRange(exp: real -> real, c: Components, benign: bool)
    requires IsExp(exp)
    ensures 0.0 <= Calibrated(exp, c, benign) <= 1.0
  {
    hide Round, Ensemble, Sigmoid;
    var x := 6.0 * (Ensemble(c, benign) - 0.5);
    SigmoidRange(exp, x);
    RoundUnit(Sigmoid(exp, x), 10000);
  }

  lemma CalibratedFollows(exp: real -> real, c: Components, d: Components, benign: bool, benign': bool)
    requires IsExp(exp) && Cut(c, benign) <= Cut(d, benign')
    ensures Calibrated(exp, c, benign) <= Calibrated(exp, d, benign')
  {
    hide Round, Sigmoid, Cut;
    RoundMonotone(Least(Cut(c, benign), 1.0), Least(Cut(d, benign'), 1.0), 10000);
    var x, y := 6.0 * (Ensemble(c, benign) - 0.5), 6.0 * (Ensemble(d, benign') - 0.5);
    SigmoidMonotone(exp, x, y);
    RoundMonotone(Sigmoid(exp, x), Sigmoid(exp, y), 10000);
  }

  /**
   Raising any component never lowers the calibrated score, not even across
   the benign cut, as long as the weighted sum starts out non-negative; nor
   does losing the benign context.
   */
  lemma CalibratedMonotone(exp: real -> real, c: Components, d: Components, benign: bool, benign': bool)
    requires IsExp(exp) && AtMost(c, d) && Weighted(c) >= 0.0 && (benign' ==> benign)
    ensures Calibrated(exp, c, benign) <= Calibrated(exp, d, benign')
  {
    assert Weighted(c) <= Weighted(d);
    CalibratedFollows(exp, c, d, benign, benign');
  }

  /**
   The cut keeps the order of what it is given exactly when the weighted sum
   is not so far below zero that leaving the cut makes it smaller.
   */
  lemma CutMonotoneIff(c: Components, benign: bool)
    ensures (forall d | AtMost(c, d) :: Cut(c, benign) <= Cut(d, benign))
      <==> !(benign && c.intel < 0.1 && 0.55 * Weighted(c) < -0.15 * (0.1 - c.intel))
  {
    if benign && c.intel < 0.1 {
      var crossed := c.(intel := 0.1);
      assert AtMost(c, crossed) && Cut(crossed, benign) == Weighted(c) + 0.15 * (0.1 - c.intel);
      forall d | AtMost(c, d) && d.intel >= 0.1 ensures Weighted(d) >= Weighted(crossed) {
      }
    }
  }

  /** In benign context without intelligence the score stays below the alert threshold. */
  lemma BenignStaysLow(exp: real -> real, c: Components)
    requires IsExp(exp) && c.intel < 0.1
    ensures Calibrated(exp, c, true) < 0.3
  {
    var e := Ensemble(c, true);
    RoundMonotone(Least(Cut(c, true), 1.0), 0.35, 10000);
    RoundExact(3500, 10000);
    assert 3500 as real / 10000 as real == 0.35;
    hide Round, Sigmoid, Cut, Ensemble;
    assert e <= 0.35;
    var x := 6.0 * (e - 0.5);
    SigmoidMonotone(exp, x, -0.9);
    SigmoidBelow(exp);
    RoundMonotone(Sigmoid(exp, x), 0.2942, 10000);
    RoundExact(2942, 10000);
    assert 2942 as real / 10000 as real == 0.2942;
  }

  lemma SigmoidBelow(exp: real -> real)
    requires IsExp(exp)
    ensures Sigmoid(exp, -0.9) <= 0.2942
  {
    assert -(-0.9) == 0.9;
    ReciprocalFalls(3.4, 1.0 + exp(0.9));
  }

  function SeverityFromScore(score: real): Severity {
    if score >= 0.85 then Critical
    else if score >= 0.65 then High
    else if score >= 0.4 then Medium
    else if score >= 0.2 then Low
    else Informational
  }

  // The numbers.

  lemma RoundThousandth(n: int, x: real)
    requires x * 1000.0 == n as real
    ensures Round(x, 1000) == x
  {
    hide Round;
    assert x == n as real / 1000 as real;
    RoundExact(n, 1000);
  }

  /** The rule score is the weight of the gravest rule that matched. */
  lemma RuleScoreIs(hits: seq<Severity>, s: Severity)
    requires s in hits && forall t | t in hits :: Level(t) <= Level(s)
    ensures RuleScore(hits) == SeverityWeight(s)
  {
    var t :| t in hits && SeverityWeight(t) == GreatestWeight(hits);
    WeightRises(s, t);
    hide Round;
    RoundThousandth(match s case Informational => 100 case Low => 300 case Medium => 550 case High => 800 case Critical => 1000,
                    SeverityWeight(s));
  }

  /** Twentieths of a point that the signs and the intelligence of an event add up to. */
  function Points(signs: Signs, intelMatches: nat): nat {
    (if signs.offHours then 3 else 0) + (if signs.suspiciousCommand then 7 else 0)
    + (if signs.criticalAsset then 4 else 0) + (if signs.highSeverity then 5 else 0) + intelMatches
  }

  /**
   The heuristic score is a twentieth for every point, at most one; a benign
   hint without intelligence takes nine points off.
   */
  lemma HeuristicScoreIs(signs: Signs, intelMatches: nat)
    ensures var points := Points(signs, intelMatches) - if signs.benignAdminHint && intelMatches == 0 then 9 else 0;
      HeuristicScore(signs, intelMatches) == (if points <= 0 then 0.0 else if points >= 20 then 1.0 else points as real / 20.0)
  {
    var points := Points(signs, intelMatches) - if signs.benignAdminHint && intelMatches == 0 then 9 else 0;
    var held := if points <= 0 then 0 else if points >= 20 then 20 else points;
    hide Round;
    RoundThousandth(50 * held, held as real / 20.0);
  }

  /** A path of 0 to 3 arcs to a known bad node counts 4 to 1 quarters, any other nothing. */
  lemma PathToBadIs(path: Option<nat>)
    ensures PathToBad(path) * 4.0 == (if path.Some? && path.value < 4 then 4.0 - path.value as real else 0.0)
  {
  }

  /** Connections, rarity and nearness to a known bad node make up four, three and three tenths. */
  lemma GraphScoreParts(degree: nat, more: nat)
    requires more >= 20
    ensures GraphScore(0, 0.0, None) == 0.0
    ensures GraphScore(more, 0.0, None) == 0.4
    ensures GraphScore(0, 1.0, None) == 0.3
    ensures GraphScore(0, 0.0, Some(0)) == 0.3
    ensures degree <= 20 ==> GraphScore(degree, 0.0, None) == 0.02 * degree as real
    ensures GraphScore(more, 1.0, Some(0)) == 1.0
  {
    hide Round;
    AtLeastOne(more);
    TenThousandth(0, 0.0);
    TenThousandth(4000, 0.4);
    TenThousandth(3000, 0.3);
    TenThousandth(10000, 1.0);
    if degree <= 20 {
      TenThousandth(200 * degree, 0.02 * degree as real);
    }
  }

  lemma AtLeastOne(n: nat)
    requires n >= 20
    ensures Least(n as real / 20.0, 1.0) == 1.0
  {
  }

  lemma TenThousandth(n: int, x: real)
    requires x * 10000.0 == n as real
    ensures Round(x, 10000) == x
  {
    hide Round;
    assert x == n as real / 10000 as real;
    RoundExact(n, 10000);
  }

  /** What a component adds to the weighted sum, which lies between nothing and one as its components do. */
  lemma WeightedEffect(c: Components, d: Components)
    ensures Weighted(d) - Weighted(c)
      == (7.0 * (d.rule - c.rule) + 4.0 * (d.graph - c.graph)
          + 3.0 * (d.heuristic - c.heuristic + d.intel - c.intel + d.ml - c.ml)) / 20.0
    ensures Weighted(Components(0.0, 0.0, 0.0, 0.0, 0.0)) == 0.0 && Weighted(Components(1.0, 1.0, 1.0, 1.0, 1.0)) == 1.0
  {
  }

  /** The severity bands. */
  lemma SeverityBands(score: real)
    ensures SeverityFromScore(score) == Critical <==> score >= 0.85
    ensures SeverityFromScore(score) == High <==> 0.65 <= score < 0.85
    ensures SeverityFromScore(score) == Medium <==> 0.4 <= score < 0.65
    ensures SeverityFromScore(score) == Low <==> 0.2 <= score < 0.4
    ensures SeverityFromScore(score) == Informational <==> score < 0.2
  {
  }

  /** With `exp(-x)` the reciprocal of `exp(x)`, the curve is symmetric about one half. */
  lemma SigmoidSymmetric(exp: real -> real, x: real)
    requires IsExp(exp) && exp(x) * exp(-x) == 1.0
    ensures Sigmoid(exp, x) + Sigmoid(exp, -x) == 1.0
  {
    assert -(-x) == x;
    ReciprocalPair(exp(x), exp(-x));
  }

  lemma ReciprocalPair(a: real, b: real)
    requires a > 0.0 && b > 0.0 && a * b == 1.0
    ensures 1.0 / (1.0 + b) + 1.0 / (1.0 + a) == 1.0
  {
    var p := 1.0 + b;
    assert a * p == a + 1.0;
    ReciprocalOfProduct(a, p, 1.0 + a);
  }

  /** `1/p + 1/q` with `q = a p` is `(a + 1) / q`, which is one when `q` is also `a + 1`. */
  lemma ReciprocalOfProduct(a: real, p: real, q: real)
    requires a > 0.0 && p > 0.0 && q == a * p && q == a + 1.0
    ensures 1.0 / p + 1.0 / q == 1.0
  {
    Divides(1.0, p);
    Divides(1.0, q);
    var x, y := 1.0 / p, 1.0 / q;
    assert x == a * y by {
      assert a * y * q == a * (y * q);
      assert x * q == x * (a * p) == a * (x * p);
      SameFactor(x, a * y, q);
    }
    assert x + y == (a + 1.0) * y;
  }

  lemma Divides(n: real, p: real)
    requires p > 0.0
    ensures n / p * p == n
  {
  }

  lemma SameFactor(x: real, y: real, k: real)
    requires k > 0.0 && x * k == y * k
    ensures x == y
  {
    assert (x - y) * k == 0.0;
  }

  /** So an even ensemble score stays even. */
  lemma EvenStaysEven(exp: real -> real, c: Components, benign: bool)
    requires IsExp(exp) && exp(0.0) == 1.0 && Ensemble(c, benign) == 0.5
    ensures Calibrated(exp, c, benign) == 0.5
  {
    hide Round, Ensemble;
    assert Sigmoid(exp, 0.0) == 0.5;
    TenThousandth(5000, 0.5);
  }
}
