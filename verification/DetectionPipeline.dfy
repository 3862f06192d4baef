/** From the findings on one event to its risk and the decision to raise an alert. */
module DetectionPipeline {
  import opened Options
  import opened Severities
  import opened Rounding
  import opened RiskScore
  import opened MlScorer

  const MIN_ALERT_SCORE: real := 0.3

  /** What the pipeline knows about one event; the intelligence hits are those of its enrichment. */
  datatype Findings = Findings(
    hits: seq<Severity>,
    signs: Signs,
    intel: seq<real>,
    assetCriticality: real,
    degree: nat,
    rareEdgeScore: real,
    path: Option<nat>,
    techniques: nat,
    events: nat)

  function FeaturesOf(f: Findings): Features {
    Features(f.assetCriticality, f.degree, f.rareEdgeScore, f.path, |f.intel|, f.techniques, f.events)
  }

  function ComponentsOf(exp: real -> real, f: Findings): Components
    requires forall v :: exp(v) > 0.0
  {
    Components(RuleScore(f.hits), HeuristicScore(f.signs, |f.intel|), GraphScore(f.degree, f.rareEdgeScore, f.path),
               IntelScore(f.intel), MlScore(exp, FeatureVector(FeaturesOf(f)), None))
  }

  function Risk(exp: real -> real, f: Findings): real
    requires forall v :: exp(v) > 0.0
  {
    Calibrated(exp, ComponentsOf(exp, f), BenignContext(f.signs, |f.intel|))
  }

  /** The severity of the alert that an event raises, if it raises one. */
  function AlertFor(exp: real -> real, f: Findings): Option<Severity>
    requires forall v :: exp(v) > 0.0
  {
    if f.hits != [] || Risk(exp, f) >= MIN_ALERT_SCORE then Some(SeverityFromScore(Risk(exp, f))) else None
  }

  /** Findings as the other services produce them. */
  ghost predicate Produced(f: Findings) {
    && (forall c | c in f.intel :: c >= 0.0)
    && 0.0 <= f.assetCriticality <= 1.0
    && 0.0 <= f.rareEdgeScore <= 1.0
  }

  lemma ShareOfRange(count: nat, full: real)
    requires full > 0.0
    ensures 0.0 <= Least(count as real / full, 1.0) <= 1.0
  {
    ScaleMonotone(0.0, count as real, full);
  }

  /** Each component comes from its own findings: the gravest rule, the signs, the graph, the intelligence, the features. */
  lemma ComponentsAre(exp: real -> real, f: Findings, gravest: Severity)
    requires IsExp(exp) && gravest in f.hits && forall s | s in f.hits :: Level(s) <= Level(gravest)
    ensures var c := ComponentsOf(exp, f);
      && c.rule == SeverityWeight(gravest)
      && c.heuristic == HeuristicScore(f.signs, |f.intel|)
      && c.graph == GraphScore(f.degree, f.rareEdgeScore, f.path)
      && c.intel == IntelScore(f.intel)
      && c.ml == MlScore(exp, FeatureVector(FeaturesOf(f)), None)
  {
    hide RuleScore, MlScore, GraphScore, IntelScore, HeuristicScore, SeverityWeight;
    RuleScoreIs(f.hits, gravest);
  }

  /** Without a rule that matched, the rule component is zero. */
  lemma NoRuleNoRuleScore(exp: real -> real, f: Findings)
    requires IsExp(exp) && f.hits == []
    ensures ComponentsOf(exp, f).rule == 0.0
  {
  }

  /** An event raises an alert exactly when a rule matched or its risk is at least 0.3. */
  lemma AlertIff(exp: real -> real, f: Findings)
    requires IsExp(exp)
    ensures AlertFor(exp, f).Some? <==> f.hits != [] || Risk(exp, f) >= 0.3
  {
    hide Risk;
  }

  lemma GraphScoreRange(degree: nat, rareEdge: real, path: Option<nat>)
    requires 0.0 <= rareEdge <= 1.0
    ensures 0.0 <= GraphScore(degree, rareEdge, path) <= 1.0
  {
    hide Round;
    ShareOfRange(degree, 20.0);
    if path.Some? {
      ScaleMonotone(0.0, path.value as real, 4.0);
    }
    RoundUnit(0.4 * Least(degree as real / 20.0, 1.0) + 0.3 * rareEdge + 0.3 * PathToBad(path), 10000);
  }

  lemma HeuristicScoreRange(signs: Signs, intelMatches: nat)
    ensures 0.0 <= HeuristicScore(signs, intelMatches) <= 1.0
  {
    hide Round;
    var raised := (if signs.offHours then 0.15 else 0.0) + (if signs.suspiciousCommand then 0.35 else 0.0)
      + (if signs.criticalAsset then 0.2 else 0.0) + (if signs.highSeverity then 0.25 else 0.0)
      + 0.05 * intelMatches as real;
    var score := if BenignContext(signs, intelMatches) then Greatest(0.0, raised - 0.45) else raised;
    RoundUnit(Least(score, 1.0), 1000);
  }

  lemma RuleAndIntelRange(hits: seq<Severity>, confidences: seq<real>)
    requires forall c | c in confidences :: c >= 0.0
    ensures 0.0 <= RuleScore(hits) <= 1.0 && 0.0 <= IntelScore(confidences) <= 1.0
  {
    hide Round;
    if hits != [] {
      RoundUnit(GreatestWeight(hits), 1000);
    }
    if confidences != [] {
      RoundUnit(Least(1.0, GreatestConfidence(confidences) + 0.05 * (|confidences| - 1) as real), 1000);
    }
  }

  /** Every component of produced findings lies between 0 and 1. */
  lemma ComponentsRange(exp: real -> real, f: Findings)
    requires IsExp(exp) && Produced(f)
    ensures var c := ComponentsOf(exp, f);
      && 0.0 <= c.rule <= 1.0 && 0.0 <= c.heuristic <= 1.0 && 0.0 <= c.graph <= 1.0
      && 0.0 <= c.intel <= 1.0 && 0.0 <= c.ml <= 1.0
  {
    hide RuleScore, HeuristicScore, GraphScore, IntelScore, MlScore;
    RuleAndIntelRange(f.hits, f.intel);
    HeuristicScoreRange(f.signs, |f.intel|);
    GraphScoreRange(f.degree, f.rareEdgeScore, f.path);
    MlScoreRange(exp, FeatureVector(FeaturesOf(f)), None);
  }

  lemma GraphScoreMonotone(f: Findings, g: Findings)
    requires NoRiskier(FeaturesOf(f), FeaturesOf(g))
    ensures GraphScore(f.degree, f.rareEdgeScore, f.path) <= GraphScore(g.degree, g.rareEdgeScore, g.path)
  {
    hide Round;
    ScaleMonotone(f.degree as real, g.degree as real, 20.0);
    RoundMonotone(0.4 * Least(f.degree as real / 20.0, 1.0) + 0.3 * f.rareEdgeScore + 0.3 * PathToBad(f.path),
                  0.4 * Least(g.degree as real / 20.0, 1.0) + 0.3 * g.rareEdgeScore + 0.3 * PathToBad(g.path), 10000);
  }

  lemma RuleScoreMonotone(hits: seq<Severity>, more: seq<Severity>)
    requires forall s | s in hits :: s in more
    ensures RuleScore(hits) <= RuleScore(more)
  {
    hide Round;
    RuleAndIntelRange(more, []);
    if hits != [] {
      assert hits[0] in more;
      RoundMonotone(GreatestWeight(hits), GreatestWeight(more), 1000);
    }
  }

  lemma IntelScoreMonotone(confidences: seq<real>, more: seq<real>)
    requires |confidences| <= |more| && forall c | c in confidences :: c in more
    requires forall c | c in more :: c >= 0.0
    ensures IntelScore(confidences) <= IntelScore(more)
  {
    hide Round;
    RuleAndIntelRange([], more);
    if confidences != [] {
      RoundMonotone(Least(1.0, GreatestConfidence(confidences) + 0.05 * (|confidences| - 1) as real),
                    Least(1.0, GreatestConfidence(more) + 0.05 * (|more| - 1) as real), 1000);
    }
  }

  /** Every suspicious sign of the one is a sign of the other, and no admin hint explains the other alone. */
  predicate NoWorse(s: Signs, t: Signs) {
    && (s.offHours ==> t.offHours)
    && (s.suspiciousCommand ==> t.suspiciousCommand)
    && (s.criticalAsset ==> t.criticalAsset)
    && (s.highSeverity ==> t.highSeverity)
    && (t.benignAdminHint ==> s.benignAdminHint)
  }

  lemma HeuristicScoreMonotone(s: Signs, t: Signs, m: nat, n: nat)
    requires NoWorse(s, t) && m <= n
    ensures HeuristicScore(s, m) <= HeuristicScore(t, n)
  {
    hide Round;
    var raised := (if s.offHours then 0.15 else 0.0) + (if s.suspiciousCommand then 0.35 else 0.0)
      + (if s.criticalAsset then 0.2 else 0.0) + (if s.highSeverity then 0.25 else 0.0) + 0.05 * m as real;
    var raised' := (if t.offHours then 0.15 else 0.0) + (if t.suspiciousCommand then 0.35 else 0.0)
      + (if t.criticalAsset then 0.2 else 0.0) + (if t.highSeverity then 0.25 else 0.0) + 0.05 * n as real;
    var score := if BenignContext(s, m) then Greatest(0.0, raised - 0.45) else raised;
    var score' := if BenignContext(t, n) then Greatest(0.0, raised' - 0.45) else raised';
    RoundMonotone(Least(score, 1.0), Least(score', 1.0), 1000);
  }

  /** Whatever was found about the one event was found about the other, and no feature points less to an attack. */
  ghost predicate NoMoreFound(f: Findings, g: Findings) {
    && (forall s | s in f.hits :: s in g.hits)
    && NoWorse(f.signs, g.signs)
    && (forall c | c in f.intel :: c in g.intel)
    && NoRiskier(FeaturesOf(f), FeaturesOf(g))
  }

  /**
   End to end, through every score, the benign cut and the calibration: more
   rule hits, more suspicious signs, more intelligence, a more critical,
   rarer or more active node, or a shorter path to a known bad one never
   lower the risk.
   */
  lemma RiskFollowsFindings(exp: real -> real, f: Findings, g: Findings)
    requires IsExp(exp) && Produced(f) && Produced(g) && NoMoreFound(f, g)
    ensures Risk(exp, f) <= Risk(exp, g)
  {
    ComponentsRange(exp, f);
    RuleScoreMonotone(f.hits, g.hits);
    IntelScoreMonotone(f.intel, g.intel);
    HeuristicScoreMonotone(f.signs, g.signs, |f.intel|, |g.intel|);
    GraphScoreMonotone(f, g);
    FeaturesMonotone(FeaturesOf(f), FeaturesOf(g));
    MlScoreMonotone(exp, FeatureVector(FeaturesOf(f)), FeatureVector(FeaturesOf(g)), None, None);
    hide RuleScore, HeuristicScore, GraphScore, IntelScore, MlScore, Calibrated;
    CalibratedMonotone(exp, ComponentsOf(exp, f), ComponentsOf(exp, g),
                       BenignContext(f.signs, |f.intel|), BenignContext(g.signs, |g.intel|));
  }

  lemma SeverityMonotone(score: real, more: real)
    requires score <= more
    ensures Level(SeverityFromScore(score)) <= Level(SeverityFromScore(more))
  {
  }

  /** So if the one event raises an alert, the other raises one too, and no less severe a one. */
  lemma AlertFollowsFindings(exp: real -> real, f: Findings, g: Findings)
    requires IsExp(exp) && Produced(f) && Produced(g) && NoMoreFound(f, g) && AlertFor(exp, f).Some?
    ensures AlertFor(exp, g).Some? && Level(AlertFor(exp, f).value) <= Level(AlertFor(exp, g).value)
  {
    hide Risk, SeverityFromScore, Level;
    RiskFollowsFindings(exp, f, g);
    SeverityMonotone(Risk(exp, f), Risk(exp, g));
    assert f.hits != [] ==> f.hits[0] in g.hits;
  }

  lemma LowScoreLowSeverity(score: real)
    requires score < MIN_ALERT_SCORE
    ensures Level(SeverityFromScore(score)) <= Level(Low)
  {
  }

  /** Explainable admin activity raises an alert only through a rule, and then one of low severity at most. */
  lemma BenignAlertsOnlyByRule(exp: real -> real, f: Findings)
    requires IsExp(exp) && BenignContext(f.signs, |f.intel|)
    ensures AlertFor(exp, f).Some? <==> f.hits != []
    ensures AlertFor(exp, f).Some? ==> Level(AlertFor(exp, f).value) <= Level(Low)
  {
    hide HeuristicScore, GraphScore, MlScore, RuleScore, Calibrated, SeverityFromScore;
    BenignStaysLow(exp, ComponentsOf(exp, f));
    LowScoreLowSeverity(Risk(exp, f));
  }
}
