/** Alert deduplication: new detections merge into the open cluster they overlap most. */
module AlertClusters {
  import opened Options
  import opened Severities

  const CLUSTER_WINDOW: real := 2700.0
  const OVERLAP_THRESHOLD: real := 0.15

  datatype Submission = Submission(
    title: string,
    description: string,
    severity: Severity,
    score: real,
    entityIds: set<string>,
    techniqueIds: set<string>,
    eventIds: set<string>,
    detectionIds: set<string>,
    tenantId: string)

  datatype Alert = Alert(
    title: string,
    description: string,
    severity: Severity,
    score: real,
    priority: int,
    entityIds: set<string>,
    techniqueIds: set<string>,
    eventIds: set<string>,
    detectionIds: set<string>,
    tenantId: string)

  datatype Cluster = Cluster(alert: Alert, entityIds: set<string>, techniqueIds: set<string>, lastUpdated: real)

  /** Python's `int(x)`: towards zero. */
  function Truncate(x: real): int {
    if x >= 0.0 then x.Floor else -((-x).Floor)
  }

  function Priority(score: real): int {
    Truncate(score * 100.0)
  }

  predicate Live(c: Cluster, now: real) {
    now - c.lastUpdated <= CLUSTER_WINDOW
  }

  function Ids(c: Cluster): set<string> {
    c.entityIds + c.techniqueIds
  }

  /** Jaccard overlap of two non-empty sets. */
  function Overlap(a: set<string>, b: set<string>): real
    requires a != {} && b != {}
  {
    UnionNotEmpty(a, b);
    |a * b| as real / |a + b| as real
  }

  lemma UnionNotEmpty(a: set<string>, b: set<string>)
    requires a != {}
    ensures |a + b| > 0
  {
    var x :| x in a;
    assert x in a + b;
  }

  /** A live cluster that overlaps enough to be merged into. */
  predicate Matches(c: Cluster, combined: set<string>, now: real) {
    Live(c, now) && Ids(c) != {} && combined != {} && Overlap(Ids(c), combined) >= OVERLAP_THRESHOLD
  }

  /** The first cluster among those of highest overlap, if any matches. */
  function BestMatch(clusters: seq<Cluster>, combined: set<string>, now: real): (r: Option<nat>)
    ensures r.Some? ==> r.value < |clusters| && Matches(clusters[r.value], combined, now)
  {
    if clusters == [] then None
    else
      var n := |clusters| - 1;
      var rest := BestMatch(clusters[..n], combined, now);
      if Matches(clusters[n], combined, now)
         && (rest.None? || Overlap(Ids(clusters[n]), combined) > Overlap(Ids(clusters[rest.value]), combined))
      then Some(n) else rest
  }

  /** What "best" means: nothing that matches overlaps more, and nothing earlier overlaps as much. */
  lemma {:induction false} BestMatchIsFirstMaximum(clusters: seq<Cluster>, combined: set<string>, now: real, i: nat)
    requires i < |clusters| && Matches(clusters[i], combined, now)
    ensures var r := BestMatch(clusters, combined, now);
      && r.Some?
      && Overlap(Ids(clusters[i]), combined) <= Overlap(Ids(clusters[r.value]), combined)
      && (i < r.value ==> Overlap(Ids(clusters[i]), combined) < Overlap(Ids(clusters[r.value]), combined))
  {
    hide Matches, Overlap;
    var n := |clusters| - 1;
    if i < n {
      BestMatchIsFirstMaximum(clusters[..n], combined, now, i);
    }
  }

  /** Twenty times the shared ids against three times all of them: an overlap of 0.15, without a division. */
  lemma MatchesIff(c: Cluster, combined: set<string>, now: real)
    ensures Matches(c, combined, now) <==>
      var ids := c.entityIds + c.techniqueIds;
      && now <= c.lastUpdated + 2700.0
      && ids != {} && combined != {}
      && 20 * |ids * combined| >= 3 * |ids + combined|
  {
    if Ids(c) != {} {
      UnionNotEmpty(Ids(c), combined);
      var p, q := |Ids(c) * combined| as real, |Ids(c) + combined| as real;
      assert p / q * q == p;
      assert p / q >= 0.15 <==> p >= 0.15 * q by { QuotientAtLeast(p, q, 0.15); }
    }
  }

  lemma QuotientAtLeast(p: real, q: real, t: real)
    requires q > 0.0
    ensures p / q >= t <==> p >= t * q
  {
    assert p / q * q == p;
    if p / q >= t {
      assert (p / q - t) * q >= 0.0;
    } else {
      assert (t - p / q) * q > 0.0;
    }
  }

  /** Which of two sets overlaps a third set more: shared ids times all ids, crosswise. */
  lemma OverlapAtMostIff(a: set<string>, b: set<string>, x: set<string>)
    requires a != {} && b != {} && x != {}
    ensures Overlap(a, x) <= Overlap(b, x) <==> |a * x| * |b + x| <= |b * x| * |a + x|
  {
    UnionNotEmpty(a, x);
    UnionNotEmpty(b, x);
    CrossMultiply(|a * x|, |a + x|, |b * x|, |b + x|);
  }

  lemma CrossMultiply(p: nat, q: nat, r: nat, s: nat)
    requires q > 0 && s > 0
    ensures p as real / q as real <= r as real / s as real <==> p * s <= r * q
  {
    var x, y, d, e := p as real / q as real, r as real / s as real, q as real, s as real;
    assert x * d == p as real && y * e == r as real;
    assert (p * s) as real == p as real * e && (r * q) as real == r as real * d;
    assert p as real * e == x * (d * e) && r as real * d == y * (d * e);
    PositiveFactor(x, y, d * e);
  }

  lemma PositiveFactor(x: real, y: real, k: real)
    requires k > 0.0
    ensures x <= y <==> x * k <= y * k
  {
    assert y * k - x * k == (y - x) * k;
    if x <= y {
      assert (y - x) * k >= 0.0;
    } else {
      assert (x - y) * k > 0.0;
    }
  }

  /** The same choice, told by the sets and the time alone. */
  lemma ChosenIsBest(clusters: seq<Cluster>, s: Submission, now: real, i: nat)
    requires i < |clusters| && s.entityIds + s.techniqueIds != {}
    requires var (c, x) := (clusters[i], s.entityIds + s.techniqueIds);
      && c.entityIds + c.techniqueIds != {}
      && now <= c.lastUpdated + 2700.0
      && 20 * |(c.entityIds + c.techniqueIds) * x| >= 3 * |c.entityIds + c.techniqueIds + x|
    ensures var k := Chosen(clusters, s, now);
      && k < |clusters|
      && var x := s.entityIds + s.techniqueIds;
         var a, b := clusters[i].entityIds + clusters[i].techniqueIds, clusters[k].entityIds + clusters[k].techniqueIds;
      && now <= clusters[k].lastUpdated + 2700.0
      && 20 * |b * x| >= 3 * |b + x|
      && |a * x| * |b + x| <= |b * x| * |a + x|
      && (i < k ==> |a * x| * |b + x| < |b * x| * |a + x|)
  {
    hide Matches, Overlap, BestMatch;
    var x := s.entityIds + s.techniqueIds;
    MatchesIff(clusters[i], x, now);
    BestMatchIsFirstMaximum(clusters, x, now, i);
    var k := BestMatch(clusters, x, now).value;
    MatchesIff(clusters[k], x, now);
    OverlapAtMostIff(Ids(clusters[i]), Ids(clusters[k]), x);
    OverlapAtMostIff(Ids(clusters[k]), Ids(clusters[i]), x);
  }

  /** A new cluster is opened exactly when no cluster is live and overlaps enough. */
  lemma OpenedIff(clusters: seq<Cluster>, s: Submission, now: real)
    ensures Chosen(clusters, s, now) == |clusters| <==>
      forall c | c in clusters :: !Matches(c, s.entityIds + s.techniqueIds, now)
  {
    hide Matches;
    var x := s.entityIds + s.techniqueIds;
    if c :| c in clusters && Matches(c, x, now) {
      var i :| 0 <= i < |clusters| && clusters[i] == c;
      BestMatchIsFirstMaximum(clusters, x, now, i);
    }
  }

  /** The priority is the score in per cent, cut to a whole number. */
  lemma PriorityIs(score: real)
    ensures score >= 0.0 ==> Priority(score) as real <= 100.0 * score < Priority(score) as real + 1.0
    ensures score < 0.0 ==> Priority(score) as real - 1.0 < 100.0 * score <= Priority(score) as real
  {
  }

  lemma ContainsIff(s: string, part: string)
    ensures Contains(s, part) <==> exists a, b :: s == a + part + b
  {
    if Contains(s, part) {
      var i: nat :| i <= |s| && OccursAt(s, part, i);
      assert s == s[..i] + part + s[i + |part|..];
    }
    if a, b :| s == a + part + b {
      assert s[|a|..|a| + |part|] == part;
      assert OccursAt(s, part, |a|);
    }
  }

  /** The scan over all clusters for the best one. */
  method FindMatch(clusters: seq<Cluster>, entityIds: set<string>, techniqueIds: set<string>, now: real)
    returns (best: Option<nat>)
    ensures best == BestMatch(clusters, entityIds + techniqueIds, now)
  {
    var combined := entityIds + techniqueIds;
    var bestScore := 0.0;
    best := None;
    for i := 0 to |clusters|
      invariant best == BestMatch(clusters[..i], combined, now)
      invariant best.Some? ==> Ids(clusters[best.value]) != {} && combined != {}
                               && bestScore == Overlap(Ids(clusters[best.value]), combined)
      invariant best.None? ==> bestScore == 0.0
    {
      assert clusters[..i + 1][..i] == clusters[..i];
      var cluster := clusters[i];
      if now - cluster.lastUpdated > CLUSTER_WINDOW {
        continue;
      }
      var existing := cluster.entityIds + cluster.techniqueIds;
      if existing == {} || combined == {} {
        continue;
      }
      var overlap := Overlap(existing, combined);
      if overlap >= OVERLAP_THRESHOLD && overlap > bestScore {
        best := Some(i);
        bestScore := overlap;
      }
    }
    assert clusters[..|clusters|] == clusters;
  }

  predicate OccursAt(s: string, part: string, i: nat) {
    i + |part| <= |s| && s[i..i + |part|] == part
  }

  predicate Contains(s: string, part: string) {
    exists i: nat | i <= |s| :: OccursAt(s, part, i)
  }

  function Joined(description: string, more: string): string {
    if Contains(description, more) then description else description + "\n---\n" + more
  }

  function NewCluster(s: Submission, now: real): Cluster {
    Cluster(Alert(s.title, s.description, s.severity, s.score, Priority(s.score),
                  s.entityIds, s.techniqueIds, s.eventIds, s.detectionIds, s.tenantId),
            s.entityIds, s.techniqueIds, now)
  }

  function MergeAlert(a: Alert, s: Submission): Alert {
    var worse := s.score > a.score;
    Alert(a.title,
          Joined(a.description, s.description),
          if worse then s.severity else a.severity,
          if worse then s.score else a.score,
          if worse then Priority(s.score) else a.priority,
          a.entityIds + s.entityIds, a.techniqueIds + s.techniqueIds,
          a.eventIds + s.eventIds, a.detectionIds + s.detectionIds, a.tenantId)
  }

  function MergeCluster(c: Cluster, s: Submission, now: real): Cluster {
    Cluster(MergeAlert(c.alert, s), c.entityIds + s.entityIds, c.techniqueIds + s.techniqueIds, now)
  }

  /** The cluster that a submission goes to; a fresh one gets the next place. */
  function Chosen(clusters: seq<Cluster>, s: Submission, now: real): (k: nat)
    ensures k <= |clusters|
  {
    var best := BestMatch(clusters, s.entityIds + s.techniqueIds, now);
    if best.Some? then best.value else |clusters|
  }

  function Assigned(clusters: seq<Cluster>, s: Submission, now: real): seq<Cluster> {
    var k := Chosen(clusters, s, now);
    if k < |clusters| then clusters[k := MergeCluster(clusters[k], s, now)] else clusters + [NewCluster(s, now)]
  }

  class AlertClusterStore {
    var clusters: seq<Cluster>

    constructor ()
      ensures clusters == []
    {
      clusters := [];
    }

    method Assign(s: Submission, now: real) returns (alert: Alert)
      modifies this
      ensures clusters == Assigned(old(clusters), s, now)
      ensures Chosen(old(clusters), s, now) < |clusters|
      ensures alert == clusters[Chosen(old(clusters), s, now)].alert
    {
      var found := FindMatch(clusters, s.entityIds, s.techniqueIds, now);
      if found.None? {
        alert := Alert(s.title, s.description, s.severity, s.score, Priority(s.score),
                       s.entityIds, s.techniqueIds, s.eventIds, s.detectionIds, s.tenantId);
        clusters := clusters + [Cluster(alert, s.entityIds, s.techniqueIds, now)];
        return;
      }
      var k := found.value;
      var cluster := clusters[k];
      alert := cluster.alert;
      alert := alert.(entityIds := alert.entityIds + s.entityIds,
                      techniqueIds := alert.techniqueIds + s.techniqueIds,
                      eventIds := alert.eventIds + s.eventIds,
                      detectionIds := alert.detectionIds + s.detectionIds);
      if s.score > alert.score {
        alert := alert.(score := s.score, severity := s.severity, priority := Priority(s.score));
      }
      if !Contains(alert.description, s.description) {
        alert := alert.(description := alert.description + "\n---\n" + s.description);
      }
      clusters := clusters[k := Cluster(alert, cluster.entityIds + s.entityIds, cluster.techniqueIds + s.techniqueIds, now)];
    }
  }
}
