/** What any run of submissions leaves in the clusters. */
module AlertClusterRuns {
  import opened AlertClusters

  type Call = (Submission, real)

  function Run(run: seq<Call>): seq<Cluster> {
    if run == [] then [] else Assigned(Run(run[..|run| - 1]), run[|run| - 1].0, run[|run| - 1].1)
  }

  /** The submissions that went to cluster `k`, in order. */
  function Members(run: seq<Call>, k: nat): seq<Submission> {
    if run == [] then []
    else
      var (s, now) := run[|run| - 1];
      Members(run[..|run| - 1], k) + if Chosen(Run(run[..|run| - 1]), s, now) == k then [s] else []
  }

  /** The first of the members that reach the highest score. */
  function Worst(members: seq<Submission>): (s: Submission)
    requires members != []
    ensures s in members
  {
    var n := |members| - 1;
    if n == 0 then members[0]
    else
      var w := Worst(members[..n]);
      if members[n].score > w.score then members[n] else w
  }

  lemma {:induction false} WorstIsFirstMaximum(members: seq<Submission>) returns (k: nat)
    requires members != []
    ensures k < |members| && Worst(members) == members[k]
    ensures forall i | 0 <= i < |members| :: members[i].score <= members[k].score
    ensures forall i | 0 <= i < k :: members[i].score < members[k].score
  {
    var n := |members| - 1;
    if n == 0 {
      k := 0;
    } else {
      var before := members[..n];
      k := WorstIsFirstMaximum(before);
      assert forall i | 0 <= i < n :: members[i] == before[i];
      if members[n].score > members[k].score {
        k := n;
      }
    }
  }

  ghost function Entities(members: seq<Submission>): set<string> {
    set s, x | s in members && x in s.entityIds :: x
  }

  ghost function Techniques(members: seq<Submission>): set<string> {
    set s, x | s in members && x in s.techniqueIds :: x
  }

  ghost function Events(members: seq<Submission>): set<string> {
    set s, x | s in members && x in s.eventIds :: x
  }

  ghost function Detections(members: seq<Submission>): set<string> {
    set s, x | s in members && x in s.detectionIds :: x
  }

  /** What a cluster is, in terms of the submissions merged into it. */
  ghost predicate Summarises(c: Cluster, members: seq<Submission>) {
    && members != []
    && c.entityIds == c.alert.entityIds == Entities(members)
    && c.techniqueIds == c.alert.techniqueIds == Techniques(members)
    && c.alert.eventIds == Events(members)
    && c.alert.detectionIds == Detections(members)
    && c.alert.score == Worst(members).score
    && c.alert.severity == Worst(members).severity
    && c.alert.priority == Priority(Worst(members).score)
    && c.alert.title == members[0].title && c.alert.tenantId == members[0].tenantId
    && members[0].description <= c.alert.description
    && (forall s | s in members :: Contains(c.alert.description, s.description))
  }

  lemma ContainsSelf(s: string)
    ensures Contains(s, s)
  {
    assert OccursAt(s, s, 0);
  }

  lemma ContainsLonger(s: string, more: string, part: string)
    requires Contains(s, part)
    ensures Contains(s + more, part)
  {
    var i: nat :| i <= |s| && OccursAt(s, part, i);
    assert (s + more)[i..i + |part|] == s[i..i + |part|];
    assert OccursAt(s + more, part, i);
  }

  lemma JoinedContains(s: string, more: string, part: string)
    requires Contains(s, part) || part == more
    ensures Contains(Joined(s, more), part)
  {
    if !Contains(s, more) {
      if Contains(s, part) {
        ContainsLonger(s, "\n---\n", part);
        ContainsLonger(s + "\n---\n", more, part);
      } else {
        var t := s + "\n---\n";
        assert (t + more)[|t|..|t| + |more|] == more;
        assert OccursAt(t + more, more, |t|);
      }
    }
  }

  lemma JoinedStarts(s: string, more: string, start: string)
    requires start <= s
    ensures start <= Joined(s, more)
  {
  }

  lemma UnionsOfOneMore(members: seq<Submission>, s: Submission)
    ensures Entities(members + [s]) == Entities(members) + s.entityIds
    ensures Techniques(members + [s]) == Techniques(members) + s.techniqueIds
    ensures Events(members + [s]) == Events(members) + s.eventIds
    ensures Detections(members + [s]) == Detections(members) + s.detectionIds
  {
    assert s in members + [s];
    assert forall m | m in members :: m in members + [s];
  }

  lemma MergeSummarises(c: Cluster, members: seq<Submission>, s: Submission, now: real)
    requires Summarises(c, members)
    ensures Summarises(MergeCluster(c, s, now), members + [s])
  {
    hide Entities, Techniques, Events, Detections, Contains, Joined;
    UnionsOfOneMore(members, s);
    JoinedStarts(c.alert.description, s.description, members[0].description);
    assert (members + [s])[..|members|] == members;
    forall m | m in members + [s] ensures Contains(Joined(c.alert.description, s.description), m.description) {
      JoinedContains(c.alert.description, s.description, m.description);
    }
  }

  lemma NewSummarises(s: Submission, now: real)
    ensures Summarises(NewCluster(s, now), [s])
  {
    hide Contains;
    ContainsSelf(s.description);
    UnionsOfOneMore([], s);
    assert [] + [s] == [s];
  }

  /** Every cluster summarises exactly the submissions merged into it. */
  lemma {:induction false} EveryClusterSummarises(run: seq<Call>, k: nat)
    ensures k < |Run(run)| ==> Summarises(Run(run)[k], Members(run, k))
    ensures k >= |Run(run)| ==> Members(run, k) == []
  {
    if run != [] {
      hide Summarises, Chosen, MergeCluster, NewCluster;
      var before := run[..|run| - 1];
      var (s, now) := run[|run| - 1];
      EveryClusterSummarises(before, k);
      var members := Members(before, k);
      assert members + [] == members && [] + [s] == [s];
      if Chosen(Run(before), s, now) == k {
        if k < |Run(before)| {
          MergeSummarises(Run(before)[k], members, s, now);
        } else {
          NewSummarises(s, now);
        }
      }
    }
  }

  /** Every submission went to some cluster. */
  lemma {:induction false} SubmissionIsMember(run: seq<Call>, i: nat) returns (k: nat)
    requires i < |run|
    ensures k < |Run(run)| && run[i].0 in Members(run, k)
  {
    hide Chosen, MergeCluster, NewCluster;
    var n := |run| - 1;
    if i < n {
      k := SubmissionIsMember(run[..n], i);
    } else {
      k := Chosen(Run(run[..n]), run[n].0, run[n].1);
    }
  }

  /** Every member of a cluster was submitted. */
  lemma {:induction false} MemberWasSubmitted(run: seq<Call>, k: nat, s: Submission) returns (i: nat)
    requires s in Members(run, k)
    ensures i < |run| && run[i].0 == s
  {
    hide Chosen, Run;
    var n := |run| - 1;
    if s in Members(run[..n], k) {
      i := MemberWasSubmitted(run[..n], k, s);
    } else {
      i := n;
    }
  }

  lemma MemberIdsInUnions(members: seq<Submission>, s: Submission)
    requires s in members
    ensures s.eventIds <= Events(members) && s.entityIds <= Entities(members)
    ensures s.techniqueIds <= Techniques(members) && s.detectionIds <= Detections(members)
  {
  }

  ghost function AllEvents(clusters: seq<Cluster>): set<string> {
    set c, x | c in clusters && x in c.alert.eventIds :: x
  }

  ghost function AllEntities(clusters: seq<Cluster>): set<string> {
    set c, x | c in clusters && x in c.alert.entityIds :: x
  }

  ghost function AllTechniques(clusters: seq<Cluster>): set<string> {
    set c, x | c in clusters && x in c.alert.techniqueIds :: x
  }

  ghost function AllDetections(clusters: seq<Cluster>): set<string> {
    set c, x | c in clusters && x in c.alert.detectionIds :: x
  }

  ghost function Submitted(run: seq<Call>): seq<Submission> {
    seq(|run|, i requires 0 <= i < |run| => run[i].0)
  }

  /** Nothing is lost and nothing made up: over all alerts, the ids are exactly those submitted. */
  lemma NothingLost(run: seq<Call>)
    ensures AllEvents(Run(run)) == Events(Submitted(run))
    ensures AllEntities(Run(run)) == Entities(Submitted(run))
    ensures AllTechniques(Run(run)) == Techniques(Submitted(run))
    ensures AllDetections(Run(run)) == Detections(Submitted(run))
  {
    hide Run, Members, Worst, Contains;
    forall i: nat | i < |run|
      ensures run[i].0.eventIds <= AllEvents(Run(run)) && run[i].0.entityIds <= AllEntities(Run(run))
      ensures run[i].0.techniqueIds <= AllTechniques(Run(run)) && run[i].0.detectionIds <= AllDetections(Run(run))
    {
      var k := SubmissionIsMember(run, i);
      EveryClusterSummarises(run, k);
      var c := Run(run)[k];
      assert c in Run(run);
      MemberIdsInUnions(Members(run, k), run[i].0);
      assert c.alert.eventIds <= AllEvents(Run(run)) && c.alert.entityIds <= AllEntities(Run(run));
      assert c.alert.techniqueIds <= AllTechniques(Run(run)) && c.alert.detectionIds <= AllDetections(Run(run));
    }
    forall k: nat | k < |Run(run)|
      ensures Run(run)[k].alert.eventIds <= Events(Submitted(run)) && Run(run)[k].alert.entityIds <= Entities(Submitted(run))
      ensures Run(run)[k].alert.techniqueIds <= Techniques(Submitted(run))
      ensures Run(run)[k].alert.detectionIds <= Detections(Submitted(run))
    {
      EveryClusterSummarises(run, k);
      forall s | s in Members(run, k) ensures s in Submitted(run) {
        var i := MemberWasSubmitted(run, k, s);
        assert Submitted(run)[i] == s;
      }
    }
  }

  /** A submission changes no cluster but the one it goes to, and that one loses nothing. */
  lemma ClustersOnlyGrow(before: seq<Call>, last: Call)
    ensures var clusters, after := Run(before), Assigned(Run(before), last.0, last.1);
      var k := Chosen(clusters, last.0, last.1);
      && |clusters| <= |after| && k < |after|
      && (forall j | 0 <= j < |clusters| && j != k :: after[j] == clusters[j])
      && (k < |clusters| ==>
            && clusters[k].alert.entityIds <= after[k].alert.entityIds
            && clusters[k].alert.techniqueIds <= after[k].alert.techniqueIds
            && clusters[k].alert.eventIds <= after[k].alert.eventIds
            && clusters[k].alert.detectionIds <= after[k].alert.detectionIds
            && clusters[k].alert.score <= after[k].alert.score)
  {
    hide Chosen, Joined;
  }

  /** A cluster was last updated by the last call that went to it. */
  lemma {:induction false} LastUpdatedByLastMember(run: seq<Call>, k: nat) returns (i: nat)
    requires k < |Run(run)|
    ensures i < |run| && Chosen(Run(run[..i]), run[i].0, run[i].1) == k
    ensures forall j | i < j < |run| :: Chosen(Run(run[..j]), run[j].0, run[j].1) != k
    ensures Run(run)[k].lastUpdated == run[i].1
  {
    hide Chosen, MergeAlert;
    var n := |run| - 1;
    if Chosen(Run(run[..n]), run[n].0, run[n].1) == k {
      i := n;
    } else {
      i := LastUpdatedByLastMember(run[..n], k);
      assert run[..n][..i] == run[..i];
      forall j | i < j < |run| ensures Chosen(Run(run[..j]), run[j].0, run[j].1) != k {
        if j < n {
          assert run[..n][..j] == run[..j] && run[..n][j] == run[j];
        }
      }
    }
  }
}
