/** Keyed upserts of nodes and edges, and what any run of them leaves behind. */
module GraphUpserts {
  import opened GraphModel
  import opened Options

  const MAX_OBSERVATIONS: nat := 25

  /** One sighting handed to an upsert; an empty observation is no observation. */
  datatype Sighting = Sighting(seen: Sightings, observation: Option<string>)

  /** The last `n` elements: Python's `del s[:-n]`. */
  function LastN<T>(s: seq<T>, n: nat): seq<T> {
    if |s| <= n then s else s[|s| - n..]
  }

  function Observed(observation: Option<string>): seq<string> {
    if observation.Some? then [observation.value] else []
  }

  /** What a first sighting stores. */
  function Fresh(x: Sighting): Sightings {
    x.seen.(observations := Observed(x.observation))
  }

  /** How a further sighting is merged into a stored one. */
  function Merge(stored: Sightings, x: Sighting): Sightings {
    Sightings(
      stored.count + 1,
      x.seen.lastSeen,
      stored.sources + x.seen.sources,
      stored.properties + x.seen.properties,
      if x.observation.Some? then LastN(stored.observations + Observed(x.observation), MAX_OBSERVATIONS)
      else stored.observations)
  }

  function MergeAll(history: seq<Sighting>): Sightings
    requires history != []
  {
    var n := |history| - 1;
    if n == 0 then Fresh(history[0]) else Merge(MergeAll(history[..n]), history[n])
  }

  function AllObservations(history: seq<Sighting>): seq<string> {
    if history == [] then []
    else AllObservations(history[..|history| - 1]) + Observed(history[|history| - 1].observation)
  }

  ghost function AllSources(history: seq<Sighting>): set<string> {
    set i, s | 0 <= i < |history| && s in history[i].seen.sources :: s
  }

  lemma {:induction false} KeptObservations(history: seq<Sighting>)
    requires history != []
    ensures MergeAll(history).observations == LastN(AllObservations(history), MAX_OBSERVATIONS)
  {
    var n := |history| - 1;
    if n == 0 {
      assert history[..0] == [];
      assert AllObservations(history) == Observed(history[0].observation);
    } else {
      KeptObservations(history[..n]);
      LastNAgain(AllObservations(history[..n]), Observed(history[n].observation), MAX_OBSERVATIONS);
    }
  }

  /** The observation of the newest sighting, if it has one, is the last that is kept. */
  lemma NewestObservationKept(history: seq<Sighting>)
    requires history != [] && history[|history| - 1].observation.Some?
    ensures var kept := MergeAll(history).observations;
      kept != [] && kept[|kept| - 1] == history[|history| - 1].observation.value
  {
    KeptObservations(history);
  }

  /** Without an observation nothing is added, and with one exactly that one. */
  lemma ObservationsOneMore(history: seq<Sighting>, x: Sighting)
    ensures AllObservations(history + [x])
      == if x.observation.Some? then AllObservations(history) + [x.observation.value] else AllObservations(history)
  {
    assert (history + [x])[..|history|] == history;
    assert AllObservations(history) + [] == AllObservations(history);
  }

  lemma LastNAgain<T>(s: seq<T>, t: seq<T>, n: nat)
    ensures LastN(LastN(s, n) + t, n) == LastN(s + t, n)
  {
  }

  /**
   After any run of sightings of one key: the last 25 observations of the
   whole run in order, the count of the first sighting plus one per further
   sighting, the union of the sources, the time of the last arrival, and for
   every property its last value in the run.
   */
  lemma {:induction false} MergeAllSummarises(history: seq<Sighting>)
    requires history != []
    ensures var r := MergeAll(history);
      && |r.observations| == (if |AllObservations(history)| <= 25 then |AllObservations(history)| else 25)
      && r.observations == AllObservations(history)[|AllObservations(history)| - |r.observations|..]
      && r.count == history[0].seen.count + |history| - 1
      && r.lastSeen == history[|history| - 1].seen.lastSeen
      && r.sources == AllSources(history)
      && forall x :: Lookup(r.properties, x) == LastValue(history, x)
  {
    KeptObservations(history);
    hide Lookup, LastValue, AllObservations;
    forall x ensures Lookup(MergeAll(history).properties, x) == LastValue(history, x) {
      PropertyIsLast(history, x);
    }
    if |history| > 1 {
      MergeAllSummarises(history[..|history| - 1]);
      SourcesOfOneMore(history);
    }
  }

  /** The value of a property in the last sighting that has it. */
  function LastValue(history: seq<Sighting>, x: string): (v: Option<string>)
    ensures v.None? ==> forall s | s in history :: x !in s.seen.properties
    ensures v.Some? ==> exists i :: 0 <= i < |history| && IsLastValue(history, i, x, v.value)
  {
    if history == [] then None
    else
      var n := |history| - 1;
      if x in history[n].seen.properties then
        assert IsLastValue(history, n, x, history[n].seen.properties[x]);
        Some(history[n].seen.properties[x])
      else
        var v := LastValue(history[..n], x);
        assert history == history[..n] + [history[n]];
        assert forall i, y | 0 <= i < n && IsLastValue(history[..n], i, x, y) :: IsLastValue(history, i, x, y);
        v
  }

  ghost predicate IsLastValue(history: seq<Sighting>, i: nat, x: string, v: string)
    requires i < |history|
  {
    && x in history[i].seen.properties && history[i].seen.properties[x] == v
    && forall j | i < j < |history| :: x !in history[j].seen.properties
  }

  function Lookup(properties: map<string, string>, x: string): Option<string> {
    if x in properties then Some(properties[x]) else None
  }

  lemma {:induction false} PropertyIsLast(history: seq<Sighting>, x: string)
    requires history != []
    ensures Lookup(MergeAll(history).properties, x) == LastValue(history, x)
  {
    if |history| > 1 {
      PropertyIsLast(history[..|history| - 1], x);
    }
  }

  lemma SourcesOfOneMore(history: seq<Sighting>)
    requires history != []
    ensures AllSources(history) == AllSources(history[..|history| - 1]) + history[|history| - 1].seen.sources
  {
    var n := |history| - 1;
    forall s | s in AllSources(history) ensures s in AllSources(history[..n]) + history[n].seen.sources {
      var i :| 0 <= i < |history| && s in history[i].seen.sources;
      assert i == n || history[..n][i] == history[i];
    }
    forall s | s in AllSources(history[..n]) ensures s in AllSources(history) {
      var i :| 0 <= i < n && s in history[..n][i].seen.sources;
      assert history[i] == history[..n][i];
    }
  }

  /** The node table after an upsert; kind and id of a stored node never change. */
  function UpsertNode(nodes: map<Id, Node>, node: Node, observation: Option<string>): map<Id, Node> {
    var x := Sighting(node.seen, observation);
    nodes[node.id := if node.id in nodes then nodes[node.id].(seen := Merge(nodes[node.id].seen, x))
                     else node.(seen := Fresh(x))]
  }

  /** The edge table after an upsert; the ends and kind of a stored edge never change. */
  function UpsertEdge(edges: map<string, Edge>, edge: Edge, observation: Option<string>): map<string, Edge> {
    var x, key := Sighting(edge.seen, observation), EdgeKey(edge);
    edges[key := if key in edges then edges[key].(seen := Merge(edges[key].seen, x))
                 else edge.(seen := Fresh(x))]
  }

  function UpsertNodes(nodes: map<Id, Node>, updates: seq<Node>, observation: Option<string>): map<Id, Node> {
    if updates == [] then nodes
    else
      var n := |updates| - 1;
      UpsertNode(UpsertNodes(nodes, updates[..n], observation), updates[n], observation)
  }

  function UpsertEdges(edges: map<string, Edge>, updates: seq<Edge>, observation: Option<string>): map<string, Edge> {
    if updates == [] then edges
    else
      var n := |updates| - 1;
      UpsertEdge(UpsertEdges(edges, updates[..n], observation), updates[n], observation)
  }

  lemma {:induction false} UpsertNodesIds(nodes: map<Id, Node>, updates: seq<Node>, observation: Option<string>)
    ensures UpsertNodes(nodes, updates, observation).Keys == nodes.Keys + set u | u in updates :: u.id
  {
    if updates != [] {
      var n := |updates| - 1;
      UpsertNodesIds(nodes, updates[..n], observation);
      assert updates == updates[..n] + [updates[n]];
    }
  }

  /** Every stored edge ends in one of `ids`. */
  ghost predicate EndsIn(edges: map<string, Edge>, ids: set<Id>) {
    forall k | k in edges :: edges[k].src in ids && edges[k].dst in ids
  }

  lemma UpsertEdgeEnds(edges: map<string, Edge>, update: Edge, observation: Option<string>, ids: set<Id>)
    requires EndsIn(edges, ids) && update.src in ids && update.dst in ids
    ensures EndsIn(UpsertEdge(edges, update, observation), ids)
  {
    hide EdgeKey, Merge, Fresh;
  }

  /** A run of edge upserts stores no end that was not stored before or named by an update. */
  lemma {:induction false} UpsertEdgesEnds(edges: map<string, Edge>, updates: seq<Edge>, observation: Option<string>,
                                           ids: set<Id>)
    requires EndsIn(edges, ids)
    requires forall u | u in updates :: u.src in ids && u.dst in ids
    ensures EndsIn(UpsertEdges(edges, updates, observation), ids)
  {
    if updates != [] {
      var n := |updates| - 1;
      UpsertEdgesEnds(edges, updates[..n], observation, ids);
      UpsertEdgeEnds(UpsertEdges(edges, updates[..n], observation), updates[n], observation, ids);
    }
  }

  type NodeUpsert = (Node, Option<string>)
  type EdgeUpsert = (Edge, Option<string>)

  function RunNodes(run: seq<NodeUpsert>): map<Id, Node> {
    if run == [] then map[]
    else UpsertNode(RunNodes(run[..|run| - 1]), run[|run| - 1].0, run[|run| - 1].1)
  }

  function RunEdges(run: seq<EdgeUpsert>): map<string, Edge> {
    if run == [] then map[]
    else UpsertEdge(RunEdges(run[..|run| - 1]), run[|run| - 1].0, run[|run| - 1].1)
  }

  function NodeSightings(run: seq<NodeUpsert>, id: Id): seq<Sighting> {
    if run == [] then []
    else
      var (node, observation) := run[|run| - 1];
      NodeSightings(run[..|run| - 1], id) + if node.id == id then [Sighting(node.seen, observation)] else []
  }

  function EdgeSightings(run: seq<EdgeUpsert>, key: string): seq<Sighting> {
    if run == [] then []
    else
      var (edge, observation) := run[|run| - 1];
      EdgeSightings(run[..|run| - 1], key) + if EdgeKey(edge) == key then [Sighting(edge.seen, observation)] else []
  }

  lemma MergeOneMore(history: seq<Sighting>, x: Sighting)
    ensures MergeAll(history + [x]) == if history == [] then Fresh(x) else Merge(MergeAll(history), x)
  {
    assert (history + [x])[..|history|] == history;
  }

  /** After any run, the stored node of an id merges exactly the sightings of that id, in order. */
  lemma {:induction false} NodeTableMergesRun(run: seq<NodeUpsert>, id: Id)
    ensures var history := NodeSightings(run, id);
      && (id in RunNodes(run) <==> history != [])
      && (id in RunNodes(run) ==> RunNodes(run)[id].id == id && RunNodes(run)[id].seen == MergeAll(history))
  {
    if run != [] {
      var (node, observation) := run[|run| - 1];
      NodeTableMergesRun(run[..|run| - 1], id);
      var before := NodeSightings(run[..|run| - 1], id);
      assert before + [] == before;
      MergeOneMore(before, Sighting(node.seen, observation));
    }
  }

  /** The same for edges, by key: every stored edge sits under its own key. */
  lemma {:induction false} EdgeTableMergesRun(run: seq<EdgeUpsert>, key: string)
    ensures var history := EdgeSightings(run, key);
      && (key in RunEdges(run) <==> history != [])
      && (key in RunEdges(run) ==> EdgeKey(RunEdges(run)[key]) == key && RunEdges(run)[key].seen == MergeAll(history))
  {
    if run != [] {
      var (edge, observation) := run[|run| - 1];
      EdgeTableMergesRun(run[..|run| - 1], key);
      var before := EdgeSightings(run[..|run| - 1], key);
      assert before + [] == before;
      MergeOneMore(before, Sighting(edge.seen, observation));
      hide MergeAll, Merge, Fresh;
    }
  }

  /** A stored node keeps the kind it was first sighted with. */
  lemma {:induction false} NodeKeepsKind(run: seq<NodeUpsert>, i: nat)
    requires i < |run| && forall j | 0 <= j < i :: run[j].0.id != run[i].0.id
    ensures var id := run[i].0.id; id in RunNodes(run) && RunNodes(run)[id].kind == run[i].0.kind
  {
    hide Merge, Fresh;
    var n := |run| - 1;
    if i < n {
      NodeKeepsKind(run[..n], i);
    } else {
      NodeTableMergesRun(run[..n], run[i].0.id);
      NoSightings(run[..n], run[i].0.id);
    }
  }

  lemma {:induction false} NoSightings(run: seq<NodeUpsert>, id: Id)
    requires forall x | x in run :: x.0.id != id
    ensures NodeSightings(run, id) == []
  {
    if run != [] {
      NoSightings(run[..|run| - 1], id);
    }
  }

  /** A stored edge keeps the ends and the kind it was first sighted with under its key. */
  lemma {:induction false} EdgeKeepsEnds(run: seq<EdgeUpsert>, i: nat)
    requires i < |run| && forall j | 0 <= j < i :: EdgeKey(run[j].0) != EdgeKey(run[i].0)
    ensures var (key, e) := (EdgeKey(run[i].0), run[i].0);
      && key in RunEdges(run)
      && RunEdges(run)[key].src == e.src && RunEdges(run)[key].kind == e.kind && RunEdges(run)[key].dst == e.dst
  {
    hide Merge, Fresh, EdgeKey;
    var n := |run| - 1;
    if i < n {
      EdgeKeepsEnds(run[..n], i);
    } else {
      EdgeTableMergesRun(run[..n], EdgeKey(run[i].0));
      NoEdgeSightings(run[..n], EdgeKey(run[i].0));
    }
  }

  lemma {:induction false} NoEdgeSightings(run: seq<EdgeUpsert>, key: string)
    requires forall x | x in run :: EdgeKey(x.0) != key
    ensures EdgeSightings(run, key) == []
  {
    if run != [] {
      NoEdgeSightings(run[..|run| - 1], key);
    }
  }
}
