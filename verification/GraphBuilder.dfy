/** The graph builder service: every event is derived and written to the store. */
module GraphBuilder {
  import opened GraphModel
  import opened GraphNeighbourhood
  import opened GraphUpserts
  import opened GraphWriter
  import opened GraphStoreModule
  import opened Options

  /**
   Writes the nodes of the event, then its edges, so that no edge is left
   without its ends, and answers how many there were.
   */
  method ApplyEventToGraph(store: GraphStore, event: Event, observation: string)
    returns (nodeCount: nat, edgeCount: nat, ghost x: Applied)
    modifies store
    ensures x.event == event && x.observation == observation && Derived(event, x.nodes, x.edges)
    ensures (store.nodes, store.edges) == Apply(old(store.nodes), old(store.edges), x)
    ensures nodeCount == |event.entities| && edgeCount == |x.edges|
    ensures old(NoDangling(store.nodes, store.edges)) ==> NoDangling(store.nodes, store.edges)
  {
    hide UpsertNode, UpsertEdge, UpsertNodes, UpsertEdges, NoDangling, Derived;
    var nodes, edges := DeriveGraphUpdates(event);
    OneNodeEach(event, nodes, edges);
    NothingUpserted(store.nodes, store.edges, observation);
    x := Applied(event, nodes, edges, observation);
    ghost var safe := NoDangling(store.nodes, store.edges);
    if safe {
      ApplyKeepsEnds(store.nodes, store.edges, x);
    }
    for i := 0 to |nodes|
      invariant store.nodes == UpsertNodes(old(store.nodes), nodes[..i], Some(observation))
      invariant store.edges == old(store.edges)
      invariant safe ==> NoDangling(store.nodes, store.edges)
    {
      OneMoreNode(old(store.nodes), nodes, Some(observation), i);
      store.PutNode(nodes[i], Some(observation));
      if safe {
        EveryWriteKeepsEnds(old(store.nodes), old(store.edges), x, i + 1, 0);
      }
    }
    assert nodes[..|nodes|] == nodes;
    for i := 0 to |edges|
      invariant store.edges == UpsertEdges(old(store.edges), edges[..i], Some(observation))
      invariant store.nodes == UpsertNodes(old(store.nodes), nodes, Some(observation))
      invariant safe ==> NoDangling(store.nodes, store.edges)
    {
      OneMoreEdge(old(store.edges), edges, Some(observation), i);
      store.PutEdge(edges[i], Some(observation));
      if safe {
        EveryWriteKeepsEnds(old(store.nodes), old(store.edges), x, 0, i + 1);
      }
    }
    assert edges[..|edges|] == edges;
    nodeCount, edgeCount := |nodes|, |edges|;
  }

  lemma NothingUpserted(nodes: map<Id, Node>, edges: map<string, Edge>, observation: string)
    ensures UpsertNodes(nodes, [], Some(observation)) == nodes && UpsertEdges(edges, [], Some(observation)) == edges
  {
  }

  lemma OneMoreNode(nodes: map<Id, Node>, updates: seq<Node>, observation: Option<string>, i: nat)
    requires i < |updates|
    ensures UpsertNodes(nodes, updates[..i + 1], observation)
      == UpsertNode(UpsertNodes(nodes, updates[..i], observation), updates[i], observation)
  {
    assert updates[..i + 1][..i] == updates[..i];
  }

  lemma OneMoreEdge(edges: map<string, Edge>, updates: seq<Edge>, observation: Option<string>, i: nat)
    requires i < |updates|
    ensures UpsertEdges(edges, updates[..i + 1], observation)
      == UpsertEdge(UpsertEdges(edges, updates[..i], observation), updates[i], observation)
  {
    assert updates[..i + 1][..i] == updates[..i];
  }
}
