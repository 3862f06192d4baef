/**
 The ball expansion behind the neighbourhood query, one round at a time, and
 what the query promises.
 */
module GraphNeighbourhood {
  import opened GraphModel
  import opened GraphAdjacency
  import opened Options

  /** Python's `s[:k]`, where a negative `k` counts from the end. */
  function SliceTo<T>(s: seq<T>, k: int): (r: seq<T>)
    ensures r <= s
    ensures k >= |s| ==> r == s
    ensures 0 <= k < |s| ==> |r| == k
    ensures k < 0 ==> |r| == Max(|s| + k, 0)
  {
    if k >= 0 then s[..if k <= |s| then k else |s|]
    else if |s| + k >= 0 then s[..|s| + k]
    else []
  }

  /** No stored edge names an id without a stored node. */
  ghost predicate NoDangling(nodes: map<Id, Node>, edges: map<string, Edge>) {
    forall k | k in edges :: edges[k].src in nodes && edges[k].dst in nodes
  }

  /** The collected arcs have pairwise different keys, and `seen` are those keys. */
  ghost predicate Collected(arcs: seq<Arc>, seen: set<string>) {
    && seen == (set a | a in arcs :: ArcKey(a))
    && forall i, j | 0 <= i < j < |arcs| :: ArcKey(arcs[i]) != ArcKey(arcs[j])
  }

  ghost predicate FromBall(collected: seq<Arc>, arcs: set<Arc>, ids: set<Id>) {
    forall a | a in collected :: a in arcs && a.src in ids
  }

  /** Every collected arc leaves an id that was found, unless that id has no stored node. */
  ghost predicate SourcesIn(collected: seq<Arc>, stored: set<Id>, found: set<Id>) {
    forall a | a in collected && a.src in stored :: a.src in found
  }

  ghost predicate AllSeen(arcs: set<Arc>, ids: set<Id>, seen: set<string>) {
    forall a | a in arcs && a.src in ids :: ArcKey(a) in seen
  }

  /** What the query answers even when the limit cuts it short. */
  ghost predicate Sound(nodes: map<Id, Node>, arcs: set<Arc>, root: Id, depth: int, limit: int,
                        found: map<Id, Node>, collected: seq<Arc>) {
    && (forall id | id in found :: id in nodes && found[id] == nodes[id])
    && found.Keys <= Ball(arcs, root, Max(depth, 0))
    && (root in nodes ==> root in found)
    && FromBall(collected, arcs, Ball(arcs, root, depth - 1))
    && SourcesIn(collected, nodes.Keys, found.Keys)
    && (forall i, j | 0 <= i < j < |collected| :: ArcKey(collected[i]) != ArcKey(collected[j]))
    && (limit >= 0 ==> |collected| <= limit)
  }

  /** What it answers when fewer than `limit` arcs were collected. */
  ghost predicate Exact(nodes: map<Id, Node>, arcs: set<Arc>, root: Id, depth: int,
                        found: map<Id, Node>, collected: seq<Arc>) {
    && found.Keys == Ball(arcs, root, Max(depth, 0)) * nodes.Keys
    && (forall a | a in arcs && a.src in Ball(arcs, root, depth - 1)
          :: exists b | b in collected :: ArcKey(b) == ArcKey(a))
  }

  /**
   What is known before a round whose frontier lies in `ball1` but not in
   `ball0`; the last part only as long as no list was cut short.
   */
  ghost predicate RoundState(nodes: map<Id, Node>, arcs: set<Arc>, ball0: set<Id>, ball1: set<Id>, exact: bool,
                             frontier: set<Id>, found: set<Id>, collected: seq<Arc>, seen: set<string>) {
    && frontier <= ball1
    && found <= ball0 * nodes.Keys
    && FromBall(collected, arcs, ball0)
    && SourcesIn(collected, nodes.Keys, found)
    && Collected(collected, seen)
    && (exact ==>
          && found == ball0 * nodes.Keys
          && frontier * nodes.Keys == (ball1 - ball0) * nodes.Keys
          && AllSeen(arcs, ball0, seen))
  }

  /** The state before round `i`. */
  ghost predicate BeforeRound(nodes: map<Id, Node>, arcs: set<Arc>, root: Id, i: int, exact: bool,
                              frontier: set<Id>, found: set<Id>, collected: seq<Arc>, seen: set<string>) {
    RoundState(nodes, arcs, Ball(arcs, root, i - 1), Ball(arcs, root, i), exact, frontier, found, collected, seen)
  }

  /** The innermost loop: collect the arcs of one id until the limit is reached. */
  method GatherArcs(out: seq<Arc>, collected0: seq<Arc>, seen0: set<string>, next0: set<Id>, limit: int)
    returns (collected: seq<Arc>, seen: set<string>, next: set<Id>, cut: bool)
    requires Collected(collected0, seen0)
    ensures Collected(collected, seen)
    ensures seen0 <= seen && |collected0| <= |collected|
    ensures forall a | a in collected :: a in collected0 || a in out
    ensures next0 <= next <= next0 + Ends(out)
    ensures cut ==> |collected| >= limit
    ensures !cut ==> next == next0 + Ends(out) && forall a | a in out :: ArcKey(a) in seen
  {
    hide ArcKey, Collected;
    collected, seen, next, cut := collected0, seen0, next0, false;
    for j := 0 to |out|
      invariant Collected(collected, seen)
      invariant seen0 <= seen && |collected0| <= |collected|
      invariant forall a | a in collected :: a in collected0 || a in out
      invariant next == next0 + Ends(out[..j])
      invariant forall i | 0 <= i < j :: ArcKey(out[i]) in seen
      invariant !cut
    {
      var a := out[j];
      EndsOfOneMore(out, j);
      if ArcKey(a) !in seen {
        CollectOneMore(collected, seen, a);
        seen := seen + {ArcKey(a)};
        collected := collected + [a];
        if |collected| >= limit {
          cut := true;
          EndsOfPrefix(out, j);
          return;
        }
      }
      next := next + {a.dst};
    }
    assert out[..|out|] == out;
  }

  lemma CollectOneMore(collected: seq<Arc>, seen: set<string>, a: Arc)
    requires Collected(collected, seen) && ArcKey(a) !in seen
    ensures Collected(collected + [a], seen + {ArcKey(a)})
  {
    forall k | k in seen ensures k in set b | b in collected + [a] :: ArcKey(b) {
      var b :| b in collected && ArcKey(b) == k;
      assert b in collected + [a];
    }
    assert a in collected + [a];
  }

  lemma EndsOfPrefix(out: seq<Arc>, j: nat)
    requires j <= |out|
    ensures Ends(out[..j]) <= Ends(out)
  {
  }

  /** The middle loop: visit every id of the frontier, in whatever order the set gives. */
  method VisitFrontier(nodes: map<Id, Node>, adjacency: map<Id, seq<Arc>>, ghost arcs: set<Arc>,
                       frontier: set<Id>, found0: map<Id, Node>, collected0: seq<Arc>, seen0: set<string>, limit: int)
    returns (found: map<Id, Node>, collected: seq<Arc>, seen: set<string>, next: set<Id>, cut: bool)
    requires IsAdjacency(adjacency, arcs) && Collected(collected0, seen0)
    requires forall id | id in found0 :: id in nodes && found0[id] == nodes[id]
    ensures forall id | id in found :: id in nodes && found[id] == nodes[id]
    ensures found.Keys == found0.Keys + frontier * nodes.Keys
    ensures Collected(collected, seen)
    ensures seen0 <= seen && |collected0| <= |collected|
    ensures forall a | a in collected :: a in collected0 || (a in arcs && a.src in frontier)
    ensures next <= Successors(arcs, frontier)
    ensures cut ==> |collected| >= limit
    ensures !cut ==> next == Successors(arcs, frontier) && AllSeen(arcs, frontier, seen)
  {
    found, collected, seen, next, cut := found0, collected0, seen0, {}, false;
    var todo := frontier;
    while todo != {}
      invariant todo <= frontier
      invariant forall id | id in found :: id in nodes && found[id] == nodes[id]
      invariant found.Keys == found0.Keys + (frontier - todo) * nodes.Keys
      invariant Collected(collected, seen)
      invariant seen0 <= seen && |collected0| <= |collected|
      invariant forall a | a in collected :: a in collected0 || (a in arcs && a.src in frontier)
      invariant next <= Successors(arcs, frontier - todo)
      invariant cut ==> |collected| >= limit
      invariant !cut ==> next == Successors(arcs, frontier - todo) && AllSeen(arcs, frontier - todo, seen)
      decreases todo
    {
      hide Collected;
      var id :| id in todo;
      if id in nodes && id !in found {
        found := found[id := nodes[id]];
      }
      var out := Neighbours(adjacency, id);
      var stopped;
      ghost var next0 := next;
      collected, seen, next, stopped := GatherArcs(out, collected, seen, next, limit);
      SuccessorsOfOneMore(adjacency, arcs, frontier - todo, id);
      assert frontier - (todo - {id}) == (frontier - todo) + {id};
      cut := cut || stopped;
      todo := todo - {id};
    }
    assert frontier - todo == frontier;
  }

  lemma SuccessorsOfOneMore(adjacency: map<Id, seq<Arc>>, arcs: set<Arc>, ids: set<Id>, id: Id)
    requires IsAdjacency(adjacency, arcs)
    ensures Successors(arcs, ids + {id}) == Successors(arcs, ids) + Ends(Neighbours(adjacency, id))
    ensures forall a | a in arcs && a.src == id :: a in Neighbours(adjacency, id)
  {
  }

  lemma FirstRound(nodes: map<Id, Node>, arcs: set<Arc>, root: Id)
    ensures BeforeRound(nodes, arcs, root, 0, true, {root}, {}, [], {})
  {
  }

  lemma BallOfNext(arcs: set<Arc>, root: Id, i: int)
    requires i >= 0
    ensures Ball(arcs, root, i + 1) == Ball(arcs, root, i) + Successors(arcs, Ball(arcs, root, i))
    ensures Ball(arcs, root, i - 1) <= Ball(arcs, root, i)
    ensures Successors(arcs, Ball(arcs, root, i - 1)) <= Ball(arcs, root, i)
  {
    BallGrows(arcs, root, i - 1, i);
  }

  /** Without dangling edges, the ids new to a ball follow from those new to the ball before. */
  lemma NewIdsFollow(arcs: set<Arc>, stored: set<Id>, ball0: set<Id>, ball1: set<Id>, ball2: set<Id>,
                     frontier: set<Id>, next: set<Id>)
    requires forall a | a in arcs :: a.src in stored && a.dst in stored
    requires ball0 <= ball1 && Successors(arcs, ball0) <= ball1
    requires ball2 == ball1 + Successors(arcs, ball1)
    requires frontier <= ball1 && frontier * stored == (ball1 - ball0) * stored
    requires next == Successors(arcs, frontier)
    ensures (next - ball1 * stored) * stored == (ball2 - ball1) * stored
    ensures forall a | a in arcs && a.src in ball1 :: a.src in ball0 || a.src in frontier
  {
    forall a | a in arcs && a.src in ball1 ensures a.src in ball0 || a.src in frontier {
      if a.src !in ball0 {
        assert a.src in (ball1 - ball0) * stored;
      }
    }
    forall v | v in (ball2 - ball1) * stored ensures v in next {
      var a :| a in arcs && a.src in ball1 && a.dst == v;
      assert a.src !in ball0;
    }
  }

  lemma RoundStep(nodes: map<Id, Node>, arcs: set<Arc>, ball0: set<Id>, ball1: set<Id>, ball2: set<Id>, exact: bool,
                  frontier: set<Id>, found0: set<Id>, collected0: seq<Arc>, seen0: set<string>,
                  next: set<Id>, found: set<Id>, collected: seq<Arc>, seen: set<string>)
    requires exact ==> forall a | a in arcs :: a.src in nodes && a.dst in nodes
    requires ball0 <= ball1 && Successors(arcs, ball0) <= ball1
    requires ball2 == ball1 + Successors(arcs, ball1)
    requires RoundState(nodes, arcs, ball0, ball1, exact, frontier, found0, collected0, seen0)
    requires found == found0 + frontier * nodes.Keys
    requires Collected(collected, seen) && seen0 <= seen
    requires forall a | a in collected :: a in collected0 || (a in arcs && a.src in frontier)
    requires next <= Successors(arcs, frontier)
    requires exact ==> next == Successors(arcs, frontier) && AllSeen(arcs, frontier, seen)
    ensures RoundState(nodes, arcs, ball1, ball2, exact, next - found, found, collected, seen)
  {
    hide Collected;
    if exact {
      NewIdsFollow(arcs, nodes.Keys, ball0, ball1, ball2, frontier, next);
      assert found == ball1 * nodes.Keys;
    }
  }

  /** One round of the outer loop, from the contract of the middle loop. */
  lemma RoundDone(nodes: map<Id, Node>, edges: map<string, Edge>, root: Id, i: int, exact: bool,
                  frontier: set<Id>, found0: set<Id>, collected0: seq<Arc>, seen0: set<string>,
                  next: set<Id>, found: set<Id>, collected: seq<Arc>, seen: set<string>)
    requires i >= 0
    requires exact ==> NoDangling(nodes, edges)
    requires BeforeRound(nodes, Arcs(edges), root, i, exact, frontier, found0, collected0, seen0)
    requires found == found0 + frontier * nodes.Keys
    requires Collected(collected, seen) && seen0 <= seen
    requires forall a | a in collected :: a in collected0 || (a in Arcs(edges) && a.src in frontier)
    requires next <= Successors(Arcs(edges), frontier)
    requires exact ==> next == Successors(Arcs(edges), frontier) && AllSeen(Arcs(edges), frontier, seen)
    ensures BeforeRound(nodes, Arcs(edges), root, i + 1, exact, next - found, found, collected, seen)
  {
    hide Ball, Collected, RoundState, AllSeen, Successors;
    var arcs := Arcs(edges);
    BallOfNext(arcs, root, i);
    if exact {
      ArcsBetweenNodes(nodes, edges);
    }
    RoundStep(nodes, arcs, Ball(arcs, root, i - 1), Ball(arcs, root, i), Ball(arcs, root, i + 1), exact,
              frontier, found0, collected0, seen0, next, found, collected, seen);
  }

  lemma ArcsBetweenNodes(nodes: map<Id, Node>, edges: map<string, Edge>)
    requires NoDangling(nodes, edges)
    ensures forall a | a in Arcs(edges) :: a.src in nodes && a.dst in nodes
  {
  }

  /** The stored nodes among `ids`, with their records. */
  function Stored(nodes: map<Id, Node>, ids: set<Id>): map<Id, Node> {
    map id | id in ids && id in nodes :: nodes[id]
  }

  /** What the rounds established is what the query promises. */
  lemma Finish(nodes: map<Id, Node>, edges: map<string, Edge>, root: Id, depth: int, limit: int, i: int, exact: bool,
               frontier: set<Id>, found0: map<Id, Node>, collected: seq<Arc>, seen: set<string>)
    requires 0 <= i <= Max(depth, 0)
    requires BeforeRound(nodes, Arcs(edges), root, i, exact, frontier, found0.Keys, collected, seen)
    requires forall id | id in found0 :: id in nodes && found0[id] == nodes[id]
    requires |collected| < limit ==> i == Max(depth, 0) && (NoDangling(nodes, edges) ==> exact)
    ensures var found := found0 + Stored(nodes, frontier + {root}); var shown := SliceTo(collected, limit);
      && Sound(nodes, Arcs(edges), root, depth, limit, found, shown)
      && (|shown| < limit && NoDangling(nodes, edges) ==> Exact(nodes, Arcs(edges), root, depth, found, shown))
  {
    FinishSound(nodes, Arcs(edges), root, depth, limit, i, exact, frontier, found0, collected, seen);
    hide Arcs, Sound, Exact, Stored, NoDangling, BeforeRound;
    if |SliceTo(collected, limit)| < limit && NoDangling(nodes, edges) {
      assert SliceTo(collected, limit) == collected;
      FinishExact(nodes, Arcs(edges), root, depth, frontier, found0, collected, seen);
    }
  }

  lemma FinishSound(nodes: map<Id, Node>, arcs: set<Arc>, root: Id, depth: int, limit: int, i: int, exact: bool,
                    frontier: set<Id>, found0: map<Id, Node>, collected: seq<Arc>, seen: set<string>)
    requires 0 <= i <= Max(depth, 0)
    requires BeforeRound(nodes, arcs, root, i, exact, frontier, found0.Keys, collected, seen)
    requires forall id | id in found0 :: id in nodes && found0[id] == nodes[id]
    ensures Sound(nodes, arcs, root, depth, limit, found0 + Stored(nodes, frontier + {root}), SliceTo(collected, limit))
  {
    hide Collected, FromBall, SourcesIn, AllSeen, Stored, Ball, SliceTo, ArcKey;
    BallGrows(arcs, root, 0, Max(depth, 0));
    BallGrows(arcs, root, i, Max(depth, 0));
    BallGrows(arcs, root, i - 1, i);
    RootInBall(arcs, root, i, depth);
    FinishNodes(nodes, Ball(arcs, root, Max(depth, 0)), frontier + {root}, found0);
    FinishArcs(arcs, Ball(arcs, root, i - 1), Ball(arcs, root, depth - 1), limit, collected, seen);
    FinishSources(collected, limit, nodes.Keys, found0.Keys, (found0 + Stored(nodes, frontier + {root})).Keys);
  }

  lemma RootInBall(arcs: set<Arc>, root: Id, i: int, depth: int)
    requires 0 <= i <= Max(depth, 0)
    ensures root in Ball(arcs, root, 0)
    ensures Ball(arcs, root, i - 1) <= Ball(arcs, root, depth - 1)
  {
    if i > 0 {
      BallGrows(arcs, root, i - 1, depth - 1);
    }
  }

  lemma FinishNodes(nodes: map<Id, Node>, ball: set<Id>, ids: set<Id>, found0: map<Id, Node>)
    requires ids <= ball && found0.Keys <= ball
    requires forall id | id in found0 :: id in nodes && found0[id] == nodes[id]
    ensures var found := found0 + Stored(nodes, ids);
      && (forall id | id in found :: id in nodes && found[id] == nodes[id])
      && found.Keys <= ball
      && (forall id | id in ids && id in nodes :: id in found)
  {
  }

  lemma FinishArcs(arcs: set<Arc>, ball0: set<Id>, ball1: set<Id>, limit: int, collected: seq<Arc>, seen: set<string>)
    requires ball0 <= ball1 && FromBall(collected, arcs, ball0) && Collected(collected, seen)
    ensures var shown := SliceTo(collected, limit);
      && FromBall(shown, arcs, ball1)
      && (forall i, j | 0 <= i < j < |shown| :: ArcKey(shown[i]) != ArcKey(shown[j]))
      && (limit >= 0 ==> |shown| <= limit)
  {
    hide ArcKey;
    var shown := SliceTo(collected, limit);
    assert forall k | 0 <= k < |shown| :: shown[k] == collected[k];
  }

  lemma FinishSources(collected: seq<Arc>, limit: int, stored: set<Id>, found0: set<Id>, found: set<Id>)
    requires SourcesIn(collected, stored, found0) && found0 <= found
    ensures SourcesIn(SliceTo(collected, limit), stored, found)
  {
    assert forall a | a in SliceTo(collected, limit) :: a in collected;
  }

  lemma FinishExact(nodes: map<Id, Node>, arcs: set<Arc>, root: Id, depth: int,
                    frontier: set<Id>, found0: map<Id, Node>, collected: seq<Arc>, seen: set<string>)
    requires BeforeRound(nodes, arcs, root, Max(depth, 0), true, frontier, found0.Keys, collected, seen)
    ensures Exact(nodes, arcs, root, depth, found0 + Stored(nodes, frontier + {root}), collected)
  {
    hide ArcKey, Collected, AllSeen, FromBall, SourcesIn;
    var i := Max(depth, 0);
    BallGrows(arcs, root, 0, i);
    BallGrows(arcs, root, i - 1, i);
    assert root in Ball(arcs, root, 0);
    assert Ball(arcs, root, i - 1) == Ball(arcs, root, depth - 1);
    FinishExactSets(nodes, arcs, Ball(arcs, root, i - 1), Ball(arcs, root, i), root, frontier, found0);
    KeysCollected(arcs, Ball(arcs, root, i - 1), collected, seen);
  }

  lemma FinishExactSets(nodes: map<Id, Node>, arcs: set<Arc>, ball0: set<Id>, ball1: set<Id>, root: Id,
                        frontier: set<Id>, found0: map<Id, Node>)
    requires ball0 <= ball1 && root in ball1
    requires found0.Keys == ball0 * nodes.Keys
    requires frontier * nodes.Keys == (ball1 - ball0) * nodes.Keys
    ensures (found0 + Stored(nodes, frontier + {root})).Keys == ball1 * nodes.Keys
  {
    var added := Stored(nodes, frontier + {root});
    assert added.Keys == (frontier + {root}) * nodes.Keys;
    hide Stored;
    assert (found0 + added).Keys == found0.Keys + added.Keys;
    BallReached(nodes.Keys, ball0, ball1, frontier, root);
  }

  lemma BallReached(stored: set<Id>, ball0: set<Id>, ball1: set<Id>, frontier: set<Id>, root: Id)
    requires ball0 <= ball1 && root in ball1
    requires frontier * stored == (ball1 - ball0) * stored
    ensures ball0 * stored + (frontier + {root}) * stored == ball1 * stored
  {
    forall id | id in ball1 * stored ensures id in ball0 * stored + (frontier + {root}) * stored {
      if id !in ball0 {
        assert id in (ball1 - ball0) * stored;
      }
    }
    forall id | id in (frontier + {root}) * stored ensures id in ball1 {
      if id in frontier {
        assert id in frontier * stored;
      }
    }
  }

  lemma KeysCollected(arcs: set<Arc>, ids: set<Id>, collected: seq<Arc>, seen: set<string>)
    requires Collected(collected, seen) && AllSeen(arcs, ids, seen)
    ensures forall a | a in arcs && a.src in ids :: exists b | b in collected :: ArcKey(b) == ArcKey(a)
  {
    hide ArcKey;
    forall a | a in arcs && a.src in ids ensures exists b | b in collected :: ArcKey(b) == ArcKey(a) {
      assert ArcKey(a) in seen;
    }
  }
}
