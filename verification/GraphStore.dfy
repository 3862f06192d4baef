/**
 The in-memory graph store: keyed upserts, two bounded breadth-first searches
 and the neighbourhood query.
 */
module GraphStoreModule {
  import opened GraphModel
  import opened GraphAdjacency
  import opened GraphNeighbourhood
  import opened GraphUpserts
  import opened GraphSearch
  import opened GraphQueries
  import opened Options

  lemma WalkExtends(arcs: set<Arc>, src: Id, p: seq<Arc>, a: Arc)
    requires IsWalk(arcs, src, p, a.src) && a in arcs
    ensures IsWalk(arcs, src, p + [a], a.dst)
  {
    assert (p + [a])[..|p|] == p;
  }

  type PathQueue = seq<(Id, seq<Arc>)>

  /** A queue of ids with paths, seen as ids with path lengths. */
  ghost function Depths(queue: PathQueue): Queue {
    seq(|queue|, i requires 0 <= i < |queue| => (queue[i].0, |queue[i].1|))
  }

  ghost predicate AllWalks(arcs: set<Arc>, src: Id, queue: PathQueue) {
    forall x | x in queue :: IsWalk(arcs, src, x.1, x.0)
  }

  lemma DepthsLast(queue: PathQueue, x: (Id, seq<Arc>))
    ensures Depths(queue + [x]) == Depths(queue) + [(x.0, |x.1|)]
  {
  }

  /** The inner loop of `attack_path`: queue the unvisited ends of the arcs that leave `current`. */
  method ExpandPaths(out: seq<Arc>, current: Id, p: seq<Arc>, queue0: PathQueue, visited0: set<Id>,
                     ghost arcs: set<Arc>, ghost src: Id, ghost ball: Layers, ghost limit: int, ghost done: set<Id>)
    returns (queue: PathQueue, visited: set<Id>)
    requires Expanding(arcs, ball, limit, current, |p|, Depths(queue0), visited0, done)
    requires |p| < limit && IsWalk(arcs, src, p, current) && AllWalks(arcs, src, queue0)
    requires Leaving(arcs, ball, out, current, |p|)
    ensures Expanding(arcs, ball, limit, current, |p|, Depths(queue), visited, done)
    ensures AllWalks(arcs, src, queue)
    ensures visited == visited0 + Ends(out)
    ensures visited == visited0 ==> queue == queue0
  {
    hide Expanding, IsWalk;
    queue, visited := queue0, visited0;
    for j := 0 to |out|
      invariant visited == visited0 + Ends(out[..j])
      invariant visited == visited0 ==> queue == queue0
      invariant Expanding(arcs, ball, limit, current, |p|, Depths(queue), visited, done)
      invariant AllWalks(arcs, src, queue)
    {
      var a := out[j];
      EndsOfOneMore(out, j);
      if a.dst !in visited {
        Discover(arcs, ball, limit, current, |p|, Depths(queue), visited, done, a.dst);
        WalkExtends(arcs, src, p, a);
        DepthsLast(queue, (a.dst, p + [a]));
        visited := visited + {a.dst};
        queue := queue + [(a.dst, p + [a])];
      }
    }
    assert out[..|out|] == out;
  }

  /** The inner loop of `path_length_to_known_bad`, which stops at the first bad id it sees. */
  method ExpandDistances(out: seq<Arc>, current: Id, dist: int, queue0: Queue, visited0: set<Id>, bad: set<Id>,
                         ghost arcs: set<Arc>, ghost ball: Layers, ghost limit: int, ghost done: set<Id>)
    returns (hit: bool, queue: Queue, visited: set<Id>)
    requires Expanding(arcs, ball, limit, current, dist, queue0, visited0, done)
    requires dist < limit && visited0 !! bad
    requires Leaving(arcs, ball, out, current, dist)
    ensures hit <==> !(Ends(out) !! bad)
    ensures !hit ==> Expanding(arcs, ball, limit, current, dist, queue, visited, done)
    ensures !hit ==> visited == visited0 + Ends(out)
    ensures visited == visited0 ==> queue == queue0
  {
    hide Expanding;
    queue, visited := queue0, visited0;
    for j := 0 to |out|
      invariant visited == visited0 + Ends(out[..j]) && visited !! bad
      invariant visited == visited0 ==> queue == queue0
      invariant Expanding(arcs, ball, limit, current, dist, queue, visited, done)
    {
      var next := out[j].dst;
      EndsOfOneMore(out, j);
      if next in bad {
        return true, queue, visited;
      }
      if next !in visited {
        Discover(arcs, ball, limit, current, dist, queue, visited, done, next);
        visited := visited + {next};
        queue := queue + [(next, dist + 1)];
      }
    }
    assert out[..|out|] == out;
    hit := false;
  }

  class GraphStore {
    var nodes: map<Id, Node>
    var edges: map<string, Edge>

    constructor ()
      ensures nodes == map[] && edges == map[]
    {
      nodes, edges := map[], map[];
    }

    method PutNode(node: Node, observation: Option<string>)
      modifies this
      ensures nodes == UpsertNode(old(nodes), node, observation)
      ensures edges == old(edges)
    {
      var x := Sighting(node.seen, observation);
      if node.id in nodes {
        var existing := nodes[node.id];
        nodes := nodes[node.id := existing.(seen := Merge(existing.seen, x))];
      } else {
        nodes := nodes[node.id := node.(seen := Fresh(x))];
      }
    }

    method PutEdge(edge: Edge, observation: Option<string>)
      modifies this
      ensures edges == UpsertEdge(old(edges), edge, observation)
      ensures nodes == old(nodes)
    {
      var x, key := Sighting(edge.seen, observation), EdgeKey(edge);
      if key in edges {
        var existing := edges[key];
        edges := edges[key := existing.(seen := Merge(existing.seen, x))];
      } else {
        edges := edges[key := edge.(seen := Fresh(x))];
      }
    }

    method Adjacency() returns (adjacency: map<Id, seq<Arc>>)
      ensures IsAdjacency(adjacency, Arcs(edges))
    {
      hide AddArc, Forward, Backward;
      adjacency := map[];
      var todo := edges.Keys;
      while todo != {}
        invariant todo <= edges.Keys
        invariant IsAdjacency(adjacency, Arcs(edges - todo))
        decreases todo
      {
        var k :| k in todo;
        ghost var before := Arcs(edges - todo);
        AddArcKeepsAdjacency(adjacency, before, Forward(edges[k]));
        adjacency := AddArc(adjacency, Forward(edges[k]));
        AddArcKeepsAdjacency(adjacency, before + {Forward(edges[k])}, Backward(edges[k]));
        adjacency := AddArc(adjacency, Backward(edges[k]));
        ArcsOfOneMore(edges - todo, k, edges[k]);
        assert edges - (todo - {k}) == (edges - todo)[k := edges[k]];
        todo := todo - {k};
      }
      assert edges - todo == edges;
    }

    /** Answers a shortest walk of at most `maxDepth` stored edges, if there is one. */
    method AttackPath(src: Id, dst: Id, maxDepth: int) returns (found: bool, path: seq<Arc>, length: int)
      ensures ShortestWalk(Arcs(edges), src, dst, maxDepth, found, path)
      ensures length == if found then |path| else -1
      ensures !found ==> path == []
    {
      hide Ball, Arcs, Searching, Expanding, ShortestWalk, IsWalk, IsAdjacency, Leaving, Ids, Ends, Neighbours;
      var adjacency := Adjacency();
      ghost var arcs := Arcs(edges);
      ghost var ball := Around(arcs, src);
      ghost var all := {src} + Ids(arcs);
      var queue: PathQueue := [(src, [])];
      var visited := {src};
      ghost var done: set<Id> := {};
      Start(arcs, src, maxDepth);
      EmptyWalk(arcs, src);
      assert Depths(queue) == [(src, 0)];
      while queue != []
        invariant visited <= all
        invariant Searching(arcs, ball, maxDepth, Depths(queue), visited, done)
        invariant AllWalks(arcs, src, queue)
        invariant dst !in done
        decreases all - visited, |queue|
      {
        var (current, p) := queue[0];
        Take(arcs, ball, maxDepth, Depths(queue), visited, done);
        assert Depths(queue)[1..] == Depths(queue[1..]);
        queue := queue[1..];
        if current == dst {
          FoundShortest(arcs, src, dst, maxDepth, p);
          return true, p, |p|;
        }
        if |p| >= maxDepth {
          Close(arcs, src, maxDepth, current, |p|, Depths(queue), visited, done);
          done := done + {current};
          continue;
        }
        var out := Neighbours(adjacency, current);
        NeighboursLeave(adjacency, arcs, src, current, |p|);
        queue, visited := ExpandPaths(out, current, p, queue, visited, arcs, src, ball, maxDepth, done);
        Close(arcs, src, maxDepth, current, |p|, Depths(queue), visited, done);
        done := done + {current};
      }
      Exhausted(arcs, src, maxDepth, visited, done, Max(maxDepth, 0));
      NoneFound(arcs, src, dst, maxDepth);
      return false, [], -1;
    }

    /** Answers the least number of stored edges between `id` and a known bad id, up to `maxDepth`. */
    method PathLengthToKnownBad(id: Id, knownBad: seq<Id>, maxDepth: int) returns (r: Option<int>)
      ensures FirstBad(Arcs(edges), id, (set b | b in knownBad), maxDepth, r)
    {
      if knownBad == [] {
        NoBad(Arcs(edges), id, {}, maxDepth);
        assert (set b | b in knownBad) == {};
        return None;
      }
      var adjacency := Adjacency();
      var bad := set b | b in knownBad;
      if id in bad {
        BadAtStart(Arcs(edges), id, bad, maxDepth);
        return Some(0);
      }
      ghost var arcs := Arcs(edges);
      ghost var ball := Around(arcs, id);
      ghost var all := {id} + Ids(arcs);
      var queue: Queue := [(id, 0)];
      var visited := {id};
      ghost var done: set<Id> := {};
      Start(arcs, id, maxDepth);
      while queue != []
        invariant visited <= all
        invariant Searching(arcs, ball, maxDepth, queue, visited, done)
        invariant visited !! bad
        decreases all - visited, |queue|
      {
        var (current, dist) := queue[0];
        Take(arcs, ball, maxDepth, queue, visited, done);
        queue := queue[1..];
        if dist >= maxDepth {
          Close(arcs, id, maxDepth, current, dist, queue, visited, done);
          done := done + {current};
          continue;
        }
        var out := Neighbours(adjacency, current);
        NeighboursLeave(adjacency, arcs, id, current, dist);
        var hit;
        hit, queue, visited := ExpandDistances(out, current, dist, queue, visited, bad, arcs, ball, maxDepth, done);
        if hit {
          BadFoundAt(arcs, id, bad, maxDepth, dist, out, current);
          return Some(dist + 1);
        }
        Close(arcs, id, maxDepth, current, dist, queue, visited, done);
        done := done + {current};
      }
      Exhausted(arcs, id, maxDepth, visited, done, Max(maxDepth, 0));
      NoBad(arcs, id, bad, maxDepth);
      return None;
    }

    /**
     The stored nodes and edges around `root`.  The frontier is a set, so the
     order in which ids are visited, and with it which arcs survive a limit,
     is left open.
     */
    method Neighborhood(root: Id, depth: int, limit: int) returns (found: map<Id, Node>, shown: seq<Arc>)
      ensures Sound(nodes, Arcs(edges), root, depth, limit, found, shown)
      ensures |shown| < limit && NoDangling(nodes, edges) ==> Exact(nodes, Arcs(edges), root, depth, found, shown)
    {
      hide Ball, Arcs, NoDangling, Sound, Exact, IsAdjacency, AllSeen, Collected, Successors;
      var adjacency := Adjacency();
      ghost var arcs := Arcs(edges);
      ghost var exact := NoDangling(nodes, edges);
      var collected, seen, frontier, i := [], {}, {root}, 0;
      found := map[];
      FirstRound(nodes, arcs, root);
      while i < depth
        invariant 0 <= i <= Max(depth, 0)
        invariant BeforeRound(nodes, arcs, root, i, exact, frontier, found.Keys, collected, seen)
        invariant forall id | id in found :: id in nodes && found[id] == nodes[id]
        invariant exact ==> NoDangling(nodes, edges)
        invariant |collected| < limit && NoDangling(nodes, edges) ==> exact
      {
        ghost var frontier0, found0, collected0, seen0 := frontier, found.Keys, collected, seen;
        var next, cut;
        found, collected, seen, next, cut :=
          VisitFrontier(nodes, adjacency, arcs, frontier, found, collected, seen, limit);
        exact := exact && !cut;
        RoundDone(nodes, edges, root, i, exact, frontier0, found0, collected0, seen0,
                  next, found.Keys, collected, seen);
        frontier, i := next - found.Keys, i + 1;
        if |collected| >= limit {
          break;
        }
      }
      Finish(nodes, edges, root, depth, limit, i, exact, frontier, found, collected, seen);
      found := found + Stored(nodes, frontier + {root});
      shown := SliceTo(collected, limit);
    }
  }

  lemma FoundShortest(arcs: set<Arc>, src: Id, dst: Id, limit: int, p: seq<Arc>)
    requires IsWalk(arcs, src, p, dst) && |p| <= Max(limit, 0) && dst !in Around(arcs, src)(|p| - 1)
    ensures ShortestWalk(arcs, src, dst, limit, true, p)
  {
    forall q | IsWalk(arcs, src, q, dst) ensures |p| <= |q| {
      WalkStaysInBall(arcs, src, q, dst);
      if |q| < |p| {
        BallGrows(arcs, src, |q|, |p| - 1);
      }
    }
  }

  lemma NoBad(arcs: set<Arc>, src: Id, bad: set<Id>, limit: int)
    requires Ball(arcs, src, Max(limit, 0)) !! bad
    ensures FirstBad(arcs, src, bad, limit, None)
  {
  }

  lemma BadAtStart(arcs: set<Arc>, src: Id, bad: set<Id>, limit: int)
    requires src in bad
    ensures FirstBad(arcs, src, bad, limit, Some(0))
  {
    assert src in Ball(arcs, src, 0);
  }

  lemma BadFoundAt(arcs: set<Arc>, src: Id, bad: set<Id>, limit: int, d: int, out: seq<Arc>, current: Id)
    requires 0 <= d < limit
    requires Leaving(arcs, Around(arcs, src), out, current, d) && !(Ends(out) !! bad)
    requires Around(arcs, src)(d) !! bad
    ensures FirstBad(arcs, src, bad, limit, Some(d + 1))
  {
    var a :| a in out && a.dst in bad;
    assert a.dst in Ball(arcs, src, d + 1);
  }

  lemma NoneFound(arcs: set<Arc>, src: Id, dst: Id, limit: int)
    requires dst !in Ball(arcs, src, Max(limit, 0))
    ensures ShortestWalk(arcs, src, dst, limit, false, [])
  {
    BallIsWalks(arcs, src, dst, Max(limit, 0));
  }

  lemma EmptyWalk(arcs: set<Arc>, src: Id)
    ensures IsWalk(arcs, src, [], src)
  {
  }
}
