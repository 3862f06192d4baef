/**
 The stored graph, the undirected view that the queries run on, and what a
 walk and a ball are in that view.
 */
module GraphModel {
  type Id = string

  /** The part of a stored node or edge that repeated sightings merge into. */
  datatype Sightings = Sightings(
    count: int,
    lastSeen: int,
    sources: set<string>,
    properties: map<string, string>,
    observations: seq<string>)

  datatype Node = Node(id: Id, kind: string, seen: Sightings)

  datatype Edge = Edge(src: Id, kind: string, dst: Id, seen: Sightings)

  /** One orientation of a stored edge, as an adjacency list holds it. */
  datatype Arc = Arc(src: Id, dst: Id, edge: Edge, reversed: bool)

  function Forward(e: Edge): Arc {
    Arc(e.src, e.dst, e, false)
  }

  function Backward(e: Edge): Arc {
    Arc(e.dst, e.src, e, true)
  }

  // The text that stored edges and collected arcs are keyed by.

  function EdgeKeyOf(src: Id, kind: string, dst: Id): string {
    src + "|" + kind + "|" + dst
  }

  function EdgeKey(e: Edge): string {
    EdgeKeyOf(e.src, e.kind, e.dst)
  }

  function ArcKey(a: Arc): string {
    EdgeKeyOf(a.src, a.edge.kind, a.dst)
  }

  /** Both orientations of every stored edge. */
  ghost function Arcs(edges: map<string, Edge>): set<Arc> {
    (set k | k in edges :: Forward(edges[k])) + (set k | k in edges :: Backward(edges[k]))
  }

  /** `p` leads from `src` to `dst` along arcs that chain end to start. */
  ghost predicate IsWalk(arcs: set<Arc>, src: Id, p: seq<Arc>, dst: Id) {
    if p == [] then
      src == dst
    else
      var last := p[|p| - 1];
      last in arcs && last.dst == dst && IsWalk(arcs, src, p[..|p| - 1], last.src)
  }

  /** A walk of at most `n` arcs joins `src` to `dst`. */
  ghost predicate Joined(arcs: set<Arc>, src: Id, dst: Id, n: int) {
    exists p :: IsWalk(arcs, src, p, dst) && |p| <= n
  }

  ghost function Successors(arcs: set<Arc>, from: set<Id>): set<Id> {
    set a | a in arcs && a.src in from :: a.dst
  }

  /** The ids that lie within `n` arcs of `src`; a negative radius gives the empty ball. */
  ghost function Ball(arcs: set<Arc>, src: Id, n: int): set<Id>
    decreases n
  {
    if n < 0 then {}
    else if n == 0 then {src}
    else Ball(arcs, src, n - 1) + Successors(arcs, Ball(arcs, src, n - 1))
  }

  lemma {:induction false} BallGrows(arcs: set<Arc>, src: Id, m: int, n: int)
    requires m <= n
    ensures Ball(arcs, src, m) <= Ball(arcs, src, n)
    decreases n - m
  {
    if m < n {
      BallGrows(arcs, src, m, n - 1);
    }
  }

  lemma {:induction false} WalkStaysInBall(arcs: set<Arc>, src: Id, p: seq<Arc>, dst: Id)
    requires IsWalk(arcs, src, p, dst)
    ensures dst in Ball(arcs, src, |p|)
    decreases |p|
  {
    if p != [] {
      WalkStaysInBall(arcs, src, p[..|p| - 1], p[|p| - 1].src);
    }
  }

  lemma {:induction false} BallHasWalk(arcs: set<Arc>, src: Id, dst: Id, n: int) returns (p: seq<Arc>)
    requires dst in Ball(arcs, src, n)
    ensures IsWalk(arcs, src, p, dst) && |p| <= n
    decreases n
  {
    if n == 0 {
      p := [];
    } else if dst in Ball(arcs, src, n - 1) {
      p := BallHasWalk(arcs, src, dst, n - 1);
    } else {
      var a :| a in arcs && a.src in Ball(arcs, src, n - 1) && a.dst == dst;
      var q := BallHasWalk(arcs, src, a.src, n - 1);
      p := q + [a];
      assert p[..|p| - 1] == q;
    }
  }

  /** The ball of radius `n` is exactly what walks of at most `n` arcs can reach. */
  lemma BallIsWalks(arcs: set<Arc>, src: Id, dst: Id, n: int)
    ensures dst in Ball(arcs, src, n) <==> Joined(arcs, src, dst, n)
  {
    if dst in Ball(arcs, src, n) {
      var p := BallHasWalk(arcs, src, dst, n);
    }
    if Joined(arcs, src, dst, n) {
      var p :| IsWalk(arcs, src, p, dst) && |p| <= n;
      WalkStaysInBall(arcs, src, p, dst);
      BallGrows(arcs, src, |p|, n);
    }
  }

  /** Every arc can be walked back, so the view is undirected. */
  lemma ArcsAreSymmetric(edges: map<string, Edge>, a: Arc)
    requires a in Arcs(edges)
    ensures exists b :: b in Arcs(edges) && b.src == a.dst && b.dst == a.src && b.edge == a.edge
  {
    var k :| k in edges && (a == Forward(edges[k]) || a == Backward(edges[k]));
    assert Forward(edges[k]) in Arcs(edges) && Backward(edges[k]) in Arcs(edges);
  }

  lemma {:induction false} WalkStartsLonger(arcs: set<Arc>, a: Arc, p: seq<Arc>, dst: Id)
    requires a in arcs && IsWalk(arcs, a.dst, p, dst)
    ensures IsWalk(arcs, a.src, [a] + p, dst)
  {
    if p == [] {
      assert [a] + p == [a] && [a][..0] == [];
      assert IsWalk(arcs, a.src, [], a.src);
    } else {
      WalkStartsLonger(arcs, a, p[..|p| - 1], p[|p| - 1].src);
      assert ([a] + p)[..|p|] == [a] + p[..|p| - 1];
    }
  }

  lemma {:induction false} WalkBack(edges: map<string, Edge>, src: Id, p: seq<Arc>, dst: Id) returns (q: seq<Arc>)
    requires IsWalk(Arcs(edges), src, p, dst)
    ensures IsWalk(Arcs(edges), dst, q, src) && |q| == |p|
    decreases |p|
  {
    hide Arcs;
    q := [];
    if p != [] {
      var last := p[|p| - 1];
      var rest := WalkBack(edges, src, p[..|p| - 1], last.src);
      ArcsAreSymmetric(edges, last);
      var b :| b in Arcs(edges) && b.src == last.dst && b.dst == last.src && b.edge == last.edge;
      WalkStartsLonger(Arcs(edges), b, rest, src);
      q := [b] + rest;
    }
  }

  /** Distances are symmetric, although the stored edges are directed. */
  lemma JoinedBothWays(edges: map<string, Edge>, src: Id, dst: Id, n: int)
    ensures Joined(Arcs(edges), src, dst, n) <==> Joined(Arcs(edges), dst, src, n)
  {
    hide Arcs, IsWalk;
    if Joined(Arcs(edges), src, dst, n) {
      var p :| IsWalk(Arcs(edges), src, p, dst) && |p| <= n;
      var q := WalkBack(edges, src, p, dst);
    }
    if Joined(Arcs(edges), dst, src, n) {
      var p :| IsWalk(Arcs(edges), dst, p, src) && |p| <= n;
      var q := WalkBack(edges, dst, p, src);
    }
  }
}
