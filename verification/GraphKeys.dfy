/** When the text that edges are keyed by identifies an edge, and when it does not. */
module GraphKeys {
  import opened GraphModel
  import opened GraphAdjacency
  import opened GraphNeighbourhood
  import opened GraphUpserts
  import opened Options

  /** No other edge, of a kind without a bar, has the key of this one. */
  ghost predicate Unambiguous(src: Id, kind: string, dst: Id) {
    forall s, k, d | '|' !in k && EdgeKeyOf(s, k, d) == EdgeKeyOf(src, kind, dst) :: s == src && k == kind && d == dst
  }

  function FirstBar(s: string): (i: nat)
    requires '|' in s
    ensures i < |s| && s[i] == '|' && '|' !in s[..i]
  {
    if s[0] == '|' then 0 else
      assert s == [s[0]] + s[1..];
      var i := 1 + FirstBar(s[1..]);
      assert s[..i] == [s[0]] + s[1..][..i - 1];
      i
  }

  function LastBar(s: string): (i: nat)
    requires '|' in s
    ensures i < |s| && s[i] == '|' && '|' !in s[i + 1..]
  {
    var n := |s| - 1;
    if s[n] == '|' then n else
      assert s == s[..n] + [s[n]];
      var i := LastBar(s[..n]);
      assert s[i + 1..] == s[..n][i + 1..] + [s[n]];
      i
  }

  lemma {:induction false} SplitAtBar(a: string, b: string, x: string, y: string)
    requires '|' !in a && '|' !in x && a + "|" + b == x + "|" + y
    ensures a == x && b == y
  {
    var s, t := a + "|" + b, x + "|" + y;
    assert s[|a|] == '|' && t[|x|] == '|';
    assert forall i | 0 <= i < |a| :: s[i] == a[i];
    assert forall i | 0 <= i < |x| :: t[i] == x[i];
    assert s[..|a|] == a && t[..|x|] == x;
    assert s[|a| + 1..] == b && t[|x| + 1..] == y;
  }

  lemma KeyAsTwoParts(s: string, k: string, d: string)
    ensures EdgeKeyOf(s, k, d) == s + "|" + (k + "|" + d)
  {
  }

  /** Keys of edges whose sources and kinds have no bar name the same edge when they are equal. */
  lemma KeysIdentify(s: Id, k: string, d: Id, s': Id, k': string, d': Id)
    requires '|' !in s && '|' !in k && '|' !in s' && '|' !in k'
    requires EdgeKeyOf(s, k, d) == EdgeKeyOf(s', k', d')
    ensures s == s' && k == k' && d == d'
  {
    KeyAsTwoParts(s, k, d);
    KeyAsTwoParts(s', k', d');
    SplitAtBar(s, k + "|" + d, s', k' + "|" + d');
    SplitAtBar(k, d, k', d');
  }

  function Bars(s: string): nat {
    if s == [] then 0 else Bars(s[1..]) + if s[0] == '|' then 1 else 0
  }

  lemma {:induction false} BarsAdd(s: string, t: string)
    ensures Bars(s + t) == Bars(s) + Bars(t)
  {
    if s == [] {
      assert s + t == t;
    } else {
      BarsAdd(s[1..], t);
      assert (s + t)[1..] == s[1..] + t;
    }
  }

  lemma {:induction false} NoBars(s: string)
    ensures Bars(s) == 0 <==> '|' !in s
  {
    if s != [] {
      NoBars(s[1..]);
      assert s == [s[0]] + s[1..];
    }
  }

  lemma KeyBars(s: string, k: string, d: string)
    ensures Bars(EdgeKeyOf(s, k, d)) == Bars(s) + Bars(k) + Bars(d) + 2
  {
    BarsAdd(s, "|");
    BarsAdd(s + "|", k);
    BarsAdd(s + "|" + k, "|");
    BarsAdd(s + "|" + k + "|", d);
  }

  /** An edge key is ambiguous exactly when an endpoint holds a bar. */
  lemma KeyUnambiguousIff(src: Id, kind: string, dst: Id)
    requires '|' !in kind
    ensures Unambiguous(src, kind, dst) <==> '|' !in src && '|' !in dst
  {
    if '|' in src {
      var i := LastBar(src);
      var s, k, d := src[..i], src[i + 1..], kind + "|" + dst;
      assert src == s + "|" + k;
      assert EdgeKeyOf(s, k, d) == EdgeKeyOf(src, kind, dst);
      assert |s| < |src|;
    } else if '|' in dst {
      var i := FirstBar(dst);
      var s, k, d := src + "|" + kind, dst[..i], dst[i + 1..];
      assert dst == k + "|" + d;
      assert EdgeKeyOf(s, k, d) == EdgeKeyOf(src, kind, dst);
      assert |d| < |dst|;
    } else {
      forall s, k, d | '|' !in k && EdgeKeyOf(s, k, d) == EdgeKeyOf(src, kind, dst)
        ensures s == src && k == kind && d == dst
      {
        KeyBars(s, k, d);
        KeyBars(src, kind, dst);
        NoBars(src); NoBars(kind); NoBars(dst); NoBars(s); NoBars(k);
        KeysIdentify(s, k, d, src, kind, dst);
      }
    }
  }

  /** An edge whose key is taken is absorbed by the edge stored there: only the sightings change. */
  lemma AbsorbedByKey(edges: map<string, Edge>, f: Edge, observation: Option<string>)
    requires EdgeKey(f) in edges
    ensures var after := UpsertEdge(edges, f, observation); var e := edges[EdgeKey(f)];
      && after.Keys == edges.Keys
      && after[EdgeKey(f)].src == e.src && after[EdgeKey(f)].kind == e.kind && after[EdgeKey(f)].dst == e.dst
      && after[EdgeKey(f)].seen.count == e.seen.count + 1
      && forall k | k in edges && k != EdgeKey(f) :: after[k] == edges[k]
  {
    hide EdgeKey;
  }

  lemma FirstUpsert(e: Edge, observation: Option<string>)
    ensures var after := UpsertEdge(map[], e, observation);
      && after.Keys == {EdgeKey(e)}
      && after[EdgeKey(e)].src == e.src && after[EdgeKey(e)].dst == e.dst
      && after[EdgeKey(e)].seen.count == e.seen.count
  {
    hide EdgeKey;
  }

  lemma CollidingText()
    ensures EdgeKeyOf("a", "accessed", "created|b") == EdgeKeyOf("a|accessed", "created", "b")
  {
    var key := "a|accessed|created|b";
    assert EdgeKeyOf("a", "accessed", "created|b") == key;
    assert EdgeKeyOf("a|accessed", "created", "b") == key;
  }

  /**
   Two edges of the program's own kinds that collide: the second is absorbed
   by the first, and no stored edge has its ends.  Entity ids are made of
   tenant, type and a hash, so a bar in one comes from the tenant id.
   */
  lemma KeyCollision(x: Sightings, y: Sightings, observation: Option<string>)
    ensures var e, f := Edge("a", "accessed", "created|b", x), Edge("a|accessed", "created", "b", y);
      var after := UpsertEdge(UpsertEdge(map[], e, observation), f, observation);
      && EdgeKey(e) == EdgeKey(f)
      && after.Keys == {EdgeKey(e)}
      && after[EdgeKey(e)].src == "a" != f.src && after[EdgeKey(e)].dst == "created|b" != f.dst
      && after[EdgeKey(e)].seen.count == x.count + 1
  {
    var e, f := Edge("a", "accessed", "created|b", x), Edge("a|accessed", "created", "b", y);
    CollidingText();
    assert |"a"| != |f.src| && |"created|b"| != |f.dst|;
    hide EdgeKeyOf, UpsertEdge;
    FirstUpsert(e, observation);
    AbsorbedByKey(UpsertEdge(map[], e, observation), f, observation);
  }

  /** No end and no kind of a stored edge holds a bar. */
  ghost predicate BarFree(edges: map<string, Edge>) {
    forall i | i in edges :: '|' !in edges[i].src && '|' !in edges[i].kind && '|' !in edges[i].dst
  }

  /** Every edge sits under its own key. */
  ghost predicate Keyed(edges: map<string, Edge>) {
    forall i | i in edges :: EdgeKey(edges[i]) == i
  }

  /** The key of the edge of the same kind that leads back. */
  function OppositeKey(e: Edge): string {
    EdgeKeyOf(e.dst, e.kind, e.src)
  }

  /** What a neighbourhood query may answer when it collects fewer than `limit` arcs. */
  ghost predicate ExactAnswer(nodes: map<Id, Node>, edges: map<string, Edge>, root: Id, depth: int, limit: int,
                              found: map<Id, Node>, shown: seq<Arc>) {
    && Sound(nodes, Arcs(edges), root, depth, limit, found, shown)
    && Exact(nodes, Arcs(edges), root, depth, found, shown)
    && |shown| < limit
  }

  ghost predicate Touches(edges: map<string, Edge>, root: Id, depth: int, e: Edge) {
    e.src in Ball(Arcs(edges), root, depth - 1) || e.dst in Ball(Arcs(edges), root, depth - 1)
  }

  ghost predicate Shows(shown: seq<Arc>, e: Edge) {
    exists a | a in shown :: a.edge == e
  }

  /** An arc of this kind between these two ids, in one orientation or the other. */
  predicate Between(a: Arc, e: Edge) {
    a.edge.kind == e.kind && ((a.src == e.src && a.dst == e.dst) || (a.src == e.dst && a.dst == e.src))
  }

  /**
   With endpoints and kinds free of bars, an exact answer shows an edge of
   the same kind between the same two ids, in one orientation or the other,
   exactly when a stored edge touches the ball of radius `depth - 1`.
   */
  lemma ExactEdges(nodes: map<Id, Node>, edges: map<string, Edge>, root: Id, depth: int, limit: int,
                   found: map<Id, Node>, shown: seq<Arc>, k: string)
    requires BarFree(edges) && k in edges
    requires ExactAnswer(nodes, edges, root, depth, limit, found, shown)
    ensures Touches(edges, root, depth, edges[k]) <==> exists a | a in shown :: Between(a, edges[k])
  {
    hide Ball, EdgeKeyOf;
    var e, arcs := edges[k], Arcs(edges);
    var ball := Ball(arcs, root, depth - 1);
    assert Forward(e) in arcs && Backward(e) in arcs;
    if e.src in ball || e.dst in ball {
      var a := if e.src in ball then Forward(e) else Backward(e);
      var b :| b in shown && ArcKey(b) == ArcKey(a);
      ArcOfEdge(edges, b);
      KeysIdentify(b.src, b.edge.kind, b.dst, a.src, a.edge.kind, a.dst);
    }
  }

  /** An edge that no edge of its kind leads back along is shown itself. */
  lemma ShownWithoutOpposite(nodes: map<Id, Node>, edges: map<string, Edge>, root: Id, depth: int, limit: int,
                             found: map<Id, Node>, shown: seq<Arc>, k: string)
    requires BarFree(edges) && Keyed(edges) && k in edges
    requires ExactAnswer(nodes, edges, root, depth, limit, found, shown)
    requires Touches(edges, root, depth, edges[k])
    requires OppositeKey(edges[k]) !in edges || edges[k].src == edges[k].dst
    ensures Shows(shown, edges[k])
  {
    hide Ball, EdgeKeyOf;
    ExactEdges(nodes, edges, root, depth, limit, found, shown, k);
    var e := edges[k];
    var a :| a in shown && Between(a, e);
    ArcOfEdge(edges, a);
  }

  /** Elements of pairwise different keys that stand for all of `todo`. */
  ghost predicate StandFor<T(!new)>(shown: seq<T>, todo: set<T>, key: T -> string) {
    && (forall a | a in shown :: a in todo)
    && (forall i, j | 0 <= i < j < |shown| :: key(shown[i]) != key(shown[j]))
    && (forall a | a in todo :: Stands(shown, key, key(a)))
  }

  ghost predicate Stands<T>(shown: seq<T>, key: T -> string, k: string) {
    exists i :: 0 <= i < |shown| && key(shown[i]) == k
  }

  lemma StandsLonger<T>(shown: seq<T>, x: T, key: T -> string)
    ensures forall k | Stands(shown, key, k) :: Stands(shown + [x], key, k)
    ensures Stands(shown + [x], key, key(x))
  {
    var longer := shown + [x];
    assert longer[|shown|] == x;
    forall k | Stands(shown, key, k) ensures Stands(longer, key, k) {
      var i :| 0 <= i < |shown| && key(shown[i]) == k;
      assert longer[i] == shown[i];
    }
  }

  lemma StandForOneMore<T(!new)>(shown: seq<T>, todo: set<T>, key: T -> string, x: T)
    requires StandFor(shown, todo, key) && !Stands(shown, key, key(x))
    ensures StandFor(shown + [x], todo + {x}, key)
  {
    StandsLonger(shown, x, key);
    assert forall i | 0 <= i < |shown| :: key(shown[i]) != key(x);
    hide Stands;
  }

  lemma {:induction false} Representatives<T(!new)>(todo: set<T>, key: T -> string) returns (shown: seq<T>)
    ensures StandFor(shown, todo, key)
  {
    shown := [];
    if todo != {} {
      var x :| x in todo;
      var before := Representatives(todo - {x}, key);
      assert todo - {x} + {x} == todo;
      if Stands(before, key, key(x)) {
        shown := before;
      } else {
        StandForOneMore(before, todo - {x}, key, x);
        shown := before + [x];
      }
    }
  }

  /** The arc of the opposite edge that has the key of `a`. */
  lemma OppositeArc(edges: map<string, Edge>, k: string, a: Arc) returns (b: Arc)
    requires BarFree(edges) && Keyed(edges) && k in edges && a in Arcs(edges) && a.edge == edges[k]
    requires OppositeKey(edges[k]) in edges && edges[k].src != edges[k].dst
    ensures b in Arcs(edges) && b.edge != edges[k] && b.src == a.src && ArcKey(b) == ArcKey(a)
  {
    hide EdgeKeyOf;
    var e, f := edges[k], edges[OppositeKey(edges[k])];
    KeysIdentify(f.src, f.kind, f.dst, e.dst, e.kind, e.src);
    ArcOfEdge(edges, a);
    assert Forward(f) in Arcs(edges) && Backward(f) in Arcs(edges);
    b := if a == Forward(e) then Backward(f) else Forward(f);
  }

  /** Any choice of one arc for every key that leaves the inner ball is an exact answer. */
  lemma ChoiceIsExact(nodes: map<Id, Node>, arcs: set<Arc>, root: Id, depth: int, shown: seq<Arc>)
    requires FromBall(shown, arcs, Ball(arcs, root, depth - 1))
    requires forall i, j | 0 <= i < j < |shown| :: ArcKey(shown[i]) != ArcKey(shown[j])
    requires forall a | a in arcs && a.src in Ball(arcs, root, depth - 1) :: exists b | b in shown :: ArcKey(b) == ArcKey(a)
    ensures var found := Stored(nodes, Ball(arcs, root, Max(depth, 0)));
      && Sound(nodes, arcs, root, depth, |shown| + 1, found, shown)
      && Exact(nodes, arcs, root, depth, found, shown)
  {
    hide Ball, ArcKey;
    RootInBall(arcs, root, 0, Max(depth, 0));
    BallGrows(arcs, root, 0, Max(depth, 0));
    BallGrows(arcs, root, depth - 1, Max(depth, 0));
  }

  /** With an opposite edge, some exact answer leaves the edge out. */
  lemma HiddenByOpposite(nodes: map<Id, Node>, edges: map<string, Edge>, root: Id, depth: int, k: string)
    returns (limit: int, found: map<Id, Node>, shown: seq<Arc>)
    requires BarFree(edges) && Keyed(edges) && k in edges
    requires OppositeKey(edges[k]) in edges && edges[k].src != edges[k].dst
    ensures ExactAnswer(nodes, edges, root, depth, limit, found, shown) && !Shows(shown, edges[k])
  {
    hide Ball, ArcKey, Keyed, BarFree, OppositeKey, Arcs, Sound, Exact, Stored;
    var arcs, ball := Arcs(edges), Ball(Arcs(edges), root, depth - 1);
    var inner := set a | a in arcs && a.src in ball && a.edge != edges[k];
    shown := Representatives(inner, ArcKey);
    limit, found := |shown| + 1, Stored(nodes, Ball(arcs, root, Max(depth, 0)));
    forall a | a in arcs && a.src in ball ensures exists b | b in shown :: ArcKey(b) == ArcKey(a) {
      if a.edge == edges[k] {
        var b := OppositeArc(edges, k, a);
        assert b in inner;
      } else {
        assert a in inner;
      }
      assert Stands(shown, ArcKey, ArcKey(a));
    }
    ChoiceIsExact(nodes, arcs, root, depth, shown);
  }

  /**
   The exact condition: every exact answer shows a touching edge itself
   exactly when no other edge of its kind leads back, or the edge is a loop.
   */
  lemma ShownItselfIff(nodes: map<Id, Node>, edges: map<string, Edge>, root: Id, depth: int, k: string)
    requires BarFree(edges) && Keyed(edges) && k in edges && Touches(edges, root, depth, edges[k])
    ensures (forall limit, found, shown | ExactAnswer(nodes, edges, root, depth, limit, found, shown)
               :: Shows(shown, edges[k]))
      <==> OppositeKey(edges[k]) !in edges || edges[k].src == edges[k].dst
  {
    hide ExactAnswer, Shows, Touches, OppositeKey;
    if OppositeKey(edges[k]) !in edges || edges[k].src == edges[k].dst {
      forall limit, found, shown | ExactAnswer(nodes, edges, root, depth, limit, found, shown)
        ensures Shows(shown, edges[k])
      {
        ShownWithoutOpposite(nodes, edges, root, depth, limit, found, shown, k);
      }
    } else {
      var limit, found, shown := HiddenByOpposite(nodes, edges, root, depth, k);
    }
  }

  /**
   The smallest such graph: two addresses with a connection each way, as two
   events with these addresses in turn leave it.  Asked for the
   neighbourhood of `a`, an exact answer may show the first connection only.
   */
  lemma ReturnConnectionIsHidden(a: Id, b: Id, x: Sightings, y: Sightings)
    requires a != b && '|' !in a && '|' !in b
    ensures var there, back := Edge(a, "connected_to", b, x), Edge(b, "connected_to", a, y);
      var nodes := map[a := Node(a, "IP", x), b := Node(b, "IP", x)];
      var edges := map[EdgeKey(there) := there][EdgeKey(back) := back];
      && NoDangling(nodes, edges) && Keyed(edges) && BarFree(edges) && back in edges.Values
      && ExactAnswer(nodes, edges, a, 1, 100, nodes, [Forward(there)])
      && Touches(edges, a, 1, back) && !Shows([Forward(there)], back)
  {
    var there, back := Edge(a, "connected_to", b, x), Edge(b, "connected_to", a, y);
    var nodes := map[a := Node(a, "IP", x), b := Node(b, "IP", x)];
    var edges := map[EdgeKey(there) := there][EdgeKey(back) := back];
    assert '|' !in "connected_to";
    hide EdgeKeyOf, Ball, Sound, Exact, Arcs;
    TwoEdges(there, back);
    ReturnBalls(there, back, Arcs(edges));
    ReturnIsExact(there, back, Arcs(edges), nodes);
  }

  lemma TwoEdges(there: Edge, back: Edge)
    requires there.src == back.dst && there.dst == back.src && there.kind == back.kind && there.src != there.dst
    requires '|' !in there.src && '|' !in there.kind && '|' !in there.dst
    ensures var edges := map[EdgeKey(there) := there][EdgeKey(back) := back];
      && Keyed(edges) && BarFree(edges) && edges.Values == {there, back} && BothWays(there, back, Arcs(edges))
  {
    if EdgeKey(there) == EdgeKey(back) {
      KeysIdentify(there.src, there.kind, there.dst, back.src, back.kind, back.dst);
    }
    hide EdgeKeyOf, Arcs;
    var one: map<string, Edge> := map[EdgeKey(there) := there];
    var edges := one[EdgeKey(back) := back];
    assert edges[EdgeKey(there)] == there && edges[EdgeKey(back)] == back;
    NoArcs();
    ArcsOfOneMore(map[], EdgeKey(there), there);
    ArcsOfOneMore(one, EdgeKey(back), back);
    assert Arcs(edges) == {Forward(there), Backward(there), Forward(back), Backward(back)};
  }

  lemma NoArcs()
    ensures Arcs(map[]) == {}
  {
  }

  ghost predicate BothWays(there: Edge, back: Edge, arcs: set<Arc>) {
    && there.src == back.dst && there.dst == back.src && there.kind == back.kind && there.src != there.dst
    && arcs == {Forward(there), Backward(there), Forward(back), Backward(back)}
  }

  lemma ReturnBalls(there: Edge, back: Edge, arcs: set<Arc>)
    requires BothWays(there, back, arcs)
    ensures Ball(arcs, there.src, 0) == {there.src} && Ball(arcs, there.src, 1) == {there.src, there.dst}
  {
    assert Successors(arcs, {there.src}) == {there.dst};
  }

  lemma ReturnIsExact(there: Edge, back: Edge, arcs: set<Arc>, nodes: map<Id, Node>)
    requires BothWays(there, back, arcs) && nodes.Keys == {there.src, there.dst}
    ensures Sound(nodes, arcs, there.src, 1, 100, nodes, [Forward(there)])
    ensures Exact(nodes, arcs, there.src, 1, nodes, [Forward(there)])
  {
    ReturnBalls(there, back, arcs);
    hide Ball;
    assert forall a | a in arcs && a.src == there.src :: ArcKey(a) == ArcKey([Forward(there)][0]);
  }

  lemma ArcOfEdge(edges: map<string, Edge>, a: Arc)
    requires a in Arcs(edges)
    ensures exists k | k in edges :: a.edge == edges[k] && (a == Forward(edges[k]) || a == Backward(edges[k]))
  {
  }
}
