/** The adjacency lists that every query builds from the stored edges. */
module GraphAdjacency {
  import opened GraphModel
  import opened GraphSearch

  /** Each adjacency list holds exactly the arcs that leave its id. */
  ghost predicate IsAdjacency(adjacency: map<Id, seq<Arc>>, arcs: set<Arc>) {
    && (forall id, a | id in adjacency && a in adjacency[id] :: a in arcs && a.src == id)
    && (forall a | a in arcs :: a.src in adjacency && a in adjacency[a.src])
  }

  function Neighbours(adjacency: map<Id, seq<Arc>>, id: Id): seq<Arc> {
    if id in adjacency then adjacency[id] else []
  }

  function AddArc(adjacency: map<Id, seq<Arc>>, a: Arc): map<Id, seq<Arc>> {
    adjacency[a.src := Neighbours(adjacency, a.src) + [a]]
  }

  lemma AddArcKeepsAdjacency(adjacency: map<Id, seq<Arc>>, arcs: set<Arc>, a: Arc)
    requires IsAdjacency(adjacency, arcs)
    ensures IsAdjacency(AddArc(adjacency, a), arcs + {a})
  {
    var after := AddArc(adjacency, a);
    assert after[a.src][|after[a.src]| - 1] == a;
    forall b | b in arcs ensures b in after[b.src] {
      var i :| 0 <= i < |adjacency[b.src]| && adjacency[b.src][i] == b;
      assert after[b.src][i] == b;
    }
  }

  lemma ArcsOfOneMore(m: map<string, Edge>, k: string, e: Edge)
    requires k !in m
    ensures Arcs(m[k := e]) == Arcs(m) + {Forward(e)} + {Backward(e)}
  {
    var m' := m[k := e];
    assert m'[k] == e;
    forall a | a in Arcs(m) ensures a in Arcs(m') {
      var i :| i in m && (a == Forward(m[i]) || a == Backward(m[i]));
      assert m'[i] == m[i];
    }
  }

  ghost function Ends(out: seq<Arc>): set<Id> {
    set a | a in out :: a.dst
  }

  /** `out` are the arcs that leave `current`, which lies within `d` arcs of the start. */
  ghost predicate Leaving(arcs: set<Arc>, ball: Layers, out: seq<Arc>, current: Id, d: int) {
    forall a | a in out :: a in arcs && a.src == current && a.dst in ball(d + 1)
  }

  lemma NeighboursLeave(adjacency: map<Id, seq<Arc>>, arcs: set<Arc>, src: Id, current: Id, d: int)
    requires IsAdjacency(adjacency, arcs) && d >= 0 && current in Around(arcs, src)(d)
    ensures Leaving(arcs, Around(arcs, src), Neighbours(adjacency, current), current, d)
    ensures forall a | a in arcs && a.src == current :: a.dst in Ends(Neighbours(adjacency, current))
    ensures Ends(Neighbours(adjacency, current)) <= {src} + Ids(arcs)
  {
    forall a | a in Neighbours(adjacency, current)
      ensures a in arcs && a.src == current && a.dst in Around(arcs, src)(d + 1)
    {
      OneArcFurther(arcs, src, a, d);
    }
  }

  ghost function Ids(arcs: set<Arc>): set<Id> {
    set a | a in arcs :: a.dst
  }

  lemma EndsOfOneMore(out: seq<Arc>, j: nat)
    requires j < |out|
    ensures Ends(out[..j + 1]) == Ends(out[..j]) + {out[j].dst}
  {
    assert out[..j + 1] == out[..j] + [out[j]];
  }
}
