/**
 The invariant that both breadth-first searches keep, and the steps that keep
 it.  A queue entry is an id with the number of arcs that led to it; `done`
 are the ids already taken off the queue.
 */
module GraphSearch {
  import opened GraphModel
  import opened Options

  type Queue = seq<(Id, int)>

  /** The balls around the start, by radius. */
  type Layers = int -> set<Id>

  ghost function Around(arcs: set<Arc>, src: Id): Layers {
    n => Ball(arcs, src, n)
  }

  ghost function Queued(q: Queue): set<Id> {
    set i | 0 <= i < |q| :: q[i].0
  }

  /** Queue entries lie in two neighbouring levels, in order, each at its exact distance. */
  ghost predicate InOrder(ball: Layers, limit: int, d: int, q: Queue) {
    && (forall i | 0 <= i < |q| :: d <= q[i].1 <= d + 1 && q[i].1 <= Max(limit, 0))
    && (forall i, j | 0 <= i < j < |q| :: q[i].1 <= q[j].1)
    && (forall i | 0 <= i < |q| :: q[i].0 in ball(q[i].1) && q[i].0 !in ball(q[i].1 - 1))
  }

  /** Everything that an id taken off the queue leads to was visited, unless the depth limit cut it. */
  ghost predicate Closed(arcs: set<Arc>, ball: Layers, limit: int, visited: set<Id>, done: set<Id>) {
    forall a | a in arcs && a.src in done && a.src in ball(limit - 1) :: a.dst in visited
  }

  /** Holds whenever the search is about to look at its queue. */
  ghost predicate Searching(arcs: set<Arc>, ball: Layers, limit: int, q: Queue, visited: set<Id>, done: set<Id>) {
    && visited == done + Queued(q)
    && Closed(arcs, ball, limit, visited, done)
    && ball(0) <= visited
    && (q != [] ==> q[0].1 >= 0 && ball(q[0].1) <= visited && InOrder(ball, limit, q[0].1, q))
  }

  /** Holds while the arcs of `current`, taken from the queue at depth `d`, are examined. */
  ghost predicate Expanding(arcs: set<Arc>, ball: Layers, limit: int, current: Id, d: int,
                            q: Queue, visited: set<Id>, done: set<Id>) {
    && visited == done + {current} + Queued(q)
    && Closed(arcs, ball, limit, visited, done)
    && ball(0) <= visited
    && 0 <= d <= Max(limit, 0)
    && current in ball(d) && current !in ball(d - 1)
    && ball(d) <= visited
    && InOrder(ball, limit, d, q)
  }

  lemma QueuedFirst(q: Queue)
    requires q != []
    ensures Queued(q) == {q[0].0} + Queued(q[1..])
  {
    forall x | x in Queued(q) ensures x in {q[0].0} + Queued(q[1..]) {
      var i :| 0 <= i < |q| && q[i].0 == x;
      assert i == 0 || q[1..][i - 1].0 == x;
    }
    forall x | x in Queued(q[1..]) ensures x in Queued(q) {
      var i :| 0 <= i < |q[1..]| && q[1..][i].0 == x;
      assert q[i + 1].0 == x;
    }
  }

  lemma QueuedLast(q: Queue, x: Id, d: int)
    ensures Queued(q + [(x, d)]) == Queued(q) + {x}
  {
    var q' := q + [(x, d)];
    assert q'[|q|].0 == x;
    forall y | y in Queued(q) ensures y in Queued(q') {
      var i :| 0 <= i < |q| && q[i].0 == y;
      assert q'[i].0 == y;
    }
  }

  lemma Start(arcs: set<Arc>, src: Id, limit: int)
    ensures Searching(arcs, Around(arcs, src), limit, [(src, 0)], {src}, {})
  {
    QueuedFirst([(src, 0)]);
  }

  lemma Take(arcs: set<Arc>, ball: Layers, limit: int, q: Queue, visited: set<Id>, done: set<Id>)
    requires q != [] && Searching(arcs, ball, limit, q, visited, done)
    ensures Expanding(arcs, ball, limit, q[0].0, q[0].1, q[1..], visited, done)
    ensures 0 <= q[0].1 <= Max(limit, 0) && q[0].0 in ball(q[0].1) && q[0].0 !in ball(q[0].1 - 1)
    ensures q[0].0 in visited && ball(q[0].1) <= visited
  {
    QueuedFirst(q);
  }

  lemma Discover(arcs: set<Arc>, ball: Layers, limit: int, current: Id, d: int,
                 q: Queue, visited: set<Id>, done: set<Id>, x: Id)
    requires Expanding(arcs, ball, limit, current, d, q, visited, done)
    requires d < limit && x !in visited && x in ball(d + 1)
    ensures Expanding(arcs, ball, limit, current, d, q + [(x, d + 1)], visited + {x}, done)
  {
    QueuedLast(q, x, d + 1);
  }

  lemma OneArcFurther(arcs: set<Arc>, src: Id, a: Arc, d: int)
    requires d >= 0 && a in arcs && a.src in Ball(arcs, src, d)
    ensures a.dst in Around(arcs, src)(d + 1)
  {
    assert a.dst in Successors(arcs, Ball(arcs, src, d));
  }

  /** When every id of one ball is closed, the next ball is visited. */
  lemma NextBallVisited(arcs: set<Arc>, src: Id, limit: int, d: int, visited: set<Id>, done: set<Id>)
    requires 0 <= d < limit
    requires Around(arcs, src)(d) <= done <= visited
    requires Closed(arcs, Around(arcs, src), limit, visited, done)
    ensures Around(arcs, src)(d + 1) <= visited
  {
    BallGrows(arcs, src, d, limit - 1);
  }

  /** With every arc of `current` looked at, or too deep to matter, the search goes on to the next entry. */
  lemma Close(arcs: set<Arc>, src: Id, limit: int, current: Id, d: int,
              q: Queue, visited: set<Id>, done: set<Id>)
    requires Expanding(arcs, Around(arcs, src), limit, current, d, q, visited, done)
    requires d >= limit || forall a | a in arcs && a.src == current :: a.dst in visited
    ensures Searching(arcs, Around(arcs, src), limit, q, visited, done + {current})
  {
    hide Ball, InOrder, Closed, Queued;
    var ball := Around(arcs, src);
    if d >= limit {
      BallGrows(arcs, src, limit - 1, d - 1);
    }
    ClosedOneMore(arcs, ball, limit, current, visited, done);
    if q != [] && q[0].1 == d + 1 {
      LevelDone(ball, limit, d, q, visited, done + {current});
      NextBallVisited(arcs, src, limit, d, visited, done + {current});
    }
    GoOn(arcs, ball, limit, current, d, q, visited, done);
  }

  lemma ClosedOneMore(arcs: set<Arc>, ball: Layers, limit: int, current: Id, visited: set<Id>, done: set<Id>)
    requires Closed(arcs, ball, limit, visited, done)
    requires current in ball(limit - 1) ==> forall a | a in arcs && a.src == current :: a.dst in visited
    ensures Closed(arcs, ball, limit, visited, done + {current})
  {
  }

  lemma GoOn(arcs: set<Arc>, ball: Layers, limit: int, current: Id, d: int,
             q: Queue, visited: set<Id>, done: set<Id>)
    requires Expanding(arcs, ball, limit, current, d, q, visited, done)
    requires Closed(arcs, ball, limit, visited, done + {current})
    requires q != [] && q[0].1 == d + 1 ==> ball(d + 1) <= visited && InOrder(ball, limit, d + 1, q)
    ensures Searching(arcs, ball, limit, q, visited, done + {current})
  {
    hide Closed;
  }

  lemma LevelDone(ball: Layers, limit: int, d: int, q: Queue, visited: set<Id>, done: set<Id>)
    requires InOrder(ball, limit, d, q) && q != [] && q[0].1 == d + 1
    requires visited == done + Queued(q) && ball(d) <= visited
    ensures ball(d) <= done
    ensures InOrder(ball, limit, d + 1, q)
  {
    assert forall i | 0 <= i < |q| :: q[0].1 <= q[i].1;
  }

  /** An empty queue means that everything within the depth limit was taken off it. */
  lemma {:induction false} Exhausted(arcs: set<Arc>, src: Id, limit: int, visited: set<Id>, done: set<Id>, n: int)
    requires Searching(arcs, Around(arcs, src), limit, [], visited, done)
    requires n <= Max(limit, 0)
    ensures Ball(arcs, src, n) <= done <= visited
    decreases n
  {
    if n > 0 {
      Exhausted(arcs, src, limit, visited, done, n - 1);
      NextBallVisited(arcs, src, limit, n - 1, visited, done);
    } else {
      BallGrows(arcs, src, n, 0);
    }
  }
}
