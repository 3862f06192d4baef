/**
 What the two path queries of the graph store answer, independently of how
 they search, and how the two answers relate.
 */
module GraphQueries {
  import opened GraphModel
  import opened Options

  /** The smallest radius, at most `limit`, whose ball holds a bad id. */
  ghost predicate FirstBad(arcs: set<Arc>, src: Id, bad: set<Id>, limit: int, r: Option<int>) {
    match r
    case None => Ball(arcs, src, Max(limit, 0)) !! bad
    case Some(k) => 0 <= k <= Max(limit, 0) && !(Ball(arcs, src, k) !! bad) && Ball(arcs, src, k - 1) !! bad
  }

  /** A shortest walk to one target, as `attack_path` reports it. */
  ghost predicate ShortestWalk(arcs: set<Arc>, src: Id, dst: Id, limit: int, found: bool, path: seq<Arc>) {
    && (found <==> Joined(arcs, src, dst, Max(limit, 0)))
    && (found ==> IsWalk(arcs, src, path, dst) && |path| <= Max(limit, 0))
    && (found ==> forall p | IsWalk(arcs, src, p, dst) :: |path| <= |p|)
  }

  lemma ShortestWalkInBall(arcs: set<Arc>, src: Id, dst: Id, limit: int, found: bool, path: seq<Arc>)
    requires ShortestWalk(arcs, src, dst, limit, found, path)
    ensures !found ==> dst !in Ball(arcs, src, Max(limit, 0))
    ensures found ==> |path| <= Max(limit, 0) && dst in Ball(arcs, src, |path|) && dst !in Ball(arcs, src, |path| - 1)
  {
    BallIsWalks(arcs, src, dst, Max(limit, 0));
    if found {
      WalkStaysInBall(arcs, src, path, dst);
      BallIsWalks(arcs, src, dst, |path| - 1);
    }
  }

  /**
   The multi-target search answers the smallest of the single-target lengths,
   and nothing exactly when no single-target search finds its target.
   */
  lemma KnownBadIsMinimum(arcs: set<Arc>, src: Id, bad: set<Id>, limit: int, r: Option<int>,
                          found: map<Id, bool>, paths: map<Id, seq<Arc>>)
    requires FirstBad(arcs, src, bad, limit, r)
    requires found.Keys == bad && paths.Keys == bad
    requires forall b | b in bad :: ShortestWalk(arcs, src, b, limit, found[b], paths[b])
    ensures r == None <==> forall b | b in bad :: !found[b]
    ensures r.Some? ==> forall b | b in bad && found[b] :: r.value <= |paths[b]|
    ensures r.Some? ==> exists b | b in bad :: found[b] && |paths[b]| == r.value
  {
    hide Ball, ShortestWalk;
    forall b | b in bad
      ensures r == None ==> !found[b]
      ensures r.Some? && found[b] ==> r.value <= |paths[b]|
      ensures r.Some? && b in Ball(arcs, src, r.value) ==> found[b] && |paths[b]| == r.value
    {
      OneTarget(arcs, src, bad, limit, r, b, found[b], paths[b]);
    }
    if r.Some? {
      var b :| b in Ball(arcs, src, r.value) && b in bad;
    }
  }

  lemma OneTarget(arcs: set<Arc>, src: Id, bad: set<Id>, limit: int, r: Option<int>, b: Id, found: bool, path: seq<Arc>)
    requires FirstBad(arcs, src, bad, limit, r) && b in bad
    requires ShortestWalk(arcs, src, b, limit, found, path)
    ensures r == None ==> !found
    ensures r.Some? && found ==> r.value <= |path|
    ensures r.Some? && b in Ball(arcs, src, r.value) ==> found && |path| == r.value
  {
    hide Ball, Max, ShortestWalk;
    ShortestWalkInBall(arcs, src, b, limit, found, path);
    if found {
      BallGrows(arcs, src, |path|, Max(limit, 0));
    }
    if r.Some? {
      BallGrows(arcs, src, r.value, Max(limit, 0));
      if found && |path| < r.value {
        BallGrows(arcs, src, |path|, r.value - 1);
      }
      if found && |path| > r.value {
        BallGrows(arcs, src, r.value, |path| - 1);
      }
    }
  }

  /** A path query answers the same length in either direction, and finds nothing in one exactly when in the other. */
  lemma SameBothWays(edges: map<string, Edge>, src: Id, dst: Id, limit: int,
                     found: bool, path: seq<Arc>, found': bool, path': seq<Arc>)
    requires ShortestWalk(Arcs(edges), src, dst, limit, found, path)
    requires ShortestWalk(Arcs(edges), dst, src, limit, found', path')
    ensures found <==> found'
    ensures found ==> |path| == |path'|
  {
    hide Arcs, IsWalk;
    JoinedBothWays(edges, src, dst, Max(limit, 0));
    if found && found' {
      var p := WalkBack(edges, src, path, dst);
      var q := WalkBack(edges, dst, path', src);
    }
  }
}
