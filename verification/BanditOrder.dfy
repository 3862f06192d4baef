/** The learned state does not depend on the order in which the samples arrived. */
module BanditOrder {
  import opened Scalars
  import opened Vectors
  import opened Ridge
  import opened Bandit

  /** The sum of `f` over the pulls of one arm. */
  ghost function Total(h: seq<Pull>, arm: Arm, f: Sample -> real): real {
    if h == [] then 0.0
    else
      var p := h[|h| - 1];
      Total(h[..|h| - 1], arm, f) + if p.arm == arm then f(p.sample) else 0.0
  }

  function Without<T>(s: seq<T>, k: nat): seq<T>
    requires k < |s|
  {
    s[..k] + s[k + 1..]
  }

  lemma {:induction false} TotalWithout(h: seq<Pull>, k: nat, arm: Arm, f: Sample -> real)
    requires k < |h|
    ensures Total(h, arm, f) == Total(Without(h, k), arm, f) + if h[k].arm == arm then f(h[k].sample) else 0.0
  {
    var n := |h| - 1;
    if k < n {
      TotalWithout(h[..n], k, arm, f);
      var w := Without(h, k);
      assert w[..|w| - 1] == Without(h[..n], k);
    } else {
      assert Without(h, k) == h[..n];
    }
  }

  lemma MultisetWithout<T>(s: seq<T>, k: nat)
    requires k < |s|
    ensures multiset(s) == multiset(Without(s, k)) + multiset{s[k]}
  {
    assert s == s[..k] + [s[k]] + s[k + 1..];
  }

  lemma MultisetLast<T>(s: seq<T>)
    requires s != []
    ensures multiset(s) == multiset(s[..|s| - 1]) + multiset{s[|s| - 1]}
  {
    assert s == s[..|s| - 1] + [s[|s| - 1]];
  }

  lemma MultisetCancel<T>(a: multiset<T>, b: multiset<T>, x: T)
    requires a + multiset{x} == b + multiset{x}
    ensures a == b
  {
    assert a == (a + multiset{x}) - multiset{x};
    assert b == (b + multiset{x}) - multiset{x};
  }

  lemma {:induction false} TotalPermuted(h: seq<Pull>, g: seq<Pull>, arm: Arm, f: Sample -> real)
    requires multiset(h) == multiset(g)
    ensures Total(h, arm, f) == Total(g, arm, f)
    decreases |h|
  {
    if h == [] {
      assert |multiset(g)| == 0;
    } else {
      hide Without;
      var n := |h| - 1;
      assert h[n] in multiset(g);
      var k :| 0 <= k < |g| && g[k] == h[n];
      MultisetWithout(g, k);
      MultisetLast(h);
      MultisetCancel(multiset(h[..n]), multiset(Without(g, k)), h[n]);
      TotalPermuted(h[..n], Without(g, k), arm, f);
      TotalWithout(g, k, arm, f);
    }
  }

  function Product(i: nat, j: nat): Sample -> real {
    (s: Sample) => if i < |s.x| && j < |s.x| then Mul(s.x[i], s.x[j]) else 0.0
  }

  function Reward(i: nat): Sample -> real {
    (s: Sample) => if i < |s.x| then Mul(s.r, s.x[i]) else 0.0
  }

  lemma OfLast(h: seq<Pull>, arm: Arm, n: nat)
    requires h != [] && PullsFit(h, n)
    ensures var before, p := h[..|h| - 1], h[|h| - 1];
      PullsFit(before, n) && Of(h, arm) == if p.arm == arm then Of(before, arm) + [p.sample] else Of(before, arm)
  {
    assert Of(h[..|h| - 1], arm) + [] == Of(h[..|h| - 1], arm);
  }

  /** Every entry of an arm's matrix is the one of `I` plus `Σ x[i] x[j]`. */
  lemma {:induction false} DesignEntry(n: nat, h: seq<Pull>, arm: Arm, i: nat, j: nat)
    requires PullsFit(h, n) && i < n && j < n
    ensures Fits(Of(h, arm), n)
    ensures Design(n, Of(h, arm))[i][j] == Identity(n)[i][j] + Total(h, arm, Product(i, j))
  {
    hide Mul;
    OfFits(h, arm, n);
    if h != [] {
      var before, p := h[..|h| - 1], h[|h| - 1];
      OfLast(h, arm, n);
      DesignEntry(n, before, arm, i, j);
      if p.arm == arm {
        OneMoreSample(n, Of(before, arm), p.sample);
        AddOuterAt(Design(n, Of(before, arm)), p.sample.x, i, j);
      }
    }
  }

  /** Every entry of an arm's vector is `Σ r x[i]`. */
  lemma {:induction false} ResponseEntry(n: nat, h: seq<Pull>, arm: Arm, i: nat)
    requires PullsFit(h, n) && i < n
    ensures Fits(Of(h, arm), n)
    ensures Response(n, Of(h, arm))[i] == Total(h, arm, Reward(i))
  {
    hide Mul;
    OfFits(h, arm, n);
    if h != [] {
      var before, p := h[..|h| - 1], h[|h| - 1];
      OfLast(h, arm, n);
      ResponseEntry(n, before, arm, i);
      if p.arm == arm {
        OneMoreSample(n, Of(before, arm), p.sample);
      }
    }
  }

  lemma {:induction false} CountEntry(n: nat, h: seq<Pull>, arm: Arm)
    requires PullsFit(h, n)
    ensures |Of(h, arm)| as real == Total(h, arm, (s: Sample) => 1.0)
  {
    if h != [] {
      CountEntry(n, h[..|h| - 1], arm);
    }
  }

  /** Two histories with the same pulls in any order give every arm the same matrix, vector and count. */
  lemma OrderDoesNotMatter(n: nat, h: seq<Pull>, g: seq<Pull>, arm: Arm)
    requires PullsFit(h, n) && multiset(h) == multiset(g)
    ensures Fits(Of(h, arm), n) && Fits(Of(g, arm), n)
    ensures Design(n, Of(h, arm)) == Design(n, Of(g, arm))
    ensures Response(n, Of(h, arm)) == Response(n, Of(g, arm))
    ensures |Of(h, arm)| == |Of(g, arm)|
  {
    assert PullsFit(g, n) by {
      forall p | p in g ensures |p.sample.x| == n {
        assert p in multiset(g);
      }
    }
    OfFits(h, arm, n);
    OfFits(g, arm, n);
    var m, m' := Design(n, Of(h, arm)), Design(n, Of(g, arm));
    forall i: nat, j: nat | i < n && j < n ensures m[i][j] == m'[i][j] {
      DesignEntry(n, h, arm, i, j);
      DesignEntry(n, g, arm, i, j);
      TotalPermuted(h, g, arm, Product(i, j));
    }
    forall i: nat | i < n ensures Response(n, Of(h, arm))[i] == Response(n, Of(g, arm))[i] {
      ResponseEntry(n, h, arm, i);
      ResponseEntry(n, g, arm, i);
      TotalPermuted(h, g, arm, Reward(i));
    }
    CountEntry(n, h, arm);
    CountEntry(n, g, arm);
    TotalPermuted(h, g, arm, (s: Sample) => 1.0);
    SameMatrix(m, m', n);
  }

  lemma SameMatrix(m: Matrix, m': Matrix, n: nat)
    requires IsSquare(m, n) && IsSquare(m', n)
    requires forall i: nat, j: nat | i < n && j < n :: m[i][j] == m'[i][j]
    ensures m == m'
  {
    forall i: nat | i < n ensures m[i] == m'[i] {
      assert forall j: nat | j < n :: m[i][j] == m'[i][j];
    }
  }

  lemma {:induction false} KnownWithout(episodes: seq<Episode>, k: nat)
    requires k < |episodes|
    ensures multiset(Known(episodes))
      == multiset(Known(Without(episodes, k))) + multiset(Known([episodes[k]]))
  {
    hide Known;
    var n := |episodes| - 1;
    KnownLast(episodes);
    if k < n {
      assert episodes[..n][k] == episodes[k];
      KnownWithout(episodes[..n], k);
      var w := Without(episodes, k);
      assert w[..|w| - 1] == Without(episodes[..n], k);
      KnownLast(w);
    } else {
      assert Without(episodes, k) == episodes[..n];
    }
  }

  lemma KnownLast(episodes: seq<Episode>)
    requires episodes != []
    ensures var n := |episodes| - 1;
      multiset(Known(episodes)) == multiset(Known(episodes[..n])) + multiset(Known([episodes[n]]))
  {
    hide PullOf, ARMS;
    var n := |episodes| - 1;
    assert [episodes[n]][..0] == [];
    assert Known(episodes) == Known(episodes[..n]) + Known([episodes[n]]);
  }

  lemma {:induction false} KnownPermuted(e: seq<Episode>, f: seq<Episode>)
    requires multiset(e) == multiset(f)
    ensures multiset(Known(e)) == multiset(Known(f))
    decreases |e|
  {
    if e == [] {
      assert |multiset(f)| == 0;
      assert f == [];
    } else {
      hide Without, Known;
      var n := |e| - 1;
      assert e[n] in multiset(f);
      var k :| 0 <= k < |f| && f[k] == e[n];
      MultisetWithout(f, k);
      MultisetLast(e);
      MultisetCancel(multiset(e[..n]), multiset(Without(f, k)), e[n]);
      KnownPermuted(e[..n], Without(f, k));
      KnownWithout(f, k);
      KnownLast(e);
    }
  }

  /** Warm-starting any bandit from the same episodes in any order leaves the same state. */
  lemma WarmStartOrder(h: seq<Pull>, e: seq<Episode>, f: seq<Episode>, arm: Arm)
    requires PullsFit(h, FEATURE_DIM) && multiset(e) == multiset(f)
    ensures PullsFit(h + Known(e), FEATURE_DIM)
    ensures Fits(Of(h + Known(e), arm), FEATURE_DIM) && Fits(Of(h + Known(f), arm), FEATURE_DIM)
    ensures Design(FEATURE_DIM, Of(h + Known(e), arm)) == Design(FEATURE_DIM, Of(h + Known(f), arm))
    ensures Response(FEATURE_DIM, Of(h + Known(e), arm)) == Response(FEATURE_DIM, Of(h + Known(f), arm))
    ensures |Of(h + Known(e), arm)| == |Of(h + Known(f), arm)|
  {
    KnownFits(e);
    KnownPermuted(e, f);
    assert PullsFit(h + Known(e), FEATURE_DIM);
    OrderDoesNotMatter(FEATURE_DIM, h + Known(e), h + Known(f), arm);
  }

  lemma {:induction false} KnownFits(e: seq<Episode>)
    ensures PullsFit(Known(e), FEATURE_DIM)
  {
    if e != [] {
      KnownFits(e[..|e| - 1]);
    }
  }
}
