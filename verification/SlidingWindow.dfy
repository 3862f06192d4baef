/** Deques that drop old entries from the front, against filters over everything that was ever put in. */
module SlidingWindow {

  /** Drops entries from the front while they are older than `cutoff`. */
  function DropOld<T>(s: seq<T>, at: T -> real, cutoff: real): seq<T> {
    if s != [] && at(s[0]) < cutoff then DropOld(s[1..], at, cutoff) else s
  }

  /** All entries, wherever they stand, that are not older than `cutoff`. */
  function Since<T>(s: seq<T>, at: T -> real, cutoff: real): seq<T> {
    if s == [] then []
    else
      Since(s[..|s| - 1], at, cutoff) + if at(s[|s| - 1]) >= cutoff then [s[|s| - 1]] else []
  }

  ghost predicate InTimeOrder<T>(s: seq<T>, at: T -> real) {
    forall i, j | 0 <= i < j < |s| :: at(s[i]) <= at(s[j])
  }

  lemma AppendInOrder<T>(s: seq<T>, x: T, at: T -> real)
    requires InTimeOrder(s, at) && forall y | y in s :: at(y) <= at(x)
    ensures InTimeOrder(s + [x], at)
  {
  }

  lemma PrefixInOrder<T>(s: seq<T>, at: T -> real, n: nat)
    requires InTimeOrder(s, at) && n < |s|
    ensures InTimeOrder(s[..n], at) && forall x | x in s[..n] :: at(x) <= at(s[n])
  {
  }

  lemma {:induction false} SinceMember<T>(s: seq<T>, at: T -> real, cutoff: real, x: T)
    ensures x in Since(s, at, cutoff) <==> x in s && at(x) >= cutoff
  {
    if s != [] {
      SinceMember(s[..|s| - 1], at, cutoff, x);
      assert s == s[..|s| - 1] + [s[|s| - 1]];
    }
  }

  lemma {:induction false} SinceAppend<T>(s: seq<T>, t: seq<T>, at: T -> real, cutoff: real)
    ensures Since(s + t, at, cutoff) == Since(s, at, cutoff) + Since(t, at, cutoff)
  {
    if t == [] {
      assert s + t == s;
    } else {
      var n := |t| - 1;
      SinceAppend(s, t[..n], at, cutoff);
      assert (s + t)[..|s + t| - 1] == s + t[..n];
    }
  }

  lemma SinceOfOne<T>(x: T, at: T -> real, cutoff: real)
    ensures Since([x], at, cutoff) == if at(x) >= cutoff then [x] else []
  {
    assert [x][..0] == [];
  }

  lemma {:induction false} SinceAgain<T>(s: seq<T>, at: T -> real, cutoff: real, later: real)
    requires cutoff <= later
    ensures Since(Since(s, at, cutoff), at, later) == Since(s, at, later)
  {
    if s != [] {
      var n := |s| - 1;
      SinceAgain(s[..n], at, cutoff, later);
      var last := if at(s[n]) >= cutoff then [s[n]] else [];
      SinceAppend(Since(s[..n], at, cutoff), last, at, later);
      SinceOfOne(s[n], at, later);
    }
  }

  lemma {:induction false} SinceAll<T>(s: seq<T>, at: T -> real, cutoff: real)
    requires forall x | x in s :: at(x) >= cutoff
    ensures Since(s, at, cutoff) == s
  {
    if s != [] {
      SinceAll(s[..|s| - 1], at, cutoff);
      assert s == s[..|s| - 1] + [s[|s| - 1]];
    }
  }

  lemma {:induction false} SinceInOrder<T>(s: seq<T>, at: T -> real, cutoff: real)
    requires InTimeOrder(s, at)
    ensures InTimeOrder(Since(s, at, cutoff), at)
  {
    if s != [] {
      var n := |s| - 1;
      PrefixInOrder(s, at, n);
      SinceInOrder(s[..n], at, cutoff);
      var before := Since(s[..n], at, cutoff);
      assert before + [] == before;
      hide InTimeOrder;
      forall x | x in before ensures at(x) <= at(s[n]) {
        SinceMember(s[..n], at, cutoff, x);
      }
      AppendInOrder(before, s[n], at);
    }
  }

  /** On entries in time order, dropping from the front is filtering. */
  lemma {:induction false} DropIsFilter<T>(s: seq<T>, at: T -> real, cutoff: real)
    requires InTimeOrder(s, at)
    ensures DropOld(s, at, cutoff) == Since(s, at, cutoff)
  {
    if s != [] && at(s[0]) < cutoff {
      DropIsFilter(s[1..], at, cutoff);
      assert s == [s[0]] + s[1..];
      SinceAppend([s[0]], s[1..], at, cutoff);
      SinceOfOne(s[0], at, cutoff);
    } else {
      SinceAll(s, at, cutoff);
    }
  }

  lemma {:induction false} DropShortens<T>(s: seq<T>, at: T -> real, cutoff: real)
    ensures |DropOld(s, at, cutoff)| <= |s|
  {
    if s != [] && at(s[0]) < cutoff {
      DropShortens(s[1..], at, cutoff);
    }
  }

  /** The loop that prunes a deque. */
  method Prune<T>(window0: seq<T>, at: T -> real, cutoff: real) returns (window: seq<T>)
    ensures window == DropOld(window0, at, cutoff)
    ensures |window| <= |window0|
  {
    window := window0;
    while window != [] && at(window[0]) < cutoff
      invariant DropOld(window, at, cutoff) == DropOld(window0, at, cutoff)
      invariant |window| <= |window0|
    {
      window := window[1..];
    }
  }

  /** What a deque holds after a run of "append, then prune to the span before the new entry". */
  function Windowed<T>(history: seq<T>, at: T -> real, span: real): seq<T> {
    if history == [] then []
    else
      var n := |history| - 1;
      DropOld(Windowed(history[..n], at, span) + [history[n]], at, at(history[n]) - span)
  }

  // Where a deque starts: it always holds the history from some position on.

  /** The position of the first entry, from `p` on, that is not older than `cutoff`. */
  function SkipOld<T>(history: seq<T>, at: T -> real, cutoff: real, p: nat, n: nat): (q: nat)
    requires p <= n <= |history|
    ensures p <= q <= n
    ensures forall i | p <= i < q :: at(history[i]) < cutoff
    ensures q < n ==> at(history[q]) >= cutoff
    decreases n - p
  {
    if p < n && at(history[p]) < cutoff then SkipOld(history, at, cutoff, p + 1, n) else p
  }

  /** The position of the first entry that is held after the first `n` entries. */
  function HeadAt<T>(history: seq<T>, at: T -> real, span: real, n: nat): (p: nat)
    requires n <= |history|
    ensures p <= n
  {
    if n == 0 then 0
    else SkipOld(history, at, at(history[n - 1]) - span, HeadAt(history, at, span, n - 1), n)
  }

  lemma {:induction false} DropIsSkip<T>(history: seq<T>, at: T -> real, cutoff: real, p: nat, n: nat)
    requires p <= n <= |history|
    ensures DropOld(history[p..n], at, cutoff) == history[SkipOld(history, at, cutoff, p, n)..n]
    decreases n - p
  {
    if p < n && at(history[p]) < cutoff {
      assert history[p..n][1..] == history[p + 1..n];
      DropIsSkip(history, at, cutoff, p + 1, n);
    }
  }

  lemma {:induction false} WindowedIsSuffix<T>(history: seq<T>, at: T -> real, span: real, n: nat)
    requires n <= |history|
    ensures Windowed(history[..n], at, span) == history[HeadAt(history, at, span, n)..n]
  {
    hide DropOld, SkipOld, Windowed, HeadAt;
    if n > 0 {
      WindowedIsSuffix(history, at, span, n - 1);
      SuffixMovesOn(history, at, span, n, Windowed(history[..n - 1], at, span));
      WindowedStep(history[..n - 1], history[n - 1], at, span);
      assert history[..n - 1] + [history[n - 1]] == history[..n];
    } else {
      WindowedOfNone(at, span);
    }
  }

  lemma SuffixMovesOn<T>(history: seq<T>, at: T -> real, span: real, n: nat, held: seq<T>)
    requires 0 < n <= |history| && held == history[HeadAt(history, at, span, n - 1)..n - 1]
    ensures DropOld(held + [history[n - 1]], at, at(history[n - 1]) - span) == history[HeadAt(history, at, span, n)..n]
  {
    hide DropOld, SkipOld;
    var p := HeadAt(history, at, span, n - 1);
    assert held + [history[n - 1]] == history[p..n];
    DropIsSkip(history, at, at(history[n - 1]) - span, p, n);
  }

  lemma WindowedOfNone<T>(at: T -> real, span: real)
    ensures Windowed([], at, span) == []
  {
  }

  /** A suffix is what a filter leaves exactly when it is recent throughout and nothing before it is. */
  lemma SuffixIsSinceIff<T>(history: seq<T>, at: T -> real, cutoff: real, p: nat)
    requires p <= |history|
    ensures history[p..] == Since(history, at, cutoff)
      <==> (forall i | 0 <= i < p :: at(history[i]) < cutoff) && (forall i | p <= i < |history| :: at(history[i]) >= cutoff)
  {
    hide Since;
    var before, rest := history[..p], history[p..];
    assert history == before + rest;
    SinceAppend(before, rest, at, cutoff);
    if rest == Since(history, at, cutoff) {
      forall x | x in rest ensures at(x) >= cutoff {
        SinceMember(history, at, cutoff, x);
      }
      SinceAll(rest, at, cutoff);
      assert |Since(before, at, cutoff)| == 0;
      forall i | 0 <= i < p ensures at(history[i]) < cutoff {
        SinceMember(before, at, cutoff, before[i]);
      }
    } else if forall i | p <= i < |history| :: at(history[i]) >= cutoff {
      SinceAll(rest, at, cutoff);
      if Since(before, at, cutoff) != [] {
        SinceMember(before, at, cutoff, Since(before, at, cutoff)[0]);
      }
    }
  }

  /** Entry `i` is too old for the window of entry `k`. */
  predicate Old<T>(history: seq<T>, at: T -> real, span: real, i: nat, k: nat)
    requires i < |history| && k < |history|
  {
    at(history[i]) < at(history[k]) - span
  }

  /** Whenever an entry is too old, so is every one before it, and it stays too old. */
  ghost predicate ExpiresInOrder<T>(history: seq<T>, at: T -> real, span: real) {
    forall i, j, k | 0 <= i < j <= k < |history| ::
      && (Old(history, at, span, j, k) ==> Old(history, at, span, i, k))
      && (Old(history, at, span, i, j) ==> Old(history, at, span, i, k))
  }

  /** The deque holds exactly the entries within the span of the newest. */
  ghost predicate IsFilter<T>(history: seq<T>, at: T -> real, span: real)
    requires history != []
  {
    Windowed(history, at, span) == Since(history, at, at(history[|history| - 1]) - span)
  }

  /** Exactly the entries before position `p` are too old for the window of entry `k`. */
  ghost predicate SplitAt<T>(history: seq<T>, at: T -> real, span: real, p: nat, k: nat)
    requires k < |history|
  {
    forall i | 0 <= i <= k :: Old(history, at, span, i, k) <==> i < p
  }

  ghost predicate HeadSplits<T>(history: seq<T>, at: T -> real, span: real, k: nat)
    requires k < |history|
  {
    SplitAt(history, at, span, HeadAt(history, at, span, k + 1), k)
  }

  lemma IsFilterIffSplits<T>(history: seq<T>, at: T -> real, span: real, k: nat)
    requires k < |history|
    ensures IsFilter(history[..k + 1], at, span) <==> HeadSplits(history, at, span, k)
  {
    hide Windowed, Since, HeadAt;
    var p, seen := HeadAt(history, at, span, k + 1), history[..k + 1];
    WindowedIsSuffix(history, at, span, k + 1);
    assert seen[p..] == history[p..k + 1];
    assert forall i | 0 <= i <= k :: seen[i] == history[i];
    SuffixIsSinceIff(seen, at, at(history[k]) - span, p);
    if SplitAt(history, at, span, p, k) {
      forall i | 0 <= i <= k ensures at(seen[i]) < at(history[k]) - span <==> i < p {
        assert Old(history, at, span, i, k) <==> i < p;
      }
    } else if IsFilter(seen, at, span) {
      forall i | 0 <= i <= k ensures Old(history, at, span, i, k) <==> i < p {
        assert at(seen[i]) < at(history[k]) - span <==> i < p;
      }
      assert false;
    }
  }

  lemma {:induction false} InOrderSplits<T>(history: seq<T>, at: T -> real, span: real, k: nat)
    requires k < |history| && ExpiresInOrder(history, at, span)
    ensures HeadSplits(history, at, span, k)
  {
    hide SkipOld;
    var p, q := HeadAt(history, at, span, k), HeadAt(history, at, span, k + 1);
    if k > 0 {
      InOrderSplits(history, at, span, k - 1);
    }
    forall i | 0 <= i <= k ensures Old(history, at, span, i, k) <==> i < q {
      if i < p {
        assert Old(history, at, span, i, k - 1);
      } else if q < i {
        assert !Old(history, at, span, q, k);
      }
    }
  }

  lemma {:induction false} HeadMovesOn<T>(history: seq<T>, at: T -> real, span: real, m: nat, n: nat)
    requires m <= n <= |history|
    ensures HeadAt(history, at, span, m) <= HeadAt(history, at, span, n)
    decreases n
  {
    hide SkipOld;
    if m < n {
      HeadMovesOn(history, at, span, m, n - 1);
    }
  }

  lemma SplitsInOrder<T>(history: seq<T>, at: T -> real, span: real)
    requires forall k | 0 <= k < |history| :: HeadSplits(history, at, span, k)
    ensures ExpiresInOrder(history, at, span)
  {
    hide HeadAt, Old;
    forall i, j, k | 0 <= i < j <= k < |history|
      ensures Old(history, at, span, j, k) ==> Old(history, at, span, i, k)
      ensures Old(history, at, span, i, j) ==> Old(history, at, span, i, k)
    {
      assert HeadSplits(history, at, span, j) && HeadSplits(history, at, span, k);
      HeadMovesOn(history, at, span, j + 1, k + 1);
    }
  }

  /**
   The exact condition: a deque is the filter of the whole history after
   every entry, exactly when entries expire in order.
   */
  lemma AlwaysFilterIff<T>(history: seq<T>, at: T -> real, span: real)
    ensures (forall n | 0 < n <= |history| :: IsFilter(history[..n], at, span)) <==> ExpiresInOrder(history, at, span)
  {
    hide IsFilter, HeadSplits, ExpiresInOrder;
    forall k | 0 <= k < |history|
      ensures IsFilter(history[..k + 1], at, span) <==> HeadSplits(history, at, span, k)
      ensures ExpiresInOrder(history, at, span) ==> HeadSplits(history, at, span, k)
    {
      IsFilterIffSplits(history, at, span, k);
      if ExpiresInOrder(history, at, span) {
        InOrderSplits(history, at, span, k);
      }
    }
    if forall n | 0 < n <= |history| :: IsFilter(history[..n], at, span) {
      forall k | 0 <= k < |history| ensures HeadSplits(history, at, span, k) {
        assert IsFilter(history[..k + 1], at, span);
      }
      SplitsInOrder(history, at, span);
    }
    if ExpiresInOrder(history, at, span) {
      forall n | 0 < n <= |history| ensures IsFilter(history[..n], at, span) {
        var k := n - 1;
        assert HeadSplits(history, at, span, k);
        assert history[..k + 1] == history[..n];
      }
    }
  }

  lemma WindowedIsFilter<T>(history: seq<T>, at: T -> real, span: real)
    requires ExpiresInOrder(history, at, span) && history != []
    ensures IsFilter(history, at, span)
  {
    AlwaysFilterIff(history, at, span);
    assert history[..|history|] == history;
  }

  /** Entries that arrive in time order expire in order, whatever the span. */
  lemma TimeOrderExpires<T>(history: seq<T>, at: T -> real, span: real)
    requires InTimeOrder(history, at)
    ensures ExpiresInOrder(history, at, span)
  {
    forall i, j, k | 0 <= i < j <= k < |history|
      ensures Old(history, at, span, j, k) ==> Old(history, at, span, i, k)
      ensures Old(history, at, span, i, j) ==> Old(history, at, span, i, k)
    {
      assert at(history[i]) <= at(history[j]);
      assert j < k ==> at(history[j]) <= at(history[k]);
    }
  }

  lemma WindowedStep<T>(history: seq<T>, x: T, at: T -> real, span: real)
    ensures Windowed(history + [x], at, span) == DropOld(Windowed(history, at, span) + [x], at, at(x) - span)
  {
    assert (history + [x])[..|history|] == history;
  }

  /** Nothing is dropped while the oldest entry is recent enough. */
  lemma HeadStops<T>(s: seq<T>, at: T -> real, cutoff: real)
    requires s != [] && at(s[0]) >= cutoff
    ensures DropOld(s, at, cutoff) == s
  {
  }

  /** Without time order it may hold more: an old entry is kept as long as a newer one stands before it. */
  lemma LateArrivalIsKept(at: real -> real)
    requires forall t :: at(t) == t
    ensures Windowed([100.0, 0.0, 400.0], at, 300.0) == [100.0, 0.0, 400.0]
    ensures 0.0 !in Since([100.0, 0.0, 400.0], at, 100.0)
  {
    SinceMember([100.0, 0.0, 400.0], at, 100.0, 0.0);
    WindowedStep([], 100.0, at, 300.0);
    WindowedStep([100.0], 0.0, at, 300.0);
    WindowedStep([100.0, 0.0], 400.0, at, 300.0);
    HeadStops([100.0], at, -200.0);
    HeadStops([100.0, 0.0], at, -300.0);
    HeadStops([100.0, 0.0, 400.0], at, 100.0);
    hide Since, DropOld;
    assert [] + [100.0] == [100.0];
    assert [100.0] + [0.0] == [100.0, 0.0];
    assert [100.0, 0.0] + [400.0] == [100.0, 0.0, 400.0];
  }

  /** And it may hold less: an entry that was dropped is in the window again when an earlier time arrives. */
  lemma EarlyArrivalMissesDropped(at: real -> real)
    requires forall t :: at(t) == t
    ensures Windowed([0.0, 400.0, 50.0], at, 300.0) == [400.0, 50.0]
    ensures 0.0 in Since([0.0, 400.0, 50.0], at, -250.0)
  {
    SinceMember([0.0, 400.0, 50.0], at, -250.0, 0.0);
    WindowedStep([], 0.0, at, 300.0);
    WindowedStep([0.0], 400.0, at, 300.0);
    WindowedStep([0.0, 400.0], 50.0, at, 300.0);
    HeadStops([0.0], at, -300.0);
    assert [0.0, 400.0][1..] == [400.0];
    HeadStops([400.0], at, 100.0);
    HeadStops([400.0, 50.0], at, -250.0);
    assert DropOld([0.0, 400.0], at, 100.0) == [400.0];
    hide Since, DropOld;
    assert [] + [0.0] == [0.0];
    assert [0.0] + [400.0] == [0.0, 400.0];
    assert [400.0] + [50.0] == [400.0, 50.0];
  }
}
