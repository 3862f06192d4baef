/** The gateway's sliding-window rate limiter. */
module RateLimiting {
  import opened Options
  import opened SlidingWindow

  /** A hit is the time at which it was admitted. */
  function TimeOf(t: real): real {
    t
  }

  /** Whether a call at `now` is admitted, by counting over every call admitted so far. */
  predicate Admits(admitted: seq<real>, now: real, maxRequests: int, windowSeconds: real) {
    |Since(admitted, TimeOf, now - windowSeconds)| < maxRequests
  }

  /** The admitted calls of one key after a run of calls at the given times. */
  function AdmittedBy(calls: seq<real>, maxRequests: int, windowSeconds: real): seq<real> {
    if calls == [] then []
    else
      var before := AdmittedBy(calls[..|calls| - 1], maxRequests, windowSeconds);
      var now := calls[|calls| - 1];
      if Admits(before, now, maxRequests, windowSeconds) then before + [now] else before
  }

  /** The calls that fall into the closed interval from `from` to `to`. */
  function Within(times: seq<real>, from: real, to: real): seq<real> {
    if times == [] then []
    else
      var t := times[|times| - 1];
      Within(times[..|times| - 1], from, to) + if from <= t <= to then [t] else []
  }

  /** Exactly the calls of the interval, both ends included, each as often as it was made. */
  lemma {:induction false} WithinIs(times: seq<real>, from: real, to: real, t: real)
    ensures multiset(Within(times, from, to))[t] == if from <= t <= to then multiset(times)[t] else 0
  {
    if times != [] {
      WithinIs(times[..|times| - 1], from, to, t);
      assert times == times[..|times| - 1] + [times[|times| - 1]];
    }
  }

  lemma {:induction false} WithinAtMostSince(times: seq<real>, from: real, to: real, cutoff: real)
    requires cutoff <= from
    ensures |Within(times, from, to)| <= |Since(times, TimeOf, cutoff)|
  {
    if times != [] {
      WithinAtMostSince(times[..|times| - 1], from, to, cutoff);
    }
  }

  /** No closed interval as long as the window ever holds more admitted calls than allowed. */
  lemma {:induction false} EveryWindowBounded(calls: seq<real>, maxRequests: int, windowSeconds: real, from: real)
    ensures |Within(AdmittedBy(calls, maxRequests, windowSeconds), from, from + windowSeconds)| <= Max(maxRequests, 0)
  {
    if calls != [] {
      var n := |calls| - 1;
      EveryWindowBounded(calls[..n], maxRequests, windowSeconds, from);
      var before, now := AdmittedBy(calls[..n], maxRequests, windowSeconds), calls[n];
      hide Since;
      if Admits(before, now, maxRequests, windowSeconds) {
        assert (before + [now])[..|before|] == before;
        if from <= now <= from + windowSeconds {
          WithinAtMostSince(before, from, from + windowSeconds, now - windowSeconds);
        }
      }
    }
  }

  /**
   After a denial at time `denied`, a later call with none in between is
   admitted exactly when the oldest call still kept then has left the window.
   */
  lemma AdmittedAfterDenialIff(admitted: seq<real>, denied: real, t: real, maxRequests: int, windowSeconds: real)
    requires InTimeOrder(admitted, TimeOf) && denied <= t && maxRequests >= 1
    requires !Admits(admitted, denied, maxRequests, windowSeconds)
    requires |Since(admitted, TimeOf, denied - windowSeconds)| <= maxRequests
    ensures Since(admitted, TimeOf, denied - windowSeconds) != []
    ensures Admits(admitted, t, maxRequests, windowSeconds)
      <==> t > Since(admitted, TimeOf, denied - windowSeconds)[0] + windowSeconds
  {
    var kept := Since(admitted, TimeOf, denied - windowSeconds);
    SinceAgain(admitted, TimeOf, denied - windowSeconds, t - windowSeconds);
    SinceInOrder(admitted, TimeOf, denied - windowSeconds);
    DropIsFilter(kept, TimeOf, t - windowSeconds);
    DropShortens(kept[1..], TimeOf, t - windowSeconds);
  }

  /** The value that `retry_after` answers for a kept deque. */
  function RetryIn(kept: seq<real>, now: real, windowSeconds: real): real {
    if kept == [] || windowSeconds - (now - kept[0]) <= 0.0 then 0.0 else windowSeconds - (now - kept[0])
  }

  /**
   So a client that waits longer than `retry_after` told it, or the whole
   seconds of the header `int(retry_after) + 1`, is admitted.
   */
  lemma RetryAfterIsEnough(admitted: seq<real>, denied: real, asked: real, t: real, maxRequests: int, windowSeconds: real)
    requires InTimeOrder(admitted, TimeOf) && denied <= asked <= t && maxRequests >= 1
    requires !Admits(admitted, denied, maxRequests, windowSeconds)
    requires |Since(admitted, TimeOf, denied - windowSeconds)| <= maxRequests
    ensures var r := RetryIn(Since(admitted, TimeOf, denied - windowSeconds), asked, windowSeconds);
      t > asked + r || t >= asked + (r.Floor + 1) as real ==> Admits(admitted, t, maxRequests, windowSeconds)
  {
    AdmittedAfterDenialIff(admitted, denied, t, maxRequests, windowSeconds);
  }

  /** What is kept for one key, against every call admitted for it; `pruned` is how far it was pruned. */
  ghost predicate KeyHolds(maxRequests: int, windowSeconds: real, clock: real,
                           kept: seq<real>, admitted: seq<real>, pruned: real) {
    && InTimeOrder(admitted, TimeOf)
    && (forall t | t in admitted :: t <= clock)
    && pruned <= clock - windowSeconds
    && kept == Since(admitted, TimeOf, pruned)
    && |kept| <= Max(maxRequests, 0)
  }

  lemma NothingAdmittedYet(maxRequests: int, windowSeconds: real, clock: real)
    ensures KeyHolds(maxRequests, windowSeconds, clock, [], [], clock - windowSeconds)
  {
  }

  lemma ClockMovesOn(maxRequests: int, windowSeconds: real, clock: real, later: real,
                     kept: seq<real>, admitted: seq<real>, pruned: real)
    requires clock <= later && KeyHolds(maxRequests, windowSeconds, clock, kept, admitted, pruned)
    ensures KeyHolds(maxRequests, windowSeconds, later, kept, admitted, pruned)
  {
  }

  /** Pruning to the window before `now` leaves what a filter over all admitted calls would. */
  lemma PrunedForNow(maxRequests: int, windowSeconds: real, now: real,
                     kept: seq<real>, admitted: seq<real>, pruned: real)
    requires KeyHolds(maxRequests, windowSeconds, now, kept, admitted, pruned)
    ensures var cutoff := now - windowSeconds;
      && DropOld(kept, TimeOf, cutoff) == Since(admitted, TimeOf, cutoff)
      && KeyHolds(maxRequests, windowSeconds, now, DropOld(kept, TimeOf, cutoff), admitted, cutoff)
      && |DropOld(kept, TimeOf, cutoff)| <= Max(maxRequests, 0)
  {
    hide Since, DropOld, InTimeOrder;
    SinceInOrder(admitted, TimeOf, pruned);
    DropIsFilter(kept, TimeOf, now - windowSeconds);
    SinceAgain(admitted, TimeOf, pruned, now - windowSeconds);
    DropShortens(kept, TimeOf, now - windowSeconds);
  }

  lemma OneMoreAdmitted(maxRequests: int, windowSeconds: real, now: real, kept: seq<real>, admitted: seq<real>)
    requires KeyHolds(maxRequests, windowSeconds, now, kept, admitted, now - windowSeconds) && |kept| < maxRequests
    requires windowSeconds >= 0.0
    ensures KeyHolds(maxRequests, windowSeconds, now, kept + [now], admitted + [now], now - windowSeconds)
    ensures kept + [now] == Since(admitted + [now], TimeOf, now - windowSeconds)
  {
    hide Since, InTimeOrder;
    SinceAppend(admitted, [now], TimeOf, now - windowSeconds);
    SinceOfOne(now, TimeOf, now - windowSeconds);
    AppendInOrder(admitted, now, TimeOf);
  }

  /** Every key's part of the state. */
  ghost predicate AllHold(maxRequests: int, windowSeconds: real, clock: real,
                          hits: map<string, seq<real>>, admitted: map<string, seq<real>>, pruned: map<string, real>) {
    && hits.Keys == admitted.Keys == pruned.Keys
    && forall key | key in hits :: KeyHolds(maxRequests, windowSeconds, clock, hits[key], admitted[key], pruned[key])
  }

  lemma OneKeyChanges(maxRequests: int, windowSeconds: real, clock: real, now: real,
                      hits: map<string, seq<real>>, admitted: map<string, seq<real>>, pruned: map<string, real>,
                      key: string, kept: seq<real>, all: seq<real>, cutoff: real)
    requires clock <= now && AllHold(maxRequests, windowSeconds, clock, hits, admitted, pruned)
    requires KeyHolds(maxRequests, windowSeconds, now, kept, all, cutoff)
    ensures AllHold(maxRequests, windowSeconds, now, hits[key := kept], admitted[key := all], pruned[key := cutoff])
  {
    forall k | k in hits ensures KeyHolds(maxRequests, windowSeconds, now, hits[k], admitted[k], pruned[k]) {
      ClockMovesOn(maxRequests, windowSeconds, clock, now, hits[k], admitted[k], pruned[k]);
    }
    hide KeyHolds;
  }

  /** Pruning the deque of one key, which may not be there yet. */
  lemma KeyPruned(maxRequests: int, windowSeconds: real, clock: real, now: real,
                  hits: map<string, seq<real>>, admitted: map<string, seq<real>>, pruned: map<string, real>, key: string)
    requires clock <= now && AllHold(maxRequests, windowSeconds, clock, hits, admitted, pruned)
    ensures var all := if key in admitted then admitted[key] else [];
      var kept := DropOld(if key in hits then hits[key] else [], TimeOf, now - windowSeconds);
      && kept == Since(all, TimeOf, now - windowSeconds)
      && KeyHolds(maxRequests, windowSeconds, now, kept, all, now - windowSeconds)
      && |kept| <= Max(maxRequests, 0)
  {
    hide KeyHolds, Since, DropOld;
    if key in hits {
      ClockMovesOn(maxRequests, windowSeconds, clock, now, hits[key], admitted[key], pruned[key]);
      PrunedForNow(maxRequests, windowSeconds, now, hits[key], admitted[key], pruned[key]);
    } else {
      NothingAdmittedYet(maxRequests, windowSeconds, now);
      PrunedForNow(maxRequests, windowSeconds, now, [], [], now - windowSeconds);
    }
  }

  class RateLimiter {
    const maxRequests: int
    const windowSeconds: real
    var hits: map<string, seq<real>>
    /** Every call admitted so far, by key, and the latest time anything was asked. */
    ghost var admitted: map<string, seq<real>>
    ghost var clock: real
    /** How far each key's deque has been pruned. */
    ghost var pruned: map<string, real>

    ghost predicate Valid()
      reads this
    {
      windowSeconds >= 0.0 && AllHold(maxRequests, windowSeconds, clock, hits, admitted, pruned)
    }

    /** Every call admitted for a key so far. */
    ghost function Admitted(key: string): seq<real>
      reads this
    {
      if key in admitted then admitted[key] else []
    }

    constructor (maxRequests: int, windowSeconds: real, now: real)
      requires windowSeconds >= 0.0
      ensures Valid() && clock == now
      ensures this.maxRequests == maxRequests && this.windowSeconds == windowSeconds
      ensures forall key :: Admitted(key) == []
    {
      this.maxRequests, this.windowSeconds, clock := maxRequests, windowSeconds, now;
      hits, admitted, pruned := map[], map[], map[];
    }

    /**
     Decides as counting over the full admitted history would, and answers how
     many calls are left in the window.
     */
    method Allow(key: string, now: real) returns (allowed: bool, remaining: int)
      requires Valid() && clock <= now
      modifies this
      ensures Valid() && clock == now
      ensures allowed == Admits(old(Admitted(key)), now, maxRequests, windowSeconds)
      ensures Admitted(key) == if allowed then old(Admitted(key)) + [now] else old(Admitted(key))
      ensures forall k | k != key :: Admitted(k) == old(Admitted(k))
      ensures forall calls | old(Admitted(key)) == AdmittedBy(calls, maxRequests, windowSeconds)
        :: Admitted(key) == AdmittedBy(calls + [now], maxRequests, windowSeconds)
      ensures remaining >= 0
      ensures remaining == if allowed then maxRequests - |Since(Admitted(key), TimeOf, now - windowSeconds)| else 0
      ensures !allowed ==> key in hits && hits[key] == Since(Admitted(key), TimeOf, now - windowSeconds)
      ensures !allowed ==> |hits[key]| <= Max(maxRequests, 0)
    {
      hide AllHold, KeyHolds, Since, DropOld, InTimeOrder;
      var cutoff := now - windowSeconds;
      ghost var all := Admitted(key);
      KeyPruned(maxRequests, windowSeconds, clock, now, hits, admitted, pruned, key);
      var window := Prune(if key in hits then hits[key] else [], TimeOf, cutoff);
      if |window| >= maxRequests {
        OneKeyChanges(maxRequests, windowSeconds, clock, now, hits, admitted, pruned, key, window, all, cutoff);
        clock, hits, admitted, pruned := now, hits[key := window], admitted[key := all], pruned[key := cutoff];
        return false, 0;
      }
      OneMoreAdmitted(maxRequests, windowSeconds, now, window, all);
      var after := window + [now];
      OneKeyChanges(maxRequests, windowSeconds, clock, now, hits, admitted, pruned, key, after, all + [now], cutoff);
      clock, hits, admitted, pruned := now, hits[key := after], admitted[key := all + [now]], pruned[key := cutoff];
      return true, maxRequests - |after|;
    }

    /**
     How long until the oldest call that is still kept leaves the window:
     never negative, and no longer than it takes.
     */
    method RetryAfter(key: string, now: real) returns (r: real)
      ensures r >= 0.0
      ensures key in hits && hits[key] != [] ==> hits[key][0] <= now + r - windowSeconds
      ensures r > 0.0 ==> key in hits && hits[key] != [] && hits[key][0] == now + r - windowSeconds
      ensures r == RetryIn(if key in hits then hits[key] else [], now, windowSeconds)
    {
      if key !in hits || hits[key] == [] {
        return 0.0;
      }
      var left := windowSeconds - (now - hits[key][0]);
      return if left > 0.0 then left else 0.0;
    }
  }
}
