/** Rolling per-host features: how much, and how varied, the recent activity of a host is. */
module Temporal {
  import opened Options
  import opened SlidingWindow

  const WINDOW_SECONDS: real := 300.0

  datatype Event = Event(timestamp: real, host: Option<string>, user: Option<string>,
                         eventType: string, techniqueIds: seq<string>)

  function TimeOf(e: Event): real {
    e.timestamp
  }

  /** `event.host or event.user or "unknown"`: an empty name counts as none. */
  function EntityOf(e: Event): string {
    if e.host.Some? && e.host.value != "" then e.host.value
    else if e.user.Some? && e.user.value != "" then e.user.value
    else "unknown"
  }

  /** An entity is the host of an event; without one its user; without either it is unknown. */
  predicate IsEntityOf(e: Event, h: string) {
    if e.host.Some? && e.host != Some("") then e.host == Some(h)
    else if e.user.Some? && e.user != Some("") then e.user == Some(h)
    else h == "unknown"
  }

  lemma EntityIff(e: Event, h: string)
    ensures EntityOf(e) == h <==> IsEntityOf(e, h)
  {
  }

  function EventTypes(window: seq<Event>): set<string> {
    set e | e in window :: e.eventType
  }

  function Techniques(window: seq<Event>): set<string> {
    set e, t | e in window && t in e.techniqueIds :: t
  }

  datatype Features = Features(entity: string, eventCount: nat, distinctEventTypes: nat, distinctTechniques: nat,
                               timeSinceFirstSeen: real)

  /** The features that a window of events, and the time an entity was first seen, give for the newest event. */
  function FeaturesOf(window: seq<Event>, firstSeen: real, e: Event): Features {
    Features(EntityOf(e), |window|, |EventTypes(window)|, |Techniques(window)|, e.timestamp - firstSeen)
  }

  /** What is kept for each entity, in terms of all its events. */
  ghost predicate AllHold(span: real, all: seq<Event>, byHost: map<string, seq<Event>>, firstSeen: map<string, real>) {
    && byHost.Keys == firstSeen.Keys
    && forall h {:trigger OfEntity(all, h)} :: EntityHolds(span, OfEntity(all, h), byHost, firstSeen, h)
  }

  ghost predicate EntityHolds(span: real, mine: seq<Event>, byHost: map<string, seq<Event>>,
                              firstSeen: map<string, real>, h: string) {
    if mine == [] then h !in byHost && h !in firstSeen
    else h in byHost && h in firstSeen && byHost[h] == Windowed(mine, TimeOf, span) && firstSeen[h] == mine[0].timestamp
  }

  lemma OneMoreObserved(span: real, all: seq<Event>, byHost: map<string, seq<Event>>, firstSeen: map<string, real>, e: Event)
    requires AllHold(span, all, byHost, firstSeen)
    ensures var h := EntityOf(e);
      var window := DropOld((if h in byHost then byHost[h] else []) + [e], TimeOf, e.timestamp - span);
      var first := if h in firstSeen then firstSeen[h] else e.timestamp;
      && AllHold(span, all + [e], byHost[h := window], firstSeen[h := first])
      && OfEntity(all + [e], h) != []
      && OfEntity(all + [e], h)[|OfEntity(all + [e], h)| - 1] == e
      && window == Windowed(OfEntity(all + [e], h), TimeOf, span)
      && first == OfEntity(all + [e], h)[0].timestamp
  {
    hide OfEntity, DropOld, EntityOf;
    var h := EntityOf(e);
    OfEntityLast(all, e);
    var mine := OfEntity(all, h);
    assert EntityHolds(span, mine, byHost, firstSeen, h);
    NothingObserved(span);
    WindowedStep(mine, e, TimeOf, span);
    hide Windowed;
    forall k ensures k != h ==> EntityHolds(span, OfEntity(all + [e], k), byHost, firstSeen, k) {
      assert EntityHolds(span, OfEntity(all, k), byHost, firstSeen, k);
    }
  }

  class TemporalFeatureTracker {
    const windowSeconds: real
    var byHost: map<string, seq<Event>>
    var firstSeen: map<string, real>
    /** Every event observed so far. */
    ghost var observed: seq<Event>

    ghost predicate Valid()
      reads this
    {
      AllHold(windowSeconds, observed, byHost, firstSeen)
    }

    constructor (windowSeconds: real := WINDOW_SECONDS)
      ensures Valid() && observed == [] && this.windowSeconds == windowSeconds
    {
      this.windowSeconds, byHost, firstSeen, observed := windowSeconds, map[], map[], [];
    }

    /**
     Records the event and answers the features of its entity; for an entity
     whose events expire in order, as they do when they arrive in time order,
     these are the features of all its events within the window.
     */
    method Observe(e: Event) returns (f: Features)
      requires Valid()
      modifies this
      ensures Valid() && observed == old(observed) + [e]
      ensures var mine := OfEntity(observed, EntityOf(e));
        mine != [] && f == FeaturesOf(Windowed(mine, TimeOf, windowSeconds), mine[0].timestamp, e)
      ensures var mine := OfEntity(observed, EntityOf(e));
        ExpiresInOrder(mine, TimeOf, windowSeconds) ==>
          var recent := Since(mine, TimeOf, e.timestamp - windowSeconds);
          && f.eventCount == |recent|
          && f.distinctEventTypes == |set x | x in recent :: x.eventType|
          && f.distinctTechniques == |set x, t | x in recent && t in x.techniqueIds :: t|
      ensures IsEntityOf(e, f.entity)
      ensures OfEntity(observed, f.entity) != []
        && f.timeSinceFirstSeen == e.timestamp - OfEntity(observed, f.entity)[0].timestamp
    {
      hide AllHold, OfEntity, DropOld, Windowed, Since, EntityOf, ExpiresInOrder;
      OneMoreObserved(windowSeconds, observed, byHost, firstSeen, e);
      var host := EntityOf(e);
      var first := if host in firstSeen then firstSeen[host] else e.timestamp;
      firstSeen := firstSeen[host := first];
      var window := (if host in byHost then byHost[host] else []) + [e];
      window := Prune(window, TimeOf, e.timestamp - windowSeconds);
      byHost := byHost[host := window];
      observed := observed + [e];
      ghost var mine := OfEntity(observed, host);
      if ExpiresInOrder(mine, TimeOf, windowSeconds) {
        WindowedIsFilter(mine, TimeOf, windowSeconds);
      }
      EntityIff(e, host);
      f := Features(host, |window|, |EventTypes(window)|, |Techniques(window)|, e.timestamp - firstSeen[host]);
    }
  }

  function OfEntity(events: seq<Event>, entity: string): seq<Event> {
    if events == [] then []
    else
      var last := events[|events| - 1];
      OfEntity(events[..|events| - 1], entity) + if EntityOf(last) == entity then [last] else []
  }

  /** The events of an entity are those it is the entity of. */
  lemma {:induction false} OfEntityMember(events: seq<Event>, h: string, e: Event)
    ensures e in OfEntity(events, h) <==> e in events && IsEntityOf(e, h)
  {
    if events != [] {
      var n := |events| - 1;
      OfEntityMember(events[..n], h, e);
      EntityIff(events[n], h);
      hide EntityOf, IsEntityOf;
      assert events == events[..n] + [events[n]];
    }
  }

  lemma OfEntityLast(events: seq<Event>, e: Event)
    ensures forall h ::
      OfEntity(events + [e], h) == (if EntityOf(e) == h then OfEntity(events, h) + [e] else OfEntity(events, h))
  {
    assert (events + [e])[..|events|] == events;
    forall h ensures OfEntity(events, h) + [] == OfEntity(events, h) {
    }
  }

  lemma NothingObserved(span: real)
    ensures Windowed<Event>([], TimeOf, span) == []
  {
  }

  lemma {:induction false} OfEntityPrefix(events: seq<Event>, h: string, n: nat)
    requires n <= |events|
    ensures OfEntity(events[..n], h) <= OfEntity(events, h)
    decreases |events|
  {
    if n < |events| {
      OfEntityPrefix(events[..|events| - 1], h, n);
      assert events[..|events| - 1][..n] == events[..n];
    } else {
      assert events[..n] == events;
    }
  }

  lemma {:induction false} EventCameAt(events: seq<Event>, h: string, m: nat) returns (n: nat)
    requires 0 < m <= |OfEntity(events, h)|
    ensures 0 < n <= |events| && EntityOf(events[n - 1]) == h
    ensures OfEntity(events[..n], h) == OfEntity(events, h)[..m]
  {
    hide EntityOf;
    var before := events[..|events| - 1];
    if m <= |OfEntity(before, h)| {
      n := EventCameAt(before, h, m);
      assert before[..n] == events[..n];
    } else {
      n := |events|;
      assert events[..n] == events;
    }
  }

  /** What an entity's window holds after the first `n` events, its own the last of them, is the filter of its events. */
  ghost predicate HoldsFilter(events: seq<Event>, h: string, span: real, n: nat)
    requires n <= |events|
  {
    var mine := OfEntity(events[..n], h);
    mine != [] && IsFilter(mine, TimeOf, span)
  }

  /**
   The exact condition: after every event of an entity its window is the
   filter of all its events exactly when they expire in order.
   */
  lemma WindowAlwaysFilterIff(events: seq<Event>, h: string, span: real)
    ensures (forall n | 0 < n <= |events| && EntityOf(events[n - 1]) == h :: HoldsFilter(events, h, span, n))
      <==> ExpiresInOrder(OfEntity(events, h), TimeOf, span)
  {
    hide OfEntity, EntityOf, IsFilter, ExpiresInOrder;
    var all := OfEntity(events, h);
    AlwaysFilterIff(all, TimeOf, span);
    if forall n | 0 < n <= |events| && EntityOf(events[n - 1]) == h :: HoldsFilter(events, h, span, n) {
      forall m | 0 < m <= |all| ensures IsFilter(all[..m], TimeOf, span) {
        var n := EventCameAt(events, h, m);
        assert HoldsFilter(events, h, span, n);
      }
    }
    if ExpiresInOrder(all, TimeOf, span) {
      forall n | 0 < n <= |events| && EntityOf(events[n - 1]) == h ensures HoldsFilter(events, h, span, n) {
        OfEntityPrefix(events, h, n);
        LastIsMine(events[..n], h);
        var m := |OfEntity(events[..n], h)|;
        assert OfEntity(events[..n], h) == all[..m];
      }
    }
  }

  lemma LastIsMine(events: seq<Event>, h: string)
    requires events != [] && EntityOf(events[|events| - 1]) == h
    ensures OfEntity(events, h) != []
  {
  }
}
