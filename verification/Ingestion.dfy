/** Idempotent ingestion: every event id is published once, to the raw or the dead-letter topic. */
module Ingestion {
  import opened Options
  import opened EventBusModule

  const TOPIC_RAW_EVENTS := "aegis.raw.events"
  const TOPIC_RAW_DLQ := "aegis.raw.dlq"

  datatype Envelope = Envelope(
    eventId: Option<string>,
    tenantId: string,
    source: string,
    timestamp: Option<string>,
    payload: map<string, string>)

  /** The stable hash of what identifies an envelope without an id of its own. */
  type StableHash = (string, string, Option<string>, map<string, string>) -> string

  function ComputeEventId(hash: StableHash, e: Envelope): string {
    if e.eventId.Some? && e.eventId.value != "" then e.eventId.value
    else e.source + "-" + hash(e.tenantId, e.source, e.timestamp, e.payload)
  }

  /** An envelope's own id is its id, unless it is empty; otherwise the id starts with its source. */
  lemma EventIdIs(hash: StableHash, e: Envelope)
    ensures e.eventId.Some? && e.eventId.value != "" ==> ComputeEventId(hash, e) == e.eventId.value
    ensures e.eventId == None || e.eventId == Some("") ==>
      ComputeEventId(hash, e) == e.source + "-" + hash(e.tenantId, e.source, e.timestamp, e.payload)
  {
  }

  /** Why an envelope is malformed, if it is. */
  function Malformed(e: Envelope): Option<string> {
    if e.payload == map[] then Some("empty_payload")
    else if "event_type" !in e.payload && "EventID" !in e.payload then Some("missing_event_type_discriminator")
    else None
  }

  /** Whether an envelope is malformed depends on its payload alone: no timestamp is out of any window. */
  lemma MalformedIgnoresTimestamp(e: Envelope, timestamp: Option<string>)
    ensures Malformed(e.(timestamp := timestamp)) == Malformed(e)
    ensures Malformed(e) == None <==> "event_type" in e.payload || "EventID" in e.payload
    ensures Malformed(e) == Some("empty_payload") <==> e.payload == map[]
    ensures Malformed(e) == Some("missing_event_type_discriminator")
      <==> e.payload != map[] && "event_type" !in e.payload && "EventID" !in e.payload
  {
  }

  datatype Status = Accepted | Duplicate | DeadLettered

  datatype IngestResult = IngestResult(eventId: string, status: Status)

  /** A record on one of the two topics, by event id and time. */
  datatype Emitted = Emitted(topic: string, eventId: string, at: real)

  datatype Ingest = Ingest(seen: map<string, real>, emitted: seq<Emitted>)

  const EMPTY_INGEST := Ingest(map[], [])

  function ResultOf(s: Ingest, hash: StableHash, e: Envelope): IngestResult {
    var id := ComputeEventId(hash, e);
    IngestResult(id, if id in s.seen then Duplicate else if Malformed(e).Some? then DeadLettered else Accepted)
  }

  /** An unseen id is marked first and then published, well-formed or not. */
  function Submitted(s: Ingest, hash: StableHash, e: Envelope, now: real): Ingest {
    var id := ComputeEventId(hash, e);
    if id in s.seen then s
    else Ingest(s.seen[id := now],
                s.emitted + [Emitted(if Malformed(e).Some? then TOPIC_RAW_DLQ else TOPIC_RAW_EVENTS, id, now)])
  }

  function CleanedUp(s: Ingest, ttlSeconds: real, now: real): Ingest {
    s.(seen := map k | k in s.seen && !(s.seen[k] < now - ttlSeconds) :: s.seen[k])
  }

  function Count(results: seq<IngestResult>, status: Status): nat {
    if results == [] then 0
    else Count(results[..|results| - 1], status) + if results[|results| - 1].status == status then 1 else 0
  }

  /** What one envelope puts on the bus. */
  function BusAfter(b: Bus, r: IngestResult, now: real): Bus {
    match r.status
    case Duplicate => b
    case DeadLettered => PublishStep(b, TOPIC_RAW_DLQ, Record(None, r.eventId, now))
    case Accepted => PublishStep(b, TOPIC_RAW_EVENTS, Record(Some(r.eventId), r.eventId, now))
  }

  /** What a batch of envelopes with their times leaves behind: the store, the results and the bus. */
  function BatchAfter(s: Ingest, b: Bus, hash: StableHash, batch: seq<(Envelope, real)>): (Ingest, seq<IngestResult>, Bus) {
    if batch == [] then (s, [], b)
    else
      var (e, now) := batch[|batch| - 1];
      var (s', results, b') := BatchAfter(s, b, hash, batch[..|batch| - 1]);
      var r := ResultOf(s', hash, e);
      (Submitted(s', hash, e, now), results + [r], BusAfter(b', r, now))
  }

  class Ingestor {
    const hash: StableHash
    const ttlSeconds: real
    const bus: EventBus
    var seen: map<string, real>
    /** Everything published so far. */
    ghost var emitted: seq<Emitted>

    ghost function State(): Ingest
      reads this
    {
      Ingest(seen, emitted)
    }

    constructor (hash: StableHash, ttlSeconds: real, bus: EventBus)
      ensures State() == EMPTY_INGEST && this.ttlSeconds == ttlSeconds && this.bus == bus
    {
      this.hash, this.ttlSeconds, this.bus, seen, emitted := hash, ttlSeconds, bus, map[], [];
    }

    /** Checks a key and marks it in one step. */
    method SeenBefore(key: string, now: real) returns (already: bool)
      modifies this`seen
      ensures already == (key in old(seen))
      ensures seen == if already then old(seen) else old(seen)[key := now]
    {
      if key in seen {
        return true;
      }
      seen := seen[key := now];
      return false;
    }

    method CleanupExpired(now: real) returns (deleted: nat)
      modifies this`seen
      ensures State() == CleanedUp(old(State()), ttlSeconds, now)
      ensures forall k :: k in seen <==> k in old(seen) && old(seen)[k] >= now - ttlSeconds
      ensures forall k | k in seen :: seen[k] == old(seen)[k]
      ensures deleted == |old(seen)| - |seen|
    {
      var cutoff := now - ttlSeconds;
      var before := seen;
      seen := map k | k in before && !(before[k] < cutoff) :: before[k];
      KeptAtMost(before, seen);
      deleted := |before| - |seen|;
    }

    method ProcessEnvelope(e: Envelope, now: real) returns (r: IngestResult)
      modifies this, bus
      ensures r == ResultOf(old(State()), hash, e)
      ensures State() == Submitted(old(State()), hash, e, now)
      ensures bus.State() == BusAfter(old(bus.State()), r, now)
    {
      var id := ComputeEventId(hash, e);
      var already := SeenBefore(id, now);
      if already {
        return IngestResult(id, Duplicate);
      }
      if Malformed(e).Some? {
        bus.Publish(TOPIC_RAW_DLQ, Record(None, id, now));
        emitted := emitted + [Emitted(TOPIC_RAW_DLQ, id, now)];
        return IngestResult(id, DeadLettered);
      }
      bus.Publish(TOPIC_RAW_EVENTS, Record(Some(id), id, now));
      emitted := emitted + [Emitted(TOPIC_RAW_EVENTS, id, now)];
      return IngestResult(id, Accepted);
    }

    /** Processes the events of a batch in order and tallies the results. */
    method IngestBatch(batch: seq<(Envelope, real)>)
      returns (accepted: nat, duplicates: nat, deadLettered: nat, results: seq<IngestResult>)
      modifies this, bus
      ensures (State(), results, bus.State()) == BatchAfter(old(State()), old(bus.State()), hash, batch)
      ensures accepted == Count(results, Accepted)
      ensures duplicates == Count(results, Duplicate)
      ensures deadLettered == Count(results, DeadLettered)
      ensures |results| == |batch| == accepted + duplicates + deadLettered
      ensures accepted == |Having(results, Accepted)|
      ensures duplicates == |Having(results, Duplicate)|
      ensures deadLettered == |Having(results, DeadLettered)|
      ensures accepted + deadLettered == |emitted| - |old(emitted)|
    {
      hide ResultOf, Submitted, BusAfter, EventBus.State;
      results := [];
      for i := 0 to |batch|
        invariant |results| == i
        invariant (State(), results, bus.State()) == BatchAfter(old(State()), old(bus.State()), hash, batch[..i])
        invariant Count(results, Accepted) + Count(results, DeadLettered) == |emitted| - |old(emitted)|
      {
        var (e, now) := batch[i];
        ghost var before := State();
        var r := ProcessEnvelope(e, now);
        EmittedGrows(before, hash, e, now);
        assert batch[..i + 1][..i] == batch[..i];
        assert (results + [r])[..|results|] == results;
        results := results + [r];
      }
      assert batch[..|batch|] == batch;
      CountsAddUp(results);
      CountIs(results, Accepted);
      CountIs(results, Duplicate);
      CountIs(results, DeadLettered);
      accepted, duplicates, deadLettered := Tally(results);
    }
  }

  lemma EmittedGrows(s: Ingest, hash: StableHash, e: Envelope, now: real)
    ensures |Submitted(s, hash, e, now).emitted|
      == |s.emitted| + if ResultOf(s, hash, e).status == Duplicate then 0 else 1
  {
  }

  /** The three sums of the batch endpoint. */
  method Tally(results: seq<IngestResult>) returns (accepted: nat, duplicates: nat, deadLettered: nat)
    ensures accepted == Count(results, Accepted)
    ensures duplicates == Count(results, Duplicate)
    ensures deadLettered == Count(results, DeadLettered)
  {
    accepted, duplicates, deadLettered := 0, 0, 0;
    for i := 0 to |results|
      invariant accepted == Count(results[..i], Accepted)
      invariant duplicates == Count(results[..i], Duplicate)
      invariant deadLettered == Count(results[..i], DeadLettered)
    {
      assert results[..i + 1][..i] == results[..i];
      match results[i].status
      case Accepted => accepted := accepted + 1;
      case Duplicate => duplicates := duplicates + 1;
      case DeadLettered => deadLettered := deadLettered + 1;
    }
    assert results[..|results|] == results;
  }

  /** The places of a batch whose result has this status. */
  ghost function Having(results: seq<IngestResult>, status: Status): set<int> {
    set i | 0 <= i < |results| && results[i].status == status
  }

  lemma HavingOneMore(results: seq<IngestResult>, status: Status)
    requires results != []
    ensures var n := |results| - 1; var before := Having(results[..n], status);
      n !in before && Having(results, status) == if results[n].status == status then before + {n} else before
  {
    var n := |results| - 1;
    assert forall i | 0 <= i < n :: results[..n][i] == results[i];
  }

  lemma {:induction false} CountIs(results: seq<IngestResult>, status: Status)
    ensures Count(results, status) == |Having(results, status)|
  {
    if results != [] {
      CountIs(results[..|results| - 1], status);
      HavingOneMore(results, status);
      hide Having;
    }
  }

  lemma {:induction false} CountsAddUp(results: seq<IngestResult>)
    ensures Count(results, Accepted) + Count(results, Duplicate) + Count(results, DeadLettered) == |results|
  {
    if results != [] {
      CountsAddUp(results[..|results| - 1]);
    }
  }

  lemma KeptAtMost(before: map<string, real>, after: map<string, real>)
    requires after.Keys <= before.Keys
    ensures |after| <= |before|
  {
    SubsetSize(after.Keys, before.Keys);
    assert |after| == |after.Keys| && |before| == |before.Keys|;
  }

  lemma {:induction false} SubsetSize(a: set<string>, b: set<string>)
    requires a <= b
    ensures |a| <= |b|
  {
    if a != {} {
      var x :| x in a;
      SubsetSize(a - {x}, b - {x});
    }
  }

  // Runs.

  datatype Command = Submit(envelope: Envelope, now: real) | Cleanup(now: real)

  function Run(hash: StableHash, ttlSeconds: real, run: seq<Command>): Ingest {
    if run == [] then EMPTY_INGEST
    else
      var s := Run(hash, ttlSeconds, run[..|run| - 1]);
      match run[|run| - 1]
      case Submit(e, now) => Submitted(s, hash, e, now)
      case Cleanup(now) => CleanedUp(s, ttlSeconds, now)
  }

  /** The clock of a run does not go backwards. */
  ghost predicate InOrder(run: seq<Command>) {
    forall i, j | 0 <= i < j < |run| :: run[i].now <= run[j].now
  }

  /** Two records of one id are more than the time to live apart. */
  ghost predicate FarApart(emitted: seq<Emitted>, ttlSeconds: real) {
    forall i, j | 0 <= i < j < |emitted| && emitted[i].eventId == emitted[j].eventId
      :: emitted[j].at - emitted[i].at > ttlSeconds
  }

  /** A published id is still marked, no earlier than it was published, or has expired by `clock`. */
  ghost predicate Remembered(s: Ingest, ttlSeconds: real, clock: real) {
    forall e | e in s.emitted ::
      if e.eventId in s.seen then e.at <= s.seen[e.eventId] else e.at < clock - ttlSeconds
  }

  lemma SubmitKeeps(s: Ingest, hash: StableHash, e: Envelope, ttlSeconds: real, clock: real, now: real)
    requires clock <= now && FarApart(s.emitted, ttlSeconds) && Remembered(s, ttlSeconds, clock)
    requires forall x | x in s.emitted :: x.at <= clock
    ensures var t := Submitted(s, hash, e, now);
      && FarApart(t.emitted, ttlSeconds) && Remembered(t, ttlSeconds, now) && forall x | x in t.emitted :: x.at <= now
  {
    hide ComputeEventId, Malformed;
    var id := ComputeEventId(hash, e);
    if id !in s.seen {
      var t := Submitted(s, hash, e, now);
      forall i, j | 0 <= i < j < |t.emitted| && t.emitted[i].eventId == t.emitted[j].eventId
        ensures t.emitted[j].at - t.emitted[i].at > ttlSeconds
      {
        assert t.emitted[i] == s.emitted[i];
        if j == |s.emitted| {
          assert s.emitted[i] in s.emitted;
        }
      }
    }
  }

  lemma CleanupKeeps(s: Ingest, ttlSeconds: real, clock: real, now: real)
    requires clock <= now && Remembered(s, ttlSeconds, clock)
    ensures Remembered(CleanedUp(s, ttlSeconds, now), ttlSeconds, now)
  {
  }

  /** With cleanups anywhere in the run, an id is published again only after its time to live. */
  lemma {:induction false} RepeatsAreFarApart(hash: StableHash, ttlSeconds: real, run: seq<Command>)
    requires InOrder(run)
    ensures var s := Run(hash, ttlSeconds, run);
      && FarApart(s.emitted, ttlSeconds)
      && (run == [] ==> s.emitted == [])
      && (run != [] ==> Remembered(s, ttlSeconds, run[|run| - 1].now)
                        && forall x | x in s.emitted :: x.at <= run[|run| - 1].now)
  {
    if run != [] {
      hide FarApart, Remembered, Submitted, InOrder;
      var before, last := run[..|run| - 1], run[|run| - 1];
      InOrderBefore(run);
      RepeatsAreFarApart(hash, ttlSeconds, before);
      var s := Run(hash, ttlSeconds, before);
      var clock := if before == [] then last.now else before[|before| - 1].now;
      NothingRemembered(s, ttlSeconds, clock);
      match last
      case Submit(e, now) => SubmitKeeps(s, hash, e, ttlSeconds, clock, now);
      case Cleanup(now) => CleanupKeeps(s, ttlSeconds, clock, now);
    } else {
      assert FarApart([], ttlSeconds);
    }
  }

  lemma InOrderBefore(run: seq<Command>)
    requires InOrder(run) && run != []
    ensures InOrder(run[..|run| - 1])
    ensures |run| > 1 ==> run[|run| - 2].now <= run[|run| - 1].now
  {
  }

  lemma NothingRemembered(s: Ingest, ttlSeconds: real, clock: real)
    ensures s.emitted == [] ==> Remembered(s, ttlSeconds, clock)
  {
  }

  ghost predicate NoCleanup(run: seq<Command>) {
    forall c | c in run :: c.Submit?
  }

  function IdsOf(emitted: seq<Emitted>): seq<string> {
    seq(|emitted|, i requires 0 <= i < |emitted| => emitted[i].eventId)
  }

  /** Until a cleanup, over both topics, every submitted id is published exactly once. */
  lemma {:induction false} PublishedExactlyOnce(hash: StableHash, ttlSeconds: real, run: seq<Command>, id: string)
    requires NoCleanup(run)
    ensures var s := Run(hash, ttlSeconds, run);
      && (id in s.seen <==> exists c :: c in run && ComputeEventId(hash, c.envelope) == id)
      && multiset(IdsOf(s.emitted))[id] == if id in s.seen then 1 else 0
  {
    if run != [] {
      hide ComputeEventId, Malformed, IdsOf;
      var before, last := run[..|run| - 1], run[|run| - 1];
      assert run == before + [last];
      PublishedExactlyOnce(hash, ttlSeconds, before, id);
      var s := Run(hash, ttlSeconds, before);
      var submitted := ComputeEventId(hash, last.envelope);
      if submitted !in s.seen {
        var t := Submitted(s, hash, last.envelope, last.now);
        IdsOneMore(s.emitted, t.emitted[|s.emitted|]);
      }
      if submitted == id {
        assert last in run;
      }
    } else {
      assert IdsOf([]) == [];
    }
  }

  lemma IdsOneMore(emitted: seq<Emitted>, e: Emitted)
    ensures IdsOf(emitted + [e]) == IdsOf(emitted) + [e.eventId]
  {
  }

  // What the consumers of the bus see.

  /** The event ids that the lines of a topic file carry. */
  function Carried(lines: seq<Line>): seq<string> {
    if lines == [] then []
    else
      var last := lines[|lines| - 1];
      Carried(lines[..|lines| - 1]) + if last.Some? then [last.value.value] else []
  }

  function IdsOn(emitted: seq<Emitted>, topic: string): seq<string> {
    if emitted == [] then []
    else
      var last := emitted[|emitted| - 1];
      IdsOn(emitted[..|emitted| - 1], topic) + if last.topic == topic then [last.eventId] else []
  }

  lemma CarriedOneMore(lines: seq<Line>, r: Record)
    ensures Carried(lines + [Some(r)]) == Carried(lines) + [r.value]
  {
    assert (lines + [Some(r)])[..|lines|] == lines;
  }

  lemma IdsOnOneMore(emitted: seq<Emitted>, e: Emitted, topic: string)
    ensures IdsOn(emitted + [e], topic) == if e.topic == topic then IdsOn(emitted, topic) + [e.eventId] else IdsOn(emitted, topic)
  {
    assert (emitted + [e])[..|emitted|] == emitted;
  }

  lemma TopicsDiffer()
    ensures TOPIC_RAW_EVENTS != TOPIC_RAW_DLQ
  {
    assert TOPIC_RAW_EVENTS[10] == 'e' && TOPIC_RAW_DLQ[10] == 'd';
  }

  /** The two topic files carry exactly the ids that were emitted to them, in order. */
  ghost predicate Carries(b: Bus, s: Ingest) {
    && Carried(Lines(b, TOPIC_RAW_EVENTS)) == IdsOn(s.emitted, TOPIC_RAW_EVENTS)
    && Carried(Lines(b, TOPIC_RAW_DLQ)) == IdsOn(s.emitted, TOPIC_RAW_DLQ)
  }

  lemma OneMoreCarried(s: Ingest, b: Bus, hash: StableHash, e: Envelope, now: real)
    requires Carries(b, s)
    ensures Carries(BusAfter(b, ResultOf(s, hash, e), now), Submitted(s, hash, e, now))
  {
    hide Malformed, ComputeEventId, Carried, IdsOn;
    var r := ResultOf(s, hash, e);
    if r.status != Duplicate {
      var dead := r.status == DeadLettered;
      var topic := if dead then TOPIC_RAW_DLQ else TOPIC_RAW_EVENTS;
      TopicsDiffer();
      CarriedOneMore(Lines(b, topic), Record(if dead then None else Some(r.eventId), r.eventId, now));
      IdsOnOneMore(s.emitted, Emitted(topic, r.eventId, now), TOPIC_RAW_EVENTS);
      IdsOnOneMore(s.emitted, Emitted(topic, r.eventId, now), TOPIC_RAW_DLQ);
    }
  }

  function Submits(batch: seq<(Envelope, real)>): seq<Command> {
    seq(|batch|, i requires 0 <= i < |batch| => Submit(batch[i].0, batch[i].1))
  }

  lemma {:induction false} BatchCarried(hash: StableHash, ttlSeconds: real, batch: seq<(Envelope, real)>)
    ensures var (s, _, b) := BatchAfter(EMPTY_INGEST, EMPTY_BUS, hash, batch);
      s == Run(hash, ttlSeconds, Submits(batch)) && Carries(b, s)
  {
    if batch != [] {
      hide Submitted, ResultOf, BusAfter, Carries;
      var n := |batch| - 1;
      BatchCarried(hash, ttlSeconds, batch[..n]);
      assert Submits(batch)[..n] == Submits(batch[..n]);
      var (s, _, b) := BatchAfter(EMPTY_INGEST, EMPTY_BUS, hash, batch[..n]);
      OneMoreCarried(s, b, hash, batch[n].0, batch[n].1);
    }
  }

  lemma CountOneMore(s: seq<string>, x: string, id: string)
    ensures multiset(s + [x])[id] == multiset(s)[id] + if x == id then 1 else 0
  {
  }

  lemma {:induction false} IdsSplit(emitted: seq<Emitted>, t: string, u: string, id: string)
    requires t != u && forall e | e in emitted :: e.topic == t || e.topic == u
    ensures multiset(IdsOf(emitted))[id] == multiset(IdsOn(emitted, t))[id] + multiset(IdsOn(emitted, u))[id]
  {
    if emitted != [] {
      hide IdsOf, IdsOn;
      var before, last := emitted[..|emitted| - 1], emitted[|emitted| - 1];
      IdsSplit(before, t, u, id);
      assert emitted == before + [last];
      IdsOneMore(before, last);
      CountOneMore(IdsOf(before), last.eventId, id);
      IdsOnOneMore(before, last, t);
      CountOneMore(IdsOn(before, t), last.eventId, id);
      IdsOnOneMore(before, last, u);
      CountOneMore(IdsOn(before, u), last.eventId, id);
    }
  }

  lemma {:induction false} OnlyTwoTopics(hash: StableHash, ttlSeconds: real, run: seq<Command>)
    ensures forall e | e in Run(hash, ttlSeconds, run).emitted :: e.topic == TOPIC_RAW_EVENTS || e.topic == TOPIC_RAW_DLQ
  {
    if run != [] {
      OnlyTwoTopics(hash, ttlSeconds, run[..|run| - 1]);
    }
  }

  /** On the bus itself: over both topics, a batch leaves exactly one record of every id that occurs in it. */
  lemma OnceOnTheBus(hash: StableHash, batch: seq<(Envelope, real)>, id: string)
    ensures var b := BatchAfter(EMPTY_INGEST, EMPTY_BUS, hash, batch).2;
      multiset(Carried(Lines(b, TOPIC_RAW_EVENTS)))[id] + multiset(Carried(Lines(b, TOPIC_RAW_DLQ)))[id]
        == if exists x :: x in batch && ComputeEventId(hash, x.0) == id then 1 else 0
  {
    hide ComputeEventId, BatchAfter, Run, Carried, IdsOn, IdsOf;
    var run := Submits(batch);
    BatchCarried(hash, 0.0, batch);
    PublishedExactlyOnce(hash, 0.0, run, id);
    OnlyTwoTopics(hash, 0.0, run);
    TopicsDiffer();
    IdsSplit(Run(hash, 0.0, run).emitted, TOPIC_RAW_EVENTS, TOPIC_RAW_DLQ, id);
    if exists x :: x in batch && ComputeEventId(hash, x.0) == id {
      var i :| 0 <= i < |batch| && ComputeEventId(hash, batch[i].0) == id;
      assert run[i] in run;
    }
    if c :| c in run && ComputeEventId(hash, c.envelope) == id {
      var i :| 0 <= i < |run| && run[i] == c;
      assert batch[i] in batch;
    }
  }

  /** The payload says what kind of event it is. */
  predicate HasType(e: Envelope) {
    "event_type" in e.payload || "EventID" in e.payload
  }

  /** Envelope `i` is the first of the batch with its id. */
  ghost predicate FirstOfId(hash: StableHash, batch: seq<(Envelope, real)>, i: nat)
    requires i < |batch|
  {
    forall j | 0 <= j < i :: ComputeEventId(hash, batch[j].0) != ComputeEventId(hash, batch[i].0)
  }

  /** An id of the batch goes to the topic that its first envelope asks for. */
  ghost predicate Routed(hash: StableHash, batch: seq<(Envelope, real)>, s: Ingest) {
    forall i | 0 <= i < |batch| && FirstOfId(hash, batch, i) ::
      && ComputeEventId(hash, batch[i].0) in s.seen
      && (ComputeEventId(hash, batch[i].0) in IdsOn(s.emitted, TOPIC_RAW_EVENTS) <==> HasType(batch[i].0))
      && (ComputeEventId(hash, batch[i].0) in IdsOn(s.emitted, TOPIC_RAW_DLQ) <==> !HasType(batch[i].0))
  }

  lemma RoutedOneMore(hash: StableHash, batch: seq<(Envelope, real)>, s: Ingest)
    requires batch != [] && Routed(hash, batch[..|batch| - 1], s)
    requires forall x :: x in s.seen <==> exists j :: 0 <= j < |batch| - 1 && ComputeEventId(hash, batch[j].0) == x
    requires forall x | x in IdsOn(s.emitted, TOPIC_RAW_EVENTS) || x in IdsOn(s.emitted, TOPIC_RAW_DLQ) :: x in s.seen
    ensures Routed(hash, batch, Submitted(s, hash, batch[|batch| - 1].0, batch[|batch| - 1].1))
  {
    hide ComputeEventId, IdsOn;
    TopicsDiffer();
    var n := |batch| - 1;
    var (e, now) := batch[n];
    var t := Submitted(s, hash, e, now);
    MalformedIgnoresTimestamp(e, None);
    if ComputeEventId(hash, e) !in s.seen {
      IdsOnOneMore(s.emitted, t.emitted[|s.emitted|], TOPIC_RAW_EVENTS);
      IdsOnOneMore(s.emitted, t.emitted[|s.emitted|], TOPIC_RAW_DLQ);
    }
    hide Malformed, HasType, TOPIC_RAW_EVENTS, TOPIC_RAW_DLQ;
    forall i | 0 <= i < |batch| && FirstOfId(hash, batch, i)
      ensures ComputeEventId(hash, batch[i].0) in t.seen
      ensures ComputeEventId(hash, batch[i].0) in IdsOn(t.emitted, TOPIC_RAW_EVENTS) <==> HasType(batch[i].0)
      ensures ComputeEventId(hash, batch[i].0) in IdsOn(t.emitted, TOPIC_RAW_DLQ) <==> !HasType(batch[i].0)
    {
      if i < n {
        assert batch[..n][i] == batch[i];
        assert FirstOfId(hash, batch[..n], i);
      }
    }
  }

  lemma IdsWereSeen(hash: StableHash, ttlSeconds: real, run: seq<Command>, id: string)
    requires NoCleanup(run)
    requires var s := Run(hash, ttlSeconds, run); id in IdsOn(s.emitted, TOPIC_RAW_EVENTS) || id in IdsOn(s.emitted, TOPIC_RAW_DLQ)
    ensures id in Run(hash, ttlSeconds, run).seen
  {
    hide Run, IdsOn, IdsOf;
    var s := Run(hash, ttlSeconds, run);
    PublishedExactlyOnce(hash, ttlSeconds, run, id);
    OnlyTwoTopics(hash, ttlSeconds, run);
    TopicsDiffer();
    IdsSplit(s.emitted, TOPIC_RAW_EVENTS, TOPIC_RAW_DLQ, id);
  }

  lemma SeenIffSubmitted(hash: StableHash, batch: seq<(Envelope, real)>, id: string)
    ensures id in Run(hash, 0.0, Submits(batch)).seen
      <==> exists j :: 0 <= j < |batch| && ComputeEventId(hash, batch[j].0) == id
  {
    hide ComputeEventId, Run;
    var run := Submits(batch);
    PublishedExactlyOnce(hash, 0.0, run, id);
    if c :| c in run && ComputeEventId(hash, c.envelope) == id {
      var i :| 0 <= i < |run| && run[i] == c;
      assert ComputeEventId(hash, batch[i].0) == id;
    }
    if j :| 0 <= j < |batch| && ComputeEventId(hash, batch[j].0) == id {
      assert run[j] in run;
    }
  }

  lemma {:induction false} BatchRouted(hash: StableHash, batch: seq<(Envelope, real)>)
    ensures Routed(hash, batch, Run(hash, 0.0, Submits(batch)))
  {
    if batch != [] {
      hide Submitted, ComputeEventId, IdsOn, Routed;
      var n := |batch| - 1;
      var before, run := batch[..n], Submits(batch);
      assert run[..n] == Submits(before);
      var s := Run(hash, 0.0, Submits(before));
      BatchRouted(hash, before);
      forall x ensures x in s.seen <==> exists j :: 0 <= j < n && ComputeEventId(hash, batch[j].0) == x {
        SeenIffSubmitted(hash, before, x);
        assert forall j | 0 <= j < n :: before[j] == batch[j];
      }
      forall x | x in IdsOn(s.emitted, TOPIC_RAW_EVENTS) || x in IdsOn(s.emitted, TOPIC_RAW_DLQ) ensures x in s.seen {
        IdsWereSeen(hash, 0.0, Submits(before), x);
      }
      RoutedOneMore(hash, batch, s);
    }
  }

  /**
   On the bus: the raw topic carries exactly the ids whose first envelope has
   an event type, and the dead-letter topic exactly the others.
   */
  lemma RoutedOnTheBus(hash: StableHash, batch: seq<(Envelope, real)>, i: nat)
    requires i < |batch| && FirstOfId(hash, batch, i)
    ensures var (id, b) := (ComputeEventId(hash, batch[i].0), BatchAfter(EMPTY_INGEST, EMPTY_BUS, hash, batch).2);
      && (id in Carried(Lines(b, "aegis.raw.events")) <==> HasType(batch[i].0))
      && (id in Carried(Lines(b, "aegis.raw.dlq")) <==> !HasType(batch[i].0))
  {
    hide ComputeEventId, BatchAfter, Carried, IdsOn, Run, FirstOfId, HasType, Lines;
    BatchCarried(hash, 0.0, batch);
    BatchRouted(hash, batch);
  }
}
