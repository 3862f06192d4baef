/** The file-backed event bus: one append-only file a topic, one offset file a topic and group. */
module EventBusModule {
  import opened Options

  datatype Record = Record(key: Option<string>, value: string, ts: real)

  /** A line of a topic file; a blank one holds no record. */
  type Line = Option<Record>

  datatype Bus = Bus(files: map<string, seq<Line>>, offsets: map<string, nat>)

  const EMPTY_BUS := Bus(map[], map[])

  /** The name of the offset file. */
  function OffsetPath(topic: string, group: string): string {
    topic + "__" + group
  }

  function Lines(b: Bus, topic: string): seq<Line> {
    if topic in b.files then b.files[topic] else []
  }

  function OffsetOf(b: Bus, topic: string, group: string): nat {
    var path := OffsetPath(topic, group);
    if path in b.offsets then b.offsets[path] else 0
  }

  /** The records of some lines, without the blank ones. */
  function Records(lines: seq<Line>): seq<Record> {
    if lines == [] then []
    else
      var last := lines[|lines| - 1];
      Records(lines[..|lines| - 1]) + if last.Some? then [last.value] else []
  }

  function Take<T>(s: seq<T>, n: nat): seq<T> {
    s[..if n <= |s| then n else |s|]
  }

  /** What a poll answers: up to `maxRecords` records after the offset, but one if `maxRecords` is below one. */
  function Polled(b: Bus, topic: string, group: string, maxRecords: int): seq<Record> {
    var lines := Lines(b, topic);
    var offset := OffsetOf(b, topic, group);
    if offset >= |lines| then [] else Take(Records(lines[offset..]), Max(maxRecords, 1))
  }

  function PublishStep(b: Bus, topic: string, record: Record): Bus {
    b.(files := b.files[topic := Lines(b, topic) + [Some(record)]])
  }

  function PollStep(b: Bus, topic: string, group: string, maxRecords: int): Bus {
    var records := Polled(b, topic, group, maxRecords);
    if records == [] then b
    else b.(offsets := b.offsets[OffsetPath(topic, group) := OffsetOf(b, topic, group) + |records|])
  }

  function Lag(b: Bus, topic: string, group: string): (lag: int)
    ensures lag >= 0
  {
    Max(0, |Records(Lines(b, topic))| - OffsetOf(b, topic, group))
  }

  lemma RecordsOneMore(lines: seq<Line>, i: nat)
    requires i < |lines|
    ensures Records(lines[..i + 1]) == if lines[i].Some? then Records(lines[..i]) + [lines[i].value] else Records(lines[..i])
  {
    assert lines[..i + 1][..i] == lines[..i];
    assert Records(lines[..i]) + [] == Records(lines[..i]);
  }

  lemma {:induction false} RecordsPrefix(lines: seq<Line>, i: nat)
    requires i <= |lines|
    ensures Records(lines[..i]) <= Records(lines)
    decreases |lines| - i
  {
    if i < |lines| {
      RecordsPrefix(lines, i + 1);
      RecordsOneMore(lines, i);
    } else {
      assert lines[..i] == lines;
    }
  }

  class EventBus {
    var files: map<string, seq<Line>>
    var offsets: map<string, nat>

    ghost function State(): Bus
      reads this
    {
      Bus(files, offsets)
    }

    constructor ()
      ensures State() == EMPTY_BUS
    {
      files, offsets := map[], map[];
    }

    method Publish(topic: string, record: Record)
      modifies this
      ensures State() == PublishStep(old(State()), topic, record)
    {
      files := files[topic := (if topic in files then files[topic] else []) + [Some(record)]];
    }

    /** Reads on from the group's offset and moves it past what it answers. */
    method Poll(topic: string, group: string, maxRecords: int := 100) returns (records: seq<Record>)
      modifies this
      ensures records == Polled(old(State()), topic, group, maxRecords)
      ensures State() == PollStep(old(State()), topic, group, maxRecords)
    {
      records := [];
      if topic !in files {
        return;
      }
      var path := OffsetPath(topic, group);
      var offset := if path in offsets then offsets[path] else 0;
      records := ReadFrom(files[topic], offset, maxRecords);
      var newOffset := offset + |records|;
      if records != [] {
        offsets := offsets[path := newOffset];
      }
    }

    method LagOf(topic: string, group: string) returns (lag: int)
      ensures lag == Lag(State(), topic, group)
    {
      if topic !in files {
        return 0;
      }
      var total := 0;
      var lines := files[topic];
      for i := 0 to |lines|
        invariant total == |Records(lines[..i])|
      {
        RecordsOneMore(lines, i);
        if lines[i].Some? {
          total := total + 1;
        }
      }
      assert lines[..|lines|] == lines;
      var path := OffsetPath(topic, group);
      var offset: int := if path in offsets then offsets[path] else 0;
      lag := Max(0, total - offset);
    }
  }

  lemma SliceOneMore(lines: seq<Line>, from: nat, i: nat)
    requires from <= i < |lines|
    ensures Records(lines[from..i + 1])
      == if lines[i].Some? then Records(lines[from..i]) + [lines[i].value] else Records(lines[from..i])
    ensures Records(lines[from..i + 1]) <= Records(lines[from..])
  {
    var tail := lines[from..];
    assert tail[..i - from] == lines[from..i] && tail[..i - from + 1] == lines[from..i + 1];
    RecordsOneMore(tail, i - from);
    RecordsPrefix(tail, i - from + 1);
  }

  /** The counting loop of `poll` over the lines of a file. */
  method ReadFrom(lines: seq<Line>, offset: nat, maxRecords: int) returns (records: seq<Record>)
    ensures records == if offset >= |lines| then [] else Take(Records(lines[offset..]), Max(maxRecords, 1))
  {
    records := [];
    ghost var start := if offset < |lines| then offset else |lines|;
    assert Records(lines[start..start]) == [] && lines[start..|lines|] == lines[start..];
    hide Records;
    for i := 0 to |lines|
      invariant i <= start ==> records == []
      invariant i >= start ==> records == Records(lines[start..i])
      invariant |records| < Max(maxRecords, 1)
    {
      if i < offset {
        continue;
      }
      SliceOneMore(lines, start, i);
      if lines[i].None? {
        continue;
      }
      records := records + [lines[i].value];
      if |records| >= maxRecords {
        return;
      }
    }
  }
}
