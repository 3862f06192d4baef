/** What every run of publishes and polls delivers. */
module EventBusRuns {
  import opened Options
  import opened EventBusModule

  datatype Command =
    | Publish(topic: string, record: Record)
    | Poll(topic: string, group: string, maxRecords: int)

  function Step(b: Bus, c: Command): Bus {
    match c
    case Publish(topic, record) => PublishStep(b, topic, record)
    case Poll(topic, group, maxRecords) => PollStep(b, topic, group, maxRecords)
  }

  function Run(run: seq<Command>): Bus {
    if run == [] then EMPTY_BUS else Step(Run(run[..|run| - 1]), run[|run| - 1])
  }

  /** The records published to a topic, in order. */
  function Published(run: seq<Command>, topic: string): seq<Record> {
    if run == [] then []
    else
      var c := run[|run| - 1];
      Published(run[..|run| - 1], topic) + if c.Publish? && c.topic == topic then [c.record] else []
  }

  /** What the polls of a group answered, one after the other. */
  function Delivered(run: seq<Command>, topic: string, group: string): seq<Record> {
    if run == [] then []
    else
      var c := run[|run| - 1];
      Delivered(run[..|run| - 1], topic, group)
      + if c.Poll? && c.topic == topic && c.group == group
        then Polled(Run(run[..|run| - 1]), topic, group, c.maxRecords) else []
  }

  /** No other topic and group of the run is kept in the same offset file. */
  ghost predicate OwnOffsetFile(run: seq<Command>, topic: string, group: string) {
    forall c | c in run && c.Poll? && OffsetPath(c.topic, c.group) == OffsetPath(topic, group)
      :: c.topic == topic && c.group == group
  }

  function Filled(records: seq<Record>): seq<Line> {
    seq(|records|, i requires 0 <= i < |records| => Some(records[i]))
  }

  lemma FilledOneMore(records: seq<Record>, r: Record)
    ensures Filled(records + [r]) == Filled(records) + [Some(r)]
  {
  }

  lemma {:induction false} RecordsOfFilled(records: seq<Record>, k: nat)
    requires k <= |records|
    ensures Records(Filled(records)[k..]) == records[k..]
    decreases |records|
  {
    if k < |records| {
      var n := |records| - 1;
      RecordsOfFilled(records[..n], k);
      var lines := Filled(records)[k..];
      assert lines[..|lines| - 1] == Filled(records[..n])[k..];
      assert records[k..] == records[..n][k..] + [records[n]];
    }
  }

  /** A topic file holds exactly the published records, and no blank line. */
  lemma {:induction false} FileHoldsPublished(run: seq<Command>, topic: string)
    ensures Lines(Run(run), topic) == Filled(Published(run, topic))
  {
    if run != [] {
      hide Polled, Filled;
      FileHoldsPublished(run[..|run| - 1], topic);
      var c, before := run[|run| - 1], Published(run[..|run| - 1], topic);
      assert before + [] == before;
      if c.Publish? && c.topic == topic {
        FilledOneMore(before, c.record);
      }
    } else {
      assert Filled([]) == [];
    }
  }

  lemma PolledAfterOffset(run: seq<Command>, topic: string, group: string, maxRecords: int)
    requires OffsetOf(Run(run), topic, group) <= |Published(run, topic)|
    ensures Polled(Run(run), topic, group, maxRecords)
      == Take(Published(run, topic)[OffsetOf(Run(run), topic, group)..], Max(maxRecords, 1))
  {
    hide Run, Records;
    FileHoldsPublished(run, topic);
    RecordsOfFilled(Published(run, topic), OffsetOf(Run(run), topic, group));
  }

  lemma OffsetMovesOn(b: Bus, c: Command, topic: string, group: string)
    requires c.Poll? && OffsetPath(c.topic, c.group) == OffsetPath(topic, group) ==> c.topic == topic && c.group == group
    ensures OffsetOf(Step(b, c), topic, group) == OffsetOf(b, topic, group)
      + if c.Poll? && c.topic == topic && c.group == group then |Polled(b, topic, group, c.maxRecords)| else 0
  {
    hide Polled, OffsetPath;
  }

  lemma TakeExtends<T>(s: seq<T>, k: nat, n: nat)
    requires k <= |s|
    ensures k + |Take(s[k..], n)| <= |s| && s[..k] + Take(s[k..], n) == s[..k + |Take(s[k..], n)|]
  {
  }

  /**
   Under any interleaving, what a group was delivered is the part of the
   published sequence up to its offset, and what it was delivered and its lag
   make up what was published.
   */
  lemma {:induction false} DeliveredIsPrefix(run: seq<Command>, topic: string, group: string)
    requires OwnOffsetFile(run, topic, group)
    ensures var offset := OffsetOf(Run(run), topic, group);
      && offset <= |Published(run, topic)|
      && Delivered(run, topic, group) == Published(run, topic)[..offset]
      && |Delivered(run, topic, group)| + Lag(Run(run), topic, group) == |Published(run, topic)|
  {
    hide Run, Published, Delivered, Polled, OffsetOf, Step, Lag, OffsetPath, OwnOffsetFile;
    LagOfRun(run, topic, group);
    if run == [] {
      NothingYet(topic, group);
    } else {
      var before, c := run[..|run| - 1], run[|run| - 1];
      OwnBefore(run, topic, group);
      DeliveredIsPrefix(before, topic, group);
      LastCommand(run, topic, group);
      OffsetMovesOn(Run(before), c, topic, group);
      if c.Poll? && c.topic == topic && c.group == group {
        PollDelivers(before, topic, group, c.maxRecords);
      } else if c.Publish? && c.topic == topic {
        PrefixOfLonger(Published(before, topic), c.record, OffsetOf(Run(before), topic, group));
      }
    }
  }

  lemma PrefixOfLonger<T>(s: seq<T>, x: T, k: nat)
    requires k <= |s|
    ensures (s + [x])[..k] == s[..k]
  {
  }

  /** What the last command of a run adds to what was published and delivered. */
  lemma LastCommand(run: seq<Command>, topic: string, group: string)
    requires run != []
    ensures var before, c := run[..|run| - 1], run[|run| - 1];
      && Run(run) == Step(Run(before), c)
      && Published(run, topic)
         == (if c.Publish? && c.topic == topic then Published(before, topic) + [c.record] else Published(before, topic))
      && Delivered(run, topic, group)
         == (if c.Poll? && c.topic == topic && c.group == group
             then Delivered(before, topic, group) + Polled(Run(before), topic, group, c.maxRecords)
             else Delivered(before, topic, group))
  {
    hide Polled, Step;
    var before := run[..|run| - 1];
    assert Published(before, topic) + [] == Published(before, topic);
    assert Delivered(before, topic, group) + [] == Delivered(before, topic, group);
  }

  lemma OwnBefore(run: seq<Command>, topic: string, group: string)
    requires run != [] && OwnOffsetFile(run, topic, group)
    ensures OwnOffsetFile(run[..|run| - 1], topic, group)
    ensures var c := run[|run| - 1];
      c.Poll? && OffsetPath(c.topic, c.group) == OffsetPath(topic, group) ==> c.topic == topic && c.group == group
  {
  }

  lemma PollDelivers(run: seq<Command>, topic: string, group: string, maxRecords: int)
    requires OffsetOf(Run(run), topic, group) <= |Published(run, topic)|
    ensures var offset, records := OffsetOf(Run(run), topic, group), Polled(Run(run), topic, group, maxRecords);
      && offset + |records| <= |Published(run, topic)|
      && Published(run, topic)[..offset] + records == Published(run, topic)[..offset + |records|]
  {
    hide Run, Polled, OffsetOf, Published;
    PolledAfterOffset(run, topic, group, maxRecords);
    TakeExtends(Published(run, topic), OffsetOf(Run(run), topic, group), Max(maxRecords, 1));
  }

  lemma LagOfRun(run: seq<Command>, topic: string, group: string)
    ensures Lag(Run(run), topic, group) == Max(0, |Published(run, topic)| - OffsetOf(Run(run), topic, group))
  {
    hide Run, Records, OffsetOf;
    FileHoldsPublished(run, topic);
    RecordsOfFilled(Published(run, topic), 0);
  }

  function Polls(topic: string, group: string, maxRecords: int, n: nat): seq<Command> {
    seq(n, i => Poll(topic, group, maxRecords))
  }

  /** Polling again and again delivers everything that was published: `n` polls take `n` batches off the lag. */
  lemma {:induction false} PollsDrain(run: seq<Command>, topic: string, group: string, maxRecords: int, n: nat)
    requires OwnOffsetFile(run, topic, group)
    ensures OwnOffsetFile(run + Polls(topic, group, maxRecords, n), topic, group)
    ensures Published(run + Polls(topic, group, maxRecords, n), topic) == Published(run, topic)
    ensures Lag(Run(run + Polls(topic, group, maxRecords, n)), topic, group)
      == Max(0, Lag(Run(run), topic, group) - n * Max(maxRecords, 1))
    decreases n
  {
    hide Polled, Records, Take, Step, Lag, OffsetPath, Polls, OwnOffsetFile;
    if n == 0 {
      NoPolls(run, topic, group, maxRecords);
    } else {
      var before := run + Polls(topic, group, maxRecords, n - 1);
      PollsDrain(run, topic, group, maxRecords, n - 1);
      PollsOneMore(run, topic, group, maxRecords, n);
      OnePollDrains(before, topic, group, maxRecords);
      var m := Max(maxRecords, 1);
      OneMoreBatch(n, m);
      assert Lag(Run(before), topic, group) == Max(0, Lag(Run(run), topic, group) - (n - 1) * m);
      assert Lag(Run(before + [Poll(topic, group, maxRecords)]), topic, group) == Max(0, Lag(Run(before), topic, group) - m);
    }
  }

  lemma OneMoreBatch(n: nat, m: int)
    requires n > 0 && m >= 1
    ensures n * m == (n - 1) * m + m && (n - 1) * m >= 0
  {
  }

  lemma NoPolls(run: seq<Command>, topic: string, group: string, maxRecords: int)
    ensures run + Polls(topic, group, maxRecords, 0) == run
  {
  }

  lemma PollsOneMore(run: seq<Command>, topic: string, group: string, maxRecords: int, n: nat)
    requires n > 0
    ensures run + Polls(topic, group, maxRecords, n)
      == run + Polls(topic, group, maxRecords, n - 1) + [Poll(topic, group, maxRecords)]
  {
  }

  lemma OnePollDrains(run: seq<Command>, topic: string, group: string, maxRecords: int)
    requires OwnOffsetFile(run, topic, group)
    ensures var after := run + [Poll(topic, group, maxRecords)];
      && OwnOffsetFile(after, topic, group)
      && Published(after, topic) == Published(run, topic)
      && Lag(Run(after), topic, group) == Max(0, Lag(Run(run), topic, group) - Max(maxRecords, 1))
  {
    hide Polled, Records, Step, Lag, OffsetPath, OffsetOf;
    var c := Poll(topic, group, maxRecords);
    var after := run + [c];
    assert after[..|run|] == run;
    DeliveredIsPrefix(run, topic, group);
    PolledAfterOffset(run, topic, group, maxRecords);
    OffsetMovesOn(Run(run), c, topic, group);
    LagOfRun(run, topic, group);
    LagOfRun(after, topic, group);
    assert Published(run, topic) + [] == Published(run, topic);
  }

  /** Groups of one topic never share an offset file. */
  lemma GroupsKeepApart(topic: string, g: string, h: string)
    requires OffsetPath(topic, g) == OffsetPath(topic, h)
    ensures g == h
  {
    assert OffsetPath(topic, g)[|topic| + 2..] == g;
    assert OffsetPath(topic, h)[|topic| + 2..] == h;
  }

  /** Nor do topics without an underscore, as all of the platform's are. */
  lemma TopicsKeepApart(t: string, g: string, u: string, h: string)
    requires '_' !in t && '_' !in u && OffsetPath(t, g) == OffsetPath(u, h)
    ensures t == u && g == h
  {
    var p, q := OffsetPath(t, g), OffsetPath(u, h);
    assert forall i | 0 <= i < |t| :: p[i] == t[i];
    assert forall i | 0 <= i < |u| :: q[i] == u[i];
    assert p[|t|] == '_' && q[|u|] == '_';
    assert p[..|t|] == t && q[..|u|] == u;
    GroupsKeepApart(t, g, h);
  }

  /** A poll that answers something moves another group's offset exactly when the two share their offset file. */
  lemma PollTouchesIff(b: Bus, t: string, g: string, u: string, h: string, maxRecords: int)
    requires Polled(b, u, h, maxRecords) != []
    ensures OffsetOf(PollStep(b, u, h, maxRecords), t, g) != OffsetOf(b, t, g) <==> OffsetPath(t, g) == OffsetPath(u, h)
  {
    hide Polled, OffsetPath;
  }

  /**
   Whenever two topics and groups share an offset file, a group can lose
   records: what it was delivered then falls short of its offset.
   */
  lemma SharedOffsetLoses(t: string, g: string, u: string, h: string, r: Record, s: Record)
    requires t != u && OffsetPath(t, g) == OffsetPath(u, h)
    ensures var run := [Publish(t, r), Publish(u, s), Poll(u, h, 1)];
      && Published(run, t) == [r]
      && Delivered(run, t, g) == []
      && OffsetOf(Run(run), t, g) == 1
      && Polled(Run(run), t, g, 1) == []
  {
    var p, q, c := Publish(t, r), Publish(u, s), Poll(u, h, 1);
    TwoPublished(t, g, u, h, r, s);
    RunOneMore([p, q], c);
    assert [p, q] + [c] == [p, q, c];
    hide Published, Delivered, Run, OffsetPath, Step;
    SharedPoll(Run([p, q]), t, g, u, h, r, s);
  }

  lemma TwoPublished(t: string, g: string, u: string, h: string, r: Record, s: Record)
    requires t != u
    ensures var p, q, c := Publish(t, r), Publish(u, s), Poll(u, h, 1);
      && Run([p, q]) == Bus(map[t := [Some(r)], u := [Some(s)]], map[])
      && Published([p, q, c], t) == [r]
      && Delivered([p, q, c], t, g) == []
  {
    hide Published, Delivered, Run, Step;
    var p, q, c := Publish(t, r), Publish(u, s), Poll(u, h, 1);
    assert [p, q, c][..2] == [p, q] && [p, q][..1] == [p] && [p][..0] == [];
    LastCommand([p], t, g);
    LastCommand([p, q], t, g);
    LastCommand([p, q, c], t, g);
    NothingYet(t, g);
    FilesOfTwo(t, u, r, s);
  }

  lemma FilesOfTwo(t: string, u: string, r: Record, s: Record)
    requires t != u
    ensures Step(Step(EMPTY_BUS, Publish(t, r)), Publish(u, s)) == Bus(map[t := [Some(r)], u := [Some(s)]], map[])
  {
    assert [] + [Some(r)] == [Some(r)] && [] + [Some(s)] == [Some(s)];
    var one := Step(EMPTY_BUS, Publish(t, r));
    assert one.files == map[t := [Some(r)]];
    assert Step(one, Publish(u, s)).files == map[t := [Some(r)], u := [Some(s)]];
  }

  lemma NothingYet(t: string, g: string)
    ensures Run([]) == EMPTY_BUS && Published([], t) == [] && Delivered([], t, g) == [] && OffsetOf(Run([]), t, g) == 0
  {
  }

  lemma SharedPoll(b: Bus, t: string, g: string, u: string, h: string, r: Record, s: Record)
    requires t != u && OffsetPath(t, g) == OffsetPath(u, h)
    requires b == Bus(map[t := [Some(r)], u := [Some(s)]], map[])
    ensures OffsetOf(PollStep(b, u, h, 1), t, g) == 1
    ensures Polled(PollStep(b, u, h, 1), t, g, 1) == []
    ensures PollStep(b, u, h, 1) == Step(b, Poll(u, h, 1))
  {
    hide OffsetPath;
    assert [Some(s)][..0] == [] && Records([Some(s)]) == [s];
    assert Lines(b, u)[0..] == [Some(s)];
    PolledPastEnd(PollStep(b, u, h, 1), t, g);
  }

  lemma PolledPastEnd(b: Bus, t: string, g: string)
    requires OffsetOf(b, t, g) >= |Lines(b, t)|
    ensures Polled(b, t, g, 1) == []
  {
  }

  /** Two such pairs exist once a topic holds an underscore. */
  lemma UnderscoreCollision()
    ensures OffsetPath("a", "b__c") == OffsetPath("a__b", "c") && "a" != "a__b"
  {
    assert OffsetPath("a", "b__c") == "a__b__c" == OffsetPath("a__b", "c");
    assert |"a"| != |"a__b"|;
  }

  lemma RunOneMore(run: seq<Command>, c: Command)
    ensures Run(run + [c]) == Step(Run(run), c)
  {
    assert (run + [c])[..|run|] == run;
  }
}
