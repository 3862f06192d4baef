/** Multi-event correlation: per rule and group, a window of recent matching events. */
module Correlation {
  import opened Options
  import opened SlidingWindow

  datatype Event = Event(eventId: string, timestamp: real, attributes: map<string, string>)

  function Attribute(e: Event, name: string): Option<string> {
    if name in e.attributes then Some(e.attributes[name]) else None
  }

  function GetOr<T>(o: Option<T>, default: T): T {
    if o.Some? then o.value else default
  }

  /** A rule's correlation block; absent settings have defaults. */
  datatype Settings = Settings(
    groupBy: seq<string>,
    windowSeconds: Option<real>,
    distinctField: Option<string>,
    kind: string,
    minCount: Option<int>,
    minDistinct: Option<int>)

  datatype Rule = Rule(id: Option<string>, correlation: Option<Settings>)

  datatype Entry = Entry(timestamp: real, eventId: string, fieldValue: Option<string>)

  function TimeOf(e: Entry): real {
    e.timestamp
  }

  /** Rule id and group values; the text that joins them is taken to tell them apart. */
  type Key = (string, seq<Option<string>>)

  function KeyOf(rule: Rule, e: Event): Key
    requires rule.correlation.Some?
  {
    var groupBy := rule.correlation.value.groupBy;
    (GetOr(rule.id, "unknown"), seq(|groupBy|, i requires 0 <= i < |groupBy| => Attribute(e, groupBy[i])))
  }

  function Span(s: Settings): real {
    GetOr(s.windowSeconds, 300.0)
  }

  function EntryOf(s: Settings, e: Event): Entry {
    Entry(e.timestamp, e.eventId,
          if s.distinctField.Some? && s.distinctField.value != "" then Attribute(e, s.distinctField.value) else None)
  }

  function DistinctValues(window: seq<Entry>): set<string> {
    set e | e in window && e.fieldValue.Some? :: e.fieldValue.value
  }

  /** Whether the entries of a window meet the rule. */
  predicate Fires(s: Settings, window: seq<Entry>) {
    if s.kind == "threshold" then |window| >= GetOr(s.minCount, 1)
    else if s.kind == "distinct_count" then |DistinctValues(window)| >= GetOr(s.minDistinct, 1)
    else false
  }

  function EventIds(window: seq<Entry>): seq<string> {
    seq(|window|, i requires 0 <= i < |window| => window[i].eventId)
  }

  type Windows = map<Key, seq<Entry>>

  function Held(windows: Windows, key: Key): seq<Entry> {
    if key in windows then windows[key] else []
  }

  datatype Verdict = Verdict(matched: bool, eventIds: seq<string>)

  /** The table after one evaluation: only the window of the rule and group changes. */
  function Evaluated(windows: Windows, rule: Rule, e: Event): Windows {
    if rule.correlation.None? then windows
    else
      var s := rule.correlation.value;
      var key := KeyOf(rule, e);
      windows[key := DropOld(Held(windows, key) + [EntryOf(s, e)], TimeOf, e.timestamp - Span(s))]
  }

  function VerdictOn(s: Settings, window: seq<Entry>): Verdict {
    if Fires(s, window) then Verdict(true, EventIds(window)) else Verdict(false, [])
  }

  class CorrelationEngine {
    var windows: Windows

    constructor ()
      ensures windows == map[]
    {
      windows := map[];
    }

    method Evaluate(rule: Rule, e: Event) returns (v: Verdict)
      modifies this
      ensures windows == Evaluated(old(windows), rule, e)
      ensures v == if rule.correlation.None? then Verdict(false, [])
                   else VerdictOn(rule.correlation.value, Held(windows, KeyOf(rule, e)))
    {
      if rule.correlation.None? {
        return Verdict(false, []);
      }
      var s, key := rule.correlation.value, KeyOf(rule, e);
      var window := Held(windows, key) + [EntryOf(s, e)];
      window := Prune(window, TimeOf, e.timestamp - Span(s));
      windows := windows[key := window];
      var matched := false;
      if s.kind == "threshold" {
        matched := |window| >= GetOr(s.minCount, 1);
      } else if s.kind == "distinct_count" {
        matched := |DistinctValues(window)| >= GetOr(s.minDistinct, 1);
      }
      v := Verdict(matched, if matched then EventIds(window) else []);
    }
  }

  // Runs.

  type Call = (Rule, Event)

  function After(run: seq<Call>): Windows {
    if run == [] then map[] else Evaluated(After(run[..|run| - 1]), run[|run| - 1].0, run[|run| - 1].1)
  }

  predicate Concerns(c: Call, key: Key) {
    c.0.correlation.Some? && KeyOf(c.0, c.1) == key
  }

  /** Every entry of one rule and group that the run produced. */
  function EntriesOf(run: seq<Call>, key: Key): seq<Entry> {
    if run == [] then []
    else
      var c := run[|run| - 1];
      EntriesOf(run[..|run| - 1], key) + if Concerns(c, key) then [EntryOf(c.0.correlation.value, c.1)] else []
  }

  /** The rule keeps one window length through the run. */
  ghost predicate OneSpan(run: seq<Call>, key: Key, span: real) {
    forall c | c in run && Concerns(c, key) :: Span(c.0.correlation.value) == span
  }

  /** The window of a rule and group depends on the run's own entries for it and on nothing else. */
  lemma {:induction false} HeldIsWindowed(run: seq<Call>, key: Key, span: real)
    requires OneSpan(run, key, span)
    ensures Held(After(run), key) == Windowed(EntriesOf(run, key), TimeOf, span)
  {
    if run != [] {
      hide DropOld, KeyOf, EntryOf, Span;
      var n, c := |run| - 1, run[|run| - 1];
      HeldIsWindowed(run[..n], key, span);
      var before := EntriesOf(run[..n], key);
      if Concerns(c, key) {
        WindowedStep(before, EntryOf(c.0.correlation.value, c.1), TimeOf, span);
        EntryTime(c.0.correlation.value, c.1);
      } else {
        assert before + [] == before;
      }
    }
  }

  lemma EntryTime(s: Settings, e: Event)
    ensures TimeOf(EntryOf(s, e)) == e.timestamp
  {
  }

  lemma EntriesOneMore(run: seq<Call>, rule: Rule, e: Event, s: Settings)
    requires rule.correlation == Some(s)
    ensures EntriesOf(run + [(rule, e)], KeyOf(rule, e)) == EntriesOf(run, KeyOf(rule, e)) + [EntryOf(s, e)]
    ensures After(run + [(rule, e)]) == Evaluated(After(run), rule, e)
  {
    hide KeyOf, EntryOf, Evaluated;
    assert (run + [(rule, e)])[..|run|] == run;
  }

  /**
   When the entries of a group expire in order, as they do when its events
   arrive in time order, an evaluation after any run answers as a filter over the group's whole history would: it fires
   exactly when the entries within the window of the newest meet the rule, and
   then names exactly their events.
   */
  lemma FiresAsFilter(run: seq<Call>, rule: Rule, e: Event, s: Settings, span: real)
    requires rule.correlation == Some(s) && OneSpan(run + [(rule, e)], KeyOf(rule, e), span)
    requires ExpiresInOrder(EntriesOf(run, KeyOf(rule, e)) + [EntryOf(s, e)], TimeOf, span)
    ensures var recent := Since(EntriesOf(run, KeyOf(rule, e)) + [EntryOf(s, e)], TimeOf, e.timestamp - span);
      var held := Held(Evaluated(After(run), rule, e), KeyOf(rule, e));
      && held == recent
      && VerdictOn(s, held).matched == Fires(s, recent)
      && VerdictOn(s, held).eventIds == if Fires(s, recent) then EventIds(recent) else []
  {
    hide DropOld, Since, KeyOf, EntryOf, After, Evaluated, EntriesOf, Fires, EventIds, ExpiresInOrder, Windowed, OneSpan;
    var key := KeyOf(rule, e);
    HeldIsWindowed(run + [(rule, e)], key, span);
    EntriesOneMore(run, rule, e, s);
    WindowedIsFilter(EntriesOf(run, key) + [EntryOf(s, e)], TimeOf, span);
    EntryTime(s, e);
  }

  /** The window after the first `n` evaluations, the last of them for `key`, is the filter of the group's history. */
  ghost predicate HoldsFilter(run: seq<Call>, key: Key, span: real, n: nat)
    requires 0 < n <= |run|
  {
    Held(After(run[..n]), key) == Since(EntriesOf(run[..n], key), TimeOf, run[n - 1].1.timestamp - span)
  }

  lemma HoldsFilterIff(run: seq<Call>, key: Key, span: real, n: nat)
    requires 0 < n <= |run| && Concerns(run[n - 1], key) && OneSpan(run, key, span)
    ensures EntriesOf(run[..n], key) != []
    ensures HoldsFilter(run, key, span, n) <==> IsFilter(EntriesOf(run[..n], key), TimeOf, span)
  {
    hide KeyOf, EntryOf, After, Windowed, Since;
    var c, before := run[n - 1], run[..n - 1];
    assert run[..n] == before + [(c.0, c.1)];
    EntriesOneMore(before, c.0, c.1, c.0.correlation.value);
    EntryTime(c.0.correlation.value, c.1);
    HeldIsWindowed(run[..n], key, span);
  }

  /** Entries only accumulate, one for every evaluation that concerns the key. */
  lemma {:induction false} EntriesOfPrefix(run: seq<Call>, key: Key, n: nat)
    requires n <= |run|
    ensures EntriesOf(run[..n], key) <= EntriesOf(run, key)
    decreases |run|
  {
    if n < |run| {
      EntriesOfPrefix(run[..|run| - 1], key, n);
      assert run[..|run| - 1][..n] == run[..n];
    } else {
      assert run[..n] == run;
    }
  }

  lemma {:induction false} EntryCameAt(run: seq<Call>, key: Key, m: nat) returns (n: nat)
    requires 0 < m <= |EntriesOf(run, key)|
    ensures 0 < n <= |run| && Concerns(run[n - 1], key)
    ensures EntriesOf(run[..n], key) == EntriesOf(run, key)[..m]
  {
    hide Concerns, EntryOf;
    var before := run[..|run| - 1];
    if m <= |EntriesOf(before, key)| {
      n := EntryCameAt(before, key, m);
      assert before[..n] == run[..n];
    } else {
      n := |run|;
      assert run[..n] == run;
    }
  }

  /**
   The exact condition: the window of a rule and group is the filter of the
   group's whole history at every evaluation of a run exactly when the
   group's entries expire in order.
   */
  lemma WindowAlwaysFilterIff(run: seq<Call>, key: Key, span: real)
    requires OneSpan(run, key, span)
    ensures (forall n | 0 < n <= |run| && Concerns(run[n - 1], key) :: HoldsFilter(run, key, span, n))
      <==> ExpiresInOrder(EntriesOf(run, key), TimeOf, span)
  {
    hide HoldsFilter, Concerns, EntriesOf, IsFilter, ExpiresInOrder, OneSpan;
    var all := EntriesOf(run, key);
    AlwaysFilterIff(all, TimeOf, span);
    if forall n | 0 < n <= |run| && Concerns(run[n - 1], key) :: HoldsFilter(run, key, span, n) {
      forall m | 0 < m <= |all| ensures IsFilter(all[..m], TimeOf, span) {
        var n := EntryCameAt(run, key, m);
        HoldsFilterIff(run, key, span, n);
      }
    }
    if ExpiresInOrder(all, TimeOf, span) {
      forall n | 0 < n <= |run| && Concerns(run[n - 1], key) ensures HoldsFilter(run, key, span, n) {
        HoldsFilterIff(run, key, span, n);
        EntriesOfPrefix(run, key, n);
        var m := |EntriesOf(run[..n], key)|;
        assert EntriesOf(run[..n], key) == all[..m];
      }
    }
  }

  // The same, told by the calls themselves.

  /** Two evaluations of the same rule id, unknown if absent, whose events agree in the value of every grouping field. */
  ghost predicate SameGroup(c: Call, d: Call) {
    && c.0.correlation.Some? && d.0.correlation.Some?
    && (c.0.id == d.0.id || {c.0.id, d.0.id} == {None, Some("unknown")})
    && var g, h := c.0.correlation.value.groupBy, d.0.correlation.value.groupBy;
       |g| == |h| && forall i | 0 <= i < |g| :: SameValue(c.1, g[i], d.1, h[i])
  }

  /** Both events have the same value of a field, or neither has the field. */
  predicate SameValue(e: Event, name: string, f: Event, other: string) {
    && (name in e.attributes <==> other in f.attributes)
    && (name in e.attributes ==> e.attributes[name] == f.attributes[other])
  }

  /** Windows are kept apart exactly by rule id and grouping values. */
  lemma GroupsIff(c: Call, d: Call)
    requires d.0.correlation.Some?
    ensures Concerns(c, KeyOf(d.0, d.1)) <==> SameGroup(c, d)
  {
    if c.0.correlation.Some? {
      var g, h := c.0.correlation.value.groupBy, d.0.correlation.value.groupBy;
      var k, l := KeyOf(c.0, c.1), KeyOf(d.0, d.1);
      if |g| == |h| {
        forall i | 0 <= i < |g| ensures k.1[i] == l.1[i] <==> SameValue(c.1, g[i], d.1, h[i]) {
        }
        assert k.1 == l.1 <==> forall i | 0 <= i < |g| :: SameValue(c.1, g[i], d.1, h[i]);
      }
      assert k.0 == l.0 <==> (c.0.id == d.0.id || {c.0.id, d.0.id} == {None, Some("unknown")}) by {
        SameName(c.0.id, d.0.id);
      }
    }
  }

  lemma SameName(a: Option<string>, b: Option<string>)
    ensures GetOr(a, "unknown") == GetOr(b, "unknown") <==> a == b || {a, b} == {None, Some("unknown")}
  {
    if {a, b} == {None, Some("unknown")} {
      assert a in {None, Some("unknown")} && b in {None, Some("unknown")};
    }
  }

  /** The earlier calls of the group of `d`, in order. */
  ghost function GroupOf(run: seq<Call>, d: Call): seq<Call> {
    if run == [] then []
    else GroupOf(run[..|run| - 1], d) + if SameGroup(run[|run| - 1], d) then [run[|run| - 1]] else []
  }

  function CallTime(c: Call): real {
    c.1.timestamp
  }

  /** The distinct field of the call's rule, as its event has it. */
  function FieldOf(c: Call): Option<string> {
    match c.0.correlation
    case Some(s) =>
      if s.distinctField.Some? && s.distinctField.value != "" && s.distinctField.value in c.1.attributes
      then Some(c.1.attributes[s.distinctField.value]) else None
    case None => None
  }

  /** The entries are those of the calls. */
  ghost predicate Record(entries: seq<Entry>, calls: seq<Call>) {
    && |entries| == |calls|
    && forall i | 0 <= i < |calls| :: entries[i] == Entry(CallTime(calls[i]), calls[i].1.eventId, FieldOf(calls[i]))
  }

  lemma {:induction false} EntriesRecordGroup(run: seq<Call>, d: Call)
    requires d.0.correlation.Some?
    ensures Record(EntriesOf(run, KeyOf(d.0, d.1)), GroupOf(run, d))
  {
    if run != [] {
      hide KeyOf, SameGroup;
      EntriesRecordGroup(run[..|run| - 1], d);
      GroupsIff(run[|run| - 1], d);
    }
  }

  lemma {:induction false} SinceRecords(entries: seq<Entry>, calls: seq<Call>, cutoff: real)
    requires Record(entries, calls)
    ensures Record(Since(entries, TimeOf, cutoff), Since(calls, CallTime, cutoff))
  {
    if calls != [] {
      hide FieldOf;
      SinceRecords(entries[..|calls| - 1], calls[..|calls| - 1], cutoff);
    }
  }

  lemma ExpiryRecords(entries: seq<Entry>, calls: seq<Call>, span: real)
    requires Record(entries, calls)
    ensures ExpiresInOrder(entries, TimeOf, span) <==> ExpiresInOrder(calls, CallTime, span)
  {
    hide FieldOf;
    assert forall i, k | 0 <= i < |calls| && 0 <= k < |calls| ::
        Old(entries, TimeOf, span, i, k) <==> Old(calls, CallTime, span, i, k);
    hide Old;
  }

  /** The different values of the distinct field among some calls. */
  ghost function FieldValues(calls: seq<Call>): set<string> {
    set c | c in calls && FieldOf(c).Some? :: FieldOf(c).value
  }

  lemma FieldsRecord(entries: seq<Entry>, calls: seq<Call>)
    requires Record(entries, calls)
    ensures DistinctValues(entries) == FieldValues(calls)
  {
    hide FieldOf;
    forall v | v in FieldValues(calls) ensures v in DistinctValues(entries) {
      var i :| 0 <= i < |calls| && FieldOf(calls[i]) == Some(v);
      assert entries[i] in entries;
    }
    forall v | v in DistinctValues(entries) ensures v in FieldValues(calls) {
      var i :| 0 <= i < |entries| && entries[i].fieldValue == Some(v);
      assert calls[i] in calls;
    }
  }

  /** The calls of the group all ask for this window; without a setting it is 300 seconds. */
  ghost predicate GroupSpan(calls: seq<Call>, span: real) {
    forall c | c in calls && c.0.correlation.Some? ::
      c.0.correlation.value.windowSeconds == Some(span) || (c.0.correlation.value.windowSeconds == None && span == 300.0)
  }

  /** What an evaluation of `d` answers after a run. */
  function VerdictAfter(run: seq<Call>, d: Call): Verdict
    requires d.0.correlation.Some?
  {
    VerdictOn(d.0.correlation.value, Held(Evaluated(After(run), d.0, d.1), KeyOf(d.0, d.1)))
  }

  /** What a rule must answer on the recent calls of its group. */
  ghost predicate Answers(v: Verdict, s: Settings, recent: seq<Call>) {
    && (v.matched <==>
          || (s.kind == "threshold" && |recent| >= (match s.minCount case Some(n) => n case None => 1))
          || (s.kind == "distinct_count" && |FieldValues(recent)| >= (match s.minDistinct case Some(n) => n case None => 1)))
    && |v.eventIds| == (if v.matched then |recent| else 0)
    && forall i | 0 <= i < |v.eventIds| :: v.eventIds[i] == recent[i].1.eventId
  }

  lemma VerdictAnswers(s: Settings, entries: seq<Entry>, recent: seq<Call>)
    requires Record(entries, recent)
    ensures Answers(VerdictOn(s, entries), s, recent)
  {
    FieldsRecord(entries, recent);
    hide FieldOf, FieldValues, DistinctValues;
  }

  lemma GroupHasSpan(run: seq<Call>, d: Call, span: real)
    requires d.0.correlation.Some? && GroupSpan(GroupOf(run, d) + [d], span)
    ensures OneSpan(run + [d], KeyOf(d.0, d.1), span)
  {
    forall c | c in run + [d] && Concerns(c, KeyOf(d.0, d.1)) ensures Span(c.0.correlation.value) == span {
      GroupsIff(c, d);
      if c in run {
        InGroup(run, d, c);
      }
      assert c in GroupOf(run, d) + [d];
    }
  }

  lemma {:induction false} InGroup(run: seq<Call>, d: Call, c: Call)
    requires c in run && SameGroup(c, d)
    ensures c in GroupOf(run, d)
  {
    hide SameGroup;
    var n := |run| - 1;
    if c != run[n] {
      InGroup(run[..n], d, c);
    }
  }

  /**
   A rule fires exactly when the calls of its own group, and no others, that
   lie within the window before this event are enough, or have enough
   different values; and it names exactly their events.  This holds as long
   as the group's calls expire in order.
   */
  lemma FiresOnItsGroup(run: seq<Call>, d: Call, span: real)
    requires d.0.correlation.Some?
    requires GroupSpan(GroupOf(run, d) + [d], span) && ExpiresInOrder(GroupOf(run, d) + [d], CallTime, span)
    ensures Answers(VerdictAfter(run, d), d.0.correlation.value,
                    Since(GroupOf(run, d) + [d], CallTime, d.1.timestamp - span))
  {
    hide KeyOf, After, Evaluated, EntriesOf, GroupOf, Since, ExpiresInOrder, OneSpan, GroupSpan, FieldOf, Answers, VerdictOn, EntryOf;
    var (rule, e) := d;
    var s, key, mine := rule.correlation.value, KeyOf(rule, e), GroupOf(run, d) + [d];
    var entries := EntriesOf(run, key) + [EntryOf(s, e)];
    GroupHasSpan(run, d, span);
    EntriesRecordGroup(run, d);
    EntryOfCall(d);
    ExpiryRecords(entries, mine, span);
    FiresAsFilter(run, rule, e, s, span);
    SinceRecords(entries, mine, e.timestamp - span);
    VerdictAnswers(s, Since(entries, TimeOf, e.timestamp - span), Since(mine, CallTime, e.timestamp - span));
  }

  lemma EntryOfCall(d: Call)
    requires d.0.correlation.Some?
    ensures EntryOf(d.0.correlation.value, d.1) == Entry(CallTime(d), d.1.eventId, FieldOf(d))
  {
  }

  lemma {:induction false} HeldUnaffected(before: seq<Call>, c: Call, more: seq<Call>, key: Key)
    requires !Concerns(c, key)
    ensures Held(After(before + [c] + more), key) == Held(After(before + more), key)
    decreases |more|
  {
    hide DropOld, KeyOf, EntryOf;
    if more == [] {
      assert before + [c] + [] == before + [c] && before + [] == before;
      assert (before + [c])[..|before|] == before;
    } else {
      var n := |more| - 1;
      HeldUnaffected(before, c, more[..n], key);
      assert (before + [c] + more)[..|before| + 1 + n] == before + [c] + more[..n];
      assert (before + more)[..|before| + n] == before + more[..n];
    }
  }

  /** A call of another rule, or with another value of one grouping field, changes no verdict. */
  lemma OtherGroupsDoNotMatter(before: seq<Call>, c: Call, more: seq<Call>, d: Call)
    requires d.0.correlation.Some? && !SameGroup(c, d)
    ensures VerdictAfter(before + [c] + more, d) == VerdictAfter(before + more, d)
  {
    hide KeyOf, After, VerdictOn, DropOld, EntryOf, SameGroup;
    GroupsIff(c, d);
    HeldUnaffected(before, c, more, KeyOf(d.0, d.1));
  }
}
