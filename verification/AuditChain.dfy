/** The hash chain over the audit log: writing it, checking it, and what a check that passes rules out. */
module AuditChain {
  import opened Options

  /** Sixty-four zeros. */
  const GENESIS_HASH: string := Zeros(64)

  function Zeros(n: nat): (s: string)
    ensures |s| == n && forall i | 0 <= i < n :: s[i] == '0'
  {
    if n == 0 then "" else Zeros(n - 1) + "0"
  }

  /** A datetime: naive ones were always UTC, aware ones carry their offset. */
  datatype Timestamp = Naive(micros: int) | Aware(localMicros: int, offsetMicros: int)

  function Canonical(t: Timestamp): Timestamp {
    match t
    case Naive(_) => t
    case Aware(local, offset) => Naive(local - offset)
  }

  datatype Event = Event(
    tenantId: string,
    actor: string,
    actorType: string,
    action: string,
    resourceType: string,
    resourceId: string,
    details: string,
    promptHash: Option<string>,
    evidenceRefs: seq<string>)

  /** What is hashed for a record. */
  datatype Payload = Payload(sequence: int, prevHash: string, event: Event, timestamp: Timestamp)

  /** The digest of a payload: its canonical JSON, hashed, in hexadecimal. */
  type Digest = Payload -> string

  datatype Record = Record(
    auditId: string,
    sequence: int,
    event: Event,
    timestamp: Timestamp,
    prevHash: string,
    recordHash: string)

  function PayloadOf(r: Record): Payload {
    Payload(r.sequence, r.prevHash, r.event, Canonical(r.timestamp))
  }

  /** The moment a timestamp names, in microseconds of UTC. */
  function Instant(t: Timestamp): int {
    match t
    case Naive(micros) => micros
    case Aware(localMicros, offsetMicros) => localMicros - offsetMicros
  }

  /** Two records that agree in everything that a hash must cover. */
  predicate Agree(r: Record, s: Record) {
    && r.sequence == s.sequence
    && r.prevHash == s.prevHash
    && r.event.tenantId == s.event.tenantId
    && r.event.actor == s.event.actor
    && r.event.actorType == s.event.actorType
    && r.event.action == s.event.action
    && r.event.resourceType == s.event.resourceType
    && r.event.resourceId == s.event.resourceId
    && r.event.details == s.event.details
    && r.event.promptHash == s.event.promptHash
    && r.event.evidenceRefs == s.event.evidenceRefs
    && Instant(r.timestamp) == Instant(s.timestamp)
  }

  /** What is hashed of a record covers exactly those fields. */
  lemma PayloadCovers(r: Record, s: Record)
    ensures PayloadOf(r) == PayloadOf(s) <==> Agree(r, s)
  {
  }

  function ComputeRecordHash(digest: Digest, sequence: int, prevHash: string, event: Event, timestamp: Timestamp): string {
    digest(Payload(sequence, prevHash, event, Canonical(timestamp)))
  }

  /** A hexadecimal SHA-256 digest has sixty-four characters. */
  ghost predicate Hexadecimal(digest: Digest) {
    forall p :: |digest(p)| == 64
  }

  /** The digest tells these payloads apart, and none of them hashes to the genesis value. */
  ghost predicate TellsApart(digest: Digest, payloads: set<Payload>) {
    && (forall p, q | p in payloads && q in payloads && digest(p) == digest(q) :: p == q)
    && (forall p | p in payloads :: digest(p) != GENESIS_HASH)
  }

  ghost function Payloads(records: seq<Record>): set<Payload> {
    set r | r in records :: PayloadOf(r)
  }

  /** The record that `order_by(sequence.desc()).limit(1)` answers. */
  function Newest(rows: seq<Record>): (r: Option<Record>)
    ensures r.None? <==> rows == []
    ensures r.Some? ==> r.value in rows && forall x | x in rows :: x.sequence <= r.value.sequence
  {
    if rows == [] then None
    else
      var last := rows[|rows| - 1];
      var rest := Newest(rows[..|rows| - 1]);
      if rest.None? || last.sequence > rest.value.sequence then Some(last) else rest
  }

  function NextSequence(rows: seq<Record>): int {
    var newest := Newest(rows);
    if newest.None? then 1 else newest.value.sequence + 1
  }

  /** An empty hash counts as none. */
  function LastHash(rows: seq<Record>): string {
    var newest := Newest(rows);
    if newest.None? || newest.value.recordHash == "" then GENESIS_HASH else newest.value.recordHash
  }

  /** The genesis value is sixty-four zeros; it stands in for the hash of an empty table, and for an empty hash. */
  lemma GenesisIs(rows: seq<Record>)
    ensures |GENESIS_HASH| == 64 && forall i | 0 <= i < 64 :: GENESIS_HASH[i] == '0'
    ensures LastHash([]) == GENESIS_HASH
    ensures rows != [] && Newest(rows).value.recordHash == "" ==> LastHash(rows) == GENESIS_HASH
    ensures rows != [] && Newest(rows).value.recordHash != "" ==> LastHash(rows) == Newest(rows).value.recordHash
  {
  }

  /** The record that an append writes. */
  function NewRecord(digest: Digest, rows: seq<Record>, auditId: string, event: Event, now: Timestamp): Record {
    var sequence := NextSequence(rows);
    var prevHash := LastHash(rows);
    Record(auditId, sequence, event, now, prevHash, ComputeRecordHash(digest, sequence, prevHash, event, now))
  }

  /** The hash that the record after these must carry as its previous one. */
  function EndHash(records: seq<Record>): string {
    if records == [] then GENESIS_HASH else records[|records| - 1].recordHash
  }

  ghost predicate Good(digest: Digest, records: seq<Record>, i: nat)
    requires i < |records|
  {
    && records[i].prevHash == EndHash(records[..i])
    && records[i].recordHash == digest(PayloadOf(records[i]))
  }

  ghost predicate Intact(digest: Digest, records: seq<Record>) {
    forall i | 0 <= i < |records| :: Good(digest, records, i)
  }

  /** Record `k` is the earliest bad one. */
  ghost predicate BrokenAt(digest: Digest, records: seq<Record>, k: nat) {
    k < |records| && !Good(digest, records, k) && forall i | 0 <= i < k :: Good(digest, records, i)
  }

  ghost predicate Numbered(records: seq<Record>) {
    forall i | 0 <= i < |records| :: records[i].sequence == i + 1
  }

  datatype Detail = ChainIntact | PrevHashMismatch | RecordHashMismatch

  datatype Verdict = Verdict(valid: bool, eventsChecked: int, firstBroken: Option<int>, detail: Detail)

  /** Recomputes every hash and link, and stops at the first that is wrong. */
  method VerifyChain(digest: Digest, records: seq<Record>) returns (v: Verdict)
    ensures v.valid <==> Intact(digest, records)
    ensures v.valid ==> v == Verdict(true, |records|, None, ChainIntact)
    ensures !v.valid ==>
      && v.eventsChecked >= 0
      && BrokenAt(digest, records, v.eventsChecked)
      && v.firstBroken == Some(records[v.eventsChecked].sequence)
      && v.detail == (if records[v.eventsChecked].prevHash != EndHash(records[..v.eventsChecked])
                      then PrevHashMismatch else RecordHashMismatch)
  {
    var expectedPrev := GENESIS_HASH;
    for i := 0 to |records|
      invariant expectedPrev == EndHash(records[..i])
      invariant forall j | 0 <= j < i :: Good(digest, records, j)
    {
      var record := records[i];
      if record.prevHash != expectedPrev {
        assert !Good(digest, records, i);
        return Verdict(false, i, Some(record.sequence), PrevHashMismatch);
      }
      var recomputed :=
        ComputeRecordHash(digest, record.sequence, record.prevHash, record.event, record.timestamp);
      if recomputed != record.recordHash {
        assert !Good(digest, records, i);
        return Verdict(false, i, Some(record.sequence), RecordHashMismatch);
      }
      expectedPrev := record.recordHash;
    }
    return Verdict(true, |records|, None, ChainIntact);
  }

  lemma GoodPrefix(digest: Digest, records: seq<Record>, k: nat, i: nat)
    requires i < k <= |records|
    ensures Good(digest, records[..k], i) <==> Good(digest, records, i)
  {
    assert records[..k][..i] == records[..i];
  }

  /** Whatever was intact stays intact when its tail is cut off. */
  lemma PrefixIntact(digest: Digest, records: seq<Record>, k: nat)
    requires Intact(digest, records) && k <= |records|
    ensures Intact(digest, records[..k])
  {
    forall i | 0 <= i < k ensures Good(digest, records[..k], i) {
      GoodPrefix(digest, records, k, i);
    }
  }

  lemma {:induction false} NewestOfNumbered(rows: seq<Record>)
    requires Numbered(rows) && rows != []
    ensures Newest(rows) == Some(rows[|rows| - 1])
  {
    if |rows| > 1 {
      NewestOfNumbered(rows[..|rows| - 1]);
    }
  }

  /** An append to a numbered, intact log leaves it numbered and intact. */
  lemma AppendKeepsChain(digest: Digest, rows: seq<Record>, auditId: string, event: Event, now: Timestamp)
    requires Hexadecimal(digest) && Numbered(rows) && Intact(digest, rows)
    ensures var r := NewRecord(digest, rows, auditId, event, now);
      && r.event == event && r.timestamp == now
      && Numbered(rows + [r])
      && Intact(digest, rows + [r])
  {
    var r := NewRecord(digest, rows, auditId, event, now);
    var after := rows + [r];
    if rows != [] {
      NewestOfNumbered(rows);
      var n := |rows| - 1;
      assert Good(digest, rows, n);
      assert |digest(PayloadOf(rows[n]))| == 64;
    }
    assert after[..|rows|] == rows;
    assert r.prevHash == EndHash(rows);
    forall i | 0 <= i < |after| ensures Good(digest, after, i) {
      if i < |rows| {
        GoodPrefix(digest, after, |rows|, i);
      }
    }
  }

  datatype Entry = Entry(auditId: string, event: Event, now: Timestamp)

  /** The log after a run of appends. */
  function AppendAll(digest: Digest, run: seq<Entry>): seq<Record> {
    if run == [] then []
    else
      var rows := AppendAll(digest, run[..|run| - 1]);
      var e := run[|run| - 1];
      rows + [NewRecord(digest, rows, e.auditId, e.event, e.now)]
  }

  /** One record per appended event, in order. */
  ghost predicate Mirrors(rows: seq<Record>, run: seq<Entry>) {
    |rows| == |run| && forall i | 0 <= i < |run| :: rows[i].event == run[i].event && rows[i].timestamp == run[i].now
  }

  lemma MirrorsOneMore(rows: seq<Record>, run: seq<Entry>, r: Record)
    requires run != [] && Mirrors(rows, run[..|run| - 1])
    requires r.event == run[|run| - 1].event && r.timestamp == run[|run| - 1].now
    ensures Mirrors(rows + [r], run)
  {
    assert forall i | 0 <= i < |run| - 1 :: run[..|run| - 1][i] == run[i];
  }

  /** Every run of appends leaves one record per event, in order, numbered from 1, in an intact chain. */
  lemma {:induction false} EveryRunIntact(digest: Digest, run: seq<Entry>)
    requires Hexadecimal(digest)
    ensures var rows := AppendAll(digest, run); Mirrors(rows, run) && Numbered(rows) && Intact(digest, rows)
  {
    if run != [] {
      hide Intact, Hexadecimal, Numbered, NewRecord, Mirrors;
      var n := |run| - 1;
      EveryRunIntact(digest, run[..n]);
      var rows := AppendAll(digest, run[..n]);
      AppendKeepsChain(digest, rows, run[n].auditId, run[n].event, run[n].now);
      MirrorsOneMore(rows, run, NewRecord(digest, rows, run[n].auditId, run[n].event, run[n].now));
    }
  }

  lemma EndOfGood(digest: Digest, records: seq<Record>)
    requires records != [] && Intact(digest, records)
    ensures var n := |records| - 1;
      && records[n].prevHash == EndHash(records[..n])
      && EndHash(records) == digest(PayloadOf(records[n]))
      && Intact(digest, records[..n])
  {
    assert Good(digest, records, |records| - 1);
    PrefixIntact(digest, records, |records| - 1);
  }

  /** Two logs that agree, record by record, in everything that a hash must cover, and in the hashes. */
  ghost predicate SameContent(a: seq<Record>, b: seq<Record>) {
    |a| == |b| && forall i | 0 <= i < |a| :: Agree(a[i], b[i]) && a[i].recordHash == b[i].recordHash
  }

  lemma SameLast(digest: Digest, a: seq<Record>, b: seq<Record>)
    requires Intact(digest, a) && Intact(digest, b) && EndHash(a) == EndHash(b)
    requires TellsApart(digest, Payloads(a) + Payloads(b)) && a != [] && b != []
    ensures var m, n := |a| - 1, |b| - 1;
      && PayloadOf(a[m]) == PayloadOf(b[n]) && a[m].recordHash == b[n].recordHash
      && Intact(digest, a[..m]) && Intact(digest, b[..n]) && EndHash(a[..m]) == EndHash(b[..n])
      && TellsApart(digest, Payloads(a[..m]) + Payloads(b[..n]))
  {
    EndOfGood(digest, a);
    EndOfGood(digest, b);
    hide Intact;
    var m, n := |a| - 1, |b| - 1;
    assert a[m] in a && b[n] in b;
    assert Payloads(a[..m]) <= Payloads(a) && Payloads(b[..n]) <= Payloads(b);
  }

  lemma EndNotGenesis(digest: Digest, a: seq<Record>)
    requires Intact(digest, a) && TellsApart(digest, Payloads(a)) && a != []
    ensures EndHash(a) != GENESIS_HASH
  {
    assert a[|a| - 1] in a;
    EndOfGood(digest, a);
  }

  lemma SameContentExtends(a: seq<Record>, b: seq<Record>)
    requires a != [] && b != [] && SameContent(a[..|a| - 1], b[..|b| - 1])
    requires PayloadOf(a[|a| - 1]) == PayloadOf(b[|b| - 1]) && a[|a| - 1].recordHash == b[|b| - 1].recordHash
    ensures SameContent(a, b)
  {
    var m, n := |a| - 1, |b| - 1;
    PayloadCovers(a[m], b[n]);
    hide Agree, PayloadOf;
    assert forall i | 0 <= i < m :: a[..m][i] == a[i] && b[..n][i] == b[i];
  }

  /**
   Tamper evidence: two logs that both check out and end in the same hash
   have the same content, as long as the digest tells the payloads of these
   two logs apart.
   */
  lemma {:induction false} SameEndSameLog(digest: Digest, a: seq<Record>, b: seq<Record>)
    requires Intact(digest, a) && Intact(digest, b) && EndHash(a) == EndHash(b)
    requires TellsApart(digest, Payloads(a) + Payloads(b))
    ensures SameContent(a, b)
    decreases |a|
  {
    hide Intact, TellsApart, EndHash, PayloadOf, SameContent;
    if a != [] && b != [] {
      SameLast(digest, a, b);
      SameEndSameLog(digest, a[..|a| - 1], b[..|b| - 1]);
      SameContentExtends(a, b);
    } else {
      OneIsEmpty(digest, a, b);
    }
  }

  lemma OneIsEmpty(digest: Digest, a: seq<Record>, b: seq<Record>)
    requires Intact(digest, a) && Intact(digest, b) && EndHash(a) == EndHash(b)
    requires TellsApart(digest, Payloads(a) + Payloads(b)) && (a == [] || b == [])
    ensures SameContent(a, b)
  {
    hide Intact;
    if a != [] {
      EndNotGenesis(digest, a);
    }
    if b != [] {
      EndNotGenesis(digest, b);
    }
  }

  /**
   So an altered log, whether by edits, deletions or reordering, is rejected
   exactly when its content differs, as long as it still ends in the hash of
   the intact one.
   */
  lemma TamperedRejectedIff(digest: Digest, a: seq<Record>, b: seq<Record>)
    requires Intact(digest, a) && EndHash(b) == EndHash(a)
    requires TellsApart(digest, Payloads(a) + Payloads(b))
    ensures !Intact(digest, b) <==> !SameContent(a, b)
  {
    if SameContent(a, b) {
      hide Agree, PayloadOf;
      forall i | 0 <= i < |b| ensures Good(digest, b, i) {
        assert Good(digest, a, i);
        PayloadCovers(a[i], b[i]);
        SamePrev(a, b, i);
        if i > 0 {
          assert a[..i][i - 1] == a[i - 1] && b[..i][i - 1] == b[i - 1];
        }
      }
    } else if Intact(digest, b) {
      SameEndSameLog(digest, a, b);
    }
  }

  lemma SamePrev(a: seq<Record>, b: seq<Record>, i: nat)
    requires SameContent(a, b) && i < |a|
    ensures a[i].prevHash == b[i].prevHash
  {
  }

  /**
   An edit of any field that keeps the stored hash is reported at that very
   record, exactly when the digest tells the two contents apart or the link
   no longer fits; and with a digest that tells them apart, exactly when
   anything that a hash must cover was changed.
   */
  lemma EditReportedThereIff(digest: Digest, a: seq<Record>, k: nat, edited: Record)
    requires Intact(digest, a) && k < |a| && edited.recordHash == a[k].recordHash
    ensures BrokenAt(digest, a[k := edited], k)
      <==> edited.prevHash != a[k].prevHash || digest(PayloadOf(edited)) != digest(PayloadOf(a[k]))
    ensures TellsApart(digest, {PayloadOf(edited), PayloadOf(a[k])}) ==>
      (BrokenAt(digest, a[k := edited], k) <==> !Agree(edited, a[k]))
  {
    PayloadCovers(edited, a[k]);
    var b := a[k := edited];
    assert Good(digest, a, k);
    assert b[..k] == a[..k];
    forall i | 0 <= i < k ensures Good(digest, b, i) {
      assert Good(digest, a, i);
      assert b[..i] == a[..i];
    }
  }

  /**
   An edit that also recomputes the record's own hash is reported at the next
   record, exactly when the two contents have different digests; and with a
   digest that tells them apart, exactly when anything that a hash must cover
   was changed.
   */
  lemma RehashedEditReportedNextIff(digest: Digest, a: seq<Record>, k: nat, edited: Record)
    requires Intact(digest, a) && k + 1 < |a|
    requires edited.prevHash == a[k].prevHash && edited.recordHash == digest(PayloadOf(edited))
    ensures BrokenAt(digest, a[k := edited], k + 1) <==> digest(PayloadOf(edited)) != digest(PayloadOf(a[k]))
    ensures TellsApart(digest, {PayloadOf(edited), PayloadOf(a[k])}) ==>
      (BrokenAt(digest, a[k := edited], k + 1) <==> !Agree(edited, a[k]))
  {
    PayloadCovers(edited, a[k]);
    hide Agree;
    var b := a[k := edited];
    assert Good(digest, a, k) && Good(digest, a, k + 1);
    assert EndHash(a[..k + 1]) == a[k].recordHash && EndHash(b[..k + 1]) == edited.recordHash;
    forall i | 0 <= i <= k ensures Good(digest, b, i) {
      assert Good(digest, a, i);
      assert b[..i] == a[..i];
    }
  }

  /** A record removed from the middle of a numbered log is reported where it was. */
  lemma DeletionIsReportedThere(digest: Digest, a: seq<Record>, k: nat)
    requires Intact(digest, a) && Numbered(a) && k + 1 < |a| && TellsApart(digest, Payloads(a))
    ensures BrokenAt(digest, a[..k] + a[k + 1..], k)
  {
    var b := a[..k] + a[k + 1..];
    assert b[k] == a[k + 1];
    assert Good(digest, a, k) && Good(digest, a, k + 1);
    assert b[..k] == a[..k];
    assert a[k] in a;
    if k > 0 {
      assert Good(digest, a, k - 1);
      assert a[k - 1] in a;
      assert PayloadOf(a[k]) != PayloadOf(a[k - 1]);
    }
    forall i | 0 <= i < k ensures Good(digest, b, i) {
      assert Good(digest, a, i);
      assert b[..i] == a[..i];
    }
  }

  /** A record cut off the end is not noticed: what is left is a log that checks out. */
  lemma TruncationGoesUnnoticed(digest: Digest, a: seq<Record>)
    requires Intact(digest, a) && Numbered(a) && a != []
    ensures Intact(digest, a[..|a| - 1]) && Numbered(a[..|a| - 1]) && !SameContent(a, a[..|a| - 1])
  {
    PrefixIntact(digest, a, |a| - 1);
  }

  function InsertBySequence(sorted: seq<Record>, r: Record): seq<Record> {
    if sorted != [] && sorted[|sorted| - 1].sequence > r.sequence
    then InsertBySequence(sorted[..|sorted| - 1], r) + [sorted[|sorted| - 1]]
    else sorted + [r]
  }

  /** `order_by(sequence.asc())`. */
  function BySequence(rows: seq<Record>): seq<Record> {
    if rows == [] then [] else InsertBySequence(BySequence(rows[..|rows| - 1]), rows[|rows| - 1])
  }

  ghost predicate InSequence(records: seq<Record>) {
    forall i, j | 0 <= i < j < |records| :: records[i].sequence <= records[j].sequence
  }

  lemma {:induction false} InsertKeepsOrder(sorted: seq<Record>, r: Record)
    requires InSequence(sorted)
    ensures var after := InsertBySequence(sorted, r);
      InSequence(after) && multiset(after) == multiset(sorted) + multiset{r}
  {
    if sorted != [] && sorted[|sorted| - 1].sequence > r.sequence {
      var n := |sorted| - 1;
      InsertKeepsOrder(sorted[..n], r);
      var before := InsertBySequence(sorted[..n], r);
      forall x | x in before ensures x.sequence <= sorted[n].sequence {
        InsertedMember(sorted[..n], r, x);
      }
      CountLast(sorted);
    }
  }

  lemma CountLast<T>(s: seq<T>)
    requires s != []
    ensures multiset(s) == multiset(s[..|s| - 1]) + multiset{s[|s| - 1]}
  {
    assert s == s[..|s| - 1] + [s[|s| - 1]];
  }

  /** What is checked is the table itself, in sequence order. */
  lemma {:induction false} SortedTable(rows: seq<Record>)
    ensures InSequence(BySequence(rows)) && multiset(BySequence(rows)) == multiset(rows)
  {
    if rows != [] {
      hide InSequence, InsertBySequence;
      var n := |rows| - 1;
      SortedTable(rows[..n]);
      InsertKeepsOrder(BySequence(rows[..n]), rows[n]);
      CountLast(rows);
    } else {
      assert BySequence(rows) == [];
    }
  }

  lemma {:induction false} NumberedIsOrdered(rows: seq<Record>)
    requires Numbered(rows)
    ensures BySequence(rows) == rows
  {
    if rows != [] {
      var n := |rows| - 1;
      NumberedIsOrdered(rows[..n]);
      InsertLast(rows[..n], rows[n]);
      hide InsertBySequence;
      assert BySequence(rows) == InsertBySequence(rows[..n], rows[n]);
    }
  }

  lemma InsertLast(sorted: seq<Record>, r: Record)
    requires sorted == [] || sorted[|sorted| - 1].sequence <= r.sequence
    ensures InsertBySequence(sorted, r) == sorted + [r]
  {
  }

  lemma LastNumber(rows: seq<Record>)
    requires Numbered(rows) && rows != []
    ensures rows[|rows| - 1].sequence == |rows|
  {
  }

  /** A record from the sorted table is one of the table. */
  lemma {:induction false} SortedMember(rows: seq<Record>, r: Record)
    requires r in BySequence(rows)
    ensures r in rows
  {
    if rows != [] {
      var n := |rows| - 1;
      hide InsertBySequence;
      InsertedMember(BySequence(rows[..n]), rows[n], r);
      if r != rows[n] {
        SortedMember(rows[..n], r);
      }
    }
  }

  lemma {:induction false} InsertedMember(sorted: seq<Record>, r: Record, x: Record)
    requires x in InsertBySequence(sorted, r)
    ensures x in sorted || x == r
  {
    if sorted != [] && sorted[|sorted| - 1].sequence > r.sequence && x != sorted[|sorted| - 1] {
      InsertedMember(sorted[..|sorted| - 1], r, x);
    }
  }

  /** Whatever the table holds, a new record is the last in sequence order. */
  lemma AppendedLast(digest: Digest, rows: seq<Record>, auditId: string, event: Event, now: Timestamp)
    ensures var r := NewRecord(digest, rows, auditId, event, now);
      BySequence(rows + [r]) == BySequence(rows) + [r]
  {
    hide InsertBySequence, Newest;
    var r := NewRecord(digest, rows, auditId, event, now);
    var sorted := BySequence(rows);
    if sorted != [] {
      SortedMember(rows, sorted[|sorted| - 1]);
    }
    InsertLast(sorted, r);
    assert (rows + [r])[..|rows|] == rows;
  }

  /** A chain that is broken at a record stays broken there, whatever is appended. */
  lemma StaysBroken(digest: Digest, records: seq<Record>, more: seq<Record>, k: nat)
    requires BrokenAt(digest, records, k)
    ensures BrokenAt(digest, records + more, k)
  {
    forall i | 0 <= i <= k ensures Good(digest, records + more, i) <==> Good(digest, records, i) {
      assert (records + more)[..i] == records[..i];
    }
  }

  /** The append-only table. */
  class AuditLog {
    const digest: Digest
    var rows: seq<Record>

    ghost predicate Valid()
      reads this
    {
      Hexadecimal(digest) && Numbered(rows) && Intact(digest, rows)
    }

    constructor (digest: Digest)
      requires Hexadecimal(digest)
      ensures Valid() && rows == [] && this.digest == digest
    {
      this.digest, this.rows := digest, [];
    }

    /**
     Inserts one record after all others; the rows already there are
     untouched.  An intact log stays intact, and a log that was tampered with
     stays broken at the same record.
     */
    method Append(auditId: string, event: Event, now: Timestamp) returns (record: Record)
      modifies this
      ensures rows == old(rows) + [record]
      ensures record == NewRecord(digest, old(rows), auditId, event, now)
      ensures record.event == event && record.timestamp == now
      ensures old(Valid()) ==> Valid() && record.sequence == |rows| && record.prevHash == EndHash(old(rows))
      ensures BySequence(rows) == BySequence(old(rows)) + [record]
      ensures forall k | BrokenAt(digest, BySequence(old(rows)), k) :: BrokenAt(digest, BySequence(rows), k)
    {
      hide Intact, Hexadecimal, BrokenAt, BySequence, Numbered;
      var sequence := NextSequence(rows);
      var prevHash := LastHash(rows);
      var recordHash := ComputeRecordHash(digest, sequence, prevHash, event, now);
      record := Record(auditId, sequence, event, now, prevHash, recordHash);
      if Hexadecimal(digest) && Numbered(rows) && Intact(digest, rows) {
        AppendKeepsChain(digest, rows, auditId, event, now);
        EndOfAppend(digest, rows, record);
        LastNumber(rows + [record]);
      }
      AppendedLast(digest, rows, auditId, event, now);
      forall k | BrokenAt(digest, BySequence(rows), k) ensures BrokenAt(digest, BySequence(rows) + [record], k) {
        StaysBroken(digest, BySequence(rows), [record], k);
      }
      rows := rows + [record];
    }

    /** Checks the whole table, in sequence order, whatever state it is in. */
    method Verify() returns (v: Verdict)
      ensures v.valid <==> Intact(digest, BySequence(rows))
      ensures !v.valid ==> v.eventsChecked >= 0 && BrokenAt(digest, BySequence(rows), v.eventsChecked)
      ensures Valid() ==> v == Verdict(true, |rows|, None, ChainIntact)
    {
      if Valid() {
        NumberedIsOrdered(rows);
      }
      v := VerifyChain(digest, BySequence(rows));
    }
  }

  lemma EndOfAppend(digest: Digest, rows: seq<Record>, r: Record)
    requires Intact(digest, rows + [r])
    ensures r.prevHash == EndHash(rows)
  {
    assert Good(digest, rows + [r], |rows|);
    assert (rows + [r])[..|rows|] == rows;
  }
}
