/** Automatic creation and merging of cases from landed alerts. */
module CaseMerge {
  import opened Options

  /** An incoming alert; absent keys of its dictionary are `None`. */
  datatype AlertIn = AlertIn(
    alertId: string,
    clusterId: Option<string>,
    severity: Option<string>,
    score: Option<real>,
    entityIds: set<string>,
    techniqueIds: set<string>)

  datatype Case = Case(
    clusterId: Option<string>,
    severity: string,
    riskScore: real,
    alertIds: set<string>,
    entityIds: set<string>,
    techniqueIds: set<string>,
    timeline: seq<string>)

  /** A landed alert; its case is named by the place of the case in the table. */
  datatype Landed = Landed(clusterId: Option<string>, severity: string, score: real, caseId: nat)

  datatype Tables = Tables(cases: seq<Case>, landed: map<string, Landed>)

  const EMPTY_TABLES := Tables([], map[])

  /** `SEVERITY_ORDER.get(s, 2)`. */
  function Order(s: string): nat {
    if s == "informational" then 0 else if s == "low" then 1 else if s == "medium" then 2
    else if s == "high" then 3 else if s == "critical" then 4 else 2
  }

  /** The five names rise in severity, and any other text counts as medium. */
  lemma OrderByName(s: string)
    ensures Order("informational") < Order("low") < Order("medium") < Order("high") < Order("critical")
    ensures s !in {"informational", "low", "medium", "high", "critical"} ==> Order(s) == Order("medium")
    ensures Order("medium") == 2
  {
  }

  function GetOr<T>(o: Option<T>, default: T): T {
    if o.Some? then o.value else default
  }

  /** An absent or empty cluster id names no cluster. */
  predicate InCluster(clusterId: Option<string>, c: string) {
    c != "" && clusterId == Some(c)
  }

  function FindCase(cases: seq<Case>, c: string): (r: Option<nat>)
    ensures r.Some? ==> r.value < |cases| && InCluster(cases[r.value].clusterId, c)
    ensures r.None? ==> forall i | 0 <= i < |cases| :: !InCluster(cases[i].clusterId, c)
  {
    if cases == [] then None
    else
      var rest := FindCase(cases[..|cases| - 1], c);
      if rest.Some? then rest
      else if InCluster(cases[|cases| - 1].clusterId, c) then Some(|cases| - 1)
      else None
  }

  function NewCase(a: AlertIn): Case {
    Case(a.clusterId, GetOr(a.severity, "medium"), GetOr(a.score, 0.0), {a.alertId}, a.entityIds, a.techniqueIds,
         ["auto_case_created"])
  }

  function MergeCase(c: Case, a: AlertIn): Case {
    Case(c.clusterId,
         if Order(GetOr(a.severity, "medium")) > Order(c.severity) then GetOr(a.severity, c.severity) else c.severity,
         if GetOr(a.score, 0.0) > c.riskScore then GetOr(a.score, 0.0) else c.riskScore,
         c.alertIds + {a.alertId}, c.entityIds + a.entityIds, c.techniqueIds + a.techniqueIds,
         c.timeline + ["alert_merged"])
  }

  /** The case that an alert goes to; a new one gets the next place. */
  function Place(cases: seq<Case>, a: AlertIn): (k: nat)
    ensures k <= |cases|
  {
    var found := if a.clusterId.Some? then FindCase(cases, a.clusterId.value) else None;
    if found.Some? then found.value else |cases|
  }

  function CasesAfter(cases: seq<Case>, a: AlertIn): seq<Case> {
    var k := Place(cases, a);
    if k < |cases| then cases[k := MergeCase(cases[k], a)] else cases + [NewCase(a)]
  }

  /** Landing an alert again keeps its first cluster id. */
  function LandedAfter(t: Tables, a: AlertIn): Landed {
    var k := Place(t.cases, a);
    if a.alertId in t.landed then
      var earlier := t.landed[a.alertId];
      Landed(earlier.clusterId, GetOr(a.severity, earlier.severity), GetOr(a.score, earlier.score), k)
    else
      Landed(a.clusterId, GetOr(a.severity, "medium"), GetOr(a.score, 0.0), k)
  }

  function Upsert(t: Tables, a: AlertIn): Tables {
    Tables(CasesAfter(t.cases, a), t.landed[a.alertId := LandedAfter(t, a)])
  }

  /** A case opened by hand belongs to no cluster. */
  function OpenCase(t: Tables, severity: string, alertIds: set<string>): Tables {
    t.(cases := t.cases + [Case(None, severity, 0.0, alertIds, {}, {}, ["case_created"])])
  }

  class CaseRepository {
    var cases: seq<Case>
    var landed: map<string, Landed>

    ghost function State(): Tables
      reads this
    {
      Tables(cases, landed)
    }

    constructor ()
      ensures State() == EMPTY_TABLES
    {
      cases, landed := [], map[];
    }

    method UpsertCaseFromAlert(a: AlertIn) returns (caseId: nat)
      modifies this
      ensures State() == Upsert(old(State()), a)
      ensures caseId == Place(old(cases), a)
    {
      var record := if a.alertId in landed
        then landed[a.alertId].(severity := GetOr(a.severity, landed[a.alertId].severity),
                                score := GetOr(a.score, landed[a.alertId].score))
        else Landed(a.clusterId, GetOr(a.severity, "medium"), GetOr(a.score, 0.0), 0);
      var found := if a.clusterId.Some? && a.clusterId.value != "" then FindCase(cases, a.clusterId.value) else None;
      if found.None? {
        caseId := |cases|;
        cases := cases + [NewCase(a)];
      } else {
        caseId := found.value;
        var merged := cases[caseId];
        merged := merged.(alertIds := merged.alertIds + {a.alertId},
                          entityIds := merged.entityIds + a.entityIds,
                          techniqueIds := merged.techniqueIds + a.techniqueIds);
        var newScore := GetOr(a.score, 0.0);
        if newScore > merged.riskScore {
          merged := merged.(riskScore := newScore);
        }
        if Order(GetOr(a.severity, "medium")) > Order(merged.severity) {
          merged := merged.(severity := GetOr(a.severity, merged.severity));
        }
        merged := merged.(timeline := merged.timeline + ["alert_merged"]);
        cases := cases[caseId := merged];
      }
      landed := landed[a.alertId := record.(caseId := caseId)];
    }
  }

  // Runs.

  datatype Command = Land(alert: AlertIn) | Open(severity: string, alertIds: set<string>)

  function Run(run: seq<Command>): Tables {
    if run == [] then EMPTY_TABLES
    else
      var t := Run(run[..|run| - 1]);
      match run[|run| - 1]
      case Land(a) => Upsert(t, a)
      case Open(severity, alertIds) => OpenCase(t, severity, alertIds)
  }

  /** The landings of one alert, in order. */
  function LandingsOf(run: seq<Command>, id: string): seq<AlertIn> {
    if run == [] then []
    else
      var last := run[|run| - 1];
      LandingsOf(run[..|run| - 1], id) + if last.Land? && last.alert.alertId == id then [last.alert] else []
  }

  /** Landing `i` is the last that says anything about the severity, or about the score. */
  ghost predicate LastWithSeverity(landings: seq<AlertIn>, i: nat)
    requires i < |landings|
  {
    landings[i].severity.Some? && forall j | i < j < |landings| :: landings[j].severity.None?
  }

  ghost predicate LastWithScore(landings: seq<AlertIn>, i: nat)
    requires i < |landings|
  {
    landings[i].score.Some? && forall j | i < j < |landings| :: landings[j].score.None?
  }

  /** What the landed row of an alert says about its landings. */
  ghost predicate LandedRight(row: Landed, landings: seq<AlertIn>) {
    && landings != []
    && row.clusterId == landings[0].clusterId
    && (forall i | 0 <= i < |landings| && LastWithSeverity(landings, i) :: Some(row.severity) == landings[i].severity)
    && ((forall i | 0 <= i < |landings| :: landings[i].severity.None?) ==> row.severity == "medium")
    && (forall i | 0 <= i < |landings| && LastWithScore(landings, i) :: Some(row.score) == landings[i].score)
    && ((forall i | 0 <= i < |landings| :: landings[i].score.None?) ==> row.score == 0.0)
  }

  lemma LandedAgain(row: Landed, landings: seq<AlertIn>, a: AlertIn, caseId: nat)
    requires LandedRight(row, landings)
    ensures LandedRight(Landed(row.clusterId, GetOr(a.severity, row.severity), GetOr(a.score, row.score), caseId), landings + [a])
  {
    var n, longer := |landings|, landings + [a];
    forall i | 0 <= i < |longer| && LastWithSeverity(longer, i) ensures Some(GetOr(a.severity, row.severity)) == longer[i].severity {
      if i < n {
        assert longer[n].severity.None?;
        assert forall j | i < j < n :: longer[j] == landings[j];
        assert LastWithSeverity(landings, i);
      }
    }
    forall i | 0 <= i < |longer| && LastWithScore(longer, i) ensures Some(GetOr(a.score, row.score)) == longer[i].score {
      if i < n {
        assert longer[n].score.None?;
        assert forall j | i < j < n :: longer[j] == landings[j];
        assert LastWithScore(landings, i);
      }
    }
    assert (forall i | 0 <= i < |longer| :: longer[i].severity.None?) ==>
      longer[n].severity.None? && forall i | 0 <= i < n :: landings[i] == longer[i];
    assert (forall i | 0 <= i < |longer| :: longer[i].score.None?) ==>
      longer[n].score.None? && forall i | 0 <= i < n :: landings[i] == longer[i];
  }

  lemma LandedFirst(a: AlertIn, caseId: nat)
    ensures LandedRight(Landed(a.clusterId, GetOr(a.severity, "medium"), GetOr(a.score, 0.0), caseId), [a])
  {
  }

  /**
   After any run an alert has a row exactly when it landed; the row keeps the
   cluster of the first landing, and the last severity and the last score
   that any landing gave.
   */
  lemma {:induction false} EveryLandedRight(run: seq<Command>, id: string)
    ensures id in Run(run).landed <==> LandingsOf(run, id) != []
    ensures id in Run(run).landed ==> LandedRight(Run(run).landed[id], LandingsOf(run, id))
  {
    if run != [] {
      hide Place, LandedRight, CasesAfter, GetOr;
      var before, last := run[..|run| - 1], run[|run| - 1];
      EveryLandedRight(before, id);
      var landings := LandingsOf(before, id);
      assert landings + [] == landings;
      if last.Land? && last.alert.alertId == id {
        var k := Place(Run(before).cases, last.alert);
        if landings != [] {
          LandedAgain(Run(before).landed[id], landings, last.alert, k);
        } else {
          LandedFirst(last.alert, k);
          assert [] + [last.alert] == [last.alert];
        }
      }
    }
  }

  /** The alerts that landed with a cluster, in order, again for every landing. */
  function LandedWith(run: seq<Command>, c: string): seq<AlertIn> {
    if run == [] then []
    else
      var last := run[|run| - 1];
      LandedWith(run[..|run| - 1], c) + if last.Land? && InCluster(last.alert.clusterId, c) then [last.alert] else []
  }

  ghost function AlertIds(alerts: seq<AlertIn>): set<string> {
    set a | a in alerts :: a.alertId
  }

  ghost function Entities(alerts: seq<AlertIn>): set<string> {
    set a, x | a in alerts && x in a.entityIds :: x
  }

  ghost function Techniques(alerts: seq<AlertIn>): set<string> {
    set a, x | a in alerts && x in a.techniqueIds :: x
  }

  /** The highest score landed; an alert without a score counts as zero. */
  function HighestScore(alerts: seq<AlertIn>): (r: real)
    requires alerts != []
    ensures forall a | a in alerts :: GetOr(a.score, 0.0) <= r
    ensures exists a | a in alerts :: GetOr(a.score, 0.0) == r
  {
    var n := |alerts| - 1;
    var last := GetOr(alerts[n].score, 0.0);
    if n == 0 then assert alerts[0] in alerts; last
    else
      var rest := HighestScore(alerts[..n]);
      assert alerts == alerts[..n] + [alerts[n]];
      if last > rest then last else rest
  }

  /** The highest severity landed, when an alert without one counts as medium. */
  function HighestOrder(alerts: seq<AlertIn>): nat
    requires alerts != []
  {
    var n := |alerts| - 1;
    var last := Order(GetOr(alerts[n].severity, "medium"));
    if n == 0 then last else Max(HighestOrder(alerts[..n]), last)
  }

  /** The severity a case gets: an alert without one counts as medium only if it opened the case. */
  function CaseOrder(alerts: seq<AlertIn>): nat
    requires alerts != []
  {
    var n := |alerts| - 1;
    if n == 0 then Order(GetOr(alerts[0].severity, "medium"))
    else if alerts[n].severity.None? then CaseOrder(alerts[..n])
    else Max(CaseOrder(alerts[..n]), Order(alerts[n].severity.value))
  }

  /** The severity is that of some alert, or medium if the alert that opened the case had none. */
  ghost predicate SeverityFrom(severity: string, alerts: seq<AlertIn>)
    requires alerts != []
  {
    Carries(alerts, severity) || (severity == "medium" && alerts[0].severity.None?)
  }

  /** Some landed alert carries this severity. */
  ghost predicate Carries(alerts: seq<AlertIn>, severity: string) {
    exists i :: 0 <= i < |alerts| && alerts[i].severity == Some(severity)
  }

  lemma SeverityFromOneMore(severity: string, alerts: seq<AlertIn>, a: AlertIn)
    requires alerts != [] && SeverityFrom(severity, alerts)
    ensures SeverityFrom(severity, alerts + [a])
    ensures a.severity.Some? ==> SeverityFrom(a.severity.value, alerts + [a])
  {
    var longer := alerts + [a];
    if i :| 0 <= i < |alerts| && alerts[i].severity == Some(severity) {
      assert longer[i].severity == Some(severity);
    }
    assert longer[|alerts|] == a;
  }

  /** What a case is, in terms of the alerts that landed with its cluster. */
  ghost predicate Summarises(x: Case, alerts: seq<AlertIn>) {
    && alerts != []
    && x.alertIds == AlertIds(alerts)
    && x.entityIds == Entities(alerts)
    && x.techniqueIds == Techniques(alerts)
    && x.riskScore == HighestScore(alerts)
    && Order(x.severity) == CaseOrder(alerts)
    && SeverityFrom(x.severity, alerts)
    && |x.timeline| == |alerts|
    && x.timeline[0] == "auto_case_created"
    && forall i | 0 < i < |alerts| :: x.timeline[i] == "alert_merged"
  }

  lemma UnionsOfOneMore(alerts: seq<AlertIn>, a: AlertIn)
    ensures AlertIds(alerts + [a]) == AlertIds(alerts) + {a.alertId}
    ensures Entities(alerts + [a]) == Entities(alerts) + a.entityIds
    ensures Techniques(alerts + [a]) == Techniques(alerts) + a.techniqueIds
  {
    assert a in alerts + [a];
    assert forall b | b in alerts :: b in alerts + [a];
  }

  lemma NewSummarises(a: AlertIn)
    ensures Summarises(NewCase(a), [a])
  {
    UnionsOfOneMore([], a);
    assert [] + [a] == [a];
  }

  lemma MergeSummarises(x: Case, alerts: seq<AlertIn>, a: AlertIn)
    requires Summarises(x, alerts)
    ensures Summarises(MergeCase(x, a), alerts + [a])
  {
    hide AlertIds, Entities, Techniques, SeverityFrom;
    UnionsOfOneMore(alerts, a);
    SeverityFromOneMore(x.severity, alerts, a);
    assert (alerts + [a])[..|alerts|] == alerts;
  }

  lemma FindAppend(cases: seq<Case>, x: Case, c: string)
    ensures FindCase(cases + [x], c)
      == var r := FindCase(cases, c);
         if r.Some? then r else if InCluster(x.clusterId, c) then Some(|cases|) else None
  {
    assert (cases + [x])[..|cases|] == cases;
  }

  lemma {:induction false} FindUpdate(cases: seq<Case>, k: nat, x: Case, c: string)
    requires k < |cases| && x.clusterId == cases[k].clusterId
    ensures FindCase(cases[k := x], c) == FindCase(cases, c)
  {
    var n := |cases| - 1;
    if k < n {
      FindUpdate(cases[..n], k, x, c);
      assert cases[k := x][..n] == cases[..n][k := x];
    } else {
      assert cases[k := x][..n] == cases[..n];
    }
  }

  /** The case of a cluster summarises the alerts that landed with it; without any there is no such case. */
  ghost predicate ClusterRight(cases: seq<Case>, alerts: seq<AlertIn>, c: string) {
    var r := FindCase(cases, c);
    if alerts == [] then r == None else r.Some? && Summarises(cases[r.value], alerts)
  }

  lemma LandKeeps(cases: seq<Case>, alerts: seq<AlertIn>, c: string, a: AlertIn)
    requires ClusterRight(cases, alerts, c)
    ensures ClusterRight(CasesAfter(cases, a), if InCluster(a.clusterId, c) then alerts + [a] else alerts, c)
  {
    hide Summarises, MergeCase, NewCase, FindCase;
    var k := Place(cases, a);
    if k < |cases| {
      MergeKeepsCluster(cases[k], a);
      FindUpdate(cases, k, MergeCase(cases[k], a), c);
      if FindCase(cases, c) == Some(k) {
        assert InCluster(cases[k].clusterId, c);
        MergeSummarises(cases[k], alerts, a);
      }
    } else {
      NewCaseCluster(a);
      FindAppend(cases, NewCase(a), c);
      if InCluster(a.clusterId, c) {
        NewSummarises(a);
        assert [] + [a] == [a];
      }
    }
  }

  lemma MergeKeepsCluster(x: Case, a: AlertIn)
    ensures MergeCase(x, a).clusterId == x.clusterId
  {
  }

  lemma NewCaseCluster(a: AlertIn)
    ensures NewCase(a).clusterId == a.clusterId
  {
  }

  /** After any run, the case of every cluster is right. */
  lemma {:induction false} EveryClusterRight(run: seq<Command>, c: string)
    ensures ClusterRight(Run(run).cases, LandedWith(run, c), c)
  {
    if run != [] {
      hide Summarises, MergeCase, NewCase, CasesAfter;
      var before, last := run[..|run| - 1], run[|run| - 1];
      EveryClusterRight(before, c);
      var alerts := LandedWith(before, c);
      assert alerts + [] == alerts;
      match last
      case Land(a) => LandKeeps(Run(before).cases, alerts, c, a);
      case Open(severity, alertIds) =>
        FindAppend(Run(before).cases, Case(None, severity, 0.0, alertIds, {}, {}, ["case_created"]), c);
    }
  }

  /** Every case of a cluster is the one that a lookup finds. */
  ghost predicate OneCasePerCluster(cases: seq<Case>) {
    forall i, c | 0 <= i < |cases| && InCluster(cases[i].clusterId, c) :: FindCase(cases, c) == Some(i)
  }

  lemma AppendKeepsOne(cases: seq<Case>, x: Case)
    requires OneCasePerCluster(cases)
    requires forall c | InCluster(x.clusterId, c) :: FindCase(cases, c) == None
    ensures OneCasePerCluster(cases + [x])
  {
    hide FindCase, InCluster;
    var after := cases + [x];
    forall i, c | 0 <= i < |after| && InCluster(after[i].clusterId, c) ensures FindCase(after, c) == Some(i) {
      FindAppend(cases, x, c);
    }
  }

  lemma UpdateKeepsOne(cases: seq<Case>, k: nat, x: Case)
    requires OneCasePerCluster(cases) && k < |cases| && x.clusterId == cases[k].clusterId
    ensures OneCasePerCluster(cases[k := x])
  {
    hide FindCase, InCluster;
    var after := cases[k := x];
    forall i, c | 0 <= i < |after| && InCluster(after[i].clusterId, c) ensures FindCase(after, c) == Some(i) {
      FindUpdate(cases, k, x, c);
    }
  }

  lemma LandKeepsOne(cases: seq<Case>, a: AlertIn)
    requires OneCasePerCluster(cases)
    ensures OneCasePerCluster(CasesAfter(cases, a))
  {
    hide OneCasePerCluster, FindCase, MergeCase, NewCase;
    var k := Place(cases, a);
    if k < |cases| {
      MergeKeepsCluster(cases[k], a);
      UpdateKeepsOne(cases, k, MergeCase(cases[k], a));
    } else {
      NewCaseCluster(a);
      AppendKeepsOne(cases, NewCase(a));
    }
  }

  /** After any run, no two cases share a cluster. */
  lemma {:induction false} NeverTwoCases(run: seq<Command>)
    ensures OneCasePerCluster(Run(run).cases)
  {
    if run != [] {
      hide OneCasePerCluster, CasesAfter;
      NeverTwoCases(run[..|run| - 1]);
      var cases := Run(run[..|run| - 1]).cases;
      match run[|run| - 1]
      case Land(a) => LandKeepsOne(cases, a);
      case Open(severity, alertIds) =>
        AppendKeepsOne(cases, Case(None, severity, 0.0, alertIds, {}, {}, ["case_created"]));
    }
  }

  /** Two cases of one cluster are the same case. */
  lemma SameClusterSameCase(run: seq<Command>, i: nat, j: nat, c: string)
    requires i < |Run(run).cases| && j < |Run(run).cases|
    requires InCluster(Run(run).cases[i].clusterId, c) && InCluster(Run(run).cases[j].clusterId, c)
    ensures i == j
  {
    NeverTwoCases(run);
  }

  /** Every landed alert names a case, and that case lists it. */
  ghost predicate Linked(t: Tables) {
    forall id | id in t.landed :: t.landed[id].caseId < |t.cases| && id in t.cases[t.landed[id].caseId].alertIds
  }

  lemma {:induction false} EveryAlertLinked(run: seq<Command>)
    ensures Linked(Run(run))
  {
    if run != [] {
      hide Place, Order;
      EveryAlertLinked(run[..|run| - 1]);
    }
  }

  lemma {:induction false} CaseOrderIsAttained(alerts: seq<AlertIn>)
    requires alerts != []
    ensures forall i | 0 <= i < |alerts| && alerts[i].severity.Some? :: Order(alerts[i].severity.value) <= CaseOrder(alerts)
    ensures CaseOrder(alerts) > 2 ==>
      exists i :: 0 <= i < |alerts| && alerts[i].severity.Some? && Order(alerts[i].severity.value) == CaseOrder(alerts)
  {
    hide Order;
    OrderByName("");
    var n := |alerts| - 1;
    if n > 0 {
      var before := alerts[..n];
      CaseOrderIsAttained(before);
      assert forall i | 0 <= i < n :: alerts[i] == before[i];
      if CaseOrder(alerts) > 2 && CaseOrder(alerts) == CaseOrder(before) {
        var i :| 0 <= i < n && before[i].severity.Some? && Order(before[i].severity.value) == CaseOrder(before);
        assert alerts[i] == before[i];
      }
    }
  }

  /**
   By name: after any run the case of a cluster is critical exactly when a
   critical alert landed with it, and high exactly when a high one did and no
   critical one.
   */
  lemma CaseSeverityByName(run: seq<Command>, c: string)
    requires LandedWith(run, c) != []
    ensures var found, alerts := FindCase(Run(run).cases, c), LandedWith(run, c);
      && found.Some?
      && (Run(run).cases[found.value].severity == "critical" <==> Carries(alerts, "critical"))
      && (Run(run).cases[found.value].severity == "high" <==> Carries(alerts, "high") && !Carries(alerts, "critical"))
  {
    hide Run, LandedWith, FindCase, CaseOrder, Order, AlertIds, Entities, Techniques, HighestScore;
    EveryClusterRight(run, c);
    var alerts := LandedWith(run, c);
    var severity := Run(run).cases[FindCase(Run(run).cases, c).value].severity;
    CaseOrderIsAttained(alerts);
    NameOfOrder(severity);
    forall i | 0 <= i < |alerts| && alerts[i].severity.Some? ensures
      && (Order(alerts[i].severity.value) <= 4)
      && (Order(alerts[i].severity.value) == 4 <==> alerts[i].severity == Some("critical"))
      && (Order(alerts[i].severity.value) == 3 <==> alerts[i].severity == Some("high"))
    {
      NameOfOrder(alerts[i].severity.value);
    }
  }

  lemma NameOfOrder(s: string)
    ensures Order(s) <= 4
    ensures Order(s) == 4 <==> s == "critical"
    ensures Order(s) == 3 <==> s == "high"
  {
  }

  /** Some landed alert says that it is at least medium. */
  ghost predicate SomeMedium(alerts: seq<AlertIn>) {
    exists i :: 0 <= i < |alerts| && alerts[i].severity.Some? && Order(alerts[i].severity.value) >= 2
  }

  /** Every alert that was merged into the case had a severity. */
  ghost predicate AllMergedHave(alerts: seq<AlertIn>) {
    forall i | 0 < i < |alerts| :: alerts[i].severity.Some?
  }

  lemma {:induction false} CaseOrderAtLeastMediumIff(alerts: seq<AlertIn>)
    requires alerts != []
    ensures CaseOrder(alerts) >= 2 <==> alerts[0].severity.None? || SomeMedium(alerts)
  {
    var n := |alerts| - 1;
    if n > 0 {
      var before := alerts[..n];
      CaseOrderAtLeastMediumIff(before);
      if SomeMedium(before) {
        var i :| 0 <= i < n && before[i].severity.Some? && Order(before[i].severity.value) >= 2;
        assert alerts[i] == before[i];
      }
      if SomeMedium(alerts) {
        var i :| 0 <= i < |alerts| && alerts[i].severity.Some? && Order(alerts[i].severity.value) >= 2;
        assert i < n ==> before[i] == alerts[i];
      }
    }
  }

  lemma {:induction false} OrdersAgreeIff(alerts: seq<AlertIn>)
    requires alerts != []
    ensures CaseOrder(alerts) <= HighestOrder(alerts) <= Max(CaseOrder(alerts), 2)
    ensures CaseOrder(alerts) == HighestOrder(alerts) <==> CaseOrder(alerts) >= 2 || AllMergedHave(alerts)
  {
    var n := |alerts| - 1;
    if n > 0 {
      OrdersAgreeIff(alerts[..n]);
      if AllMergedHave(alerts[..n]) {
        assert forall i | 0 < i < n :: alerts[..n][i].severity.Some?;
        assert forall i | 0 < i < n :: alerts[i].severity.Some?;
      } else {
        var i :| 0 < i < n && alerts[..n][i].severity.None?;
        assert alerts[i].severity.None?;
        StaysBelow(alerts, i);
      }
    }
  }

  /**
   The severity of a case is the highest landed, when an alert without one
   counts as medium, exactly when every merged alert had a severity, some
   alert was at least medium, or the alert that opened the case had none.
   */
  lemma SeverityIsHighestIff(alerts: seq<AlertIn>)
    requires alerts != []
    ensures CaseOrder(alerts) == HighestOrder(alerts)
      <==> alerts[0].severity.None? || SomeMedium(alerts) || AllMergedHave(alerts)
  {
    OrdersAgreeIff(alerts);
    CaseOrderAtLeastMediumIff(alerts);
  }

  /** The same of the case that any run leaves for a cluster. */
  lemma CaseSeverityIsHighestIff(run: seq<Command>, c: string)
    requires LandedWith(run, c) != []
    ensures var found, alerts := FindCase(Run(run).cases, c), LandedWith(run, c);
      && found.Some?
      && (Order(Run(run).cases[found.value].severity) == HighestOrder(alerts)
          <==> alerts[0].severity.None? || SomeMedium(alerts) || AllMergedHave(alerts))
  {
    hide Run, LandedWith, FindCase, CaseOrder, HighestOrder, Order, AlertIds, Entities, Techniques;
    EveryClusterRight(run, c);
    SeverityIsHighestIff(LandedWith(run, c));
  }

  lemma {:induction false} StaysBelow(alerts: seq<AlertIn>, i: nat)
    requires 0 < i < |alerts| && alerts[i].severity.None?
    ensures HighestOrder(alerts) >= 2
  {
    if i < |alerts| - 1 {
      StaysBelow(alerts[..|alerts| - 1], i);
    }
  }

  /** A low case stays low when an alert without a severity is merged, although such an alert counts as medium. */
  lemma MissingSeverityIsNotMerged()
    ensures var low := AlertIn("a", Some("k"), Some("low"), None, {}, {});
      var none := AlertIn("b", Some("k"), None, None, {}, {});
      CaseOrder([low, none]) == 1 && HighestOrder([low, none]) == 2
  {
    var low := AlertIn("a", Some("k"), Some("low"), None, {}, {});
    var none := AlertIn("b", Some("k"), None, None, {}, {});
    assert [low, none][..1] == [low];
  }
}
