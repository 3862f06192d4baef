/** The human approval gate: request, decide, execute a simulated action, roll it back. */
module Approval {
  import opened Options

  // Roles.

  const ANALYST := "analyst"
  const SENIOR_ANALYST := "senior_analyst"
  const ADMIN := "admin"

  function RoleLevel(role: string, missing: int): int {
    if role == ANALYST then 1 else if role == SENIOR_ANALYST then 2 else if role == ADMIN then 3 else missing
  }

  predicate RoleSatisfies(actual: string, minimum: string) {
    RoleLevel(actual, 0) >= RoleLevel(minimum, 999)
  }

  /** The roles that satisfy each minimum; no other text does. */
  lemma RolesByName(role: string)
    ensures RoleSatisfies(role, "analyst") <==> role in {"analyst", "senior_analyst", "admin"}
    ensures RoleSatisfies(role, "senior_analyst") <==> role in {"senior_analyst", "admin"}
    ensures RoleSatisfies(role, "admin") <==> role == "admin"
  {
  }

  // Adapters.

  datatype Adapter = Adapter(name: string, system: string, refPrefix: string, rollbackSupported: bool)

  const ADAPTERS: map<string, Adapter> := map[
    "notify" := Adapter("notify", "slack_sim", "SLK", false),
    "create_ticket" := Adapter("create_ticket", "jira_sim", "JIRA", true),
    "quarantine_recommend" := Adapter("quarantine_host", "edr_sim", "EDR-QRT", true),
    "isolate_host_recommend" := Adapter("isolate_host", "edr_sim", "EDR-ISO", true),
    "disable_account_recommend" := Adapter("disable_account", "iam_sim", "IAM-DIS", true),
    "block_ioc_recommend" := Adapter("block_ioc", "firewall_proxy_sim", "FW-BLK", true),
    "collect_data" := Adapter("collect_data", "edr_forensics_sim", "COLLECT", false),
    "enrich" := Adapter("enrich", "threat_intel_sim", "ENRICH", false),
    "escalate" := Adapter("escalate", "pagerduty_sim", "PD", false),
    "ignore" := Adapter("ignore", "none", "", false)]

  datatype AdapterResult = AdapterResult(adapter: string, success: bool, rollbackSupported: bool, rollbackToken: Option<string>)

  /** Simulates the action; `nonce` is the random part of the external reference. */
  function RunAdapter(actionClass: string, nonce: string): AdapterResult {
    if actionClass !in ADAPTERS then AdapterResult("unknown", false, false, None)
    else
      var a := ADAPTERS[actionClass];
      AdapterResult(a.name, true, a.rollbackSupported,
                    if a.rollbackSupported then Some(a.refPrefix + "-" + nonce) else None)
  }

  predicate SupportsRollback(actionClass: string) {
    actionClass in ADAPTERS && ADAPTERS[actionClass].rollbackSupported
  }

  /** Which action classes can be rolled back; anything unknown cannot. */
  lemma RollbackSupportedIff(actionClass: string)
    ensures SupportsRollback(actionClass) <==>
      || actionClass == "create_ticket"
      || actionClass in {"quarantine_recommend", "isolate_host_recommend"}
      || actionClass in {"disable_account_recommend", "block_ioc_recommend"}
  {
  }

  datatype RollbackStatus = Success | Unsupported

  function RollbackAction(token: Option<string>, result: AdapterResult): RollbackStatus {
    if !result.rollbackSupported || token == None || token == Some("") then Unsupported else Success
  }

  /** A known action always succeeds, and gives a token of its own exactly when it can be rolled back; an unknown one fails. */
  lemma RunAdapterIs(actionClass: string, nonce: string, other: string)
    ensures var r := RunAdapter(actionClass, nonce);
      && (r.success <==> actionClass in ADAPTERS)
      && (actionClass !in ADAPTERS ==> r.adapter == "unknown")
      && r.rollbackSupported == SupportsRollback(actionClass) == r.rollbackToken.Some?
      && (r.rollbackToken.Some? && nonce != other ==> RunAdapter(actionClass, other).rollbackToken != r.rollbackToken)
      && (r.rollbackToken.Some? ==> |r.rollbackToken.value| > |nonce|)
  {
    if actionClass in ADAPTERS && ADAPTERS[actionClass].rollbackSupported {
      var p := ADAPTERS[actionClass].refPrefix + "-";
      assert (p + nonce)[|p|..] == nonce && (p + other)[|p|..] == other;
    }
  }

  /** A rollback needs an action that supports it and a token; an empty token is none. */
  lemma RollbackNeedsToken(token: Option<string>, result: AdapterResult)
    ensures RollbackAction(token, result) == Success <==> result.rollbackSupported && token.Some? && token.value != ""
  {
  }

  /** Whether a rollback of an executed action works out depends on its action class alone. */
  lemma RollbackOutcome(actionClass: string, nonce: string)
    ensures var r := RunAdapter(actionClass, nonce);
      RollbackAction(r.rollbackToken, r) == if SupportsRollback(actionClass) then Success else Unsupported
  {
  }

  // Stored rows and sent events.

  type Id = nat

  datatype Status = Pending | Approved | Rejected | Executed | RolledBack

  datatype Decision = Approve | Reject

  datatype Request = Request(actionClass: string, disruptive: bool, requestedBy: string, caseId: string, tenantId: string)

  datatype Row = Row(
    request: Request,
    status: Status,
    decision: Option<Decision>,
    decidedBy: Option<string>,
    rationale: Option<string>)

  datatype Execution = Execution(
    executionId: Id, approvalId: Id, actionClass: string, result: AdapterResult, executedBy: string, executedAt: int)

  datatype Rollback = Rollback(
    executionId: Id, approvalId: Id, initiatedBy: string, reason: string, status: RollbackStatus)

  datatype EventKind = WasRequested | WasApproved | WasRejected | WasExecuted | WasRolledBack

  /** An event sent to the audit sink. */
  datatype Sent = Sent(kind: EventKind, approvalId: Id, actor: string, tenantId: string)

  /** The tables of the service and the events it has sent; `next` stands for the next fresh id. */
  datatype Desk = Desk(
    rows: map<Id, Row>,
    executions: seq<Execution>,
    rollbacks: seq<Rollback>,
    sent: seq<Sent>,
    next: Id)

  const EMPTY_DESK := Desk(map[], [], [], [], 0)

  datatype Command =
    | Create(request: Request)
    | Decide(id: Id, user: string, role: string, decision: Decision, rationale: string)
    | Execute(id: Id, role: string, executedBy: string, nonce: string, now: int)
    | RollBack(id: Id, role: string, initiatedBy: string, reason: string)

  /** What a caller gets back: the HTTP status in words. */
  datatype Outcome = Done | Forbidden | NotFound | Conflict

  /** The execution of an approval with the latest time; the first of equals. */
  function LatestExecution(executions: seq<Execution>, id: Id): (r: Option<Execution>)
    ensures r.Some? ==> r.value in executions && r.value.approvalId == id
    ensures r.None? <==> forall e | e in executions :: e.approvalId != id
  {
    if executions == [] then None
    else
      var last := executions[|executions| - 1];
      var rest := LatestExecution(executions[..|executions| - 1], id);
      if last.approvalId == id && (rest.None? || last.executedAt > rest.value.executedAt) then Some(last) else rest
  }

  function CreateStep(d: Desk, request: Request): Desk {
    Desk(d.rows[d.next := Row(request, Pending, None, None, None)],
         d.executions, d.rollbacks, d.sent + [Sent(WasRequested, d.next, request.requestedBy, request.tenantId)], d.next + 1)
  }

  function DecideStep(d: Desk, id: Id, user: string, role: string, decision: Decision, rationale: string): (Desk, Outcome) {
    if !RoleSatisfies(role, ANALYST) then (d, Forbidden)
    else if id !in d.rows then (d, NotFound)
    else if decision == Approve && d.rows[id].request.disruptive && !RoleSatisfies(role, SENIOR_ANALYST) then (d, Forbidden)
    else if d.rows[id].status != Pending then (d, Conflict)
    else
      var row := Row(d.rows[id].request, if decision == Approve then Approved else Rejected,
                     Some(decision), Some(user), Some(rationale));
      (d.(rows := d.rows[id := row],
          sent := d.sent + [Sent(if decision == Approve then WasApproved else WasRejected, id, user, row.request.tenantId)]), Done)
  }

  function ExecuteStep(d: Desk, id: Id, role: string, executedBy: string, nonce: string, now: int): (Desk, Outcome) {
    if !RoleSatisfies(role, ANALYST) then (d, Forbidden)
    else if id !in d.rows then (d, NotFound)
    else if d.rows[id].status != Approved then (d, Conflict)
    else
      var actionClass := d.rows[id].request.actionClass;
      var execution := Execution(d.next, id, actionClass, RunAdapter(actionClass, nonce), executedBy, now);
      (Desk(d.rows[id := d.rows[id].(status := Executed)], d.executions + [execution], d.rollbacks,
            d.sent + [Sent(WasExecuted, id, executedBy, d.rows[id].request.tenantId)], d.next + 1), Done)
  }

  function RollBackStep(d: Desk, id: Id, role: string, initiatedBy: string, reason: string): (Desk, Outcome) {
    if !RoleSatisfies(role, SENIOR_ANALYST) then (d, Forbidden)
    else if id !in d.rows then (d, NotFound)
    else
      var execution := LatestExecution(d.executions, id);
      if execution.None? then (d, Conflict)
      else
        var status := RollbackAction(execution.value.result.rollbackToken, execution.value.result);
        var row := if status == Success then d.rows[id].(status := RolledBack) else d.rows[id];
        (d.(rows := d.rows[id := row],
            rollbacks := d.rollbacks + [Rollback(execution.value.executionId, id, initiatedBy, reason, status)],
            sent := d.sent + [Sent(WasRolledBack, id, initiatedBy, row.request.tenantId)]), Done)
  }

  function Step(d: Desk, c: Command): (Desk, Outcome) {
    match c
    case Create(request) => (CreateStep(d, request), Done)
    case Decide(id, user, role, decision, rationale) => DecideStep(d, id, user, role, decision, rationale)
    case Execute(id, role, executedBy, nonce, now) => ExecuteStep(d, id, role, executedBy, nonce, now)
    case RollBack(id, role, initiatedBy, reason) => RollBackStep(d, id, role, initiatedBy, reason)
  }

  /** Exactly when a decision is carried out, by the names of the roles. */
  lemma DecideDoneIff(d: Desk, id: Id, user: string, role: string, decision: Decision, rationale: string)
    ensures Step(d, Decide(id, user, role, decision, rationale)).1 == Done <==>
      && role in {"analyst", "senior_analyst", "admin"}
      && id in d.rows
      && d.rows[id].status == Pending
      && (decision == Approve && d.rows[id].request.disruptive ==> role in {"senior_analyst", "admin"})
    ensures Step(d, Decide(id, user, role, decision, rationale)).1 == Forbidden <==>
      || role !in {"analyst", "senior_analyst", "admin"}
      || (id in d.rows && decision == Approve && d.rows[id].request.disruptive && role == "analyst")
    ensures Step(d, Decide(id, user, role, decision, rationale)).1 == NotFound <==>
      role in {"analyst", "senior_analyst", "admin"} && id !in d.rows
    ensures Step(d, Decide(id, user, role, decision, rationale)).1 != Done ==>
      Step(d, Decide(id, user, role, decision, rationale)).0 == d
  {
    hide RoleSatisfies;
    RolesByName(role);
  }

  /** Exactly when an action is executed. */
  lemma ExecuteDoneIff(d: Desk, id: Id, role: string, executedBy: string, nonce: string, now: int)
    ensures Step(d, Execute(id, role, executedBy, nonce, now)).1 == Done <==>
      && role in {"analyst", "senior_analyst", "admin"}
      && id in d.rows
      && d.rows[id].status == Approved
    ensures Step(d, Execute(id, role, executedBy, nonce, now)).1 == Forbidden <==>
      role !in {"analyst", "senior_analyst", "admin"}
    ensures Step(d, Execute(id, role, executedBy, nonce, now)).1 == NotFound <==>
      role in {"analyst", "senior_analyst", "admin"} && id !in d.rows
    ensures Step(d, Execute(id, role, executedBy, nonce, now)).1 != Done ==>
      Step(d, Execute(id, role, executedBy, nonce, now)).0 == d
  {
    hide RoleSatisfies;
    RolesByName(role);
  }

  /** Exactly when a rollback is attempted. */
  lemma RollBackDoneIff(d: Desk, id: Id, role: string, initiatedBy: string, reason: string)
    ensures Step(d, RollBack(id, role, initiatedBy, reason)).1 == Done <==>
      && role in {"senior_analyst", "admin"}
      && id in d.rows
      && exists e :: e in d.executions && e.approvalId == id
    ensures Step(d, RollBack(id, role, initiatedBy, reason)).1 == Forbidden <==> role !in {"senior_analyst", "admin"}
    ensures Step(d, RollBack(id, role, initiatedBy, reason)).1 == NotFound <==>
      role in {"senior_analyst", "admin"} && id !in d.rows
    ensures Step(d, RollBack(id, role, initiatedBy, reason)).1 != Done ==>
      Step(d, RollBack(id, role, initiatedBy, reason)).0 == d
  {
    hide RoleSatisfies, LatestExecution, RollbackAction;
    RolesByName(role);
  }

  /** Anybody else is turned away by every handler, and nothing changes. */
  lemma OutsidersForbidden(d: Desk, c: Command)
    requires !c.Create? && c.role !in {"analyst", "senior_analyst", "admin"}
    ensures Step(d, c) == (d, Forbidden)
  {
    hide RoleSatisfies;
    RolesByName(c.role);
  }

  /** The service: each handler checks its guards in order and then changes the stored rows. */
  class ApprovalService {
    var rows: map<Id, Row>
    var executions: seq<Execution>
    var rollbacks: seq<Rollback>
    var sent: seq<Sent>
    var next: Id

    ghost function State(): Desk
      reads this
    {
      Desk(rows, executions, rollbacks, sent, next)
    }

    constructor ()
      ensures State() == EMPTY_DESK
    {
      rows, executions, rollbacks, sent, next := map[], [], [], [], 0;
    }

    method CreateRequest(request: Request) returns (id: Id)
      modifies this
      ensures State() == Step(old(State()), Create(request)).0
      ensures id == old(next)
    {
      id := next;
      next := next + 1;
      rows := rows[id := Row(request, Pending, None, None, None)];
      sent := sent + [Sent(WasRequested, id, request.requestedBy, request.tenantId)];
    }

    method HandleDecide(id: Id, user: string, role: string, decision: Decision, rationale: string) returns (o: Outcome)
      modifies this
      ensures (State(), o) == Step(old(State()), Decide(id, user, role, decision, rationale))
      ensures o == Done ==> role in {"analyst", "senior_analyst", "admin"}
      ensures o == Done ==> id in old(rows)
      ensures o == Done && decision == Approve && old(rows)[id].request.disruptive ==> role in {"senior_analyst", "admin"}
      ensures o != Done ==> State() == old(State())
    {
      hide RoleSatisfies;
      RolesByName(role);
      if !RoleSatisfies(role, ANALYST) {
        return Forbidden;
      }
      if id !in rows {
        return NotFound;
      }
      if decision == Approve && rows[id].request.disruptive && !RoleSatisfies(role, SENIOR_ANALYST) {
        return Forbidden;
      }
      var record := rows[id];
      if record.status != Pending {
        return Conflict;
      }
      record := record.(status := if decision == Approve then Approved else Rejected);
      record := record.(decision := Some(decision));
      record := record.(decidedBy := Some(user));
      record := record.(rationale := Some(rationale));
      rows := rows[id := record];
      sent := sent + [Sent(if decision == Approve then WasApproved else WasRejected, id, user, record.request.tenantId)];
      return Done;
    }

    method HandleExecute(id: Id, role: string, executedBy: string, nonce: string, now: int) returns (o: Outcome)
      modifies this
      ensures (State(), o) == Step(old(State()), Execute(id, role, executedBy, nonce, now))
      ensures o == Done ==> role in {"analyst", "senior_analyst", "admin"}
      ensures o != Done ==> State() == old(State())
    {
      hide RoleSatisfies;
      RolesByName(role);
      if !RoleSatisfies(role, ANALYST) {
        return Forbidden;
      }
      if id !in rows {
        return NotFound;
      }
      var record := rows[id];
      if record.status != Approved {
        return Conflict;
      }
      var result := RunAdapter(record.request.actionClass, nonce);
      executions := executions + [Execution(next, id, record.request.actionClass, result, executedBy, now)];
      next := next + 1;
      rows := rows[id := record.(status := Executed)];
      sent := sent + [Sent(WasExecuted, id, executedBy, record.request.tenantId)];
      return Done;
    }

    method HandleRollback(id: Id, role: string, initiatedBy: string, reason: string) returns (o: Outcome)
      modifies this
      ensures (State(), o) == Step(old(State()), RollBack(id, role, initiatedBy, reason))
      ensures o == Done ==> role in {"senior_analyst", "admin"}
      ensures o != Done ==> State() == old(State())
    {
      hide RoleSatisfies;
      RolesByName(role);
      if !RoleSatisfies(role, SENIOR_ANALYST) {
        return Forbidden;
      }
      if id !in rows {
        return NotFound;
      }
      var execution := LatestExecution(executions, id);
      if execution.None? {
        return Conflict;
      }
      var result := RollbackAction(execution.value.result.rollbackToken, execution.value.result);
      rollbacks := rollbacks + [Rollback(execution.value.executionId, id, initiatedBy, reason, result)];
      if result == Success {
        rows := rows[id := rows[id].(status := RolledBack)];
      }
      assert old(rows)[id := old(rows)[id]] == old(rows);
      sent := sent + [Sent(WasRolledBack, id, initiatedBy, rows[id].request.tenantId)];
      return Done;
    }
  }
}
