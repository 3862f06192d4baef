/** What holds of every approval after any run of commands, interleaved in any way. */
module ApprovalRuns {
  import opened Options
  import opened Approval
  import AuditChain

  /** The state after a run. */
  function Run(run: seq<Command>): Desk {
    if run == [] then EMPTY_DESK else Step(Run(run[..|run| - 1]), run[|run| - 1]).0
  }

  // What a run left behind for one approval.

  function ExecutionsOf(executions: seq<Execution>, id: Id): seq<Execution> {
    if executions == [] then []
    else
      var last := executions[|executions| - 1];
      ExecutionsOf(executions[..|executions| - 1], id) + if last.approvalId == id then [last] else []
  }

  function RollbacksOf(rollbacks: seq<Rollback>, id: Id): seq<RollbackStatus> {
    if rollbacks == [] then []
    else
      var last := rollbacks[|rollbacks| - 1];
      RollbacksOf(rollbacks[..|rollbacks| - 1], id) + if last.approvalId == id then [last.status] else []
  }

  function TraceOf(sent: seq<Sent>, id: Id): seq<EventKind> {
    if sent == [] then []
    else
      var last := sent[|sent| - 1];
      TraceOf(sent[..|sent| - 1], id) + if last.approvalId == id then [last.kind] else []
  }

  /** A decision that was carried out: what, by whom, in which role, and why. */
  datatype Made = Made(decision: Decision, role: string, user: string, rationale: string)

  /** The decisions on one approval that were carried out. */
  function DecisionsOf(run: seq<Command>, id: Id): seq<Made> {
    if run == [] then []
    else
      var c := run[|run| - 1];
      DecisionsOf(run[..|run| - 1], id)
      + if c.Decide? && c.id == id && Step(Run(run[..|run| - 1]), c).1 == Done
        then [Made(c.decision, c.role, c.user, c.rationale)] else []
  }

  /** Everything that is kept about one approval. */
  datatype File = File(row: Option<Row>, executions: seq<Execution>, rollbacks: seq<RollbackStatus>, trace: seq<EventKind>)

  function FileOf(d: Desk, id: Id): File {
    File(if id in d.rows then Some(d.rows[id]) else None,
         ExecutionsOf(d.executions, id), RollbacksOf(d.rollbacks, id), TraceOf(d.sent, id))
  }

  function Repeat<T>(x: T, n: nat): seq<T> {
    seq(n, i => x)
  }

  /** The rollback attempts on an executed action all end alike, and its status says how. */
  ghost predicate RolledBackRight(row: Row, rollbacks: seq<RollbackStatus>) {
    var outcome := if SupportsRollback(row.request.actionClass) then Success else Unsupported;
    && rollbacks == Repeat(outcome, |rollbacks|)
    && row.status == if Success in rollbacks then RolledBack else Executed
  }

  /** One execution record, of the approval's own action. */
  ghost predicate ExecutedOnce(row: Row, executions: seq<Execution>) {
    && |executions| == 1
    && executions[0].actionClass == row.request.actionClass
    && exists nonce :: executions[0].result == RunAdapter(row.request.actionClass, nonce)
  }

  /** What is kept about one approval, told by its status. */
  ghost predicate Consistent(f: File) {
    match f.row
    case None => f.executions == [] && f.rollbacks == [] && f.trace == []
    case Some(row) =>
      match row.status
      case Pending => row.decision == None && f.executions == [] && f.rollbacks == [] && f.trace == [WasRequested]
      case Approved =>
        row.decision == Some(Approve) && f.executions == [] && f.rollbacks == [] && f.trace == [WasRequested, WasApproved]
      case Rejected =>
        row.decision == Some(Reject) && f.executions == [] && f.rollbacks == [] && f.trace == [WasRequested, WasRejected]
      case _ =>
        && row.decision == Some(Approve)
        && ExecutedOnce(row, f.executions)
        && RolledBackRight(row, f.rollbacks)
        && f.trace == [WasRequested, WasApproved, WasExecuted] + Repeat(WasRolledBack, |f.rollbacks|)
  }

  /** The decision on an approval, if any, was made once, as the row says, by a role that may make it. */
  ghost predicate DecidedRight(row: Option<Row>, decisions: seq<Made>) {
    if row.None? || row.value.decision.None? then
      decisions == [] && (row.Some? ==> row.value.decidedBy == None && row.value.rationale == None)
    else
      && |decisions| == 1
      && row.value.decision == Some(decisions[0].decision)
      && row.value.decidedBy == Some(decisions[0].user)
      && row.value.rationale == Some(decisions[0].rationale)
      && decisions[0].role in {"analyst", "senior_analyst", "admin"}
      && (decisions[0].decision == Approve && row.value.request.disruptive ==>
            decisions[0].role in {"senior_analyst", "admin"})
  }

  /** The approval that a command is about. */
  function Target(d: Desk, c: Command): Id {
    match c
    case Create(_) => d.next
    case Decide(id, _, _, _, _) => id
    case Execute(id, _, _, _, _) => id
    case RollBack(id, _, _, _) => id
  }

  lemma ExecutionsOneMore(s: seq<Execution>, x: Execution, id: Id)
    ensures ExecutionsOf(s + [x], id) == if x.approvalId == id then ExecutionsOf(s, id) + [x] else ExecutionsOf(s, id)
  {
    assert (s + [x])[..|s|] == s;
  }

  lemma RollbacksOneMore(s: seq<Rollback>, x: Rollback, id: Id)
    ensures RollbacksOf(s + [x], id)
      == if x.approvalId == id then RollbacksOf(s, id) + [x.status] else RollbacksOf(s, id)
  {
    assert (s + [x])[..|s|] == s;
  }

  lemma TraceOneMore(s: seq<Sent>, x: Sent, id: Id)
    ensures TraceOf(s + [x], id) == if x.approvalId == id then TraceOf(s, id) + [x.kind] else TraceOf(s, id)
  {
    assert (s + [x])[..|s|] == s;
  }

  /** What a step appends to the tables. */
  lemma StepAppends(d: Desk, c: Command, id: Id)
    ensures var d' := Step(d, c).0;
      && (d'.executions == d.executions || exists x :: d'.executions == d.executions + [x] && x.approvalId == Target(d, c))
      && (d'.rollbacks == d.rollbacks || exists x :: d'.rollbacks == d.rollbacks + [x] && x.approvalId == Target(d, c))
      && (d'.sent == d.sent || exists x :: d'.sent == d.sent + [x] && x.approvalId == Target(d, c))
      && (id != Target(d, c) ==> (id in d'.rows <==> id in d.rows) && (id in d.rows ==> d'.rows[id] == d.rows[id]))
  {
    hide LatestExecution, RunAdapter, RollbackAction, RoleSatisfies;
  }

  /** A step on one approval leaves everything that is kept about every other one unchanged. */
  lemma OthersUnchanged(d: Desk, c: Command, id: Id)
    requires id != Target(d, c)
    ensures FileOf(Step(d, c).0, id) == FileOf(d, id)
  {
    StepAppends(d, c, id);
    hide Step, ExecutionsOf, RollbacksOf, TraceOf;
    var d' := Step(d, c).0;
    if d'.executions != d.executions {
      var x :| d'.executions == d.executions + [x] && x.approvalId == Target(d, c);
      ExecutionsOneMore(d.executions, x, id);
    }
    if d'.rollbacks != d.rollbacks {
      var x :| d'.rollbacks == d.rollbacks + [x] && x.approvalId == Target(d, c);
      RollbacksOneMore(d.rollbacks, x, id);
    }
    if d'.sent != d.sent {
      var x :| d'.sent == d.sent + [x] && x.approvalId == Target(d, c);
      TraceOneMore(d.sent, x, id);
    }
  }

  lemma {:induction false} LatestIsAmong(executions: seq<Execution>, id: Id)
    ensures var r := LatestExecution(executions, id);
      if r.Some? then r.value in ExecutionsOf(executions, id) else ExecutionsOf(executions, id) == []
  {
    if executions != [] {
      LatestIsAmong(executions[..|executions| - 1], id);
    }
  }

  lemma CreateKeeps(d: Desk, request: Request)
    requires d.next !in d.rows && Consistent(FileOf(d, d.next))
    ensures Consistent(FileOf(CreateStep(d, request), d.next))
  {
    TraceOneMore(d.sent, Sent(WasRequested, d.next, request.requestedBy, request.tenantId), d.next);
  }

  lemma DecideKeeps(d: Desk, id: Id, user: string, role: string, decision: Decision, rationale: string)
    requires Consistent(FileOf(d, id))
    ensures Consistent(FileOf(DecideStep(d, id, user, role, decision, rationale).0, id))
  {
    hide RoleSatisfies, ExecutionsOf, RollbacksOf, TraceOf, ExecutedOnce, RolledBackRight;
    if id in d.rows {
      var kind := if decision == Approve then WasApproved else WasRejected;
      TraceOneMore(d.sent, Sent(kind, id, user, d.rows[id].request.tenantId), id);
    }
  }

  lemma ExecuteKeeps(d: Desk, id: Id, role: string, executedBy: string, nonce: string, now: int)
    requires Consistent(FileOf(d, id))
    ensures Consistent(FileOf(ExecuteStep(d, id, role, executedBy, nonce, now).0, id))
  {
    hide RoleSatisfies, ExecutionsOf, RollbacksOf, TraceOf, RunAdapter;
    if RoleSatisfies(role, ANALYST) && id in d.rows && d.rows[id].status == Approved {
      var actionClass := d.rows[id].request.actionClass;
      var x := Execution(d.next, id, actionClass, RunAdapter(actionClass, nonce), executedBy, now);
      ExecutionsOneMore(d.executions, x, id);
      TraceOneMore(d.sent, Sent(WasExecuted, id, executedBy, d.rows[id].request.tenantId), id);
    }
  }

  lemma RepeatOneMore<T>(x: T, n: nat)
    ensures Repeat(x, n) + [x] == Repeat(x, n + 1)
  {
  }

  /** What a rollback does to an approval that was executed. */
  lemma RollBackKeeps(d: Desk, id: Id, role: string, initiatedBy: string, reason: string)
    requires Consistent(FileOf(d, id))
    ensures Consistent(FileOf(RollBackStep(d, id, role, initiatedBy, reason).0, id))
  {
    hide RoleSatisfies, ExecutionsOf, RollbacksOf, TraceOf, RunAdapter, RollbackAction, LatestExecution, SupportsRollback;
    LatestIsAmong(d.executions, id);
    var latest := LatestExecution(d.executions, id);
    if RoleSatisfies(role, SENIOR_ANALYST) && id in d.rows && latest.Some? {
      var row, e, rolls := d.rows[id], latest.value, RollbacksOf(d.rollbacks, id);
      assert ExecutedOnce(row, ExecutionsOf(d.executions, id));
      var nonce :| ExecutionsOf(d.executions, id)[0].result == RunAdapter(row.request.actionClass, nonce);
      assert e.result == RunAdapter(row.request.actionClass, nonce);
      RollbackOutcome(row.request.actionClass, nonce);
      var outcome := RollbackAction(e.result.rollbackToken, e.result);
      RollbacksOneMore(d.rollbacks, Rollback(e.executionId, id, initiatedBy, reason, outcome), id);
      TraceOneMore(d.sent, Sent(WasRolledBack, id, initiatedBy, row.request.tenantId), id);
      RepeatOneMore(outcome, |rolls|);
      RepeatOneMore(WasRolledBack, |rolls|);
      assert (rolls + [outcome])[|rolls|] == outcome;
      assert d.rows[id := row] == d.rows;
    }
  }

  /** A step keeps what is known about the approval it is about. */
  lemma TargetConsistent(d: Desk, c: Command)
    requires Consistent(FileOf(d, Target(d, c))) && (c.Create? ==> d.next !in d.rows)
    ensures Consistent(FileOf(Step(d, c).0, Target(d, c)))
  {
    hide Consistent, CreateStep, DecideStep, ExecuteStep, RollBackStep, FileOf;
    match c
    case Create(request) => CreateKeeps(d, request);
    case Decide(id, user, role, decision, rationale) => DecideKeeps(d, id, user, role, decision, rationale);
    case Execute(id, role, executedBy, nonce, now) => ExecuteKeeps(d, id, role, executedBy, nonce, now);
    case RollBack(id, role, initiatedBy, reason) => RollBackKeeps(d, id, role, initiatedBy, reason);
  }

  /** Ids are handed out in order and never reused. */
  lemma {:induction false} IdsBelowNext(run: seq<Command>)
    ensures forall id | id in Run(run).rows :: id < Run(run).next
  {
    if run != [] {
      IdsBelowNext(run[..|run| - 1]);
      hide RoleSatisfies, RunAdapter, RollbackAction, LatestExecution;
    }
  }

  /** After any run, everything kept about any approval is consistent with its status. */
  lemma {:induction false} EveryApprovalConsistent(run: seq<Command>, id: Id)
    ensures Consistent(FileOf(Run(run), id))
  {
    if run != [] {
      var d, c := Run(run[..|run| - 1]), run[|run| - 1];
      EveryApprovalConsistent(run[..|run| - 1], id);
      hide Consistent, FileOf, Step;
      if id == Target(d, c) {
        IdsBelowNext(run[..|run| - 1]);
        TargetConsistent(d, c);
      } else {
        OthersUnchanged(d, c, id);
      }
    }
  }

  lemma DecideOutcome(d: Desk, c: Command, id: Id)
    requires c.Decide? && c.id == id
    ensures var (d', o) := Step(d, c);
      && (o == Done ==> id in d.rows && d.rows[id].status == Pending && id in d'.rows
                        && d'.rows[id].request == d.rows[id].request && d'.rows[id].decision == Some(c.decision)
                        && d'.rows[id].decidedBy == Some(c.user) && d'.rows[id].rationale == Some(c.rationale))
      && (o != Done ==> d' == d)
  {
    hide RoleSatisfies;
  }

  /**
   An analyst may decide: reject anything pending, and approve it exactly when
   it is not disruptive.  A senior analyst and an admin may decide anything.
   */
  lemma AnalystDecides(d: Desk, id: Id, user: string, decision: Decision, rationale: string)
    requires id in d.rows && d.rows[id].status == Pending
    ensures Step(d, Decide(id, user, "analyst", decision, rationale)).1 == Done
      <==> decision == Reject || !d.rows[id].request.disruptive
    ensures Step(d, Decide(id, user, "senior_analyst", decision, rationale)).1 == Done
    ensures Step(d, Decide(id, user, "admin", decision, rationale)).1 == Done
  {
    hide Step;
    DecideDoneIff(d, id, user, "analyst", decision, rationale);
    DecideDoneIff(d, id, user, "senior_analyst", decision, rationale);
    DecideDoneIff(d, id, user, "admin", decision, rationale);
  }

  lemma OtherCommandsKeepDecision(d: Desk, c: Command, id: Id)
    requires id in d.rows && !(c.Decide? && c.id == id) && !(c.Create? && d.next == id)
    ensures var d' := Step(d, c).0;
      id in d'.rows && DecisionPart(d'.rows[id]) == DecisionPart(d.rows[id])
  {
    hide RoleSatisfies, RunAdapter, RollbackAction, LatestExecution;
  }

  lemma AbsentStaysAbsent(d: Desk, c: Command, id: Id)
    requires id !in d.rows
    ensures var d' := Step(d, c).0;
      id !in d'.rows || (c.Create? && DecisionPart(d'.rows[id]) == (c.request, None, None, None))
  {
    hide RoleSatisfies, RunAdapter, RollbackAction, LatestExecution;
  }

  /**
   After any run, an approval carries a decision exactly when one decision on
   it was carried out, and an approved disruptive one was approved by a
   senior analyst or an admin.
   */
  lemma {:induction false} EveryDecisionRight(run: seq<Command>, id: Id)
    ensures DecidedRight(FileOf(Run(run), id).row, DecisionsOf(run, id))
  {
    if run != [] {
      var before, c := run[..|run| - 1], run[|run| - 1];
      var d := Run(before);
      EveryDecisionRight(before, id);
      EveryApprovalConsistent(before, id);
      IdsBelowNext(before);
      hide Step, RoleSatisfies, ExecutionsOf, RollbacksOf, TraceOf, ExecutedOnce, RolledBackRight;
      assert DecisionsOf(before, id) + [] == DecisionsOf(before, id);
      if c.Decide? && c.id == id {
        DecideDoneIff(d, id, c.user, c.role, c.decision, c.rationale);
        DecideOutcome(d, c, id);
      } else if id in d.rows {
        OtherCommandsKeepDecision(d, c, id);
      } else {
        AbsentStaysAbsent(d, c, id);
      }
    }
  }

  // The main results.

  /**
   The gate itself: an action is executed at most once, only after exactly one
   decision, which approved it, and which a senior analyst or an admin made if
   the action is disruptive; only a successful rollback of an action that
   supports it leads to `rolled_back`.
   */
  lemma NothingExecutesUnapproved(run: seq<Command>, id: Id)
    ensures var f := FileOf(Run(run), id);
      && |f.executions| <= 1
      && (|f.executions| == 1 <==> f.row.Some? && f.row.value.status in {Executed, RolledBack})
      && (|f.executions| == 1 ==>
            && |DecisionsOf(run, id)| == 1
            && DecisionsOf(run, id)[0].decision == Approve
            && DecisionsOf(run, id)[0].role in {"analyst", "senior_analyst", "admin"}
            && (f.row.value.request.disruptive ==> DecisionsOf(run, id)[0].role in {"senior_analyst", "admin"}))
      && (f.row.Some? && f.row.value.status == RolledBack ==>
            SupportsRollback(f.row.value.request.actionClass) && Success in f.rollbacks)
      && (f.rollbacks != [] ==> |f.executions| == 1)
  {
    EveryApprovalConsistent(run, id);
    EveryDecisionRight(run, id);
    hide DecisionsOf, Run, RoleSatisfies, SupportsRollback, ExecutionsOf, RollbacksOf, TraceOf;
    var f := FileOf(Run(run), id);
    if Success in f.rollbacks && f.row.Some? {
      var i :| 0 <= i < |f.rollbacks| && f.rollbacks[i] == Success;
    }
  }

  lemma RejectedRefuses(d: Desk, c: Command, id: Id)
    requires id in d.rows && d.rows[id].status == Rejected && Consistent(FileOf(d, id))
    requires Target(d, c) == id && !c.Create?
    ensures Step(d, c).0 == d
  {
    hide RoleSatisfies, ExecutionsOf, RollbacksOf, TraceOf, RunAdapter, RollbackAction, LatestExecution;
    LatestIsAmong(d.executions, id);
  }

  /** A rejected approval never changes again. */
  lemma {:induction false} RejectedIsFinal(run: seq<Command>, more: seq<Command>, id: Id)
    requires id in Run(run).rows && Run(run).rows[id].status == Rejected
    ensures FileOf(Run(run + more), id) == FileOf(Run(run), id)
    decreases |more|
  {
    if more == [] {
      assert run + more == run;
    } else {
      var n := |more| - 1;
      RejectedIsFinal(run, more[..n], id);
      assert (run + more)[..|run + more| - 1] == run + more[..n];
      var d, c := Run(run + more[..n]), more[n];
      if id == Target(d, c) {
        EveryApprovalConsistent(run + more[..n], id);
        IdsBelowNext(run + more[..n]);
        RejectedRefuses(d, c, id);
      } else {
        OthersUnchanged(d, c, id);
      }
    }
  }

  /** What was decided about an approval, by whom and why. */
  function DecisionPart(row: Row): (Request, Option<Decision>, Option<string>, Option<string>) {
    (row.request, row.decision, row.decidedBy, row.rationale)
  }

  lemma StepKeepsDecision(d: Desk, c: Command, id: Id)
    requires id in d.rows && d.rows[id].decision.Some? && Consistent(FileOf(d, id)) && !(c.Create? && d.next == id)
    ensures var d' := Step(d, c).0; id in d'.rows && DecisionPart(d'.rows[id]) == DecisionPart(d.rows[id])
  {
    hide RoleSatisfies, RunAdapter, RollbackAction, LatestExecution, ExecutionsOf, RollbacksOf, TraceOf, ExecutedOnce, RolledBackRight;
  }

  /** Once decided, an approval keeps its request, decision, decider and rationale, whatever follows. */
  lemma {:induction false} DecisionIsFinal(run: seq<Command>, more: seq<Command>, id: Id)
    requires id in Run(run).rows && Run(run).rows[id].decision.Some?
    ensures id in Run(run + more).rows
    ensures DecisionPart(Run(run + more).rows[id]) == DecisionPart(Run(run).rows[id])
    decreases |more|
  {
    if more == [] {
      assert run + more == run;
    } else {
      hide Step, Consistent, FileOf;
      var n := |more| - 1;
      var before := run + more[..n];
      DecisionIsFinal(run, more[..n], id);
      assert (run + more)[..|run + more| - 1] == before;
      EveryApprovalConsistent(before, id);
      IdsBelowNext(before);
      StepKeepsDecision(Run(before), more[n], id);
    }
  }

  /** `requested · (approved · (executed · rolled_back*)? | rejected)?` */
  ghost predicate IsWord(trace: seq<EventKind>) {
    || trace == [WasRequested]
    || trace == [WasRequested, WasRejected]
    || trace == [WasRequested, WasApproved]
    || exists n: nat :: trace == [WasRequested, WasApproved, WasExecuted] + Repeat(WasRolledBack, n)
  }

  /** The status that a word and the outcomes of the rollbacks tell. */
  function StatusTold(trace: seq<EventKind>, rollbacks: seq<RollbackStatus>): Status {
    if WasExecuted in trace then (if Success in rollbacks then RolledBack else Executed)
    else if WasApproved in trace then Approved
    else if WasRejected in trace then Rejected
    else Pending
  }

  /** The events sent for an approval form a word, and with the rollback outcomes they tell its status. */
  lemma TraceTellsStatus(run: seq<Command>, id: Id)
    ensures var f := FileOf(Run(run), id);
      if f.row.None? then f.trace == []
      else IsWord(f.trace) && f.row.value.status == StatusTold(f.trace, f.rollbacks)
  {
    EveryApprovalConsistent(run, id);
    hide Run, ExecutionsOf, RollbacksOf, TraceOf, SupportsRollback, ExecutedOnce;
    var f := FileOf(Run(run), id);
    if f.row.Some? && f.row.value.status in {Executed, RolledBack} {
      assert f.trace[2] == WasExecuted;
    }
  }

  // The events sent, and the audit log that receives them.

  /** The commands of a run that were carried out, each with the approval it was about. */
  function CarriedOut(run: seq<Command>): seq<(Command, Id)> {
    if run == [] then []
    else
      var d, c := Run(run[..|run| - 1]), run[|run| - 1];
      CarriedOut(run[..|run| - 1]) + if Step(d, c).1 == Done then [(c, Target(d, c))] else []
  }

  /** The event tells of the command: what it did, to which approval, and who did it. */
  predicate Tells(e: Sent, c: Command, id: Id) {
    && e.approvalId == id
    && match c
       case Create(request) => e.kind == WasRequested && e.actor == request.requestedBy
       case Decide(_, user, _, decision, _) =>
         e.kind == (if decision == Approve then WasApproved else WasRejected) && e.actor == user
       case Execute(_, _, executedBy, _, _) => e.kind == WasExecuted && e.actor == executedBy
       case RollBack(_, _, initiatedBy, _) => e.kind == WasRolledBack && e.actor == initiatedBy
  }

  lemma StepSends(d: Desk, c: Command)
    ensures var (d', o) := Step(d, c);
      if o == Done then exists e :: d'.sent == d.sent + [e] && Tells(e, c, Target(d, c))
                          && e.approvalId in d'.rows && e.tenantId == d'.rows[e.approvalId].request.tenantId
      else d' == d
  {
    hide RoleSatisfies, RunAdapter, RollbackAction, LatestExecution;
  }

  lemma StepKeepsRequests(d: Desk, c: Command, id: Id)
    requires id in d.rows && d.next !in d.rows
    ensures id in Step(d, c).0.rows && Step(d, c).0.rows[id].request == d.rows[id].request
  {
    hide RoleSatisfies, RunAdapter, RollbackAction, LatestExecution;
  }

  /** One event for every command that was carried out, in order, and of the tenant that asked. */
  lemma {:induction false} EventsTellCommands(run: seq<Command>)
    ensures var d, done := Run(run), CarriedOut(run);
      && |d.sent| == |done|
      && (forall i | 0 <= i < |done| :: Tells(d.sent[i], done[i].0, done[i].1))
      && forall e | e in d.sent :: e.approvalId in d.rows && e.tenantId == d.rows[e.approvalId].request.tenantId
  {
    if run != [] {
      hide Step, Target, Tells;
      var before, c := run[..|run| - 1], run[|run| - 1];
      EventsTellCommands(before);
      IdsBelowNext(before);
      StepSends(Run(before), c);
      forall id | id in Run(before).rows
        ensures id in Run(run).rows && Run(run).rows[id].request == Run(before).rows[id].request
      {
        StepKeepsRequests(Run(before), c, id);
      }
      if Step(Run(before), c).1 == Done {
        var e :| Run(run).sent == Run(before).sent + [e] && Tells(e, c, Target(Run(before), c))
                 && e.approvalId in Run(run).rows && e.tenantId == Run(run).rows[e.approvalId].request.tenantId;
      }
    }
  }

  /** The execution record of a command that was carried out. */
  predicate Executes(x: Execution, c: Command, id: Id) {
    && x.approvalId == id && c.Execute?
    && x.executedBy == c.executedBy && x.executedAt == c.now
    && x.result == RunAdapter(x.actionClass, c.nonce)
  }

  /** The rollback record of a command that was carried out, on an execution of the same approval. */
  predicate RollsBack(x: Rollback, c: Command, id: Id, executions: seq<Execution>) {
    && x.approvalId == id && c.RollBack?
    && x.initiatedBy == c.initiatedBy && x.reason == c.reason
    && exists e :: e in executions && e.executionId == x.executionId && e.approvalId == id
                   && x.status == RollbackAction(e.result.rollbackToken, e.result)
  }

  lemma StepRecords(d: Desk, c: Command)
    ensures var (d', o) := Step(d, c); var id := Target(d, c);
      && (d'.executions == d.executions
          || (o == Done && exists x :: d'.executions == d.executions + [x] && Executes(x, c, id)))
      && (d'.rollbacks == d.rollbacks
          || (o == Done && exists x :: d'.rollbacks == d.rollbacks + [x] && RollsBack(x, c, id, d'.executions)))
  {
    hide RoleSatisfies, RunAdapter, RollbackAction, LatestExecution;
  }

  /** Every execution record is that of a command that was carried out, and says who ran it, when, and with what result. */
  lemma {:induction false} ExecutionsTellCommands(run: seq<Command>, x: Execution) returns (i: nat)
    requires x in Run(run).executions
    ensures i < |CarriedOut(run)| && Executes(x, CarriedOut(run)[i].0, CarriedOut(run)[i].1)
  {
    hide Step, Target, Executes, RollsBack;
    var before, c := run[..|run| - 1], run[|run| - 1];
    if x in Run(before).executions {
      i := ExecutionsTellCommands(before, x);
    } else {
      StepRecords(Run(before), c);
      i := |CarriedOut(before)|;
    }
  }

  lemma {:induction false} ExecutionsStay(run: seq<Command>)
    requires run != []
    ensures Run(run[..|run| - 1]).executions <= Run(run).executions
  {
    hide Executes, RollsBack, Step;
    StepRecords(Run(run[..|run| - 1]), run[|run| - 1]);
  }

  /** Every rollback record is that of a command that was carried out, and names an execution of the same approval. */
  lemma {:induction false} RollbacksTellCommands(run: seq<Command>, x: Rollback) returns (i: nat)
    requires x in Run(run).rollbacks
    ensures i < |CarriedOut(run)| && RollsBack(x, CarriedOut(run)[i].0, CarriedOut(run)[i].1, Run(run).executions)
  {
    hide Step, Target, Executes, RollbackAction;
    var before, c := run[..|run| - 1], run[|run| - 1];
    ExecutionsStay(run);
    if x in Run(before).rollbacks {
      i := RollbacksTellCommands(before, x);
      assert forall e | e in Run(before).executions :: e in Run(run).executions;
    } else {
      StepRecords(Run(before), c);
      i := |CarriedOut(before)|;
    }
  }

  /** An event as the audit log stores it, with whatever details were sent along; `text` writes ids. */
  function AuditEventOf(e: Sent, details: string, text: Id -> string): AuditChain.Event {
    var action := match e.kind
      case WasRequested => "approval_requested"
      case WasApproved => "approval_approved"
      case WasRejected => "approval_rejected"
      case WasExecuted => "action_executed_dry_run"
      case WasRolledBack => "action_rolled_back";
    var actorType := if e.kind in {WasRequested, WasExecuted} then "system" else "user";
    AuditChain.Event(e.tenantId, e.actor, actorType, action, "approval", text(e.approvalId), details, None, [])
  }

  /** What the log must say about a command that was carried out. */
  predicate Reports(e: AuditChain.Event, c: Command, id: Id, text: Id -> string) {
    && e.resourceType == "approval"
    && e.resourceId == text(id)
    && match c
       case Create(request) =>
         e.action == "approval_requested" && e.actor == request.requestedBy && e.actorType == "system"
       case Decide(_, user, _, decision, _) =>
         && e.action == (if decision == Approve then "approval_approved" else "approval_rejected")
         && e.actor == user && e.actorType == "user"
       case Execute(_, _, executedBy, _, _) =>
         e.action == "action_executed_dry_run" && e.actor == executedBy && e.actorType == "system"
       case RollBack(_, _, initiatedBy, _) =>
         e.action == "action_rolled_back" && e.actor == initiatedBy && e.actorType == "user"
  }

  lemma AuditEventReports(e: Sent, c: Command, id: Id, details: string, text: Id -> string)
    requires Tells(e, c, id)
    ensures Reports(AuditEventOf(e, details, text), c, id, text)
    ensures AuditEventOf(e, details, text).details == details && AuditEventOf(e, details, text).tenantId == e.tenantId
  {
  }

  /** The audit log that receives the events of a run in the order they were sent, at the given times. */
  function MirroredLog(digest: AuditChain.Digest, sent: seq<Sent>, details: seq<string>,
                       times: seq<AuditChain.Timestamp>, text: Id -> string): seq<AuditChain.Record>
    requires |times| == |details| == |sent|
  {
    AuditChain.AppendAll(digest, seq(|sent|, i requires 0 <= i < |sent| =>
      AuditChain.Entry(text(i), AuditEventOf(sent[i], details[i], text), times[i])))
  }

  /**
   The log that mirrors any run, all approvals interleaved, checks out, and
   reports every command that was carried out and no other, in order.
   */
  lemma MirroredLogIntact(digest: AuditChain.Digest, run: seq<Command>, details: seq<string>,
                         times: seq<AuditChain.Timestamp>, text: Id -> string)
    requires AuditChain.Hexadecimal(digest) && |times| == |details| == |Run(run).sent|
    ensures var log, done := MirroredLog(digest, Run(run).sent, details, times, text), CarriedOut(run);
      && AuditChain.Intact(digest, log)
      && |log| == |done| == |details|
      && forall i | 0 <= i < |log| :: Reports(log[i].event, done[i].0, done[i].1, text) && log[i].event.details == details[i]
  {
    var sent, done := Run(run).sent, CarriedOut(run);
    EventsTellCommands(run);
    hide Run, CarriedOut, AuditEventOf, Tells, Reports, AuditChain.Hexadecimal, AuditChain.Intact;
    var entries := seq(|sent|, i requires 0 <= i < |sent| =>
      AuditChain.Entry(text(i), AuditEventOf(sent[i], details[i], text), times[i]));
    AuditChain.EveryRunIntact(digest, entries);
    forall i | 0 <= i < |sent|
      ensures Reports(entries[i].event, done[i].0, done[i].1, text) && entries[i].event.details == details[i]
    {
      AuditEventReports(sent[i], done[i].0, done[i].1, details[i], text);
    }
  }
}
