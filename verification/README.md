# AegisSOC: verified models of the stateful components

AegisSOC is a security operations platform: it ingests telemetry, builds a
graph of entities, detects, scores and clusters alerts, merges them into
cases, recommends responses with a bandit, and gates disruptive actions behind
human approval with a hash-chained audit log. This project models the parts
that hold state or arithmetic whose guarantees are not visible in any one
function, and proves those guarantees for all inputs and all runs.

Classes whose methods change fields are modelled as classes whose methods
change fields; each such method is proved against a function of the old state,
and the theorems over whole runs are proved about that function.

| files | component |
|---|---|
| `Graph*.dfy` | the in-memory graph store, its queries and upserts, and the writer that feeds it |
| `Scalars`, `Vectors`, `Ridge`, `Bandit`, `BanditOrder` | the LinUCB bandit as ridge regression over the reals, in any dimension |
| `AuditChain` | the hash-chained audit log |
| `Approval`, `ApprovalRuns` | the approval workflow, its adapters and its audit trace |
| `SlidingWindow`, `RateLimiter`, `Correlation`, `Temporal` | pruned deques against filters over the whole history |
| `AlertClusters`, `AlertClusterRuns`, `CaseMerge`, `Severities` | alert deduplication and case merging |
| `EventBus`, `EventBusRuns`, `Ingestion` | the file event bus and idempotent ingestion |
| `Rounding`, `RiskScore`, `MlScorer`, `DetectionPipeline` | the risk arithmetic, from findings to the alert decision |

Clocks, random parts and fresh ids are parameters or counters. The digest of
the audit log is an arbitrary function with sixty-four-character values; where
tamper evidence needs it, the digest must tell apart the payloads of the logs
in question, and nothing is assumed about any other payload. The exponential is
any positive increasing function with `exp(0.9) >= 2.4`; the square root is any
function whose square gives its argument back.

## What turned out not to hold as written

- The text key `src|type|dst` of an edge names one edge exactly when neither
  endpoint contains a bar (`KeyUnambiguousIff`); `KeyCollision` shows two
  edges of the program's own types with one key, the second of which is lost.
  Entity ids have the form `tenant:Type:hash`, so a bar in an id of the
  platform comes from a tenant id; the store itself takes any id.
- A neighbourhood deduplicates edges by that key after reversing them, so an
  edge and one of its type that leads back share their keys. A touching edge
  is shown itself in every exact answer exactly when nothing leads back
  (`ShownItselfIff`); two connections between the same two addresses, one each
  way, are enough for the second to be hidden (`ReturnConnectionIsHidden`).
- The offset file `topic__group` belongs to one topic and group as long as
  topics contain no underscore, which is true of the platform's topics; a poll
  touches another group's offset exactly when the two share the file
  (`PollTouchesIff`), and then records are lost (`SharedOffsetLoses`).
- A case's severity is the highest that landed exactly when every merged alert
  had a severity, some alert was at least medium, or the alert that opened the
  case had none (`CaseSeverityIsHighestIff`): an alert without a severity is
  compared as medium but leaves the severity as it was.
- A window is the filter of the whole history exactly when entries expire in
  order (`AlwaysFilterIff`), which arrival in time order ensures. Otherwise it
  can keep entries that are too old (`LateArrivalIsKept`) and miss entries that
  are recent again (`EarlyArrivalMissesDropped`).
- The benign cut keeps the order of component scores exactly under the
  condition in `CutMonotoneIff`, which every non-negative weighted sum meets.
- A log cut off at the end still checks out (`TruncationGoesUnnoticed`).
- `docs/SECURITY.md` line 16 and `docs/threat-model/THREAT_MODEL.md` line 71
  say that an admin decides approvals. The approval service lets an analyst
  decide and asks for a senior analyst only to approve a disruptive action
  (`DecideDoneIff`, `AnalystDecides`).
- The docstring of `validate_envelope` speaks of a timestamp check that the
  code does not make (`MalformedIgnoresTimestamp`).

## Model

| member | source | states |
|---|---|---|
| `GraphModel.BallIsWalks` | packages/common/aegis_common/graphstore/memory.py:100-108 | In the undirected view, what lies within radius `n` is exactly what a walk of at most `n` stored edges joins to the start. |
| `GraphStoreModule.GraphStore.Adjacency` | packages/common/aegis_common/graphstore/memory.py:100-108 | The adjacency lists hold exactly both orientations of every stored edge, each under the id it leaves. |
| `GraphStoreModule.GraphStore.AttackPath` | packages/common/aegis_common/graphstore/memory.py:146-162 | Terminates; found exactly when a walk of at most `max_depth` edges exists; the answered edges chain from source to target and no shorter walk exists. |
| `GraphStoreModule.ExpandPaths` | packages/common/aegis_common/graphstore/memory.py:157-161 | Looking at the edges of one id keeps the search invariant: two neighbouring levels in order, each id at its exact distance, with a walk to it. |
| `GraphSearch.Close` | packages/common/aegis_common/graphstore/memory.py:151-161 | Finishing one id restores the invariant both searches share: once a level is done, the next ball is visited. |
| `GraphSearch.Exhausted` | packages/common/aegis_common/graphstore/memory.py:151-162 | An empty queue means that everything within the depth limit was taken off it. |
| `GraphStoreModule.GraphStore.PathLengthToKnownBad` | packages/common/aegis_common/graphstore/memory.py:203-226 | Answers the least radius, up to `max_depth`, whose ball holds a bad id, and nothing exactly when there is none. |
| `GraphQueries.KnownBadIsMinimum` | packages/common/aegis_common/graphstore/memory.py:146-226 | That answer is the minimum over the bad ids of the single-target path lengths, and nothing exactly when no single search finds its target, although one search stops at discovery and the other at dequeue. |
| `GraphQueries.SameBothWays` | packages/common/aegis_common/graphstore/memory.py:146-162 | Although edges are directed, a path query and the one in the other direction find a path together, of the same length. |
| `GraphStoreModule.GraphStore.Neighborhood` | packages/common/aegis_common/graphstore/memory.py:110-144 | Always: only stored nodes of the ball, only edges from the inner ball, the source of every shown edge among the nodes if stored, no key twice, at most `limit`. Below the limit and without dangling edges: exactly the stored nodes of the ball, and the key of every edge orientation that leaves the inner ball. |
| `GraphKeys.ExactEdges` | packages/common/aegis_common/graphstore/memory.py:110-144 | With ids free of bars, an exact answer shows some edge of a type between two ids, in one orientation or the other, exactly when a stored edge of that type between them touches the ball of radius `depth - 1`. |
| `GraphKeys.ShownItselfIff` | packages/common/aegis_common/graphstore/memory.py:127-131 | Every exact answer shows a touching edge itself exactly when no stored edge of its type leads back, or the edge is a loop: orientations are deduplicated by key after reversal. |
| `GraphKeys.ReturnConnectionIsHidden` | packages/common/aegis_common/graphstore/memory.py:127-131 | For any two addresses connected in both directions, an exact answer at depth 1 may show the first connection only. |
| `GraphKeys.KeyUnambiguousIff` | packages/common/aegis_common/graphstore/memory.py:54-56 | An edge key stands for one edge exactly when neither endpoint contains a bar. |
| `GraphKeys.KeyCollision` | packages/common/aegis_common/graphstore/memory.py:54-95 | Two different edges of existing types with the same key: the second is absorbed by the first, and no stored edge has its ends. |
| `GraphStoreModule.GraphStore.PutNode` | packages/common/aegis_common/graphstore/memory.py:58-76 | The node table becomes the merged one; edges stay. |
| `GraphStoreModule.GraphStore.PutEdge` | packages/common/aegis_common/graphstore/memory.py:78-95 | The edge table becomes the merged one; nodes stay. |
| `GraphUpserts.MergeAllSummarises` | packages/common/aegis_common/graphstore/memory.py:58-95 | After any run of sightings of one key: the observations are the end of all observations of the run, 25 of them or all if fewer; one count per further sighting, the union of the sources, the time of the last arrival, and every property with its last value. |
| `GraphUpserts.NewestObservationKept` | packages/common/aegis_common/graphstore/memory.py:68-71 | The newest sighting's observation, if it has one, is the last that is kept. |
| `GraphUpserts.ObservationsOneMore` | packages/common/aegis_common/graphstore/memory.py:68-71 | A sighting adds its observation to those of the run, and nothing if it has none. |
| `GraphUpserts.NodeTableMergesRun` | packages/common/aegis_common/graphstore/memory.py:58-76 | After any run a node is stored exactly when it was sighted, and merges exactly its own sightings in order. |
| `GraphUpserts.NodeKeepsKind` | packages/common/aegis_common/graphstore/memory.py:58-76 | A stored node keeps the kind it was first sighted with. |
| `GraphUpserts.EdgeTableMergesRun` | packages/common/aegis_common/graphstore/memory.py:78-95 | The same for edges by key, and every edge sits under its own key. |
| `GraphUpserts.EdgeKeepsEnds` | packages/common/aegis_common/graphstore/memory.py:78-95 | A stored edge keeps the ends and the type it was first sighted with under its key. |
| `GraphWriter.DeriveGraphUpdates` | services/graph_builder/graph_core/writer.py:70-143 | A node for every entity in order, and an edge for exactly the pairs of entities that a relation joins, each once, ordered by statement and then by target. |
| `GraphWriter.DerivedOnce` | services/graph_builder/graph_core/writer.py:70-143 | That contract determines the updates: two lists that meet it are equal. |
| `GraphWriter.DerivedEdgesFit` | services/graph_builder/graph_core/writer.py:70-143 | Whatever the event, every derived edge joins two entities of that event, of kinds that its relation may join (a user authenticates to a host, a process spawns a process, and so on). |
| `GraphWriter.EveryRelationDerived` | services/graph_builder/graph_core/writer.py:70-143 | No relation between entities of the event is missed. |
| `GraphWriter.NamesHaveNoBar` | packages/common/aegis_common/schema/events.py:78-93 | No derived edge type contains a bar. |
| `GraphWriter.NamesTellApart` | packages/common/aegis_common/schema/events.py:78-93 | Different relations have different names. |
| `GraphWriter.KindsByName` | packages/common/aegis_common/schema/events.py:59-75 | The name of each kind of entity stands for that kind alone. |
| `GraphWriter.EveryWriteKeepsEnds` | services/graph_builder/app/main.py:35-43 | Because nodes are written before edges, no single write leaves an edge without its ends, not even between two writes. |
| `GraphWriter.NeverDangling` | services/graph_builder/app/main.py:35-43 | A graph built from any sequence of events has no edge with a missing endpoint. |
| `GraphBuilder.ApplyEventToGraph` | services/graph_builder/app/main.py:35-43 | The store ends as the derived tables say and keeps the no-dangling invariant, which also holds after every write in between. |
| `Bandit.LinUCB.Update` | services/response_policy/policy_core/bandit.py:67-70 | Adds `x xᵀ`, `r x` and one pull to one arm only, and keeps every arm's `A` and `b` equal to `I + Σ x xᵀ` and `Σ r x` over its own history. |
| `BanditOrder.DesignEntry` | services/response_policy/policy_core/bandit.py:41-70 | Entry `(i, j)` of an arm's matrix is that of the identity plus the sum of `x[i] x[j]` over the arm's updates. |
| `BanditOrder.ResponseEntry` | services/response_policy/policy_core/bandit.py:41-70 | Entry `i` of an arm's vector is the sum of `r x[i]` over its updates. |
| `BanditOrder.OrderDoesNotMatter` | services/response_policy/policy_core/bandit.py:67-70 | Any reordering of the updates leaves every arm's matrix, vector and count the same. |
| `BanditOrder.WarmStartOrder` | services/response_policy/policy_core/bandit.py:105-112 | Warm-starting any bandit, with whatever updates before, from the same episodes in any order leaves the same state. |
| `Bandit.WarmStart` | services/response_policy/policy_core/bandit.py:105-112 | Updates exactly for the episodes with a known action class, in order, and counts them. |
| `Ridge.DesignEntriesSymmetric` | services/response_policy/policy_core/bandit.py:67-70 | `A` is symmetric. |
| `Ridge.DesignPositive` | services/response_policy/policy_core/bandit.py:67-70 | `A` is positive definite: `vᵀ A v` is at least `v·v`, and positive for every non-zero `v`. |
| `Ridge.SolvesIff` | services/response_policy/policy_core/bandit.py:49-54 | `A y = v` has exactly one solution, so `solve` and `inv` are well defined on every reachable `A`. |
| `Ridge.ShermanMorrison` | services/response_policy/policy_core/bandit.py:52-70 | How a solution changes when `x xᵀ` is added to the matrix. |
| `Ridge.LossAboveTheta` | services/response_policy/policy_core/bandit.py:49-50 | The loss of any weights exceeds that of `theta` by the form of their difference. |
| `Ridge.ThetaMinimises` | services/response_policy/policy_core/bandit.py:49-50 | `theta` minimises `Σ (r - w·x)² + w·w`, and nothing else does. |
| `Ridge.WidthShrinks` | services/response_policy/policy_core/bandit.py:52-59 | `xᵀ A⁻¹ x` is never negative and never grows with a further sample. |
| `Ridge.WidthAfterRepeats` | services/response_policy/policy_core/bandit.py:52-59 | After `k` samples at `x`, with any others between, `k` times the width at `x` is at most 1. |
| `Ridge.MeanFollowsReward` | services/response_policy/policy_core/bandit.py:52-59 | An arm updated at one context predicts there a mean with the sign of its total reward. |
| `Bandit.LinUCB.ThetaOf` | services/response_policy/policy_core/bandit.py:49-50 | Of the class's own state: `A theta = b`, and no weights have a lower loss on the arm's history. |
| `Bandit.BonusNeverGrows` | services/response_policy/policy_core/bandit.py:52-59 | No further update of any arm raises the exploration bonus of a context. |
| `Bandit.ScoreNearMean` | services/response_policy/policy_core/bandit.py:52-59 | Exploring adds at least 0 and at most `alpha / √k` to the mean of an arm updated `k` times at the context, whatever came between. |
| `Bandit.SelectedIsFirstBest` | services/response_policy/policy_core/bandit.py:61-65 | The selected arm is a candidate, no candidate has a higher score, and every candidate before it has a lower one. |
| `Bandit.ScoreIs` | services/response_policy/policy_core/bandit.py:52-59 | What a score is: with `A w = b` and `A y = x`, the mean is `w·x`, and exploring adds `alpha √(x·y)`. |
| `Bandit.SelectedPredictsMost` | services/response_policy/policy_core/bandit.py:52-65 | Without exploring, the ridge weights of no candidate predict more than those of the selected arm. |
| `Bandit.RewardedArmSelected` | services/response_policy/policy_core/bandit.py:52-70 | The bandit learns: when one candidate earned more than it lost at a context and no other did, it is selected there. |
| `Bandit.ContextsEqualIff` | services/response_policy/policy_core/bandit.py:36-38 | Two contexts are equal exactly when risk, criticality and known objective agree. |
| `Bandit.BuildContext` | services/response_policy/policy_core/bandit.py:36-38 | The bias, the risk, the criticality, and one in the place of the objective, if it is known. |
| `Ridge.TimesCounts` | services/response_policy/policy_core/bandit.py:67-70 | The `k` of the width bound is the number of places in the history at which the context occurs. |
| `Bandit.BestIsFirstMaximum` | services/response_policy/policy_core/bandit.py:61-65 | Of equal maxima the first candidate is selected. |
| `AuditChain.VerifyChain` | services/audit/audit_core/repository.py:115-150 | On any records: valid exactly when every link and hash is right; otherwise it names the earliest bad record, the number of good ones before it and the kind of the fault. |
| `AuditChain.PayloadCovers` | services/audit/audit_core/hashchain.py:21-64 | What is hashed of two records is equal exactly when sequence, previous hash, tenant, actor, actor type, action, resource, details, prompt hash, evidence and the instant of the timestamp are. |
| `AuditChain.GenesisIs` | services/audit/audit_core/hashchain.py:18-18 | Sixty-four zeros, which stand in for the hash of an empty table and for an empty hash. |
| `AuditChain.SortedTable` | services/audit/audit_core/repository.py:122-124 | What is checked is the table itself, in sequence order. |
| `AuditChain.AuditLog.Append` | services/audit/audit_core/repository.py:39-77 | Adds one record that comes last in sequence order; what was there stays. An intact log stays intact; one that was tampered with stays broken at the same record. |
| `AuditChain.AuditLog.Verify` | services/audit/audit_core/repository.py:115-150 | Accepts every log that appends alone produced, and judges any other table in sequence order. |
| `AuditChain.EveryRunIntact` | services/audit/audit_core/repository.py:25-77 | Every run of appends leaves one record per event, in order, numbered from 1, in an intact chain. |
| `AuditChain.PrefixIntact` | services/audit/audit_core/repository.py:115-150 | Every prefix of an intact log is intact. |
| `AuditChain.StaysBroken` | services/audit/audit_core/repository.py:115-150 | Whatever is appended, a chain stays broken at its earliest bad record. |
| `AuditChain.SameEndSameLog` | services/audit/audit_core/hashchain.py:34-64 | Two logs that check out and end in the same hash have the same length and agree, record by record, in each of those fields, as long as the digest tells their payloads apart. |
| `AuditChain.TamperedRejectedIff` | services/audit/audit_core/repository.py:115-150 | A log altered in any way that keeps the final hash is rejected exactly when some record differs in one of those fields or in its hash. |
| `AuditChain.EditReportedThereIff` | services/audit/audit_core/repository.py:126-146 | An edit that keeps the stored hash is reported at that record, exactly when one of those fields changed and the digest tells the contents apart. |
| `AuditChain.RehashedEditReportedNextIff` | services/audit/audit_core/repository.py:126-148 | An edit with a recomputed hash is reported at the next record, exactly when one of those fields changed and the digest tells the contents apart. |
| `AuditChain.DeletionIsReportedThere` | services/audit/audit_core/repository.py:126-128 | A record deleted from the middle is reported where it was. |
| `AuditChain.TruncationGoesUnnoticed` | services/audit/audit_core/repository.py:115-150 | Cutting off the last record leaves a log that checks out with different content. |
| `Approval.ApprovalService.CreateRequest` | services/approval/approval_core/repository.py:23-51 | Adds one pending approval under a fresh id and sends one event. |
| `Approval.ApprovalService.HandleDecide` | services/approval/app/main.py:102-131 | The guards in order (role, existence, senior role to approve a disruptive action, still pending), then the decision and its event; any refusal changes nothing. |
| `Approval.ApprovalService.HandleExecute` | services/approval/app/main.py:134-148 | Only an approved one is executed, once, with its record and event. |
| `Approval.ApprovalService.HandleRollback` | services/approval/app/main.py:159-172 | Records the attempt on the latest execution; the status changes only on success. |
| `Approval.RollbackOutcome` | services/approval/approval_core/adapters.py:168-208 | Whether a rollback succeeds depends on the action class alone. |
| `Approval.RunAdapterIs` | services/approval/approval_core/adapters.py:168-193 | A known action succeeds, with a token of its own exactly when it can be rolled back; an unknown one fails. |
| `Approval.RollbackNeedsToken` | services/approval/approval_core/adapters.py:196-208 | A rollback succeeds exactly with a result that supports it and a token that is not empty. |
| `Approval.RolesByName` | packages/common/aegis_common/auth/rbac.py:24-32 | The roles that satisfy each minimum, by name; no other text does. |
| `Approval.DecideDoneIff` | services/approval/app/main.py:102-131 | A decision is carried out exactly by an analyst, senior analyst or admin, on a pending approval, and to approve a disruptive one by a senior analyst or admin; when it is forbidden or not found, and that nothing changes then. |
| `Approval.ExecuteDoneIff` | services/approval/app/main.py:134-148 | An action is executed exactly by those three roles and on an approved approval. |
| `Approval.RollBackDoneIff` | services/approval/app/main.py:159-172 | A rollback is attempted exactly by a senior analyst or admin, and when an execution of the approval exists. |
| `Approval.OutsidersForbidden` | services/approval/app/main.py:102-172 | Any other role is turned away by every handler, and nothing changes. |
| `Approval.RollbackSupportedIff` | services/approval/approval_core/adapters.py:168-208 | The five action classes that can be rolled back. |
| `ApprovalRuns.AnalystDecides` | services/approval/app/main.py:102-131 | An analyst may reject anything pending and approve exactly what is not disruptive; a senior analyst and an admin may decide anything pending. |
| `ApprovalRuns.OthersUnchanged` | services/approval/approval_core/repository.py:71-205 | A step on one approval leaves the row, executions, rollbacks and events of every other one unchanged. |
| `ApprovalRuns.EveryApprovalConsistent` | services/approval/approval_core/repository.py:23-205 | After any interleaved run, the rows, executions, rollbacks and events of every approval fit its status. |
| `ApprovalRuns.EveryDecisionRight` | services/approval/app/main.py:102-131 | An approval carries a decision exactly when one decision on it was carried out; the row holds that decision, its user and its rationale, and the role was one of those named. |
| `ApprovalRuns.NothingExecutesUnapproved` | services/approval/approval_core/repository.py:102-205 | At most one execution, there exactly when executed or rolled back, only after exactly one decision, which approved it, by a senior analyst or admin if disruptive; rolled back only by a successful rollback of an action that supports it. |
| `ApprovalRuns.RejectedIsFinal` | services/approval/approval_core/repository.py:71-146 | A rejected approval never changes again. |
| `ApprovalRuns.DecisionIsFinal` | services/approval/approval_core/repository.py:71-99 | Once decided, an approval keeps its request, decision, decider and rationale, whatever follows. |
| `ApprovalRuns.TraceTellsStatus` | services/approval/approval_core/repository.py:40-204 | The events of one approval form a word: requested, then nothing, rejected, or approved with at most one executed and any number of rolled_back after it; this word, with the rollback outcomes, tells its status. |
| `ApprovalRuns.EventsTellCommands` | services/approval/approval_core/repository.py:40-204 | A run sends one event for every command that was carried out, in order: what was done, to which approval, by whom, and for the tenant that asked. |
| `ApprovalRuns.ExecutionsTellCommands` | services/approval/approval_core/repository.py:102-146 | Every execution record is that of a command that was carried out: who ran it, when, and what its adapter answered. |
| `ApprovalRuns.RollbacksTellCommands` | services/approval/approval_core/repository.py:166-205 | Every rollback record is that of a command that was carried out, names an execution of the same approval, and says how it ended. |
| `ApprovalRuns.MirroredLogIntact` | services/approval/approval_core/audit_client.py:57-77 | The audit log that receives all events of a run, interleaved, checks out and reports every command that was carried out and no other: action, actor, kind of actor and approval, with any details. |
| `SlidingWindow.Prune` | services/detection/detection_core/correlation.py:34-37 | The loop drops exactly the leading old entries. |
| `SlidingWindow.AlwaysFilterIff` | services/detection/detection_core/correlation.py:34-65 | The pruned deque is the filter of the whole history by the span of the newest, after every entry, exactly when entries expire in order: whenever one is too old so is every one before it, and it stays too old. |
| `SlidingWindow.TimeOrderExpires` | services/detection/detection_core/correlation.py:34-65 | Entries that arrive in time order do. |
| `SlidingWindow.LateArrivalIsKept` | services/detection/detection_core/correlation.py:34-37 | Out of order, an entry older than the window stays behind a newer one. |
| `SlidingWindow.EarlyArrivalMissesDropped` | services/detection/detection_core/correlation.py:34-37 | And an entry that was dropped is missed when an earlier time arrives for which it is recent. |
| `RateLimiting.RateLimiter.Allow` | services/frontend_gateway/gateway_core/rate_limit.py:21-32 | Decides, and counts what remains, exactly as a filter over the full admitted history of the key would; other keys are untouched. |
| `RateLimiting.EveryWindowBounded` | services/frontend_gateway/gateway_core/rate_limit.py:21-32 | Over any run of calls, every closed interval as long as the window holds at most `max_requests` admitted calls. |
| `RateLimiting.WithinIs` | services/frontend_gateway/gateway_core/rate_limit.py:21-32 | What an interval holds: each call as often as it was made, both ends included. |
| `RateLimiting.AdmittedAfterDenialIff` | services/frontend_gateway/gateway_core/rate_limit.py:21-38 | After a denial the next call is admitted exactly when the oldest kept call has left the window. |
| `RateLimiting.RetryAfterIsEnough` | services/frontend_gateway/app/main.py:103-111 | A client that waits longer than `retry_after`, or the whole seconds of the header, is admitted. |
| `RateLimiting.RateLimiter.RetryAfter` | services/frontend_gateway/gateway_core/rate_limit.py:34-38 | Never negative; after that time the oldest kept call is at the edge of the window, and a positive answer is exactly the time until then. |
| `Correlation.CorrelationEngine.Evaluate` | services/detection/detection_core/correlation.py:39-87 | Changes only the window of the rule and group, and fires on exactly the pruned window. |
| `Correlation.HeldIsWindowed` | services/detection/detection_core/correlation.py:39-65 | After any run, a window depends on the run's own entries for that rule and group and on nothing else. |
| `Correlation.GroupsIff` | services/detection/detection_core/correlation.py:30-48 | Windows are kept apart exactly by rule id, unknown if absent, and the values of the grouping fields. |
| `Correlation.FiresOnItsGroup` | services/detection/detection_core/correlation.py:39-87 | A rule fires exactly when the calls with its rule id and these grouping values, within the window before this event, are enough or have enough different values of the distinct field; it names exactly their events. This holds as long as the group's calls expire in order. |
| `Correlation.OtherGroupsDoNotMatter` | services/detection/detection_core/correlation.py:39-87 | A call of another rule, or with another value of one grouping field, changes no verdict, wherever it stands in the run. |
| `Correlation.FiresAsFilter` | services/detection/detection_core/correlation.py:39-87 | The same of the entries that are held. |
| `Correlation.WindowAlwaysFilterIff` | services/detection/detection_core/correlation.py:39-65 | The window of a rule and group is that filter at every evaluation of a run exactly when the group's entries expire in order. |
| `Temporal.TemporalFeatureTracker.Observe` | services/detection/detection_core/temporal.py:32-55 | For entities whose events expire in order, the answer counts the entity's events within the window of the newest, their different types and their different techniques; the first-seen time is that of its first event. |
| `Temporal.OfEntityMember` | services/detection/detection_core/temporal.py:33-33 | The events of an entity are those with it as host, without a host as user, without either as unknown. |
| `Temporal.WindowAlwaysFilterIff` | services/detection/detection_core/temporal.py:27-40 | An entity's window is that filter after every event of it exactly when its events expire in order. |
| `AlertClusters.FindMatch` | services/detection/detection_core/dedup.py:37-51 | The scan finds the best match. |
| `AlertClusters.BestMatchIsFirstMaximum` | services/detection/detection_core/dedup.py:37-51 | If any live cluster reaches the threshold, one is found, none that matches overlaps more, and none before it as much. |
| `AlertClusters.ChosenIsBest` | services/detection/detection_core/dedup.py:37-51 | Told by sets and times: if a cluster updated at most 2700 seconds ago shares enough (three twentieths of all ids), one that does is chosen, none shares a larger part, and none before it as large a part. |
| `AlertClusters.MatchesIff` | services/detection/detection_core/dedup.py:37-51 | A cluster can be merged into exactly when it is that recent and shares that much. |
| `AlertClusters.OpenedIff` | services/detection/detection_core/dedup.py:53-95 | A new cluster is opened exactly when none can be merged into. |
| `AlertClusters.PriorityIs` | services/detection/detection_core/dedup.py:78-106 | The priority is the score in per cent, cut to a whole number. |
| `AlertClusters.ContainsIff` | services/detection/detection_core/dedup.py:107-108 | What it means that a description is already in another. |
| `AlertClusters.AlertClusterStore.Assign` | services/detection/detection_core/dedup.py:53-113 | Merges into the chosen cluster or opens a new one, and answers its alert. |
| `AlertClusterRuns.EveryClusterSummarises` | services/detection/detection_core/dedup.py:53-113 | After any run, a cluster's ids are its alert's and the unions over its members; score, severity and priority come from the worst member; every member's description is in the alert's. |
| `AlertClusterRuns.WorstIsFirstMaximum` | services/detection/detection_core/dedup.py:103-106 | The worst member is the first that reaches the highest score. |
| `AlertClusterRuns.LastUpdatedByLastMember` | services/detection/detection_core/dedup.py:112-112 | A cluster was last updated by the last call that went to it. |
| `AlertClusterRuns.NothingLost` | services/detection/detection_core/dedup.py:53-113 | Over all alerts, the event, entity, technique and detection ids are exactly those submitted. |
| `AlertClusterRuns.SubmissionIsMember` | services/detection/detection_core/dedup.py:53-113 | Every submission went to some cluster. |
| `AlertClusterRuns.ClustersOnlyGrow` | services/detection/detection_core/dedup.py:97-113 | A submission changes no cluster but its own, and that one loses nothing. |
| `CaseMerge.CaseRepository.UpsertCaseFromAlert` | services/case_management/case_core/repository.py:119-191 | The landed alert and the new or merged case, as the tables say. |
| `CaseMerge.EveryClusterRight` | services/case_management/case_core/repository.py:119-191 | After any run, a cluster has a case exactly when an alert landed with it, holding the unions of its ids, the highest score, its severity order, a severity that some alert carried (or medium), and one timeline entry per landing. |
| `CaseMerge.NeverTwoCases` | services/case_management/case_core/repository.py:50-52 | No two cases share a non-empty cluster, so the single-row lookup never fails. |
| `CaseMerge.SameClusterSameCase` | services/case_management/case_core/repository.py:50-52 | Two cases with one non-empty cluster id are the same case. |
| `CaseMerge.EveryAlertLinked` | services/case_management/case_core/repository.py:119-191 | Every landed alert names a case that lists it. |
| `CaseMerge.CaseSeverityIsHighestIff` | services/case_management/case_core/repository.py:178-179 | After any run, a cluster's case has the highest severity landed exactly when every merged alert had a severity, some alert was at least medium, or the alert that opened the case had none. |
| `CaseMerge.CaseSeverityByName` | services/case_management/case_core/repository.py:17-191 | After any run a cluster's case is critical exactly when a critical alert landed with it, and high exactly when a high one did and no critical one. |
| `CaseMerge.OrderByName` | services/case_management/case_core/repository.py:17-17 | The five names rise in severity, and any other text counts as medium. |
| `CaseMerge.EveryLandedRight` | services/case_management/case_core/repository.py:125-145 | An alert has a row exactly when it landed; the row keeps the cluster of the first landing, and the last severity and score that any landing gave. |
| `CaseMerge.MissingSeverityIsNotMerged` | services/case_management/case_core/repository.py:178-179 | A low case stays low when an alert that counts as medium is merged. |
| `EventBusModule.EventBus.Publish` | packages/common/aegis_common/kafka/bus.py:34-38 | Appends one line to one topic file. |
| `EventBusModule.EventBus.Poll` | packages/common/aegis_common/kafka/bus.py:52-70 | Answers the next records after the group's offset and moves only that offset file. |
| `EventBusModule.ReadFrom` | packages/common/aegis_common/kafka/bus.py:58-66 | The loop over the lines takes the first records after the offset, at most `max_records` of them but one if that is below one. |
| `EventBusModule.EventBus.LagOf` | packages/common/aegis_common/kafka/bus.py:72-78 | Non-blank lines less the offset, never negative. |
| `EventBusRuns.DeliveredIsPrefix` | packages/common/aegis_common/kafka/bus.py:34-78 | Under any interleaving, what a group was delivered is the published sequence up to its offset, and delivered plus lag equals published. |
| `EventBusRuns.PollsDrain` | packages/common/aegis_common/kafka/bus.py:52-78 | `n` polls take `n` batches off the lag, so repeated polling delivers everything. |
| `EventBusRuns.GroupsKeepApart` | packages/common/aegis_common/kafka/bus.py:31-32 | Groups of one topic never share an offset file. |
| `EventBusRuns.TopicsKeepApart` | packages/common/aegis_common/kafka/bus.py:31-32 | Nor do topics without an underscore. |
| `EventBusRuns.PollTouchesIff` | packages/common/aegis_common/kafka/bus.py:31-70 | A poll that answers something moves another group's offset exactly when they share the offset file. |
| `EventBusRuns.SharedOffsetLoses` | packages/common/aegis_common/kafka/bus.py:31-70 | Whenever two topics and groups share an offset file, a published record can become undeliverable. |
| `EventBusRuns.UnderscoreCollision` | packages/common/aegis_common/kafka/bus.py:31-32 | Two topics, one with underscores, whose groups share an offset file. |
| `Ingestion.Ingestor.SeenBefore` | packages/common/aegis_common/idempotency.py:28-41 | Checks a key and marks it in one step; a seen key keeps its first time. |
| `Ingestion.Ingestor.CleanupExpired` | packages/common/aegis_common/idempotency.py:43-48 | Removes exactly the expired keys and counts them. |
| `Ingestion.Ingestor.ProcessEnvelope` | services/ingestion/ingestion_core/ingest.py:35-63 | The result, the marked key, and the one record on the right topic, or none for a duplicate. |
| `Ingestion.MalformedIgnoresTimestamp` | services/ingestion/ingestion_core/ingest.py:21-32 | Whether an envelope is malformed, and for which reason, depends on its payload alone, whatever its timestamp. |
| `Ingestion.Ingestor.IngestBatch` | services/ingestion/app/main.py:74-88 | The results, store and bus are those of the envelopes one after the other; the three tallies add up to the batch size, and all but the duplicates to what was published. |
| `Ingestion.RepeatsAreFarApart` | packages/common/aegis_common/idempotency.py:28-48 | With cleanups anywhere and a clock that does not go back, two records of one id are more than the time to live apart. |
| `Ingestion.PublishedExactlyOnce` | services/ingestion/ingestion_core/ingest.py:35-63 | Until a cleanup, every submitted id is published exactly once over both topics. |
| `Ingestion.OnceOnTheBus` | services/ingestion/app/main.py:74-88 | The same on the topic files: over both, a batch leaves exactly one record of every id in it. |
| `Ingestion.RoutedOnTheBus` | services/ingestion/ingestion_core/ingest.py:35-63 | The raw topic carries exactly the ids whose first envelope has an event type, the dead-letter topic exactly the others. |
| `Ingestion.EventIdIs` | services/ingestion/ingestion_core/models.py:30-34 | An envelope's own non-empty id is its id; otherwise the id is its source and the hash of what identifies it. |
| `Rounding.RoundMonotone` | services/detection/detection_core/ensemble.py:60-63 | Rounding half to even keeps the order. |
| `Rounding.RoundIntNearest` | services/detection/detection_core/ensemble.py:60-63 | Rounding gives the nearest number, and of two equally near ones the even one. |
| `RiskScore.CalibratedRange` | services/detection/detection_core/ensemble.py:38-72 | The calibrated score of any components lies between 0 and 1. |
| `RiskScore.CalibratedMonotone` | services/detection/detection_core/ensemble.py:38-72 | Raising any component, or losing the benign context, never lowers it, even across the benign cut. |
| `RiskScore.CutMonotoneIff` | services/detection/detection_core/ensemble.py:57-59 | The benign cut keeps the order of what it is given exactly when the weighted sum is not too far below zero, told by the components alone. |
| `RiskScore.BenignStaysLow` | services/detection/detection_core/ensemble.py:57-63 | In benign context without intelligence the score is below the alert threshold. |
| `RiskScore.WeightRises` | services/detection/detection_core/ensemble.py:9-15 | Graver severities weigh strictly more, from a tenth to one. |
| `RiskScore.RuleScoreIs` | services/detection/detection_core/ensemble.py:26-29 | The rule score is the weight of the gravest rule that matched. |
| `RiskScore.HeuristicScoreIs` | services/detection/detection_core/heuristics.py:28-74 | A twentieth for every point of the signs and the intelligence, at most one; a benign hint without intelligence takes nine points off. |
| `RiskScore.GraphScoreParts` | services/detection/detection_core/graph_features.py:67-72 | Connections, rarity and nearness to a known bad node make up four, three and three tenths. |
| `RiskScore.PathToBadIs` | services/detection/detection_core/graph_features.py:67-72 | A path of 0 to 3 edges to a known bad node counts four to one quarters, any other nothing. |
| `RiskScore.WeightedEffect` | services/detection/detection_core/ensemble.py:17-54 | What each component adds to the weighted sum, which runs from nothing to one. |
| `RiskScore.SeverityBands` | services/detection/detection_core/ensemble.py:75-84 | The severity bands. |
| `RiskScore.SigmoidSymmetric` | services/detection/detection_core/ensemble.py:61-63 | The calibration curve is symmetric about one half. |
| `RiskScore.EvenStaysEven` | services/detection/detection_core/ensemble.py:61-63 | An even ensemble score stays even. |
| `MlScorer.MlScoreMonotone` | services/detection/detection_core/ml_scorer.py:72-80 | Raising any own or neighbour feature never lowers the anomaly score, with or without neighbour features. |
| `MlScorer.FeaturesMonotone` | services/detection/detection_core/ml_scorer.py:40-69 | Higher counts and criticality and a shorter path to a known bad node never lower any feature. |
| `MlScorer.MlScoreIs` | services/detection/detection_core/ml_scorer.py:31-80 | What each feature of a node adds before the sigmoid, when its neighbours' features are not known. |
| `MlScorer.FeaturesFill` | services/detection/detection_core/ml_scorer.py:40-69 | Where each feature stands, at which count it is full, and that it grows evenly until then. |
| `DetectionPipeline.ComponentsRange` | services/detection/detection_core/pipeline.py:111-142 | Every component score of produced findings lies between 0 and 1. |
| `DetectionPipeline.ComponentsAre` | services/detection/detection_core/pipeline.py:111-142 | Each component comes from its own findings. |
| `DetectionPipeline.NoRuleNoRuleScore` | services/detection/detection_core/pipeline.py:120-120 | Without a rule that matched, the rule component is zero. |
| `DetectionPipeline.AlertIff` | services/detection/detection_core/pipeline.py:144-146 | An event raises an alert exactly when a rule matched or its risk is at least 0.3. |
| `DetectionPipeline.HeuristicScoreMonotone` | services/detection/detection_core/heuristics.py:28-74 | More suspicious signs or intelligence never lower the heuristic score, not even when they end the benign context. |
| `DetectionPipeline.RiskFollowsFindings` | services/detection/detection_core/pipeline.py:111-142 | End to end: more findings of any kind never lower the risk. |
| `DetectionPipeline.AlertFollowsFindings` | services/detection/detection_core/pipeline.py:144-146 | If an event raises an alert, one with more findings raises one no less severe. |
| `DetectionPipeline.BenignAlertsOnlyByRule` | services/detection/detection_core/pipeline.py:134-146 | A benign-admin event raises an alert exactly when a rule matched, and then of severity low at most. |

## Left out

- Floating point: scores and matrices are over the reals, with `round` modelled exactly as half to even on reals; the error of `float` arithmetic is not captured.
- SHA-256, canonical JSON and the text of timestamps: the digest is an arbitrary function of the hashed fields, so serialisation that maps two different payloads to one text is not captured.
- AuditChain.SameEndSameLog: the digest is required to tell apart the payloads of the two logs and never to give the genesis value on them, because no function into sixty-four characters tells all payloads apart.
- ApprovalRuns.MirroredLogIntact: the `details` of the mirrored events are arbitrary texts, and no send to the sink fails; the service's sinks swallow failures.
- GraphKeys.ExactEdges: asks for ids without a bar, because `KeyCollision` shows that colliding keys hide edges, and says only that some edge between the two ids is shown, because of `ReturnConnectionIsHidden`.
- EventBusRuns.DeliveredIsPrefix: asks that no other topic and group of the run shares the offset file, because `SharedOffsetLoses` shows that it fails otherwise.
- RateLimiting.RateLimiter.Allow: a window length below zero is not covered; every configured one is positive.
- Correlation.FiresOnItsGroup: rule ids and group values are a pair, so two of them whose joined text coincides are not captured; distinct fields hold text.
- GraphStoreModule.GraphStore.Neighborhood: the frontier is a set whose order is left open, and so is the order of edges in an adjacency list; which edges survive a limit is therefore not determined.
- Storage: the JSON graph file, topic files, SQLite and SQL tables are in-memory state and every step is atomic; file replacement, locks, transactions (also the one that a read in the decide handler begins before the explicit one), crashes between marking a key and publishing, and concurrent appends to the audit log are not captured.
- Fresh ids are counters or places in a sequence instead of UUIDs.
- Alerts and cases hold their ids as sets: order, repetition in a first list, and sharing of one alert object between cluster and caller are not captured; tags, titles, timeline texts, status changes, notes and feedback are left out.
- Node and edge labels, confidence, tenant, provenance ids, `first_seen` of later sightings and `updated_at` are left out; they are copied or overwritten without further rules.
- `entity_timeline`, `stats`, `degree`, `rare_edge_score`, `get_node`: counts and scans over the same tables.
- Bandit `save`, `load_or_new`, `get_bandit` and `evaluate_offline`: file handling and an average; `select` over an unknown arm raises in the program.
- `numpy.linalg.solve` and `inv` are the unique solution of the system, not an algorithm.
- `query_events`, the listing endpoints and case search: filters over stored rows.
- Parsing, entity extraction, Sigma conditions, intelligence and asset files, the keyword search of the heuristics (its results are booleans here), the LLM, authentication tokens, HTTP, Kafka, Neo4j, the frontend, metrics.
