# RunGuard: a verified model of its deterministic core

RunGuard reads Markdown runbooks, derives policies from them, checks remediation plans against those policies,
runs or holds the plans, records human decisions, and asks a language model about incidents whose evidence it
redacts first. This project models the deterministic parts of that and proves what they are relied on for. Every
module names the source file it follows; operations that update fields, buffers or arrays in the source are
methods of classes or loops here, proved against specification functions, and the properties are lemmas about
those functions.

| modules | component |
|---|---|
| `RunbookParser`, `NormalForm`, `ParserMeaning`, `ParserPlain` | the Markdown compiler: the line machine, a canonical printer and the round trip, what a text means independently of the machine, and texts written out line by line |
| `PolicyGenerator`, `Versioning` | runbook to policy and back; the version history |
| `PolicyEngine`, `IncidentStore`, `Reconciler`, `CompiledPolicy`, `StepExecutor` | classification, gating, execution and rollback, and the path from runbook text to executed steps |
| `ApprovalProtocol`, `AuditLog`, `AuditProtocol`, `AuditOutstanding` | concurrent requests and timers over one store; the audit trail and its replay; audited calls among everything else; when the log is safe while they overlap |
| `CircuitBreaker` | interleaved calls through the breaker |
| `PromptKey`, `PromptCache` | the cache key's encoding and the expiring cache |
| `Patterns`, `Redaction`, `RedactionMasks`, `RedactionExact`, `RedactionWitness`, `RedactionTwice`, `RedactionPlain` | backtracking patterns, the seven redaction passes, exactly what they leave, what redacting again does, and what they match and leave in plain characters |
| `Orchestrator` | what reaches the language model, and what is remembered of its answers |
| `Text`, `Types` | string operations of the Go library, and the shared records |

## Where the code and its claims differ

- Requirement 1.5 (`specs/requirements.md:44`) promises a round trip from policy to Markdown and back, and the
  repository has no printer. `NormalForm.Render` and `PolicyGenerator.PolicyToMarkdown` supply one; the theorems
  say that it round-trips on everything the parser can produce, and `ParserRange` says exactly what that is.
- "The first decision wins" is false: a read and the write that follows it are two locked sections.
  `FirstDecisionCanLose` is a run in which it fails, and `FirstDecisionWinsExactly` the exact condition.
- "Every live timer is registered" is false: `LiveTimerCanBeLost`, and `RegisteredExactly` for the condition.
- "The log replays to the store" is false when audited calls overlap and when a decision comes over HTTP or from a
  timer: a call writes the phase and appends its record under two locks, and the other two append none
  (`OverlapDisagrees`, `HttpDecisionDisagrees`, `TimerDecisionDisagrees`). `AgreementExact` says for every run when
  log and store agree, `AppendRestoresExactly` when an append brings them together, `AgreesNext` which steps take
  them apart. Per incident, `OnCourseExactly` says for every run which writes endanger the log, and `OnCourseMeans`
  what that is; without them it agrees whenever no append is outstanding (`AgreesWhenSettled`). For calls that do not
  overlap `LogReplaysToStore` holds as promised.
- The breaker's counter wraps at 2^32. `AdmittedExactly` gives the admission rule for every history;
  `AdmissionExact` is its simple form while the current streak of failures has not wrapped, and `WrapAdmitsEarly`
  shows, with a history of sequential calls, that it stops there. `LoadBound` holds for every history and any number of
  calls, with a threshold more for each wrap. A threshold of 0 behaves like 1.
- Deleting expired cache entries on read is unobservable only while the clock does not go backwards:
  `AnswerExact` is the condition for every clock, `EvictionUnobserved` the monotone case.
- Redaction leaves no AWS key, private key block or shown assignment, whatever the text. For API keys and bearer
  tokens this fails: the assignment patterns ignore case, Python then takes the long s (U+017F) and the Kelvin sign
  (U+212A) for s and k, and the replacement writes ASCII letters, which can lengthen a key that was too short to
  match. `LongSLeavesToken` is a family of such texts for both kinds, `RedactsTokenExactly` says for every text when
  one is left, `PassExact` which pass leaves it, and `RedactsToken` that it never happens in a text that spells no
  key word with those two letters. A second redaction always removes what is left (`RedactTwiceIsTokenFree`), and
  changes nothing exactly when nothing was (`RedactTwiceExact`).
- Truncation with a negative budget slices from the end and does not bound the length (`TruncateExact`).
- `CheckRollback` accepts every non-empty rollback section, so nothing is claimed about matching entries; risk
  words are compared with case.

## Model

| member | source | states |
|---|---|---|
| `RunbookParser.FindStepIndex` | services/operator/internal/compiler/parser.go:186-193 | the index of the first step with the name, or -1 exactly when there is none |
| `RunbookParser.ParseMarkdown` | services/operator/internal/compiler/parser.go:39-145 | the imperative line machine (sections, fences, buffers, in-place step merge) computes the specified parse, errors included |
| `RunbookParser.RunConcat` | services/operator/internal/compiler/parser.go:56-137 | reading one text after another is reading their concatenation |
| `NormalForm.RunKeepsNormal` | services/operator/internal/compiler/parser.go:56-137 | every line keeps the invariant: trimmed comma-free items, distinct inked step names, fence-free commands |
| `NormalForm.ParseIsNormal` | services/operator/internal/compiler/parser.go:39-145 | every accepted parse is in normal form |
| `NormalForm.RoundTrip` | specs/requirements.md:44 | parsing the printed form of any normal runbook returns exactly that runbook |
| `NormalForm.ParserRange` | services/operator/internal/compiler/parser.go:39-145 | a runbook is the parse of some text if and only if it is normal |
| `NormalForm.ReparseIsStable` | specs/requirements.md:44 | for every accepted text, print and parse again gives the same result |
| `ParserMeaning.FirstNamesDistinct` | services/operator/internal/compiler/parser.go:114-135 | the grouping has one name per subheading with a bullet, none twice |
| `ParserMeaning.MergeGroups` | services/operator/internal/compiler/parser.go:114-135 | one more bullet merged is the declarative grouping of one more bullet: order of first bullet, last value of each field |
| `ParserMeaning.StepDescribes` | services/operator/internal/compiler/parser.go:56-137 | one line keeps the machine's state described by the lines read so far |
| `ParserMeaning.RunDescribes` | services/operator/internal/compiler/parser.go:56-137 | so does every run |
| `ParserMeaning.ParseMeans` | services/operator/internal/compiler/parser.go:39-145 | a text is accepted exactly when it has a title line and a rollback bullet under a subheading, and the result is its declarative meaning; otherwise the error says which of the two is missing |
| `ParserMeaning.FencedBodyUnobserved` | services/operator/internal/compiler/parser.go:59-80 | outside a diagnosis subsection any fence-free body of a closed block can be replaced without changing the parse |
| `ParserMeaning.UnknownSectionUnobserved` | services/operator/internal/compiler/parser.go:82-136 | a fence-balanced section with an unrecognised heading between two sections changes nothing |
| `ParserPlain.BlockIsOneEntry` | services/operator/internal/compiler/parser.go:56-80 | for every subheading and every block whose lines, trimmed, do not start with three backticks: exactly one diagnosis entry, named by the subheading, with the trimmed body; headings and bullets inside the block count for nothing |
| `ParserPlain.OneField` | services/operator/internal/compiler/parser.go:164-184 | for every "- key:value" line under a rollback subheading, which field of the step it sets, in any case and spacing of the key |
| `ParserPlain.DocumentMeans` | services/operator/internal/compiler/parser.go:39-145 | a text with every section written out line by line gives exactly the runbook it spells |
| `ParserPlain.TitleNeeded` | services/operator/internal/compiler/parser.go:43-45 | a text is refused as invalid exactly when it does not start with "# " |
| `Text.TrimMeans` | services/operator/internal/compiler/parser.go:57 | trimming leaves what stands between the white space at both ends, spelled out by position |
| `PolicyGenerator.GeneratePolicy` | services/operator/internal/compiler/policy_generator.go:8-70 | the two risk loops compute the order-free policy of the runbook: its scope and forbidden actions, and the limits and approvals of the highest risk that occurs |
| `PolicyGenerator.RiskLoopsAgree` | services/operator/internal/compiler/policy_generator.go:17-67 | medium risk needs approval exactly when the blast radius is below the default; delete is forbidden exactly with a high risk |
| `PolicyGenerator.OrderIndependent` | services/operator/internal/compiler/policy_generator.go:17-67 | reordering the steps does not change the policy |
| `PolicyGenerator.PolicyRoundTrip` | specs/requirements.md:44 | a policy compiled from any text, converted to Markdown and compiled again, is the same policy |
| `Versioning.VersionedStore.Store` | services/operator/internal/compiler/versioning.go:29-49 | returns the next version number; a failed parse changes no history |
| `Versioning.VersionedStore.Get` | services/operator/internal/compiler/versioning.go:52-68 | the linear search agrees with position, with both error cases |
| `Versioning.VersionedStore.GetLatest` | services/operator/internal/compiler/versioning.go:71-82 | the last stored version |
| `Versioning.VersionedStore.ListVersions` | services/operator/internal/compiler/versioning.go:85-95 | exactly 1..n |
| `Versioning.VersionsNumbered` | services/operator/internal/compiler/versioning.go:29-49 | over any run of stores, versions have no gap and each entry holds the parse of its own text |
| `Versioning.VersionsKept` | services/operator/internal/compiler/versioning.go:29-49 | later stores keep every earlier version; failed and foreign ones change nothing |
| `PolicyEngine.CheckScope` | services/operator/internal/policy/scope.go:8-28 | the search loop is membership, and an empty scope allows every namespace |
| `PolicyEngine.ValidatePlan` | services/operator/internal/policy/engine.go:31-45 | one result per action, in order |
| `PolicyEngine.ClassIsWorstCheck` | services/operator/internal/policy/engine.go:47-109 | an action's class is the maximum of its five checks, in whatever order |
| `PolicyEngine.StrictPolicyNeverLower` | services/operator/internal/policy/engine.go:47-109 | a policy at least as strict never lowers a class |
| `PolicyEngine.StrictnessExact` | services/operator/internal/policy/engine.go:47-109 | and that notion of strictness is exact: if and only if |
| `PolicyEngine.LimitAutoApproved` | services/operator/internal/policy/engine.go:153-161 | the in-place loop computes the limited results |
| `PolicyEngine.ValidatePlanWithLimit` | services/operator/internal/policy/engine.go:143-164 | the plan, limited |
| `PolicyEngine.LimitRefines` | services/operator/internal/policy/engine.go:143-164 | min(count, max(0, limit)) approvals survive, the earliest ones; all else, names and order are unchanged |
| `IncidentStore.MemoryIncidentStore.Create` | services/operator/internal/controller/store.go:26-34 | the new id and the whole new state |
| `IncidentStore.MemoryIncidentStore.Get` | services/operator/internal/controller/store.go:36-45 | the stored incident, or not found |
| `IncidentStore.MemoryIncidentStore.Update` | services/operator/internal/controller/store.go:47-56 | replaces that incident only, or reports not found |
| `IncidentStore.CreateIsFresh` | services/backend/internal/store/memory.go:26-34 | ids are never reused and creating replaces no incident |
| `StepExecutor.FirstFailure` | services/operator/internal/executor/executor.go:43-50 | the index of the first failing step, or the plan's length |
| `StepExecutor.Executor.Execute` | services/operator/internal/executor/executor.go:63-91 | fails exactly for the simulated failure or an unknown action |
| `StepExecutor.Executor.ExecuteWithRollback` | services/operator/internal/executor/executor.go:35-53 | on success the log is unchanged; if step k is first to fail, the log grows by the undos of steps k down to 0 and later steps are not touched |
| `StepExecutor.Executor.Rollback` | services/operator/internal/executor/executor.go:122-142 | the backward nested loops log the known undos in exactly reverse order |
| `StepExecutor.ReverseAt` | services/operator/internal/executor/executor.go:122-142 | what exactly reverse means, position by position |
| `StepExecutor.UndosConcat` | services/operator/internal/executor/executor.go:128-141 | the undos of a plan are those of its parts, in order |
| `StepExecutor.UndoOfStep` | services/operator/internal/executor/executor.go:133-140 | a step is undone by the rollback step named "undo_" and its name, if there is one |
| `Reconciler.ReconcilerWithPolicy.Reconcile` | services/operator/internal/controller/reconciler.go:58-113 | the loops over results and steps compute the specified outcome, store and executor calls |
| `Reconciler.MatchIsFirst` | services/operator/internal/controller/reconciler.go:115-125 | the runbook used is the first that matches alert and severity |
| `Reconciler.ExecuteAllIsPrefix` | services/operator/internal/controller/reconciler.go:101-107 | the calls are a prefix of the plan, all before the last succeeded |
| `Reconciler.PlanApproved` | services/operator/internal/controller/reconciler.go:80-95 | passing both result loops is having the whole plan approved |
| `Reconciler.RunSafety` | services/operator/internal/controller/reconciler.go:58-113 | nothing runs unless the first match's whole plan is approved; Resolved exactly when all of it succeeded; only this incident's phase changes |
| `Reconciler.NoRunbookFails` | services/operator/internal/controller/reconciler.go:64-70 | without a runbook for alert and severity the incident fails and nothing runs |
| `Reconciler.BlockedFails` | services/operator/internal/controller/reconciler.go:80-87 | a blocked step fails the incident, and the first one is named with the reason of its first failing check |
| `Reconciler.ApprovalAwaited` | services/operator/internal/controller/reconciler.go:89-96 | without a blocked step, one that needs approval leaves the incident in RequiresApproval and nothing runs |
| `Reconciler.AwaitingExactly` | services/operator/internal/controller/reconciler.go:80-96 | a human is asked if and only if no step is blocked and some step needs approval |
| `Reconciler.ApprovedRuns` | services/operator/internal/controller/reconciler.go:98-112 | with every step approved the incident ends Resolved or Failed as the run did |
| `Reconciler.StricterRunsSameOrNothing` | services/operator/internal/controller/reconciler.go:58-113 | under a stricter policy the same steps run or none |
| `CompiledPolicy.CompiledClass` | services/operator/internal/compiler/policy_generator.go:8-70 | the compiled policy never approves a medium or high risk step, production, another namespace, a forbidden action, or a delete beside a high risk; with the exact condition |
| `CompiledPolicy.CompiledPlanExact` | services/operator/internal/policy/engine.go:31-109 | for every text that compiles, exactly when its plan is approved under its own policy |
| `CompiledPolicy.CompiledRunSafety` | services/operator/internal/controller/reconciler.go:58-125 | from runbook text to any executor: anything executed implies a harmless plan, in scope, outside production |
| `CompiledPolicy.CompiledResolvesExactly` | services/operator/internal/executor/executor.go:63-91 | with the repository's own executor, exactly which texts and incidents end in Resolved |
| `ApprovalProtocol.InvRun` | services/backend/internal/handler/approval.go:32-172 | the invariant of every interleaving: a held copy differs from the stored incident in its phase at most |
| `ApprovalProtocol.NeverReturns` | services/backend/internal/handler/approval.go:32-172 | an incident never returns to RequiresApproval and keeps all other fields |
| `ApprovalProtocol.LateWritesBounded` | services/backend/internal/handler/approval.go:39-54 | after a decision, writes to come plus operations left in flight are those in flight then; none joins later |
| `ApprovalProtocol.ReachableBound` | services/backend/internal/handler/approval.go:39-129 | the same from the empty system, for every run of requests and timers |
| `ApprovalProtocol.DecidedIsStable` | services/backend/internal/handler/approval.go:68-83 | with nothing in flight a decision is final |
| `ApprovalProtocol.FirstDecisionWinsExactly` | services/backend/internal/handler/approval.go:39-129 | a decision is final if and only if nothing in flight carries another one |
| `ApprovalProtocol.FirstDecisionCanLose` | services/backend/internal/handler/approval.go:39-83 | a run in which an approval is overwritten by a rejection |
| `ApprovalProtocol.UnguardedCallOverrides` | services/backend/internal/handler/approval.go:149-172 | Approve and Reject check no phase, so either overrides any decision |
| `ApprovalProtocol.CancelledTimerIsInert` | services/backend/internal/handler/approval.go:111-117 | a timer cancelled while it waits never writes |
| `ApprovalProtocol.CancelStops` | services/backend/internal/handler/approval.go:137-146 | after CancelTimeout the incident has no registered timer and none that can fire; nothing else has changed |
| `ApprovalProtocol.CallStops` | services/backend/internal/handler/approval.go:149-172 | the first step of Approve and of Reject does the same and only then goes on to read |
| `ApprovalProtocol.CancelledForGood` | services/backend/internal/handler/approval.go:111-117 | in every run after either, a timer that could have fired never reads or writes the store again |
| `ApprovalProtocol.StartReplaces` | services/backend/internal/handler/approval.go:99-109 | starting a timer stops the incident's earlier ones and registers the new one |
| `ApprovalProtocol.ReadThenWrite` | services/backend/internal/handler/approval.go:32-172 | what each of the five kinds of operation does to the store when its read and its write are not interrupted |
| `ApprovalProtocol.LiveTimerCanBeLost` | services/backend/internal/handler/approval.go:131-133 | a run in which an old timer's clean-up unregisters a live one |
| `ApprovalProtocol.RegisteredNext` | services/backend/internal/handler/approval.go:99-146 | one step keeps every live timer registered if and only if it is no stale clean-up |
| `ApprovalProtocol.RegisteredExactly` | services/backend/internal/handler/approval.go:99-146 | so for whole runs |
| `AuditLog.SortByTime` | services/backend/internal/audit/store.go:70-74 | a time-ordered permutation |
| `AuditLog.MemoryAuditStore.Append` | services/backend/internal/audit/store.go:46-56 | the log grows by the stamped record |
| `AuditLog.MemoryAuditStore.GetByIncident` | services/backend/internal/audit/store.go:59-75 | a time-ordered permutation of that incident's records; append order when times strictly increase |
| `AuditLog.MemoryAuditStore.GetByType` | services/backend/internal/audit/store.go:78-94 | a time-ordered permutation of the records of that incident and type; append order when times strictly increase |
| `AuditLog.SelectMeans` | services/backend/internal/audit/store.go:63-68 | a query selects record by record, in order, exactly those of the incident and, if asked for, of the type |
| `AuditLog.SortedIsUnique` | services/backend/internal/audit/store.go:70-74 | strictly increasing times have one sorted arrangement |
| `AuditLog.FullHandler.Approve` | services/backend/internal/handler/full_handler.go:32-50 | a call that runs without interruption stores Executing and appends a record with incident, approver and type, or does neither |
| `AuditLog.FullHandler.Reject` | services/backend/internal/handler/full_handler.go:53-70 | the same with Rejected, and a record that holds the reason |
| `AuditLog.LogReplaysToStore` | services/backend/internal/handler/full_handler.go:32-70 | over any calls run one after another, folding an incident's records over its first phase gives the stored incident, and the log only grows |
| `AuditLog.ReplayByTime` | services/backend/internal/audit/store.go:70-74 | any time-ordered arrangement replays as the append order does, when the last decision is strictly the latest |
| `AuditLog.QueryReplaysToStore` | services/backend/internal/audit/store.go:59-75 | then so does what the query returns after calls run one after another |
| `AuditProtocol.InvRun` | services/backend/internal/handler/full_handler.go:32-70 | the invariant of every interleaving of audited calls, direct calls, HTTP requests and timers: the stored phase is the last one written, and calls, writes and records belong together |
| `AuditProtocol.OneRecordEach` | services/backend/internal/handler/full_handler.go:40-45 | in every interleaving a completed call wrote its phase and appended exactly one record, which names its incident, its actor, its decision and a rejection's reason; no record is shared or anyone else's |
| `AuditProtocol.AgreementExact` | services/backend/internal/audit/store.go:46-56 | after any run the log replays to the store if and only if the phase written last is the phase recorded last |
| `AuditProtocol.AppendRestoresExactly` | services/backend/internal/handler/full_handler.go:34-45 | an append restores agreement if and only if the call's own write was not overtaken by a write of another decision |
| `AuditProtocol.UnopposedNotOvertaken` | services/backend/internal/handler/full_handler.go:34-45 | which holds when no write of another decision on the incident came after it |
| `AuditProtocol.AgreesNext` | services/backend/internal/handler/approval.go:39-172 | from agreement, one step keeps it if and only if it neither writes another phase nor appends another decision |
| `AuditOutstanding.OnCourseNext` | services/backend/internal/handler/full_handler.go:34-45 | one step keeps an incident's log on course if and only if it is not a write of another phase by an operation that appends nothing, or while an append is outstanding |
| `AuditOutstanding.OnCourseExactly` | services/backend/internal/handler/full_handler.go:32-70 | so for whole runs, whatever runs on this incident and on others |
| `AuditOutstanding.OnCourseMeans` | services/backend/internal/handler/full_handler.go:40-45 | on course means exactly: in whatever order the outstanding appends come, the log then agrees with the store |
| `AuditOutstanding.AgreesWhenSettled` | services/backend/internal/audit/store.go:46-56 | from the start, in every run without such a write, the log agrees at every moment at which no append on the incident is outstanding |
| `AuditProtocol.SerialCall` | services/backend/internal/handler/full_handler.go:32-70 | from every reachable state, the steps of one uninterrupted call do what the serial specification says |
| `AuditProtocol.OverlapDisagrees` | services/backend/internal/handler/full_handler.go:32-70 | from every reachable state, two overlapping calls can leave the incident rejected and its log replaying to executing, whatever the records' times |
| `AuditProtocol.HttpDecisionDisagrees` | services/backend/internal/handler/approval.go:32-58 | a decision over HTTP leaves no record |
| `AuditProtocol.TimerDecisionDisagrees` | services/backend/internal/handler/approval.go:111-129 | nor does a timer that expires |
| `CircuitBreaker.Circuit.BeginExecute` | shared/resilience/circuit_breaker.go:52-64 | the locked section before the call: whole new state and admission |
| `CircuitBreaker.Circuit.EndExecute` | shared/resilience/circuit_breaker.go:66-83 | the locked section after the call |
| `CircuitBreaker.ReportedExact` | shared/resilience/circuit_breaker.go:85-93 | State reports closed exactly below the threshold, open exactly when a call at that moment would be rejected, half-open exactly otherwise |
| `CircuitBreaker.TrailingFailuresMean` | shared/resilience/circuit_breaker.go:66-80 | trailing failures are the longest failing suffix of the outcomes |
| `CircuitBreaker.StateFollowsOutcomes` | shared/resilience/circuit_breaker.go:51-83 | in any interleaving the counter is the trailing failures (mod 2^32) and closed means below the threshold |
| `CircuitBreaker.RejectedOnlyWhenFailing` | shared/resilience/circuit_breaker.go:54-64 | a rejection needs a threshold of failures in a row, the latest at most timeout old |
| `CircuitBreaker.AdmittedExactly` | shared/resilience/circuit_breaker.go:51-83 | for every history, whatever the clock and the counter did, exactly when a call is admitted |
| `CircuitBreaker.AdmissionExact` | shared/resilience/circuit_breaker.go:54-64 | with a monotone clock, and while the current streak has not wrapped the counter: below the threshold, or the latest failure older than timeout |
| `CircuitBreaker.FreshAdmission` | shared/resilience/circuit_breaker.go:42-64 | after n calls that began at a fresh breaker and failed, the next one is admitted if and only if n is below the limit or more than timeout has passed since the last failure |
| `CircuitBreaker.WrapAdmitsEarly` | shared/resilience/circuit_breaker.go:32-40 | at the wrap it fails: a history of 2^32 sequential failing calls, each let through, after which one more is admitted at the tick of the last failure |
| `CircuitBreaker.LoadBound` | shared/resilience/circuit_breaker.go:51-83 | after any history, the failing calls let through in a span of D ticks number at most threshold + D / (timeout + 1), and a threshold more for each wrap of the counter; none wraps while the count and that bound stay below 2^32 |
| `PromptKey.EqualMapsEqualText` | services/reasoner/src/reasoner/cache.py:22 | sorting makes the text independent of insertion order |
| `PromptKey.EscapePrefixFree` | services/reasoner/src/reasoner/cache.py:22 | no character's JSON escape starts another's |
| `PromptKey.ObjectUnique` | services/reasoner/src/reasoner/cache.py:22 | a JSON object's text determines its members |
| `PromptKey.NoTwoReadings` | services/reasoner/src/reasoner/cache.py:22-23 | quote parity: no text reads to its end from both outside and inside a string |
| `PromptKey.ObjectNotSuffix` | services/reasoner/src/reasoner/cache.py:22-23 | no object ends in a colon and another object |
| `PromptKey.RawKeyExact` | services/reasoner/src/reasoner/cache.py:21-24 | two keys are equal if and only if the alerts and the evidence are, even for alerts with colons, braces or quotes |
| `PromptKey.LessMeans` | services/reasoner/src/reasoner/cache.py:22 | the keys are sorted by the first code point in which they differ, a prefix first |
| `PromptKey.RawWritten` | services/reasoner/src/reasoner/cache.py:21-24 | the text before hashing, written out for dictionaries of no, one and two members |
| `PromptCache.PromptCache.Get` | services/reasoner/src/reasoner/cache.py:26-39 | what the log of sets, reads and clears says is still held, while at most ttl old, whatever the clock does |
| `PromptCache.PromptCache.Set` | services/reasoner/src/reasoner/cache.py:41-44 | appends to the log that Get answers from |
| `PromptCache.PromptCache.Clear` | services/reasoner/src/reasoner/cache.py:46-47 | appends a clear |
| `PromptCache.AnswerExact` | services/reasoner/src/reasoner/cache.py:26-39 | for every history and clock, a read misses the latest value exactly when an earlier read found it expired although it is not expired now |
| `PromptCache.EvictionUnobserved` | services/reasoner/src/reasoner/cache.py:26-39 | with a clock that does not go backwards, a read returns the latest value set since the last clear exactly while it is at most ttl old |
| `PromptCache.AnswerAfterSet` | services/reasoner/src/reasoner/cache.py:26-44 | for every clock: until it is set again or cleared, a read returns a value exactly while it is at most ttl old and no earlier read of its key came when it was older |
| `PromptCache.AnswerUntilExpired` | services/reasoner/src/reasoner/cache.py:26-44 | with a clock that does not go backwards, exactly until it is ttl old, whatever is read and whatever other keys do |
| `PromptCache.AnswerAfterClear` | services/reasoner/src/reasoner/cache.py:46-47 | for every clock: after a clear no read finds anything under a key until it is set again |
| `Patterns.MatchIsAccepted` | services/reasoner/src/reasoner/redaction.py:6-23 | what the backtracking matcher takes is in the pattern's language |
| `Patterns.AcceptedIsMatched` | services/reasoner/src/reasoner/redaction.py:6-23 | and it matches wherever some prefix is |
| `Patterns.FreeMeans` | services/reasoner/src/reasoner/redaction.py:27-31 | a text is match-free exactly when no substring is in the language |
| `Patterns.FreePrefix` | services/reasoner/src/reasoner/token_budget.py:34 | cutting makes no match |
| `Redaction.RedactSensitive` | services/reasoner/src/reasoner/redaction.py:27-31 | the loop applies the seven substitutions in order |
| `Redaction.TokenPass` | services/reasoner/src/reasoner/redaction.py:6-11 | each pass removes its own token and brings back no earlier one; for API keys and bearer tokens an assignment pass needs a text that spells no key word with U+017F or U+212A |
| `Redaction.PrivateKeyPass` | services/reasoner/src/reasoner/redaction.py:18-23 | the last pass leaves no private key block, lazy body and all |
| `RedactionMasks.AssignmentExact` | services/reasoner/src/reasoner/redaction.py:12-17 | the assignment patterns match exactly an assigned value, to its end |
| `RedactionMasks.PassHides` | services/reasoner/src/reasoner/redaction.py:12-17 | a pass masks every assignment to its word, and later passes keep it masked |
| `RedactionMasks.RedactsToken` | services/reasoner/src/reasoner/redaction.py:4-31 | no AWS key in any redacted text; no API key or bearer token unless the text spells a key word with U+017F or U+212A |
| `RedactionMasks.RedactsValue` | services/reasoner/src/reasoner/redaction.py:4-31 | every password, secret and token assignment left is the mask itself, for every text |
| `RedactionMasks.RedactsPrivateKey` | services/reasoner/src/reasoner/redaction.py:4-31 | no private key block is left, for every text |
| `RedactionMasks.RedactedIsClean` | services/reasoner/src/reasoner/token_budget.py:23-34 | all of this holds of every cut of a redacted text |
| `RedactionTwice.RedactTwiceIsTokenFree` | services/reasoner/src/reasoner/redaction.py:27-31 | for every text, a second redaction leaves no API key, no bearer token and no AWS key |
| `RedactionTwice.RedactTwiceExact` | services/reasoner/src/reasoner/redaction.py:27-31 | redacting again changes nothing if and only if no API key and no bearer token was left |
| `RedactionTwice.RedactThrice` | services/reasoner/src/reasoner/redaction.py:27-31 | for every text, two redactions are enough |
| `RedactionExact.PassExact` | services/reasoner/src/reasoner/redaction.py:6-23 | for every text and each pass after the token passes, exactly when an API key or bearer token is left in what it makes |
| `RedactionExact.WellSpelledLeavesNone` | services/reasoner/src/reasoner/redaction.py:12-23 | never from a token-free text that spells no key word with the two letters |
| `RedactionExact.RedactsTokenExactly` | services/reasoner/src/reasoner/redaction.py:4-31 | for every text, exactly when the redacted text has an API key or a bearer token |
| `RedactionExact.LastAssignmentDecides` | services/reasoner/src/reasoner/redaction.py:12-31 | of the assignment passes only the last decides, exactly; if it leaves none, redaction does |
| `RedactionWitness.LongSLeavesToken` | services/reasoner/src/reasoner/redaction.py:4-31 | a family of texts, for API keys and for bearer tokens, from which redaction leaves one that it has itself completed |
| `RedactionPlain.ApiKeyAt` | services/reasoner/src/reasoner/redaction.py:6-7 | the rule takes exactly "sk-ant-" and at least 10 letters, digits, dashes or underscores, to their end |
| `RedactionPlain.BearerAt` | services/reasoner/src/reasoner/redaction.py:8-9 | the rule takes exactly "Bearer", space, and at least 20 letters, digits, dashes, underscores or dots, to their end |
| `RedactionPlain.AwsKeyAt` | services/reasoner/src/reasoner/redaction.py:10-11 | the rule takes exactly "AKIA" and 16 capitals or digits |
| `RedactionPlain.AssignmentAt` | services/reasoner/src/reasoner/redaction.py:12-17 | the rules take exactly the word in any case, a sign between optional space, and the value to its end |
| `RedactionPlain.PrivateKeyAt` | services/reasoner/src/reasoner/redaction.py:18-23 | the rule takes exactly a header and everything up to the end of the first footer after it |
| `RedactionPlain.SubAtFirst` | services/reasoner/src/reasoner/redaction.py:27-31 | a substitution keeps the text before the first match, writes the replacement, and goes on behind the match |
| `RedactionPlain.NoAwsKeyLeft` | services/reasoner/src/reasoner/redaction.py:4-31 | nowhere in a redacted text do 16 capitals or digits follow "AKIA" |
| `RedactionPlain.NoApiKeyLeft` | services/reasoner/src/reasoner/redaction.py:4-31 | nor 10 of the key characters "sk-ant-", unless the text spells a key word with U+017F or U+212A |
| `RedactionPlain.NoBearerTokenLeft` | services/reasoner/src/reasoner/redaction.py:4-31 | nor space and 20 of the token characters "Bearer", under the same condition |
| `RedactionPlain.NoPrivateKeyLeft` | services/reasoner/src/reasoner/redaction.py:4-31 | nowhere does a private key's header come before a footer, for every text |
| `RedactionPlain.OnlyMasksLeft` | services/reasoner/src/reasoner/redaction.py:4-31 | wherever a redacted text assigns to a key word it reads word=[REDACTED], and the value ends there |
| `RedactionPlain.WellSpelledMeans` | services/reasoner/src/reasoner/redaction.py:12-17 | the condition, position by position |
| `Orchestrator.TruncateExact` | services/reasoner/src/reasoner/token_budget.py:23-34 | the longest fitting prefix; within the budget if and only if it is not negative |
| `Orchestrator.SentIsClean` | services/reasoner/src/reasoner/orchestrator.py:49-69 | every evidence value sent is clean and bounded, keys and order kept |
| `Orchestrator.ReasonerOrchestrator.Matches` | services/reasoner/src/reasoner/orchestrator.py:107-111 | the search is membership |
| `Orchestrator.ReasonerOrchestrator.Truncate` | services/reasoner/src/reasoner/orchestrator.py:59-61 | the loop truncates every value |
| `Orchestrator.ReasonerOrchestrator.BeginAnalyze` | services/reasoner/src/reasoner/orchestrator.py:45-71 | up to the await: a hit answers with what the model said for this alert and evidence and sends nothing; a miss sends one clean, bounded request |
| `Orchestrator.ReasonerOrchestrator.EndAnalyze` | services/reasoner/src/reasoner/orchestrator.py:72-105 | from the reply on, whatever other analyses did meanwhile: timeouts and errors are answered and not remembered, answers are |
| `Orchestrator.ReasonerOrchestrator.Analyze` | services/reasoner/src/reasoner/orchestrator.py:39-105 | the two together |

## Left out

- Invalid UTF-8 and lone surrogates: texts are sequences of Unicode scalar values.
- Lower-casing beyond what a comparison with ASCII constants can observe (`Text.LowerChar`).
- Updates through a pointer into a slice of steps: the parser's steps are values in a sequence.
- The bytes kept in a version entry are assumed not to be changed by their owner.
- SHA-256 is taken as injective; the cache key is the text before hashing.
- Floating-point confidences and times are reals; the clock, an execution's outcome and the model's reply are parameters.
- CompiledPolicy.ToRunbook: the repository has no converter from a parsed runbook to the runbook type of the reconciler; a field-by-field one is assumed, and the severity list is taken over.
- AuditLog.SortByTime: `sort.Slice` is not stable, so records with equal times come in any order; the loop is one such sort.
- AuditLog.LogReplaysToStore: covers calls of FullHandler that run one after another; overlapping ones, direct calls, HTTP requests and timers are the subject of AuditProtocol.
- RedactionExact.RedactsTokenExactly: its condition reads the text before the last pass; the sufficient one in RedactsToken reads the text itself.
- Alert names and evidence keys are sent as they are, by the source and the model.
- MemoryAuditStore's Delete and Update: both always refuse and change nothing.
- Aliasing between the returned analysis and the cached dictionary.
- CheckBlastRadius with pod counts, ClassifyRisk, ValidatePlanSafe, RunbookStore, Retry, token usage and cost: easy or unused by the core flow.
- ReconcilerWithReasoner: it skips policy checks, so the gating theorems do not apply to it.
- The sample files under runbooks/ use "## Rollback Steps"; nothing is claimed about them.
- HTTP routing, JSON requests, logging, metrics, notifications, the rate limiter, evidence commands and Kubernetes effects.
