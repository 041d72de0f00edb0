# OT-SOC Fusion X: a model of the evidence-driven core

This project models the decision logic of the OT-SOC Fusion X backend and proves what it is
relied on for. Four components share one append-only evidence store:

- **Incidents.** Verified evidence is qualified by four frozen rules, named by a canonical
  grouping key, routed to an incident (a second time, under its own run, when the incident is bound
  to another run), and absorbed. Analysts change status, write notes, assign, dispose and save
  reports under optimistic versions. Every table is append-only.
- **Scenario Lab.** Runs execute a frozen pipeline, verify the lineage of what it produced, link it,
  and become the active context. The protocol is split at every commit, so clients interleave and the
  process can crash and restart between any two commits. The lineage closures of the lab (strict) and of
  replay (tolerant) walk reference graphs that may have cycles.
- **Correlation.** Telemetry is canonicalised, cut into windows around a command or a searched anchor,
  and turned into an S3 or S4 verdict with its observations.
- **Policy.** A first-match cascade decides whether a communication is approved.

## How the model is laid out

| module | content |
|---|---|
| `Common`, `Sorting`, `Text`, `EvidenceTypes` | results, sequences, stable sorting, string order and joining, evidence types and references |
| `Identity` | grouping epochs and canonical incident names |
| `Policy` | rule matching, the cascade, the declared precedence |
| `Telemetry`, `Process` | canonical telemetry, run consistency, windows, gaps, persistence, representative means |
| `Correlation`, `CorrelationProofs`, `Verdicts` | the evaluators and guards, the theorems about them, and what a verdict means on the samples |
| `Qualification` | the evidence store, verified bundles, the candidates of rules S1 to S4 |
| `Incidents` | the incident operations as functions on one incident and on the table |
| `IncidentStore` | the same operations as objects updated in place, proved equal to `Incidents` |
| `IncidentInvariants`, `IncidentSystem` | the invariant of one incident; the theorems over all operation histories |
| `IncidentEdits`, `RuleOutcomes` | when each analyst operation is accepted and what it leaves; which requests meet a rule and what is then filed |
| `Lineage`, `Closure` | the two parent readers, reachability, the two closure loops and their agreement |
| `ScenarioLab`, `LabProofs`, `LabReplies`, `LabTables` | the run protocol, its theorems over all traces, the exact answer of every step, and its transactions on mutable tables |
| `Replay` | the replay order and the derivation pipeline |

Conventions: a timestamp is an integer number of microseconds, a float is an exact real. Name-based UUIDs
(section 5.5 of RFC 9562) and SHA-256 are taken as injective, so an incident is keyed by its canonical
name and a row by the tuple of its name parts. An exception is an error value, and an operation that
ends in one leaves the tables as they were. Clocks, random UUIDs and the pipeline's products are
parameters.

## Where the code does less than it seems to promise

Each of these is proved with an input that fails and with the exact condition under which the
property holds.

- `EpochBracketsAnchor`, `EpochMissesPre1970Anchor`: `int()` truncates, so before 1970 the epoch can lie
  after its anchor.
- `RejectedExactlyOnClash`, `CyberParentCanClash`: a correlation request is also rejected when a cyber
  parent or the re-evaluated finding reuses a sample's ID, not only when two samples clash.
- `CascadeAgreesWithPrecedence`, `EarlyDenyReasonBreaksPrecedence`: the cascade follows the declared
  precedence unless a deny rule carries a reason that outranks the guards that stopped the request.
- `ActiveRunCompletedExactly`, `ActiveRunCanBeFailed`: the Baseline is re-executed at every startup even
  when it is COMPLETED and active. If that fails, the active context points at a FAILED run until a
  later re-execution passes.
- `FindingFollowsParentsExactly`, `EarlyFindingPrecedesItsCommand`: a finding over telemetry that all
  precedes the command is stamped, and replayed, before that command.
- `FindingFollowsParentsExactly`, `ReevaluationShownFirst`: a re-evaluation over the same samples carries
  the same time and rank as the finding it re-evaluates, so their identities decide which one replay
  shows first; over earlier samples it always comes first.
- `ReadersAgreeExactly`, `TolerantReadsMoreThanStrict`: replay reads references that the lab refuses.
- `AssetsExactly`: a candidate whose evidence is all present is accepted as existing and changes nothing,
  even if it names a process asset the incident does not list; its assets are all listed exactly when the
  enrichment takes effect.
- `VerifiedClosure`, `MissingRootsAreNeverRefused`: the 2,000-record bound of replay is checked only when a
  record is shown, so gaps alone never reach it.

## Model

| member | source | states |
|---|---|---|
| IncidentSystem.ResubmissionChangesNothing | backend/app/incidents/service.py:50-132 | in every reachable store, resubmitting any accepted request, rerouted or not, answers "existing" for the same incident and changes no row, whatever came in between |
| IncidentSystem.AcceptedIsRecorded | backend/app/incidents/service.py:93-132 | the log that the resubmission theorem speaks of holds every submission the history accepted |
| IncidentSystem.SubmissionNeverMixes | backend/app/incidents/service.py:85-107 | in every reachable state a submission is accepted, is evidence only, or fails on the evidence itself; the rule-mismatch, "cannot mix", "requires both" and misaligned-asset errors are unreachable |
| IncidentSystem.HistoryOnlyExtends | backend/app/incidents/service.py:287-379 | along every history no incident disappears, every table only grows, a binding once set never changes, severity and version never fall |
| IncidentSystem.AbsorptionIgnoresOrder | backend/app/incidents/service.py:287-379 | incidents that absorbed the same candidates in any order and repetition, in any two histories, agree on member evidence, evidence count, time span and severity, which is the maximum over the candidates |
| IncidentSystem.ReachableBookkeeping | backend/app/incidents/service.py:220-411 | in every reachable state the counter equals the distinct member evidence, one row is PRIMARY and is the primary evidence, the span is the members' minimum and maximum, asset IDs stand beside the keys they came with, the binding is whole and every scoped member carries it, and an incident keyed by a configuration is bound to its key |
| IncidentSystem.ReachableHistories | backend/app/incidents/lifecycle.py:25-118 | in every reachable state each version step has an audit row, only report saves have zero width, status rows form an allowed path that never returns to OPEN and gives a reason around RESOLVED, severities climb strictly, and no identity repeats among audit, timeline, status, severity, note and revision rows |
| IncidentSystem.ReachableInvariant | backend/app/incidents/service.py:50-446 | every operation keeps the whole invariant: consistent incidents, remembered requests, nothing in an incident that no accepted candidate brought |
| RuleOutcomes.RequestsAreFiledExactly | backend/app/incidents/qualification.py:25-42 | in every reachable state a request is accepted exactly when it meets a rule on the stored records (S1 before S2 before S3, S3 only if denied, or approved with a matched finding; S4 only without policy evidence), and the incident then has the rule's key, all named evidence, at least its severity (HIGH exactly for a denied, correlated command) and the finding's binding; a newly opened one has exactly the named members, roles, assets and severity |
| RuleOutcomes.RuleMetExactly | backend/app/incidents/qualification.py:25-311 | a request yields a candidate exactly when the stored records meet a rule |
| RuleOutcomes.CandidateExactly | backend/app/incidents/qualification.py:45-247 | the S1, S2 or S3 candidate: members and roles, severity, every part of the grouping key, binding and process assets, read off the stored records |
| RuleOutcomes.S4CandidateFields | backend/app/incidents/qualification.py:250-311 | every part of the S4 candidate's grouping key, its assets and its time |
| RuleOutcomes.VerifiedExactly | backend/app/incidents/memberships.py:315-341 | when a reference is verified and which check fails first |
| RuleOutcomes.UsableExactly | backend/app/incidents/memberships.py:45-224 | verification succeeds exactly when everything the request names, directly or through its findings, is present, intact and consistent, and hands on exactly those records |
| RuleOutcomes.ChainExactly | backend/app/incidents/memberships.py:227-294 | the policy lineage holds exactly when all four records are present, each names itself, and they name each other consistently |
| IncidentSystem.S4MatchIsFiled | backend/app/incidents/qualification.py:250-311 | in every reachable state a stored S4 finding is accepted exactly when it is a complete match: intact, naming itself, agreeing with its provenance, resting on verified telemetry of its own run, with run, configuration, anchor and the S4 assets; its incident then holds it, is of high severity and is bound to its run |
| IncidentSystem.FindingVerifiedExactly | backend/app/incidents/memberships.py:75-107 | a stored finding passes verification exactly when it is intact, consistent with itself and its provenance, and every telemetry parent supports it |
| IncidentSystem.FilingSucceeds | backend/app/incidents/service.py:135-217 | filing a routed candidate never fails: it creates, enriches or finds the incident, which then holds all its evidence, its severity and its binding |
| IncidentSystem.RoutedIsCompatible | backend/app/incidents/service.py:433-446 | routing always ends at a free name or at an incident whose binding the candidate can share |
| IncidentInvariants.BindingNeedsNewMember | backend/app/incidents/service.py:414-430 | binding an unbound incident always files new evidence, so a binding change is always audited |
| IncidentInvariants.EnrichHealthy | backend/app/incidents/service.py:287-379 | enrichment keeps every table of an incident consistent and only extends it |
| IncidentInvariants.NewMembersOrigin | backend/app/incidents/service.py:300-311 | afterwards every proposed membership has a row, and every new row is a proposed one, a second PRIMARY demoted to SUPPORTING |
| IncidentInvariants.MergedPairs | backend/app/incidents/service.py:324-338 | merging the process assets never moves an ID to another key |
| IncidentInvariants.TransitionHealthy | backend/app/incidents/lifecycle.py:37-118 | a status change keeps every table consistent and touches no evidence |
| IncidentInvariants.AddNoteHealthy | backend/app/incidents/notes.py:41-103 | a note keeps every table consistent and touches no evidence |
| IncidentInvariants.WorkflowHealthy | backend/app/incidents/workflow.py:47-128 | assignment and disposition keep every table consistent and touch no evidence |
| IncidentInvariants.SaveReportHealthy | backend/app/incidents/workflow.py:138-209 | a report save numbers its revision, leaves the aggregate version alone and keeps every table consistent |
| IncidentEdits.StatusChangeExactly | backend/app/incidents/lifecycle.py:25-118 | a status change is accepted exactly at the seen version, along one of the four transitions, with a plain reason of 1 to 500 characters where RESOLVED is entered or left; it then sets status, version and one history row and nothing else |
| IncidentEdits.NoteExactly | backend/app/incidents/notes.py:31-103 | a note is accepted exactly at the seen version with 1 to 2,000 plain characters, and is then the last note |
| IncidentEdits.AssignExactly | backend/app/incidents/workflow.py:47-89 | an assignment is accepted exactly at the seen version for nobody or an eligible user, who then is the assignee |
| IncidentEdits.DispositionExactly | backend/app/incidents/workflow.py:92-128 | a disposition is accepted exactly at the seen version with a written reason of at most 2,000 plain characters, and is then the incident's |
| IncidentEdits.ReportExactly | backend/app/incidents/workflow.py:138-209 | a report save is accepted exactly at the seen report version with fields of at most 4,000 plain characters; report and last revision then hold them under the next number, and nothing else but the audit moves |
| IncidentEdits.FilledCounts | backend/app/incidents/workflow.py:335-336 | the audited number is the number of fields in which something is written |
| IncidentEdits.AddedExactly | backend/app/incidents/service.py:298-311 | exactly the proposed evidence without a row is added, each as proposed or, for a second PRIMARY, as SUPPORTING |
| IncidentEdits.AssetsExactly | backend/app/incidents/service.py:312-341 | an enrichment that takes effect leaves every asset key of both, the candidate's IDs winning; one that brings nothing new leaves the assets alone |
| IncidentEdits.PointsExactly | backend/app/incidents/service.py:338-341 | an enrichment that takes effect leaves the target points of both |
| IncidentEdits.BindExactly | backend/app/incidents/service.py:414-430 | when a candidate binds, agrees, is incomplete or is refused |
| IncidentEdits.TriggerExactly | backend/app/incidents/service.py:363-367 | the escalation trigger is the first new correlation finding, else the candidate's primary evidence |
| IncidentStore.IncidentRecord.constructor | backend/app/incidents/service.py:220-284 | the new object and its rows are the created incident of the specification |
| IncidentStore.IncidentRecord.InsertMembership | backend/app/incidents/service.py:382-411 | a row is appended exactly when the incident has none for that evidence |
| IncidentStore.IncidentRecord.Enrich | backend/app/incidents/service.py:287-379 | the object updated in place ends as the specification's enrichment, or unchanged on an error |
| IncidentStore.IncidentRecord.RecordEscalation | backend/app/incidents/severity.py:31-92 | the severity, its history, timeline and audit rows after an escalation |
| IncidentStore.IncidentRecord.ChangeStatus | backend/app/incidents/lifecycle.py:37-118 | the object after a status change, or the first refused check and no change |
| IncidentStore.IncidentRecord.WriteNote | backend/app/incidents/notes.py:41-103 | the object after a note, or the refused check and no change |
| IncidentStore.IncidentRecord.AssignTo | backend/app/incidents/workflow.py:47-89 | the object after an assignment, or the refused check and no change |
| IncidentStore.IncidentRecord.Dispose | backend/app/incidents/workflow.py:92-128 | the object after a disposition, or the refused check and no change |
| IncidentStore.IncidentRecord.WriteReport | backend/app/incidents/workflow.py:138-209 | the object after a report save, or the refused check and no change |
| IncidentStore.Store.InsertOrLoad | backend/app/incidents/service.py:135-217 | the incident of the candidate's own name, created exactly when there was none, every other incident untouched |
| IncidentStore.Store.Route | backend/app/incidents/service.py:74-107 | the candidate is regrouped exactly when its incident is bound to another run |
| IncidentStore.Store.Submit | backend/app/incidents/service.py:50-132 | the whole table of objects after a submission is the specification's table, with the same outcome |
| IncidentStore.Store.Edit | backend/app/incidents/workflow.py:47-209 | the whole table of objects after a status change, note, assignment, disposition or report save is the specification's table, with the same outcome, a missing incident included |
| Qualification.QualifiedIsValid | backend/app/incidents/qualification.py:25-311 | every candidate of rules S1 to S4 has distinct members, one PRIMARY, the members' exact time span, a key within its field alphabets and a binding that is its own finding's scope |
| Qualification.QualifyStable | backend/app/incidents/memberships.py:45-224 | a request that once produced a candidate, its telemetry parents verified, produces the same candidate in every larger store |
| Qualification.TelemetryLineageExactly | backend/app/incidents/memberships.py:97-107 | the loop over the telemetry parents and the scope check pass exactly when every parent is stored under its digest, intact, of the current schema and of the finding's run and configuration |
| Identity.CanonicalNameInjective | backend/app/incidents/identity.py:20-56 | two candidates get one canonical name exactly when rule, category, scope multisets, run and configuration scope, semantic ID and epoch agree |
| Identity.NameLayout | backend/app/incidents/identity.py:28-51 | the thirteen parts of the name, in order, and the placeholders of empty scopes |
| Identity.ScopeTextInjective | backend/app/incidents/identity.py:28-30 | neither the separator nor the placeholder makes two different scopes look alike |
| Identity.EpochBracketsAnchor | backend/app/incidents/grouping.py:9-14 | the epoch is a multiple of 300 s and brackets its anchor exactly from 1970 on, and before 1970 outside the last fractional second of an epoch |
| Identity.EpochMissesPre1970Anchor | backend/app/incidents/grouping.py:12-13 | half a second before 1970 the epoch lies after its anchor |
| Lineage.StrictParseIsTolerantParse | backend/app/product/service.py:472-530 | whatever the strict reader accepts, the tolerant reader reads identically |
| Lineage.StrictAcceptsExactlyReadable | backend/app/lab/service.py:640-653 | the strict reader accepts exactly pairs that are all null or a 64-character digest beside a parsable identity |
| Lineage.TolerantReadsMoreThanStrict | backend/app/lab/service.py:644-645 | a digest one character short is refused by one reader and followed by the other |
| Lineage.ReadersAgreeExactly | backend/app/lab/service.py:631-653 | the two readers give the same result exactly on records whose references are all readable, and where neither can iterate the parent list |
| Lineage.ParentsAreNamed | backend/app/lab/service.py:593-653 | for every evidence type, both readers return exactly the references under the named payload and provenance keys and, for a correlation finding, its telemetry items |
| Lineage.StrictAcceptsFields | backend/app/lab/service.py:593-653 | the strict reader accepts a record exactly when each of those keys and items is readable |
| Lineage.ScopeIsRead | backend/app/lab/service.py:656-662 | a record's scope is the two string fields of its payload |
| Lineage.ScopeChecksDiffer | backend/app/product/service.py:459-464 | where the strict and the tolerant scope check differ |
| Lineage.StrictlyAdmissibleIsTolerable | backend/app/product/service.py:437-469 | a lineage the strict reader admits is admitted, record for record, by the tolerant one, though they check scope and repeated references differently |
| Closure.ReadStrict | backend/app/lab/service.py:593-653 | the loop returns the strict parents, or the error of the first malformed pair |
| Closure.ReadTolerant | backend/app/product/service.py:472-530 | the loop returns the readable parents in order |
| Closure.VerifiedExecutionClosure | backend/app/lab/service.py:541-590 | terminates on every store, cyclic ones too, and succeeds exactly when there is a root, every reference met names a stored record by its stored digest, every record reached is intact, in scope and readable, and they are at most 2,000; the result lists exactly the records reached, sorted, with the roots and every parent that a listed record names in its fields; each error says what is wrong with the lineage |
| Closure.VerifiedClosure | backend/app/product/service.py:437-469 | terminates on every store; records shown are verified and at most 2,000, gaps are explained and disjoint from them, and every parent a shown record names in its fields is shown or a gap; an admissible lineage is shown whole without gaps, and a gapless result is the whole lineage; it raises exactly when a record it would show has a parent list that cannot be iterated or comes after the first 2,000 records met |
| Closure.MissingRootsAreNeverRefused | backend/app/product/service.py:453-468 | any number of missing roots, 2,001 included, are all met and nothing is raised, because a gap skips the bound |
| Closure.ClosuresAgree | backend/app/product/service.py:437-469 | where the strict closure succeeds, the tolerant one over the same references, in any order and repetition, has no gap and the same records |
| Closure.LinkedIsClosed | backend/app/lab/service.py:504-538 | the records of a successful closure include every parent they name |
| Closure.RefutedIsInadmissible | backend/app/lab/service.py:556-584 | each error of the strict closure is justified by the lineage and rules out success |
| Closure.LinkedOrderExactly | backend/app/lab/service.py:585-590 | linked records are ordered by time, then type name, then identity |
| LabProofs.ReachableHealthy | backend/app/lab/service.py:94-195 | over every interleaving, crash and restart: rows consistent, one RUNNING row, clients own the rows they think they own, a process that started successfully serves a COMPLETED active run |
| LabProofs.AtMostOneRunningAndOneBaseline | backend/app/lab/models.py:65-76 | in every reachable state at most one run is RUNNING and at most one is the Baseline |
| LabProofs.VersionCountsActivations | backend/app/lab/service.py:665-700 | the context version is exactly the number of activations in the trace |
| LabProofs.ActivatedIsCompleted | backend/app/lab/service.py:674-675 | whatever is activated is COMPLETED at that commit, so the check against an incomplete run never fires |
| LabProofs.ActiveRunCompletedExactly | backend/app/lab/service.py:272-276 | the active run is COMPLETED, except exactly while the Baseline is active and its latest re-execution failed |
| LabProofs.FailedReexecutionStrandsContext | backend/app/lab/service.py:436-462 | a failed re-execution leaves the active context at a FAILED Baseline |
| LabProofs.ActiveRunCanBeFailed | backend/app/lab/service.py:368-376 | from every intact record without parents, a trace from the empty lab to that state |
| LabProofs.StartupNeverConflicts | backend/app/lab/service.py:344-364 | no unique index ever refuses a startup |
| LabProofs.RestartRestoresBaseline | backend/app/lab/service.py:94-125 | from any reachable state a restart ends with the Baseline active, COMPLETED and one version later, exactly when its execution passes and no incident is linked to it |
| LabProofs.LinkedEvidenceIsClosed | backend/app/lab/service.py:504-526 | in every reachable state the evidence linked to a run is stored and closed under parent references |
| LabProofs.HistoryRetained | backend/app/lab/service.py:230-245 | no step, reset included, removes or rewrites history: rows stay, finished scenario runs never change, linked evidence only grows |
| LabReplies.ResetExactly | backend/app/lab/service.py:230-269 | a reset is refused exactly while a run is RUNNING or the Baseline is not COMPLETED, and otherwise leads to an activation with reason RESET and nothing else |
| LabReplies.ReturnExactly | backend/app/lab/service.py:198-227 | a return to the Baseline is refused exactly when it is not COMPLETED |
| LabReplies.StartExactly | backend/app/lab/service.py:128-176 | a start is refused exactly for the Baseline, while a run is RUNNING or under a used identity, and otherwise inserts exactly one fresh RUNNING row |
| LabReplies.ExecuteExactly | backend/app/lab/service.py:386-462 | the run completes exactly when the pipeline produced its own case with existing incidents and an admissible lineage, and is then linked to exactly that lineage; otherwise it is FAILED with the pipeline code and its links are unchanged |
| LabReplies.ActivateExactly | backend/app/lab/service.py:665-700 | an activation sets exactly the run and reason the client was waiting for, one version later |
| LabReplies.RecoverExactly | backend/app/lab/service.py:103-110 | startup fails exactly the RUNNING rows and keeps everything else about every row |
| LabReplies.EnsureExactly | backend/app/lab/service.py:325-364 | a completed Baseline is kept, an unfinished one put back to RUNNING, a missing one inserted |
| LabReplies.ProcessExactly | backend/app/main.py:28-36 | what a crash, an abandoned request and a boot change |
| LabReplies.ReasonsAreBacked | backend/app/lab/service.py:198-269 | in every reachable state the reason of the active context, and of every client about to activate, is backed by the history: a reset was requested while nothing ran and the Baseline was COMPLETED, a return while it was COMPLETED, and a scenario activation is of a scenario run |
| LabTables.Tables.InsertRun | backend/app/lab/service.py:128-176 | the table after a start is the protocol's start step, refused when a run is RUNNING |
| LabTables.Tables.FinishRun | backend/app/lab/service.py:386-462 | the run is completed with its verified closure linked exactly when the protocol's execution passes, else marked FAILED |
| LabTables.Tables.LinkAll | backend/app/lab/service.py:515-528 | the links afterwards are the earlier ones and exactly the closure |
| LabTables.Tables.ActivateRun | backend/app/lab/service.py:665-700 | refuses a run that is not COMPLETED and then changes nothing; else the context points at the run for the given reason and its version is one higher |
| LabTables.Tables.FailStale | backend/app/lab/service.py:104-110 | exactly the RUNNING rows become FAILED with the restart code |
| LabTables.Tables.EnsureBaseline | backend/app/lab/service.py:325-364 | the table after the ensure transaction is the protocol's ensure step |
| LabTables.Tables.SelectBaseline | backend/app/lab/service.py:198-258 | the checks before a return or a reset, in order, answer as the protocol step does |
| Replay.ReplayIsTopological | backend/app/product/service.py:569-570 | whatever the pipeline derived and whichever records are shown, no event is ordered before one it was derived from, the re-evaluated finding included, if every finding is timely and supersedes what it re-evaluates |
| Replay.ReplayOrderExactly | backend/app/product/service.py:39-46 | replay orders by time, then by the declared class order, then by identity |
| Replay.DerivedExactly | backend/app/protocols/adapters.py:88-170 | the record each adapter adds: its time and exactly its parents |
| Replay.DerivedFollowsParents | backend/app/context/adapters.py:118-202 | under the same condition every record the adapters derive comes strictly after all of its recorded parents in every replay |
| Replay.FindingFollowsParentsExactly | backend/app/correlation/decisions.py:52-56 | a finding always follows its telemetry; it follows its cyber parents exactly when there is no sample or one at or after the command; it follows the finding it re-evaluates exactly when it is stamped later, or at the same time with the greater identity |
| Replay.FindingParents | backend/app/correlation/findings.py:43-53 | the recorded parents are exactly the cyber parents, the samples and the re-evaluated finding |
| Replay.ReevaluationTies | backend/app/correlation/persistence.py:94-115 | evaluating the same samples again gives a finding with the same time |
| Replay.ReevaluationShownFirst | backend/app/product/service.py:569-570 | for every sample: if the re-evaluation has the smaller identity, replay shows it before the finding it was derived from |
| Replay.FinalFindingIsTimely | backend/app/correlation/temporal.py:112-118 | a finding over a final window satisfies that condition |
| Replay.EarlyFindingPrecedesItsCommand | backend/app/correlation/decisions.py:52-56 | one sample before the command suffices for a finding that replays before the command |
| Replay.DecisionTime | backend/app/correlation/evaluator.py:19-126 | whatever the verdict, a decision carries its latest sample's time, or the command's |
| CorrelationProofs.EvaluationIgnoresOrder | backend/app/correlation/evaluator.py:19-24 | any reordering or repetition of the telemetry gives the same decision, parents and finding identity, or the same rejection |
| CorrelationProofs.RejectedExactlyOnClash | backend/app/correlation/canonical.py:51-65 | a request is rejected exactly when one evidence ID carries different content among samples or parent references |
| CorrelationProofs.CyberParentCanClash | backend/app/correlation/canonical.py:51-65 | distinct sample IDs alone do not prevent rejection: every request whose command shares its ID with a sample of other content is rejected |
| CorrelationProofs.FinalVerdictStable | backend/app/correlation/evaluator.py:19-126 | once the window is final, later run-consistent samples never change status, anchor or observations, and under S4 not the reason |
| CorrelationProofs.S3FinalStatusStable | backend/app/correlation/s3.py:54-258 | later samples may only move S3 between its two "not correlated" reasons |
| CorrelationProofs.S4FinalVerdictStable | backend/app/correlation/s4.py:32-233 | later samples change nothing in an S4 decision but its evidence time |
| CorrelationProofs.AnchorIsEarliest | backend/app/correlation/s4.py:236-255 | the anchor is the time of the first qualifying sample, and there is none only if no sample qualifies |
| CorrelationProofs.AnchorSettlesBaseline | backend/app/correlation/s4.py:51-88 | the window's baseline is the one the search judged, so afterwards only pressure can make it unstable and only the effect side can be too small |
| CorrelationProofs.MatchedPointsDirected | backend/app/correlation/s4.py:90-185 | every matched flow observation is DECREASED and every matched pressure observation INCREASED, for all requests with non-negative flow |
| CorrelationProofs.PersistenceFitsSchema | backend/app/correlation/models.py:179-180 | every persistence value of every finding fits its 0..100 bound |
| Verdicts.VerdictExactly | backend/app/correlation/evaluator.py:19-126 | every finding carries exactly the reason, status and minimum set that its samples call for: the refusal if one applies, else the S3 or S4 reason, each said on the samples with the frozen numbers |
| Verdicts.S4CorrelatedExactly | backend/app/correlation/s4.py:24-233 | an S4 finding is CORRELATED exactly when no refusal applies and, after the first drop, the window is final, sampled, unbroken and steady, and shows at least 10 consecutive samples each of a running pump, of flow at most 0.1 and of pressure 0.5 above the baseline mean, with still tanks |
| Verdicts.S4ReasonExactly | backend/app/correlation/s4.py:24-233 | the reason of every S4 evaluation, with and without a drop |
| Verdicts.S3VerdictExactly | backend/app/correlation/s3.py:22-258 | the reason of every S3 evaluation: matched within the window, matched only after it, unmoved or otherwise changed, and the name of the minimum set |
| Verdicts.S3MatchedExactly | backend/app/correlation/s3.py:104-127 | the S3 match is the valve and one downstream block, or both downstream blocks without a valve reading |
| Verdicts.TerminalExactly | backend/app/correlation/s4.py:106-133 | the inventory condition holds exactly if samples stand exactly 20 s before the end and at the end, between which both tanks moved by at most 0.0002 and by the same amount up to 0.00000002 |
| Verdicts.AnchorExactly | backend/app/correlation/s4.py:236-255 | the anchor is the time of the first drop, said on the samples |
| Verdicts.RefusalExactly | backend/app/correlation/evaluator.py:27-118 | which guard stops a request, said on the request and its samples |
| Verdicts.MismatchExactly | backend/app/correlation/temporal.py:48-101 | which inconsistency a run is charged with, said on pairs of samples |
| Verdicts.RunReported | backend/app/correlation/temporal.py:48-101 | the run identity a decision reports is that of every sample, as far as it was examined |
| Verdicts.WindowExactly | backend/app/correlation/temporal.py:104-136 | bounds, members, finality and gaps of a window, said on the samples |
| Verdicts.ReportedWindow | backend/app/correlation/decisions.py:36-148 | anchor, bounds and sample counts a decision reports, and that a refusal reports none |
| Verdicts.S4ObservationsExactly | backend/app/correlation/s4.py:134-202 | which five observations an S4 decision carries and when the tanks are met |
| Verdicts.S4FlowExactly | backend/app/correlation/s4.py:150-163 | baseline, observed value, change, direction, threshold, longest block and flag of the S4 flow |
| Verdicts.S4PressureExactly | backend/app/correlation/s4.py:164-177 | the same of the S4 pressure |
| Verdicts.S4PumpExactly | backend/app/correlation/s4.py:135-149 | the pump observation and its longest running block |
| Verdicts.S3PointsReported | backend/app/correlation/s3.py:96-98 | the baseline means are taken of exactly the available points |
| Verdicts.S3ValveExactly | backend/app/correlation/s3.py:129-147 | baseline, observed value, change, direction, threshold, longest block and flag of the S3 valve |
| Verdicts.S3FlowExactly | backend/app/correlation/s3.py:148-168 | the same of the S3 flow |
| Verdicts.S3PressureExactly | backend/app/correlation/s3.py:169-191 | the same of the S3 pressure |
| Verdicts.S3InventoryExactly | backend/app/correlation/s3.py:261-310 | the two tank observations of S3: supporting exactly when the rate fell by 0.00002 and both tanks agree, else contradicting, and none without two samples on each side |
| Verdicts.SlopeExactly | backend/app/correlation/baseline.py:27-37 | the slope times the seconds between the ends is the change between them |
| Verdicts.LargestGapExactly | backend/app/correlation/temporal.py:119-136 | the reported gap is the largest distance between neighbours of either part |
| Verdicts.ReportedRun | backend/app/correlation/evaluator.py:70-118 | which decisions report the run identity and which report none |
| Verdicts.ReportedObservations | backend/app/correlation/decisions.py:36-148 | observations are reported exactly for the reasons that judge the effect |
| Verdicts.IdentityExactly | backend/app/correlation/canonical.py:68-102 | two findings share an identity exactly when rule, run, configuration, anchor and parent set agree |
| Correlation.FindAnchorLoop | backend/app/correlation/s4.py:236-255 | the early-return loop finds the specified anchor |
| Telemetry.CanonicalUnique | backend/app/correlation/temporal.py:31-45 | the dictionary loop returns the sorted distinct records, or an error exactly on a conflict |
| Telemetry.CanonicalIgnoresOrder | backend/app/correlation/temporal.py:31-45 | the canonical listing depends only on which records were supplied |
| Telemetry.ConsistentPrefix | backend/app/correlation/temporal.py:48-101 | a consistent run cut short is consistent with the same identity |
| Telemetry.CollectAdjacentGaps | backend/app/correlation/temporal.py:143-152 | the loop returns the gap of every neighbouring pair, in order |
| Telemetry.GapFreeIsCadenced | backend/app/correlation/temporal.py:119-136 | without a reported gap, neighbours are one or two whole seconds apart |
| Telemetry.WindowSizes | backend/app/correlation/temporal.py:113-136 | a gap-free baseline holds at most its seconds in samples, a gap-free effect window one more |
| Telemetry.FinalWindowStable | backend/app/correlation/temporal.py:112-136 | later samples only extend the part after a final window |
| Process.MaximumPersistence | backend/app/correlation/process.py:23-35 | the counting loop returns the specified persistence |
| Process.PersistenceIsLongestBlock | backend/app/correlation/process.py:23-35 | persistence is the length of the longest consecutive block meeting the predicate |
| Process.RepresentativeValue | backend/app/correlation/process.py:38-58 | the loop returns the mean of the selected samples |
| Process.SelectedMeetsPredicate | backend/app/correlation/process.py:38-58 | when persistence reaches the required count, exactly that many samples are averaged and each meets the predicate |
| Process.MeanIsAverage | backend/app/correlation/baseline.py:9-15 | the mean times the count is the sum of the values in any order |
| Policy.SelectPrimaryReason | backend/app/context/policy.py:307-311 | the result is the candidate of least rank; there is none only without candidates |
| Policy.MatchingRuleOrderIndependent | backend/app/context/policy.py:314-333 | neither the matching rule nor the ambiguity error depends on rule order |
| Policy.SingleDenyOverrides | backend/app/context/policy.py:328-332 | one matching deny overrides any number of matching approvals |
| Policy.CascadeStopsAtFirst | backend/app/context/policy.py:137-298 | the cascade's reason is the first whose own condition holds; a deny rule decides only if no condition holds |
| Policy.CascadeAgreesWithPrecedence | backend/app/context/policy.py:137-298 | the cascade's reason is the primary one of all that apply, exactly unless a deny rule's reason outranks the guards that hold |
| Policy.CascadeRefinesPrecedence | backend/app/context/policy.py:137-298 | with deny rules that carry only the role or communication reason, the cascade's reason is always the primary one |
| Policy.EarlyDenyReasonBreaksPrecedence | backend/app/context/policy.py:78-298 | for every reason that outranks "point write not approved": the frozen profile with that reason on the rule that denies the IT workstation loads, and a write to a read-only point gets another reason than the precedence |
| Policy.FrozenProfileFollowsPrecedence | backend/app/context/policy.py:137-298 | the frozen profile itself loads and its cascade follows the precedence on every request |
| Policy.ApprovedIffAllSatisfied | backend/app/context/policy.py:137-298 | APPROVED exactly when all nine dimensions are SATISFIED, and then with a path and a rule |
| Policy.StatusExactly | backend/app/context/policy.py:137-298 | ambiguity, path, rule and status of every evaluation, read off the request and profile |
| Policy.StatusByReason | backend/app/context/policy.py:137-298 | UNKNOWN exactly for unverified evidence, conflicts, unknown assets and unclassified paths; DENIED for every other reason and for every deny rule |
| Policy.DimensionsExactly | backend/app/context/policy.py:137-298 | each of the nine dimensions: when it is satisfied, failed or never reached |
| Policy.MatchingRuleExactly | backend/app/context/policy.py:314-333 | no rule covers the request, one does, or one deny among several; anything else is ambiguous |
| Policy.FindPathExactly | backend/app/context/policy.py:183-192 | the path is the first that joins the two assets |
| Policy.EvaluationIgnoresRuleOrder | backend/app/context/policy.py:137-298 | the whole evaluation is independent of rule order |

## Left out

- HTTP routes, cookies, CSRF, roles, logging and settings, and with them the check at the API that an incident has a disposition and a final conclusion before it is resolved (backend/app/incidents/workflow.py:212-217).
- SQLAlchemy and PostgreSQL: tables are maps and sequences, row locks are atomic steps, unique indexes are guards, append-only triggers are immutability.
- SHA-256, name-based UUIDs, canonical JSON and schema validation: abstract, and injective where identity depends on them. Dates inside canonical names are written as decimal seconds instead of ISO text.
- Float rounding: means, slopes and thresholds are exact.
- Asset roles in policy paths and rules: they are checked when a profile is loaded and never read by the evaluation.
- The protocol decoder, the profile and fixture loaders, asset resolution, user accounts, listing cursors, the overview, the asset catalogue and the frontend: display, input checks or easier members.
- Texts and secondary fields: titles, explanations, summaries, units, `updated_at`, evidence completeness, policy and correlation context strings, the evidence window columns of a lab run, and the lab's security audit rows.
- The conjunctions of literal payload comparisons that recognise S1, S2 and the S3 command (backend/app/incidents/qualification.py:314-385) are one boolean each.
- `str.strip` is approximated by a fixed set of white-space characters.
- The lab protocol is a state machine over values, because traces interleave clients; `LabTables` holds the transactions as methods on mutable tables, with the evidence store fixed for one transaction.
- Startup begins only after a crash has ended all in-flight work: a second backend process that starts while another still executes a run is not modelled.
- Two clients that both find no active context row race on its insert; the model lets the second update the row, or abandons it.
- A re-evaluation must name a finding of its own rule (backend/app/correlation/persistence.py:104-113); `Replay` allows any stored finding, which only makes its theorems more general.
- Incident timeline events, which replay ranks after all evidence, are not part of `Replay`.
- QualifiedIsValid: assumes of stored records what their schemas guarantee (field alphabets, complete scopes of scoped findings), as `WellFormed` lists it.
- FindingFollowsParentsExactly: speaks of requests the persistence layer accepts, which refuses S4 requests with cyber parents (backend/app/correlation/persistence.py:234-246).
- MatchedPointsDirected: needs telemetry flow to be non-negative, which the telemetry schema demands.
