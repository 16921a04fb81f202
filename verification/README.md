# DocVault verification models

Dafny models of the decision-making core of the DocVault backend, with proofs of what that core is meant to keep.
`dafny verify dfyconfig.toml` checks everything.

- **Resource authorization** (`Resources`, `Evaluator`, `Hierarchy`, `AccessRuleRepository`, `Capabilities`,
  `VisibleDocuments`, `BulkRefinement`, `RuleRelevance`, `FailClosed`). One document can be decided by resolving its ancestry and rules and calling
  the evaluator, or all documents at once by one recursive query. The two tree walks, the numeric specificities and
  the tier selection of the query are related to the evaluator, and the places where the two differ are stated exactly. Both are also read
  off the stored rows: which rows decide, which make no difference, and what refuses everything.
- **Policy writes** (`PolicyRevision`, `PolicyEffects`). Membership, rule and placement writes over the same tables, the
  counter that invalidates cached decisions, and what a write means to the next decision.
- **Login limiter** (`LoginRateLimiter`, `LoginSessions`, `LoginFailureBounds`, `LoginBoundTightness`,
  `LoginWindows`, `LoginBlocks`). The limiter as a class
  whose methods are critical sections, and interleaved login sessions as a state machine over it. The clock is read
  before the lock is taken, so times of successive events are not assumed to be ordered.
- **Leased job queue** (`JobQueue`, `JobRuns`, `JobClaims`, `IngestionPipeline`). Claims, heartbeats, retries, administrator actions
  and every direct row update of the worker, the ingestion service and the document service as atomic steps, and
  properties of every log of such steps.
- **Chunking** (`Chunking`, `Chunks`, `Docling`, `DoclingCoverage`). The backtracking splitter, the citation offsets of
  chunks, and the adapter for exported pages, from each block to the chunks that show it and back.
- **Fusion, pagination, migration graph** (`Fusion`, `FusionAuthorization`, `Pagination`, `SchemaCompatibility`), on top of a stable sort
  (`Sorting`) and texts (`Text`).

Where the source works by updating state, the model is a class or a loop proved against a specification function, and
the properties are lemmas about that function.

## Where the code and its description differ

- The bulk query limits cabinet and folder chains separately, the point path limits their sum: with the default limits
  a document below one cabinet and 62 folders is in the bulk result and refused by the point path
  (`BulkRefinement.BulkAgainstPoint` is the exact relation, `BulkRefinement.BulkExceedsPointOnDeepFolders` the case).
- `overlap_chars < max_chars` does not make the splitter end; `overlap_chars < max_chars // 2` does, and nothing weaker
  does for all texts (`Chunking.TerminationExact`).
- An optional stage may carry a mandatory stage's name, and can then complete or undo a job's readiness
  (`IngestionPipeline.OptionalNamesExact`).
- The worker's failure handler turns a SUCCEEDED job into FAILED, since only CANCELLED is protected, and its cancellation
  handler turns a DEAD job into CANCELLED (`JobRuns.TerminalStatesAreLeftOnly`, `JobRuns.DeadLetterUndone`).
- The worker's completion and its handlers do not ask who holds the job: a worker whose lease lapsed can still end the job
  that another one runs (`JobRuns.RunningIsTakenExactly`, `JobRuns.FormerOwnerCanFinish`).
- An idempotency key names one job only until that job's document is purged; after that it creates a second job
  (`JobRuns.KeyNamesOneJobExactly`, `JobRuns.KeyReused`).
- The job page route accepts `limit=500` and asks the repository for 501 rows, which the repository refuses; and cursor
  times without a zone are refused, although the columns behind them are stored without one, so such a table can be
  walked only when it fits one page (`Pagination.JobWalkExact`, and `Pagination.AuditWalkExact` for audit entries).

## Model

| member | source | states |
|---|---|---|
| `Evaluator.StrongestRuleDecides` | backend/app/services/authorization_service.py:115-179 | for an admitted request the decision is the effect and id of the strongest applicable rule: nearest resource, then USER over GROUP, then DENY over ALLOW, then least id |
| `Evaluator.StrongestExists` | backend/app/services/authorization_service.py:115-137 | whenever some rule applies a strongest one exists |
| `Evaluator.NoApplicableRuleExactly` | backend/app/services/authorization_service.py:123-170 | the no-applicable-rule reason is given exactly when no rule applies, so its second exit is never taken |
| `Evaluator.DecisionIsAFunctionOfTheRuleSet` | backend/app/services/authorization_service.py:115-179 | permuting or duplicating rules, or adding inapplicable or outranked ones, changes nothing of the decision |
| `Evaluator.DecisionIsWellFormed` | backend/app/domain/authorization.py:121-142 | every decision satisfies the constructor's checks, and the rule it names applies and has the effect reported |
| `Evaluator.GatesComeFirst` | backend/app/services/authorization_service.py:98-112 | each failed gate and a missing capability is reported exactly when it is the first to fail, and then no rule is named and nothing allowed |
| `Resources.Position` | backend/app/domain/resources.py:237-243 | the specificity of a resource is its index on the path |
| `Text.InstrFinds` | backend/app/repositories/access_rule_repository.py:91-101 | a positive search result means the needle occurs |
| `Text.VisitedSearchIsMembership` | backend/app/repositories/access_rule_repository.py:126-142 | finding `,id,` in the comma-joined visited text is membership of the id |
| `Sorting.SortIsStable` | backend/app/retrieval_store.py:694-694 | the sort keeps ties in their order, place by place |
| `Hierarchy.WalkExact` | backend/app/repositories/access_rule_repository.py:120-146 | on any parent map the bounded walk ends, numbered from 1, and ends at a null parent without a cycle mark exactly when a chain of at most the bound exists |
| `Hierarchy.ChainUnique` | backend/app/repositories/access_rule_repository.py:130-146 | a start has at most one chain to a null parent |
| `Hierarchy.ValidationExact` | backend/app/repositories/access_rule_repository.py:362-409 | the walk's rows, in whatever order they arrive, are accepted exactly when the start has a chain of positive ids within the bound, and normalise to that chain |
| `Hierarchy.AcceptedWalkIsChain` | backend/app/repositories/access_rule_repository.py:391-409 | accepted rows are a chain within the bound |
| `AccessRuleRepository.AncestryExact` | backend/app/repositories/access_rule_repository.py:412-512 | ancestry resolves exactly when the cabinet and folder chains exist in one cabinet and fit the limit, and then to that unique path |
| `Capabilities.LoadEffectivePermissionCodes` | backend/app/repositories/access_rule_repository.py:291-323 | the loop over aggregated role effects yields the codes some role allows and none denies, or the limit or data error |
| `BulkRefinement.SoundWalk` | backend/app/repositories/visible_document_repository.py:175-228 | the query's chain summary accepts exactly the chains within the depth bound |
| `BulkRefinement.SpecificityIsomorphic` | backend/app/repositories/visible_document_repository.py:276-314 | the numeric specificities order path positions as their indexes do, for every depth the limits allow |
| `BulkRefinement.CandidateOnPath` | backend/app/repositories/visible_document_repository.py:276-314 | a rule is a candidate with a specificity exactly when it is a source rule of the resource at that place on the document's path |
| `BulkRefinement.SourcesAgree` | backend/app/repositories/visible_document_repository.py:154-168 | the query's rule source keeps exactly the rules the point path loads and finds applicable |
| `BulkRefinement.DecisionsAgree` | backend/app/repositories/visible_document_repository.py:315-350 | scope selection, principal tier and deny-over-allow in the query agree with the evaluator |
| `BulkRefinement.AgreeWithinBounds` | backend/app/repositories/visible_document_repository.py:356-421 | within both depth limits and without overflow, a document is in the bulk result exactly when the point path allows it |
| `BulkRefinement.BulkAgainstPoint` | backend/app/repositories/visible_document_repository.py:356-421 | without depth assumptions: in bulk and within the combined limit exactly when allowed by point and within the separate limits |
| `BulkRefinement.PointImpliesBulk` | backend/app/repositories/visible_document_repository.py:356-421 | what the point path allows is in the bulk result, whenever the combined limit leaves no chain longer than the bulk depth |
| `BulkRefinement.BulkExceedsPointOnDeepFolders` | backend/app/repositories/visible_document_repository.py:256-274 | at the default limits there are tables, with nothing overflowing, where a document is in bulk and the point path refuses it |
| `BulkRefinement.AgreementOnDeepFolders` | backend/app/repositories/access_rule_repository.py:507-508 | with room for one more ancestor the point path allows the same document |
| `RuleRelevance.PointAllowsExactly` | backend/app/repositories/access_rule_repository.py:641-660 | whenever its inputs load, the point path allows exactly when the account is active, a role grants the permission and none denies it, and some stored ALLOW rule that is switched on, unexpired, about the user or an active group of theirs, and on the path is overruled by no other such rule, all read off the columns |
| `RuleRelevance.BulkAllowsExactly` | backend/app/repositories/visible_document_repository.py:315-350 | the bulk query answers by the same stored rows, within its depth limits |
| `RuleRelevance.PointIgnoresIrrelevant` | backend/app/repositories/access_rule_repository.py:646-655 | deleting stored rules that are for another permission or principal, inactive or expired changes no point decision |
| `RuleRelevance.BulkIgnoresIrrelevant` | backend/app/repositories/visible_document_repository.py:154-168 | nor any bulk answer |
| `RuleRelevance.SwitchedOffRulesChangeNothing` | backend/app/repositories/access_rule_repository.py:646-652 | with every inactive rule, and every rule whose expiry is at or before now, deleted, both paths answer as before |
| `RuleRelevance.NobodyWithoutALiveRule` | backend/app/repositories/visible_document_repository.py:161-166 | if every rule for a permission is inactive or expired, nobody has it anywhere by either path |
| `RuleRelevance.PointAllowanceNeedsARow` | backend/app/repositories/access_rule_repository.py:688-728 | an allowance needs an active account, a role that grants and none that denies, and a live ALLOW row on the target or inherited |
| `RuleRelevance.BulkAllowanceNeedsARow` | backend/app/repositories/visible_document_repository.py:315-350 | so does membership in the bulk answer |
| `RuleRelevance.CapabilitiesExact` | backend/app/repositories/access_rule_repository.py:291-323 | a code is a capability exactly when some role allows it and none denies it |
| `RuleRelevance.DeactivatedRuleIsGone` | backend/app/services/access_rule_service.py:108-132 | after a successful deactivation every decision of either path is the one the tables give without that rule |
| `RuleRelevance.MoveNeedsRules` | backend/app/services/document_service.py:1360-1376 | no document moves unless live ALLOW rules for MOVE reach it and the folder |
| `FailClosed.PointFailsClosed` | backend/app/repositories/access_rule_repository.py:604-666 | an allowance by the point path implies that codes, groups, path and rules fit their limits and that no role, group or rule row it read is malformed |
| `FailClosed.BulkFailsClosed` | backend/app/repositories/visible_document_repository.py:356-421 | a non-empty bulk answer implies an active account, sound role data, and groups, rules and documents within their limits with no malformed rule among those that speak for the user |
| `FailClosed.CapabilitiesLoadExactly` | backend/app/repositories/access_rule_repository.py:291-323 | capabilities load exactly when the codes fit the limit and every role row of the user is sound |
| `PolicyRevision.PolicyStore.constructor` | backend/app/models.py:578-582 | the session starts from the stored tables and revision it is given |
| `PolicyRevision.PolicyStore.Bump` | backend/app/repositories/policy_revision_repository.py:29-51 | the revision grows by one, nothing else changes, and the new revision is returned |
| `PolicyRevision.PolicyStore.Add` | backend/app/repositories/group_membership_repository.py:135-179 | the membership is added and the revision bumped only when it was absent, after the identifier, group and user checks |
| `PolicyRevision.PolicyStore.Remove` | backend/app/repositories/group_membership_repository.py:182-232 | the inverse write, with the current revision returned when nothing was there |
| `PolicyRevision.PolicyStore.Upsert` | backend/app/services/access_rule_service.py:41-105 | accepted input appends one active rule and bumps; any failed check leaves everything |
| `PolicyRevision.PolicyStore.Deactivate` | backend/app/services/access_rule_service.py:108-132 | an active rule becomes inactive with a bump, an inactive one is returned unchanged |
| `PolicyRevision.PolicyStore.Update` | backend/app/services/access_rule_service.py:135-166 | deactivation followed by creation, stopping at the first failure |
| `PolicyRevision.PolicyStore.Move` | backend/app/services/document_service.py:1360-1393 | document visibility by the bulk resolver, folder permission by the point path, the version check, then the placement and a bump only when the folder differs |
| `PolicyRevision.StepMovesRevision` | backend/app/repositories/policy_revision_repository.py:29-51 | every write keeps everything or moves the revision up, and it moves only when memberships, rules or a placement changed |
| `PolicyRevision.EqualRevisionsDecideAlike` | backend/app/repositories/policy_revision_repository.py:18-51 | two moments of a run with one revision have equal tables, hence equal point and bulk decisions at any time |
| `PolicyRevision.MembershipIdempotent` | backend/app/repositories/group_membership_repository.py:135-212 | repeating an add or a remove changes neither memberships nor revision and reports no change |
| `PolicyRevision.RemoveUndoesAdd` | backend/app/repositories/group_membership_repository.py:182-232 | remove restores the memberships an add changed, while the revision has moved by two |
| `PolicyRevision.DeactivateIdempotent` | backend/app/services/access_rule_service.py:108-132 | deactivating again changes nothing |
| `PolicyRevision.NewRowWellFormed` | backend/app/services/access_rule_service.py:60-93 | an accepted rule is stored as a row no reader rejects, under an unused id |
| `PolicyRevision.StepKeepsConstraints` | backend/app/services/access_rule_service.py:41-166 | every write keeps the table constraints the agreement of the bulk and point paths rests on |
| `PolicyRevision.RunKeepsConstraints` | backend/app/services/access_rule_service.py:41-166 | so does every run of writes |
| `PolicyRevision.AgreementAfterAnyRun` | backend/app/repositories/visible_document_repository.py:356-421 | the exact bulk and point relation holds after any run of these writes |
| `PolicyEffects.StoredRuleReadsBack` | backend/app/services/access_rule_service.py:80-93 | an accepted rule reads back as the evaluator's rule for the principal, permission, resource, effect and expiry asked for |
| `PolicyEffects.StoredRuleLoads` | backend/app/repositories/access_rule_repository.py:604-666 | it is loaded for exactly that permission, principal, resource and time |
| `PolicyEffects.NearestUserDenyWins` | backend/app/services/authorization_service.py:130-160 | an applicable USER DENY on the target itself denies, whatever else is there |
| `PolicyEffects.DirectDenyDecides` | backend/app/services/document_service.py:440-474 | a stored, active DENY for a user on a document makes the point path refuse it, in any tables |
| `PolicyEffects.DenyTakesEffect` | backend/app/services/access_rule_service.py:41-105 | so storing one refuses that user until it expires, in every later state that still has it |
| `PolicyEffects.MoveTakesEffect` | backend/app/services/document_service.py:1374-1393 | a successful move puts the document in the existing folder asked for and touches no other row |
| `PolicyEffects.MoveExact` | backend/app/services/document_service.py:1360-1393 | a move succeeds exactly when the document is in the bulk answer for MOVE, the point path allows MOVE on the folder and the version is the expected one; each refusal names the first check that failed and changes nothing |
| `PolicyEffects.MembershipExact` | backend/app/repositories/group_membership_repository.py:135-232 | a membership is written exactly for bounded ids of an active group and known users, one pair at a time, with the revision counting the changes |
| `PolicyEffects.UpsertExact` | backend/app/services/access_rule_service.py:60-93 | a rule is stored exactly when a manager asks for one with a known principal, resource and permission, an effect and an expiry to come, and then as the one row added |
| `PolicyEffects.DeactivateExact` | backend/app/services/access_rule_service.py:108-132 | a deactivation switches off the rule with that id and no other, and is refused without a manager or such a rule |
| `PolicyEffects.UpdateReplaces` | backend/app/services/access_rule_service.py:135-166 | an update leaves the old rule switched off and adds the new one; if the new one is refused the old one is off all the same |
| `LoginRateLimiter.Limiter.constructor` | backend/app/services/login_rate_limiter.py:59-80 | a limiter with accepted limits, durations and table size starts with no bucket and no reservation |
| `LoginRateLimiter.Limiter.PruneExpired` | backend/app/services/login_rate_limiter.py:100-108 | exactly the unblocked buckets past their window go, order kept |
| `LoginRateLimiter.Limiter.OpenBucket` | backend/app/services/login_rate_limiter.py:110-131 | a bucket is created after evicting the least recently seen entry of a full table, restarted, or refreshed; the table stays within its bound |
| `LoginRateLimiter.Limiter.TryAcquire` | backend/app/services/login_rate_limiter.py:154-180 | admission reserves both keys, refusal reserves none, with the refusing dimension and count |
| `LoginRateLimiter.Limiter.Peek` | backend/app/services/login_rate_limiter.py:133-152 | the read-only check opens buckets but counts nothing |
| `LoginRateLimiter.Limiter.Free` | backend/app/services/login_rate_limiter.py:182-194 | one reservation of each key is returned |
| `LoginRateLimiter.Limiter.Record` | backend/app/services/login_rate_limiter.py:196-222 | both keys count one failure and block at their limit; the first dimension just blocked is reported |
| `LoginRateLimiter.Limiter.CountIn` | backend/app/services/login_rate_limiter.py:210-217 | one failure in one bucket, a block of the configured length when an unblocked key reaches its limit |
| `LoginRateLimiter.Limiter.Reset` | backend/app/services/login_rate_limiter.py:224-230 | only the account's bucket is dropped |
| `LoginSessions.StepConserves` | backend/app/services/auth_service.py:108-170 | every session step keeps in-flight counts equal to the admitted, unreleased sessions and within the limits |
| `LoginSessions.InflightConserved` | backend/app/services/auth_service.py:108-170 | so in every run |
| `LoginSessions.NothingHeldAtRest` | backend/app/services/auth_service.py:169-170 | when every session has ended no reservation is left |
| `LoginFailureBounds.ConcurrentFailureBound` | backend/app/services/login_rate_limiter.py:154-222 | from a fresh window, under any interleaving, failures of the resident bucket plus admitted sessions that have not recorded theirs stay at or below twice the limit minus one until a block has elapsed |
| `LoginBoundTightness.FailureBoundIsTight` | backend/app/services/login_rate_limiter.py:154-222 | for every limit some interleaving reaches that bound on any account, and on any source when the table holds three entries |
| `LoginWindows.EntriesBounded` | backend/app/services/login_rate_limiter.py:110-131 | in every run the table holds at most max_entries buckets |
| `LoginWindows.FailuresCountTheWindow` | backend/app/services/login_rate_limiter.py:196-217 | a resident bucket's count is the number of failures recorded on its key since its window started |
| `LoginWindows.BlockHolds` | backend/app/services/login_rate_limiter.py:100-131 | a block neither reset nor evicted lasts until its end and admits no session meanwhile |
| `LoginBlocks.FailureExact` | backend/app/services/login_rate_limiter.py:196-222 | a recorded failure adds one to each key, against its own limit; the bucket a failure brings unblocked to its limit is blocked until now plus the block length, every other block end stays, and the answer names the first key so blocked with its count |
| `LoginBlocks.BlockLastsExactly` | backend/app/services/login_rate_limiter.py:154-217 | after the failure that trips a key, while it is neither evicted nor reset, every login on it before now plus the block length is refused, and from then on none is refused for this block |
| `LoginBlocks.AcquireExact` | backend/app/services/login_rate_limiter.py:154-180 | a login is admitted exactly when neither key is blocked nor has its limit of logins in flight; otherwise the account, or else the source, is named with its failures |
| `LoginBlocks.AcquireWrites` | backend/app/services/login_rate_limiter.py:154-180 | asking opens the account bucket and, if the account is not refused, the source bucket, and takes a reservation of each exactly when admitted |
| `LoginBlocks.PeekExact` | backend/app/services/login_rate_limiter.py:133-152 | the read-only check refuses exactly for a block |
| `LoginBlocks.ReleaseExact` | backend/app/services/login_rate_limiter.py:182-194 | a release gives back one reservation of each key that has any, and nothing else |
| `LoginBlocks.ResetClears` | backend/app/services/login_rate_limiter.py:224-230 | a reset forgets the account and nothing else |
| `LoginBlocks.PruneExact` | backend/app/services/login_rate_limiter.py:100-108 | pruning keeps exactly the buckets that are blocked or within their window |
| `LoginBlocks.VictimsExact` | backend/app/services/login_rate_limiter.py:113-118 | only a new key in a full table evicts, and then the first of the least recently seen keys alone |
| `JobQueue.JobRepository.constructor` | backend/app/models.py:974-977 | the job table starts empty |
| `JobQueue.JobRepository.CreateIngestionJob` | backend/app/repositories/job_repository.py:78-113 | after the length checks the job of a known key is returned unchanged, otherwise a pending job with the given version, document and first attempt time is stored |
| `JobQueue.JobRepository.ClaimIngestionJob` | backend/app/repositories/job_repository.py:226-274 | the least available job by creation time and id is claimed, counted and locked |
| `JobQueue.NextUnique` | backend/app/repositories/job_repository.py:247-252 | that job is unique |
| `JobClaims.ClaimExact` | backend/app/repositories/job_repository.py:238-269 | an accepted claim finds a job exactly when some row is PENDING with no next attempt or one reached, or RUNNING with a lock at least the lease old; it takes the oldest such row and changes only its state, owner, lock, attempt count and update time |
| `JobClaims.RetriedJobIsClaimedExactly` | backend/app/repositories/job_repository.py:239-320 | a lone job put back after `a` attempts is claimed by every accepted claim from 2^min(a,16) seconds later on and by none before |
| `JobClaims.BackoffIsRespected` | backend/app/repositories/job_repository.py:239-320 | no log with claims only before that moment claims it, unless it is put back to work or purged meanwhile |
| `JobClaims.PutToWorkIsDueNow` | backend/app/repositories/job_repository.py:121-136 | FAILED, DEAD, REVIEW and CANCELLED jobs, and no others, are put back by a retry, claimable from that moment and not before, clean and with their attempts |
| `JobClaims.NewJobIsDue` | backend/app/repositories/job_repository.py:93-113 | a new job is claimable at once or from its first attempt time |
| `JobClaims.RunningIsDueExactly` | backend/app/repositories/job_repository.py:243-245 | in every log a running job is claimable exactly when its last claim or heartbeat is at least the lease old |
| `JobClaims.StopsExactly` | backend/app/services/ingestion_worker.py:393-457 | a waiting or running job stops exactly by the calls listed, each in its own state, or by a purge |
| `JobClaims.StoppedRowSays` | backend/app/repositories/job_repository.py:328-343 | what a stopped row says of its owner, lock, end and reason, for each of those calls |
| `JobClaims.StoppedStaysStopped` | backend/app/repositories/job_repository.py:121-155 | a stopped job is not claimed nor moved to work again by any log that neither puts it back nor purges it |
| `JobClaims.StageMovesExactly` | backend/app/services/ingestion_pipeline.py:233-253 | a stage changes exactly by an advance of an executable job, an extraction, a link or a service retry |
| `JobQueue.JobRepository.HeartbeatIngestionJob` | backend/app/repositories/job_repository.py:277-294 | only the owner of a running job extends its lock |
| `JobQueue.JobRepository.RetryIngestionJob` | backend/app/repositories/job_repository.py:297-325 | only the owner releases a running job, delayed by the backoff, with the checks in the source's order |
| `JobQueue.JobRepository.DeadLetterIngestionJob` | backend/app/repositories/job_repository.py:328-343 | only the owner buries a running job |
| `JobQueue.JobRepository.AdminRetryIngestionJob` | backend/app/repositories/job_repository.py:121-136 | FAILED, DEAD, REVIEW and CANCELLED jobs become pending and clean, others are refused |
| `JobQueue.JobRepository.AdminCancelIngestionJob` | backend/app/repositories/job_repository.py:139-155 | pending and running jobs are cancelled and unlocked, others are refused |
| `JobQueue.JobRepository.AdvanceStage` | backend/app/services/ingestion_pipeline.py:233-253 | EXTRACT advances to INDEX once, a repeat is accepted unchanged |
| `JobQueue.JobRepository.CompleteStage` | backend/app/services/ingestion_pipeline.py:256-273 | an executable job at INDEX succeeds, a repeat is accepted unchanged |
| `JobRuns.ReachableAlways` | backend/app/repositories/job_repository.py:226-343 | in every log, with the worker's and the services' direct row updates, attempts equal the claims since the row was created, a lock names the last claimer and the last claim or heartbeat, running jobs are locked, keys are unique |
| `JobRuns.TakeoverNeedsLapsedLease` | backend/app/repositories/job_repository.py:238-269 | a running job changes owner only by a claim at least one lease after the last claim or heartbeat |
| `JobRuns.FormerOwnerIsFenced` | backend/app/repositories/job_repository.py:277-343 | after another worker's claim every heartbeat, retry or dead letter of the former owner fails and changes nothing until it claims again |
| `JobRuns.RunningIsTakenExactly` | backend/app/services/ingestion_worker.py:393-436 | the exact list of calls that end an owner's hold on a running job: claims after the lease and its own retry or dead letter, and the cancellations, completions, failure handling, deletion and purge that ask for no owner |
| `JobRuns.FormerOwnerCanFinish` | backend/app/services/ingestion_worker.py:393-413 | so a first worker's completion ends the job a second worker now holds, and the second one's heartbeat then fails |
| `JobRuns.TerminalStatesAreLeftOnly` | backend/app/services/ingestion_worker.py:416-457 | each state at rest is left exactly so: SUCCEEDED by the worker's failure handler; DEAD by that, by the worker's cancellation handler or by a retry; REVIEW also by a service cancellation; FAILED and CANCELLED by a retry; and each by a purge of the job's document |
| `JobRuns.DeadLetterUndone` | backend/app/services/ingestion_worker.py:416-436 | a job claimed by one worker, then claimed and buried by another, becomes CANCELLED when the first one's extraction is cancelled |
| `JobRuns.SucceededIsAbsorbing` | backend/app/services/ingestion_pipeline.py:256-273 | a success lasts through a log exactly when the log holds no failure handling of the job and no purge of its document |
| `JobRuns.FailureHandlerUndoesSuccess` | backend/app/services/ingestion_worker.py:110-137 | one call of the failure handler does undo a success |
| `JobRuns.KeyNamesOneJobExactly` | backend/app/services/document_service.py:1296-1297 | a key keeps naming its job through a log exactly when the log never purges the document the job belongs to at that point |
| `JobRuns.CreatingAgainReturnsTheJob` | backend/app/repositories/job_repository.py:93-99 | while a key names a job, creating under it returns that job and stores nothing |
| `JobRuns.KeyIsFreeAfterPurge` | backend/app/services/document_service.py:1279-1297 | after a purge of its document the job is gone, and creating under its key stores another job |
| `JobRuns.KeyReused` | backend/app/services/document_service.py:698-733 | upload, delete, purge and upload again under one key leaves the key naming a second job |
| `JobRuns.DelaysGrowUncapped` | backend/app/repositories/job_repository.py:314-320 | delays grow with attempts and never reach the daily cap |
| `JobRuns.BackoffClosedForm` | backend/app/repositories/job_repository.py:314-320 | the delays before the k-th claim sum to 2^k - 2 seconds up to k = 17, then grow by 65536 |
| `JobRuns.ClaimsBackOff` | backend/app/repositories/job_repository.py:239-325 | with a non-decreasing clock and every attempt ended by retry, the k-th claim comes at least that long after the first |
| `IngestionPipeline.IngestionJob.constructor` | backend/app/services/ingestion_pipeline.py:65-92 | a job starts without results |
| `IngestionPipeline.IngestionJob.RecordStageResult` | backend/app/services/ingestion_pipeline.py:110-141 | the stage's status is stored and the degraded list updated |
| `IngestionPipeline.IngestionJob.RecordOptionalStage` | backend/app/services/ingestion_pipeline.py:144-177 | the same for an accepted optional name, a refusal otherwise |
| `IngestionPipeline.IngestionJob.ClearRetryResults` | backend/app/services/ingestion_pipeline.py:209-230 | results of the stages to repeat are forgotten in both columns |
| `IngestionPipeline.IngestionJob.EvaluateReadiness` | backend/app/services/ingestion_pipeline.py:180-206 | the loop computes the readiness decision of the stored columns |
| `IngestionPipeline.AlwaysFaithful` | backend/app/services/ingestion_pipeline.py:110-230 | after any operations the degraded list is the sorted, repetition-free list of names whose latest status is degraded |
| `IngestionPipeline.ReadinessExact` | backend/app/services/ingestion_pipeline.py:180-206 | ready exactly when all five mandatory stages completed; review exactly when one needs it |
| `IngestionPipeline.ReadinessOverRuns` | backend/app/services/ingestion_pipeline.py:180-206 | the same after any operations |
| `IngestionPipeline.OptionalStagesAreOptional` | backend/app/services/ingestion_pipeline.py:194-205 | names outside the five change neither readiness nor review |
| `IngestionPipeline.OptionalNamesExact` | backend/app/services/ingestion_pipeline.py:152-177 | an accepted optional name never changes readiness exactly when it is not one of the five |
| `IngestionPipeline.OptionalNameCanComplete` | backend/app/services/ingestion_pipeline.py:152-177 | recording INDEXING as an optional stage completes a job that lacks only it |
| `IngestionPipeline.RetryIsNeverReady` | backend/app/services/ingestion_pipeline.py:209-230 | a clear for retry leaves the job not ready |
| `IngestionPipeline.ResultsAreLatest` | backend/app/services/ingestion_pipeline.py:110-230 | the results column holds for every name exactly the status last reported on it and not forgotten since |
| `IngestionPipeline.ReadinessOfLatest` | backend/app/services/ingestion_pipeline.py:180-206 | after any calls: ready exactly when each of the five stages was last reported completed, review exactly when one was last in review or degraded, with the missing and degraded names |
| `Chunking.RFind` | backend/app/chunking.py:61-64 | the last occurrence within the range, or -1 when there is none |
| `Chunking.SplitBounded` | backend/app/chunking.py:53-72 | the loop computes the split whenever it ends |
| `Chunking.SpanCount` | backend/app/chunking.py:53-72 | with overlap below half the bound the split ends with at most 1 + length / (half - overlap) spans |
| `Chunking.TerminationExact` | backend/app/chunking.py:91-94 | for accepted bounds the split ends on all texts exactly when the overlap is below half the bound |
| `Chunking.SplitCovers` | backend/app/chunking.py:53-72 | spans are 1 to max_chars long, leave no gap, start at 0, end at the length and cover every index |
| `Chunking.SplitBreaks` | backend/app/chunking.py:58-71 | a span ends at the last space or newline of the second half of its window, or at the window end without one, and the next starts the overlap before it |
| `Chunks.ChunkSegment` | backend/app/chunking.py:100-126 | one segment's loop appends its chunks, blank slices skipped |
| `Chunks.ChunkText` | backend/app/chunking.py:75-127 | guards, the default segment and the loop over segments |
| `Chunks.HalfOverlapMayChunk` | backend/app/chunking.py:91-94 | an overlap below half the bound lets every call end |
| `Chunks.ChunkLineage` | backend/app/chunking.py:99-127 | chunking succeeds exactly on accepted bounds; chunks are numbered without gaps, each is a trimmed non-empty slice of one segment at its recorded offsets with that segment's page, section and type, in segment order, and no visible character is lost |
| `Chunks.PlainTextKept` | backend/app/chunking.py:99-127 | a text without segments loses no visible character, and its chunks cite no page and no section |
| `Docling.BuildSegments` | backend/app/chunking.py:146-178 | the page and block loops build the segments with running offset and section |
| `Docling.ChunkDocling` | backend/app/chunking.py:130-180 | the whole adapter |
| `Docling.JoinedAt` | backend/app/chunking.py:176-180 | each segment's characters sit at its recorded offsets of the joined text |
| `Docling.DoclingRoundTrip` | backend/app/chunking.py:130-180 | slicing the joined text at a chunk's offsets gives the chunk's text, inside one segment with its page, section and type, and that segment is the stripped text of one block of the page cited |
| `DoclingCoverage.SegmentsExact` | backend/app/chunking.py:146-178 | in page and block order the segments are exactly one for each non-heading block that shows visible text, each with the block page and type and under the headings open at the block: a heading stays open until one not deeper than its place, the last one is open, and so is each that only deeper ones follow |
| `DoclingCoverage.ChunksShowTheExport` | backend/app/chunking.py:130-180 | every visible character of every such block, its text, else its content, else its rows, is in a chunk citing its page, type and open headings, and every chunk quotes such a block |
| `DoclingCoverage.ItemsExact` | backend/app/chunking.py:146-156 | the blocks adapted are, in order, those of each page: its elements, else its blocks, else itself |
| `DoclingCoverage.ShownExact` | backend/app/chunking.py:159-169 | a block is taken up exactly when its text, else its content, else its rows show a visible character, and then for that text |
| `DoclingCoverage.TitleExact` | backend/app/chunking.py:170-176 | headings, chunk types and levels, by the block type or kind in any case |
| `Fusion.FuseOne` | backend/app/retrieval_store.py:690-725 | one lane's loop credits each first usable result of a document with its rank |
| `Fusion.Search` | backend/app/retrieval_store.py:646-741 | the guards, the lanes and the final list |
| `Fusion.RankCountsDocuments` | backend/app/retrieval_store.py:706-712 | ranks count distinct authorized documents |
| `Fusion.ContributionIsReciprocalRank` | backend/app/retrieval_store.py:712-714 | a lane contributes 1 / (60 + rank) to a ranked document and nothing to others |
| `Fusion.FusedScore` | backend/app/retrieval_store.py:688-714 | a fused score is the sum of its lanes' contributions, and exactly the documents ranked somewhere have one |
| `Fusion.BestIsGreatest` | backend/app/retrieval_store.py:715-725 | the shown candidate is offered by a ranked result and none is greater by provider score and chunk id |
| `Fusion.SearchReturnsTheBest` | backend/app/retrieval_store.py:727-741 | the list is the best-scoring documents in order, each with its fused score and the snippet and chunk id of its greatest candidate, and a document is missing only behind a full list of better ones |
| `Fusion.SearchNoninterference` | backend/app/retrieval_store.py:519-531 | lanes with the same authorized well-formed results, in any order when ids differ, give the same list |
| `Fusion.ScrubbingChangesNothing` | backend/app/retrieval_store.py:690-711 | dropping every unauthorized or malformed result first changes nothing |
| `FusionAuthorization.HitsAreAuthorized` | backend/app/retrieval_store.py:697-705 | every hit has a positive document id in the filter, and a lane holds a result for it |
| `FusionAuthorization.ForbiddenResultsLeaveNoTrace` | backend/app/retrieval_store.py:690-711 | deleting the results without payload or id, with a non-positive id or one outside the filter changes nothing, with that test written on the fields |
| `FusionAuthorization.LaneScoreExact` | backend/app/retrieval_store.py:706-714 | a lane gives a document it holds 1 / (61 + the number of documents ahead of it), by score, then id, then place |
| `FusionAuthorization.SearchExact` | backend/app/retrieval_store.py:646-741 | the whole answer: nothing for an empty query, limit, filter or provider answer; otherwise the documents the lanes hold for this caller, by fused score and then id, with score, snippet and chunk id read off the lanes, and a document is missing only behind a full list of better ones |
| `Pagination.NextShrinks` | backend/app/repositories/job_repository.py:200-208 | each cursor leaves strictly fewer rows, so following them ends |
| `Pagination.PageIsSlice` | backend/app/routers/admin.py:120-129 | the page after row i is the next slice of the ordered table, with a cursor exactly when more rows follow |
| `Pagination.WalkIsLossless` | backend/app/routers/admin.py:114-129 | a walk completes exactly when the request is accepted and its cursors are readable, and then its pages concatenate to the ordered table |
| `Pagination.JobWalkExact` | backend/app/repositories/job_repository.py:185-213 | for jobs: page sizes 1 to 499 only, and all of them when stored times have a zone, but only one-page tables when none has |
| `Pagination.AuditWalkExact` | backend/app/repositories/audit_repository.py:64-97 | for audit entries: a walk completes exactly for sizes 1 to 1000 and readable cursors, that is for all these sizes when stored times have a zone and for one-page tables only when none has, and the pages hold exactly the rows the filters and the visible set admit |
| `Pagination.JobWalkInOrder` | backend/app/repositories/job_repository.py:185-213 | a completed job walk hands out, in full pages, exactly the rows in the state asked for, newest first and then by id, each once |
| `Pagination.AuditWalkInOrder` | backend/app/repositories/audit_repository.py:64-97 | a completed audit walk hands out exactly the rows each filter and the visible set admit, newest first and then by greatest id, each once |
| `SchemaCompatibility.AddParents` | backend/app/schema_compatibility.py:371-374 | new parents are found and pushed, known ones neither |
| `SchemaCompatibility.PackagedSchemaContract` | backend/app/schema_compatibility.py:352-383 | on any graph, merging or cyclic, the worklist ends; it succeeds exactly for one head with no missing revision behind it, with exactly the revisions reached by one or more parent edges |
| `SchemaCompatibility.AssertSchemaCompatible` | backend/app/schema_compatibility.py:756-779 | the classification in terms of the graph: accepted at the head, behind exactly at a proper ancestor, unsupported elsewhere, and the missing, multiple and unreadable cases |
| `SchemaCompatibility.ClassifiedExact` | backend/app/schema_compatibility.py:756-779 | each of the seven answers is given exactly for the databases it is for |
| `SchemaCompatibility.ReleaseLeavesDatabasesBehind` | backend/app/schema_compatibility.py:774-779 | a release that extends the graph above the old head reports every database the old one knew as behind, never as unsupported |

## Left out

- Type checks of untyped arguments, naive clock arguments and numeric strings: the model's types rule them out.
- SQLAlchemy sessions, dialects, row locks, `skip_locked` and rowcount handling: each repository call is one atomic step.
- Database aggregates: the relational part of the bulk query is read as existence of rows, and the LIMITs on groups and rules by the overflow they signal.
- Role and permission joins: one grant row stands for an effect of some role on a permission for a user.
- HMAC keys with the truncation of their inputs, SHA-256 chunk ids, JSON columns and cursor text: kept as the values they encode.
- Floating point: provider scores, fused scores and limiter times are reals.
- `PolicyRevision.EqualRevisionsDecideAlike`: covers the membership, rule and move writes only; user status, role grants, group activity, folder and cabinet changes, and creating, deleting, restoring or purging documents change decisions without a bump, as do the identity-administration writes, and none of them is an operation here.
- A missing or duplicated policy-state row, audit records, and transactions rolled back by the caller after a failed call.
- `LoginBoundTightness.FailureBoundIsTight`: for a source it asks for three table entries; with two, opening a new account evicts the source's own bucket every other time, so this run does not reach the bound.
- `LoginFailureBounds.ConcurrentFailureBound`: counts the failures of the key's resident bucket; an eviction or a successful login starts a new count, as in the source.
- `LoginWindows.BlockHolds`: a block ends early when its key is reset or evicted, which its condition excludes.
- `Chunks.ChunkText`: its precondition is that the split of every non-blank segment ends, since a call for which it does not never returns.
- `Docling.BuildSegments`: block kinds are lower-cased for ASCII letters only, cells arrive as text, and page numbers and levels as integers.
- A nesting law for headings that skip levels: such a heading takes the next place on the path, so a later one of a level in between can leave it open. What does hold of open headings is in `DoclingCoverage.SegmentsExact`.
- `Pagination.WalkIsLossless`: over a table that does not change during the walk; any total order on distinct keys stands for the database's collation.
- Duplicate-group pages: they sort by creation time and filter by id, so no such law holds.
- The worker's stages, extraction and indexing, apart from the job-row updates they make. Guards that the document service takes from other tables, such as the trash state before a purge, are not on the job steps, which are therefore possible at more moments than in the source.
- Provider calls of the Qdrant store, its writes, and the LanceDB store's best-per-document search.
- Redaction of audit rows shown to resource-scoped auditors.
