# Verified model of the state twin's evidence machinery

This project models six parts of the repository in Dafny and proves what their documentation and tests promise.

1. **The fenced Episode coordinator** (`Coordinator`, `EpisodeJournal`, `Invariant`, `Runs`, `Bounds`, `Coupling`,
   `MixedLane`, `OneConnection`, `FirstSteps`, `Readback`, `Outcomes`, `EpisodeRun`, `Timestamps`, `LeaseClock`). The four journal tables are
   maps in class `Journal`. Its methods perform each transaction statement by statement, with rollback, and are proved equal to
   a closed-form step on values. Theorems about whole runs quantify over every sequence of such steps of both lanes, every clock reading
   (each operation carries its own), every attempt nonce and, unless said otherwise, every rule for when a lease counts as expired.
2. **The bootstrap gate** (`SplitMix`, `Bootstrap`, `Quantiles`, `Decision`, `Verdicts`, `Deciding`, `TrialPlan`, `PlanMeaning`): 64-bit arithmetic with wrap-around,
   a rejection sampler whose loop terminates because the finalizer is a bijection, the percentile interval over reals,
   the release decision with its map-order dependence, and the trial inventory that makes the decision a function again.
3. **The retention preview** (`Reachability`, `Retention`, `RetentionMeaning`, `RetentionPreview`): an in-place transitive closure on a matrix,
   the protection it spreads, the reasons it gives, and the dependency groups it lists.
4. **The credential scan** (`CredentialTree`, `ScanMeaning`, `CredentialScan`): an explicit-stack token machine against plain
   recursion over the JSON tree, and the places in a document that make either find it sensitive.
5. **The Responses session, its budget governor, the agent loop and the replay verifier** (`Protocol`, `Responses`,
   `Host`, `Conversation`, `AgentLoop`).
6. **Suite archives and evidence publication** (`Archive`, `ArchiveMeaning`, `ArchiveRoundTrip`, `Publication`, `Inspection`): a round trip from the freezer to
   the importer with a size bound, and a writer that may stop after any storage operation, against the inspector that reads
   what it left.

Each imperative part keeps its form: classes whose methods update fields, loops over arrays and sequences, an explicit stack,
walks over maps in an order that is not fixed. A specification function or predicate says what each computes. What that means
is stated apart from these functions, with the source's own constants and in terms of tables, observations, positions in a
document, bytes of an archive or the responses of a model, in `Outcomes`, `Quantiles`, `Verdicts`, `PlanMeaning`,
`RetentionMeaning`, `ScanMeaning`, `Responses`, `Conversation`, `ArchiveMeaning` and `Inspection`.

## Results that are not what one might expect

* The release decision can differ between two runs on the same input exactly when one floor is unset and another one is
  missed (`Decision.VerdictsDifferIff`; `Decision.VerdictsDiffer` gives such an input). For prepared plans it cannot
  (`TrialPlan.PreparedVerdictUnique`).
* Recovery, and with it every claim, fails with a conflict while a cancelled hermetic lease has expired whose parent Episode the
  local lane has moved, until the worker that holds it speaks (`MixedLane.RecoveryFailsIff`, `MixedLane.QueueStaysShut`). What
  keeps this from happening is the journal's single connection (internal/episode/journal.go:85). To get there, `Submit` must
  adopt a reservation of the local lane, and for that it reads the Episode through the pool inside its own open transaction
  (internal/episode/remote.go:163). On one connection it waits there until its context ends and inserts nothing, and in every
  such run no lease is orphaned and no recovery fails (`OneConnection.NothingIsOrphaned`). Were that read to find a second free
  connection, there would be such a run for every request (`MixedLane.AdoptedReservationIsOrphaned`).
* Completion accepts Evidence that the readers then refuse, exactly when the last event does not end in the claimed status, the
  outcome is not the one of that status, or the clock has fallen behind the Episode's creation (`Readback.EnvelopeGap`;
  `Readback.AcceptedButUnreadable` gives such a run for every request, if the Evidence is within the size limit). A worker that sends its completion again then gets an
  error for ever (`Readback.ReplayOutcome`). Evidence built by an execution is never refused for its content.
* Recovery compares lease times as text, heartbeats as parsed times. They disagree exactly when both times lie in one second
  and the digits of one fraction continue those of the other (`LeaseClock.RecoveryDisagreesIff`).
* A claim reads the clock before its transaction begins. The task record it leaves validates exactly when that reading is not
  before the task's creation (`Readback.ClaimValidIffClock`).

## Model

| member | source | states |
|---|---|---|
| Invariant.StepInv | internal/episode/remote.go:122-552 | every transaction of either lane, with any arguments at any time, keeps the whole-journal invariant |
| Invariant.RunInv | internal/episode/remote.go:594-648 | the invariant holds after every run, whatever the interleaving |
| Runs.ReachableTask | internal/episode/remote.go:594-648 | in every reachable journal the fence counts the attempts, each number up to that count belongs to exactly one attempt and is its fence, the only LEASED attempt is the last and exists exactly while the task is LEASED, QUEUED leaves an attempt, an unknown attempt is the last of a COMMIT_UNKNOWN task |
| Runs.StepMoves | internal/episode/remote.go:186-552 | one transaction, a claim counted as recovery then lease, moves each row only along the allowed edges |
| Runs.EndedAttemptFrozen | internal/episode/remote.go:358-364 | an attempt that is no longer LEASED never changes again |
| Runs.TerminalTaskFrozen | internal/episode/remote.go:405-413 | COMPLETED, CANCELLED, FAILED and COMMIT_UNKNOWN are absorbing |
| Runs.TerminalEpisodeFrozen | internal/episode/journal.go:340-446 | an Episode becomes terminal at most once; afterwards its row and its events never change, in any interleaving of both lanes |
| Runs.EvidenceNeverChanges | internal/episode/remote.go:351-357 | stored Evidence is never replaced |
| Runs.EventsOnlyGrow | internal/episode/journal.go:541-575 | the event table is always a gap-free chain of sequence + 1 entries and only grows at its end |
| Runs.EndedAttemptIsDeaf | internal/episode/remote.go:300-315 | an operation naming an ended attempt changes nothing, and is accepted only as a replay of the stored completion |
| Runs.FencedForever | internal/episode/remote.go:243-437 | for any expiry rule, once an attempt has ended no later heartbeat, completion or failure naming it changes any row |
| Readback.ReplayOutcome | internal/episode/remote.go:300-310 | the winning completion sent again at any later time changes nothing; it returns the stored Evidence if that ended in the claimed status with its outcome and was not stored before the row was created, and an error otherwise |
| Runs.AcceptedCancelIsFinal | internal/episode/remote.go:439-479 | after a cancel that was accepted, on a task in whatever state, the task is never queued, claimed or completed again |
| Runs.ClaimedFence | internal/episode/remote.go:218-235 | a claim hands out the next attempt number as fence, for a task that is then leased to that attempt |
| Runs.TokensIncrease | internal/episode/remote.go:220-226 | of two successful claims of one Episode the later one holds the larger fencing token |
| Bounds.StepPotential | internal/episode/remote.go:522-544 | every effective move of a task strictly lowers its measure, and nothing raises it |
| Bounds.EffectiveMovesBounded | internal/episode/remote.go:405-427 | in any run a task makes at most three times its attempt limit plus one effective moves |
| Bounds.ClaimsCounted | internal/episode/remote.go:206-235 | the attempt counter equals the number of successful claims, which stays within the submitted limit |
| Bounds.AllClaimsBounded | internal/episode/remote.go:126-128 | from an empty journal the successful claims of any run number at most the sum of the tasks' limits |
| Coupling.RecoverExact | internal/episode/remote.go:497-552 | recovery changes exactly the selected leases, returns their number, and leaves nothing selected |
| Coupling.NoGuardFails | internal/episode/remote.go:694-715 | while parents follow their tasks, no one-row guard fails after its selection passed |
| Coupling.CoordinatorRunCoupled | internal/episode/remote.go:694-715 | in coordinator-only runs the parent carries Evidence iff COMPLETED, is CANCELLED iff CANCELLED, and is CREATED otherwise |
| MixedLane.RecoveryFailsIff | internal/episode/remote.go:703-711 | recovery fails iff an expired, cancelled, hermetic lease has a parent the local lane moved; then every valid claim fails too |
| MixedLane.QueueStaysShut | internal/episode/remote.go:202-204 | such a lease blocks all later recoveries and claims until its own worker speaks |
| MixedLane.AdoptedReservationIsOrphaned | internal/episode/remote.go:162-170 | provided the read that Submit makes through the pool inside its transaction finds a second free connection: for every request there is a run that reaches such a lease |
| OneConnection.NothingIsOrphaned | internal/episode/journal.go:85 | with the one connection the journal opens, in every run of both lanes no Episode of the local lane gets a task, every parent follows its task, no lease is orphaned and no recovery fails |
| Readback.EnvelopeGap | internal/episode/remote.go:667-692 | an accepted envelope is readable afterwards iff its last event ends in the claimed status, its outcome fits that status, and the clock is not behind the row's creation |
| Readback.AcceptedButUnreadable | internal/episode/remote.go:667-692 | for every request there is a run in which completion accepts Evidence that claims success over a failed last event, if it is within the size limit, and leaves a row no reader accepts |
| Readback.EveryRowReads | internal/episode/journal.go:470-583 | in every run with Evidence built by executions and a clock that does not run back, the readers accept every row; Evidence is the unique six-event path |
| Readback.EveryTaskReads | internal/episode/remote.go:594-648 | under the same conditions every task record validates |
| Readback.ClaimValidIffClock | internal/episode/remote.go:196-202 | a record leased at a given clock reading validates iff the reading is not before the task's creation |
| EpisodeTypes.SixEvents | internal/episode/episode.go:197-212 | a six-event chain is the one path to evaluation, up to its last status |
| EpisodeTypes.Histories | internal/episode/episode.go:197-212 | an event list is a chain of allowed transitions iff it is an initial part of the six-event path, or such a part followed by CANCELLED or RUNTIME_ERROR where that is allowed |
| EpisodeRun.LifecycleObject.Transition | internal/episode/episode.go:82-92 | a transition succeeds iff allowed, appends one event, and keeps the events a chain ending in the current status |
| EpisodeRun.RunBuildsHonestEvidence | internal/episode/episode.go:149-171 | the envelope of an execution satisfies both the coordinator's checks and the readers' |
| EpisodeRun.ExecutionEvidence | internal/episode/episode.go:149-171 | the Evidence of an execution field by field, claiming success iff the scenario passed |
| EpisodeRun.RunPersistent | internal/episode/journal.go:256-295 | a repeated request returns the stored Evidence without executing, another request under its ID is a conflict, a full journal refuses a new one; a first one ends readable, with Evidence, with RUNTIME_ERROR, or EVALUATING when its Evidence is too large |
| EpisodeJournal.Journal.CreateOrLoad | internal/episode/journal.go:297-338 | the statements perform the reservation step, or change nothing |
| EpisodeJournal.Journal.CreateTask | internal/episode/remote.go:141-179 | the second transaction of Submit performs the enqueue step |
| EpisodeJournal.Journal.RecoverExpired | internal/episode/remote.go:481-552 | updating the found leases one by one, in any order, equals ending all of them at once, with the results of `Outcomes.RecoveredLease`; a failing guard rolls everything back |
| EpisodeJournal.Journal.ClaimProfile | internal/episode/remote.go:186-241 | the statements perform recovery and lease, and a claim that finds nothing also undoes its recovery |
| EpisodeJournal.Journal.SelectQueued | internal/episode/remote.go:207 | the scan finds the claimable task that is least by creation stamp and Episode ID |
| EpisodeJournal.Journal.HeartbeatClaim | internal/episode/remote.go:243-278 | the statements perform the heartbeat step |
| EpisodeJournal.Journal.CompleteClaim | internal/episode/remote.go:280-376 | the statements perform the completion step, including the replay branch; `Outcomes.FirstAcceptance` and `Readback.ReplayOutcome` say when it accepts |
| EpisodeJournal.Journal.FailAttempt | internal/episode/remote.go:378-437 | the statements perform the failure step |
| EpisodeJournal.Journal.CancelTask | internal/episode/remote.go:439-479 | the statements perform the cancel step |
| EpisodeJournal.Journal.AppendTransition | internal/episode/journal.go:340-365 | the statements perform the local transition step |
| EpisodeJournal.Journal.CompleteLocal | internal/episode/journal.go:367-412 | the statements perform the local completion step |
| EpisodeJournal.Journal.FailLocal | internal/episode/journal.go:414-446 | the statements perform the local failure step |
| EpisodeJournal.SelectExpired | internal/episode/remote.go:498-520 | the found items are exactly the selected leases, each once, as stored |
| Timestamps.TextOrderIsTimeOrderExcept | internal/episode/remote.go:498 | RFC 3339 texts with trailing zeros removed order as the times do, except exactly when one fraction continues the other within one second (section 5.1 of RFC 3339) |
| Timestamps.ExpiryErrorBelowOneSecond | internal/episode/remote.go:498 | a lease selected by text ends no later than the second of the clock reading, and one left out although ended lies in that second |
| Timestamps.ExpiryErrorHappens | internal/episode/remote.go:219 | a concrete pair of times that texts order the other way |
| LeaseClock.RecoveryDisagreesIff | internal/episode/remote.go:262-265 | recovery and heartbeat disagree about a lease iff the two texts are inverted |
| Outcomes.RecoveredLease | internal/episode/remote.go:518-546 | what recovery makes of each lease that is over: COMMIT_UNKNOWN for an external effect; otherwise no effect, and CANCELLED with its parent if that was asked for, QUEUED and claimable while attempts are left, FAILED if none is |
| Outcomes.RecoveredRest | internal/episode/remote.go:498-550 | recovery returns the number of leases that are over and leaves every other task, attempt and Episode as it was |
| Outcomes.CrashedWorkIsRetried | internal/episode/remote.go:202-234 | after a hermetic lease with attempts left has ended, every claim for its kind succeeds, with that task under its next number or with another while it stays queued |
| Outcomes.ClaimedIff | internal/episode/remote.go:186-217 | a claim succeeds iff its arguments are in order, recovery does not fail, a task of its kind waits and the attempt ID is new; otherwise nothing changes |
| Outcomes.ClaimHandsOut | internal/episode/remote.go:207-240 | a claim hands out the first waiting task with its submitted bundle, profile and identity, the next number as fence and a lease from the clock reading, and stores exactly that |
| Outcomes.WorkerGetsWhatWasSubmitted | internal/episode/remote.go:207-226 | whatever runs between reservation, submission and claim, the worker gets the bundle and profile submitted and the identity reserved, under a number within the limit |
| Outcomes.HeartbeatOutcome | internal/episode/remote.go:243-278 | a heartbeat is answered iff the worker holds the lease and it has not ended, and moves the lease end to the clock reading plus the length asked for |
| Outcomes.FirstAcceptance | internal/episode/remote.go:316-369 | a first completion is accepted iff the worker holds the uncancelled lease, that has not ended, the Evidence has the request's identity, six lifecycle events and its own digest, fits the limit, and the Episode is CREATED at sequence 0 |
| Outcomes.CompletionRefused | internal/episode/remote.go:316-350 | a refused completion names the first of these conditions that fails, and changes nothing |
| Outcomes.AcceptedIsStored | internal/episode/remote.go:351-374 | the rows after an accepted completion, column by column |
| Outcomes.RepeatedCompletion | internal/episode/remote.go:300-315 | a completion of a completed task returns the stored Evidence iff attempt, fence and digest are those that won and the record reads; otherwise it is stale or reports the damage, and nothing changes |
| Outcomes.NothingAfterTheLease | internal/episode/remote.go:262-337 | in every run, no first completion is accepted and no heartbeat answered at or after the end of the last lease granted to that attempt |
| Outcomes.FailureOutcome | internal/episode/remote.go:378-437 | a failure report is taken from the holder alone and leaves COMMIT_UNKNOWN, CANCELLED with the parent, QUEUED or FAILED by the commit state, the cancel flag and the attempts left |
| Outcomes.CancelOutcome | internal/episode/remote.go:439-479 | cancelling marks a leased task, ends a queued one with its parent, refuses a completed one, and repeats without effect |
| Outcomes.ReserveOutcome | internal/episode/journal.go:297-338 | an ID is reserved once, while there are fewer than 10000 records; afterwards only the same request finds it |
| Outcomes.EnqueueOutcome | internal/episode/remote.go:141-179 | a task is attached once, with 1 to 16 attempts, to an Episode that has not moved, and keeps its policy |
| Outcomes.ReadEvidence | internal/episode/journal.go:490-583 | whatever the tables hold, Evidence that a reader returns has the row's identity, digests, status, outcome and events |
| Outcomes.LocalAppendOutcome | internal/episode/journal.go:340-365 | the local lane records exactly the one next status of its own unchanged Episode |
| Outcomes.LocalCompleteOutcome | internal/episode/journal.go:367-412 | it stores Evidence exactly for its own Episode in EVALUATING, with matching identity, digest, size and last event |
| Outcomes.LocalFailOutcome | internal/episode/journal.go:414-446 | it records a runtime error exactly from PROVISIONING, RUNNING or EVALUATING at the expected sequence |
| SplitMix.XorShiftInjective | internal/baseline/statistics.go:31-33 | a word is determined by its exclusive or with itself shifted right |
| SplitMix.MixIsBijection | internal/baseline/statistics.go:28-34 | each 64-bit word is the output of exactly one state |
| SplitMix.DrawsDistinct | internal/baseline/statistics.go:29 | successive outputs differ for a whole period of 2^64 draws |
| SplitMix.FewRejections | internal/baseline/statistics.go:35-44 | at most 2^64 mod n draws can be rejected in a row |
| SplitMix.Random.Next | internal/baseline/statistics.go:28-34 | one draw advances the state by the odd constant and returns its image |
| SplitMix.Random.Index | internal/baseline/statistics.go:35-44 | the redrawing loop ends within n draws and returns the first accepted word modulo n |
| SplitMix.NextWord | internal/baseline/statistics.go:28-34 | state and output of the generator written out with the constants of the algorithm |
| SplitMix.IndexMeaning | internal/baseline/statistics.go:35-44 | an index is the first drawn word not below 2^64 mod n, modulo n |
| SplitMix.IndicesAreFair | internal/baseline/statistics.go:35-44 | every index is the image of exactly floor(2^64 / n) accepted words |
| Bootstrap.SortUnique | internal/baseline/statistics.go:49 | clusters with distinct families have one sorted order |
| Bootstrap.SortClusters | internal/baseline/statistics.go:48-49 | the sort returns a permutation ordered by family, ties in any order |
| Bootstrap.Scan | internal/baseline/statistics.go:50-59 | the scan refuses exactly repeated families and inadmissible clusters, and groups the rest by domain in order |
| Bootstrap.FillSamples | internal/baseline/statistics.go:76-87 | the nested loops fill the array with the resampled means, drawing from one generator |
| Bootstrap.Bootstrap | internal/baseline/statistics.go:46-99 | the result is the one specified for a sorted permutation of the input; `Quantiles.IntervalMeaning` says what it is |
| Bootstrap.OrderDoesNotMatter | internal/baseline/statistics.go:46-49 | permuting the input, or breaking ties differently, never changes the interval |
| Bootstrap.EstimatedInterval | internal/baseline/statistics.go:64-97 | an estimated interval satisfies -1 <= lower <= upper <= 1 and rests on three repeats, twenty admissible clusters of different families, and exactly two domains of at least eight clusters each |
| Bootstrap.InvalidIff | internal/baseline/statistics.go:52-56 | the interval is invalid iff a family repeats or a cluster is inadmissible |
| Quantiles.IntervalMeaning | internal/baseline/statistics.go:64-98 | an estimated interval counts 10000 resampled means, each the mean of the two domains' means of drawn differences: at least 250 are at most its lower end and at least 9751 at least that, at least 9750 are at most its upper end and at least 251 at least that; it is degenerate iff all are equal |
| Quantiles.OrderStatisticUnique | internal/baseline/statistics.go:94 | such counts determine the value, whichever way the means are sorted |
| Quantiles.IntervalHull | internal/baseline/statistics.go:76-94 | if every difference lies between two bounds, so does the interval |
| Decision.PassesIff | internal/baseline/decision.go:111-288 | the verdict is pass iff every planned trial was observed completed, verified and cleaned up, the candidate had no illegal effects and every required success, families are even, no candidate failure exceeds that of its baseline trial, every floor is set and reached, and the interval is estimated with its lower end at least -delta |
| Decision.PassMeetsFloors | internal/baseline/decision.go:261-273 | a pass means the candidate's successes reach the floor in each of its domains |
| Decision.PassSample | internal/baseline/decision.go:279-281 | a pass rests on at least twenty families and three repeats, with -delta <= lower <= upper <= 1 |
| Decision.IntervalUnique | internal/baseline/decision.go:238-255 | the interval does not depend on the order in which the map yields the families |
| Decision.VerdictsDifferIff | internal/baseline/decision.go:261-273 | two runs may disagree iff the evidence is valid, nothing fails hard, one floor is unset and another is missed |
| Decision.VerdictsDiffer | internal/baseline/decision.go:261-273 | an input with two domains on which both an inconclusive verdict and a failure are possible |
| Decision.InvalidIntervalIff | internal/baseline/decision.go:239-255 | with valid evidence the interval is invalid iff some family has an empty domain |
| Verdicts.ClusterStandsFor | internal/baseline/decision.go:238-250 | a family's difference times its trials per configuration is the number of the candidate's successes there minus the baseline's |
| Verdicts.IntervalFollowsSuccesses | internal/baseline/decision.go:238-255 | if the candidate succeeds nowhere more often than the baseline, the interval lies at or below zero; if nowhere less often, at or above |
| Verdicts.DecisionByObservations | internal/baseline/decision.go:111-288 | verdict and reason of a report follow from the observations and the interval by the conditions of the policy, written with the observations alone |
| Deciding.Decide | internal/baseline/decision.go:77-289 | the loops return each error exactly under its condition, and otherwise a report whose verdict, reason and listing follow from the observations as `Verdicts` states; it is a pass iff observations and interval meet every demand, and its interval does not rise above zero when no family favours the candidate |
| Deciding.ComparePairs | internal/baseline/decision.go:222-237 | a pair is worse iff the last trial with its key has more policy failures for the candidate |
| Deciding.CheckFloors | internal/baseline/decision.go:261-273 | visiting floors in any order stops iff one is unset or missed, with the verdict of the one found |
| TrialPlan.PlanTrials | internal/baseline/plan.go:99-170 | the nested loops succeed iff sizes, entries, families, floors and required tasks are in order, and then build the inventory |
| PlanMeaning.PlannableIff | internal/baseline/plan.go:99-170 | what can be planned: 1 to 72 known, distinct entries, 1 to 5 repeats, at most 240 trials, two configurations, a rate as floor for each domain, one domain a family, and required tasks among the entries |
| PlanMeaning.TrialsStand | internal/baseline/plan.go:155-164 | the two trials of each entry and repeat stand at twice its position, with the baseline first in every other pair, numbered from 1 |
| TrialPlan.Complete | internal/baseline/plan.go:155-164 | every entry, repeat and configuration has its trial |
| TrialPlan.IdsDiffer | internal/baseline/plan.go:162 | trial IDs differ |
| TrialPlan.PairsDiffer | internal/baseline/plan.go:155-164 | each configuration meets each entry and repeat only once |
| TrialPlan.FamiliesBalanced | internal/baseline/plan.go:155-164 | in every family both configurations have equally many trials |
| TrialPlan.ValidIffScorable | internal/baseline/decision.go:128-143 | for a prepared plan the decision is invalid iff some trial lacks complete, verified, cleaned-up evidence |
| TrialPlan.PairedIsItsTrial | internal/baseline/decision.go:225-231 | each matched pair holds the observations of its own two trials |
| TrialPlan.PreparedVerdictUnique | internal/baseline/plan.go:151-154 | for a prepared plan the whole report is a function of the observations |
| Reachability.Advance | internal/agenteval/retention.go:105 | one update with entries of either stage gives exactly the next stage |
| Reachability.ViaSplit | internal/agenteval/retention.go:102-108 | a walk through nodes up to k avoids k or splits into two that do |
| Reachability.Close | internal/agenteval/retention.go:102-108 | the in-place triple loop computes exactly reachability by one or more references |
| Retention.CheckPolicy | internal/agenteval/retention.go:52-72 | a policy is accepted iff it names each registered entry once, with a known intent and at most sixteen distinct known references |
| RetentionMeaning.PolicyIff | internal/agenteval/retention.go:52-72 | accepted policies are those whose entries are exactly the registered ones, each to be kept or reviewed, with at most sixteen registered references, none twice |
| Retention.ProtectionSpreads | internal/agenteval/retention.go:109-119 | protection is closed under reachability |
| Retention.CandidateIff | internal/agenteval/retention.go:121-149 | a row is a review candidate iff it is not protected itself and no protected entry leads to it, and then has just that reason |
| Retention.EveryRowIsExplained | internal/agenteval/retention.go:124-148 | every other row gives a protecting reason, and is unknown iff it says so |
| Retention.CandidatesAreReferencedByCandidates | internal/agenteval/retention.go:109-148 | whatever references a review candidate, directly or through others, is a review candidate |
| Retention.SameGroupIff | internal/agenteval/retention.go:150-160 | two entries share a dependency group iff they are equal or lead to each other |
| Retention.GroupsOrdered | internal/agenteval/retention.go:150-160 | groups are disjoint and listed by their first entries |
| Retention.GroupStartsAt | internal/agenteval/retention.go:151-158 | a group lists its members in registry order from the entry that opened it |
| RetentionMeaning.RowMeaning | internal/agenteval/retention.go:121-149 | each row's status, reasons in order and referrers follow from what the policy's entries say and from trails of references through them |
| RetentionPreview.Spread | internal/agenteval/retention.go:109-119 | the passes end with exactly the entries protected by themselves or reached from one that is |
| RetentionPreview.Preview | internal/agenteval/retention.go:79-163 | every row is the specified one and says what `RetentionMeaning` states; two entries are named in one group iff they are equal or trails of references lead both ways |
| CredentialScan.RunValue | internal/logging/sanitize.go:61-118 | running over one value's tokens gives the recursive verdict on it or goes on after it |
| CredentialScan.MachineIsRecursion | internal/logging/sanitize.go:45-120 | the machine over a document's tokens returns the verdict of recursion over its tree, for every tree |
| ScanMeaning.ScanFindsExactly | internal/logging/sanitize.go:45-134 | a document is sensitive iff it holds, under one of the nine credential names in any spelling, a value other than null and the empty string (under authorization, a string); or a nonempty string in arrays under authorization; or a string that matches a pattern, or is itself such a document, or JSON below four others; or a value below 128 containers |
| CredentialScan.SensitiveJSON | internal/logging/sanitize.go:45-120 | the loop with its explicit stack, calling itself on embedded text, returns that verdict, and so finds exactly the documents of `ScanMeaning.ScanFindsExactly` |
| CredentialScan.ContainsSensitive | internal/logging/sanitize.go:136-138 | the admission check is the pattern test or the verdict on valid JSON |
| CredentialScan.WrappingDoesNotHide | internal/logging/sanitize.go:81-116 | a sensitive document stays sensitive as an array item, under any field, and as text inside another document |
| CredentialScan.TooDeepIsSensitive | internal/logging/sanitize.go:96-98 | a value that needs more than 128 frames is sensitive |
| Protocol.Governor.Admit | internal/agenthost/budget.go:35-73 | admission succeeds iff nothing stopped the episode and there is room, and charges exactly that, counter by counter; a refusal stops it, charges nothing and says why |
| Protocol.OutputFollowsItsCall | internal/agenthost/responses.go:333-335 | in an orderly history each output comes after its call |
| Protocol.Reads | internal/agenthost/responses.go:182-222 | the calls of an accepted response are its function calls in order, with IDs that repeat neither each other nor earlier ones |
| Responses.JudgeMeans | internal/agenthost/responses.go:160-282 | a response is taken iff it is completed, within the size limit, not sensitive, has 1 to 64 items each of which the session can use, asks for no more calls than allowed, and asks for some or says something readable; and what it then means |
| Host.ReadItems | internal/agenthost/responses.go:180-262 | the item loop gives the specified calls and texts, or the first error |
| Host.Session.Request | internal/agenthost/responses.go:134-149 | a request succeeds iff the session may speak and has room; it then shows a history in which every call was answered exactly once |
| Host.Session.Accept | internal/agenthost/responses.go:153-300 | a response is taken whole iff it is awaited, acceptable item by item and within the budget, and means its calls or its text; any refusal ends the session |
| Host.Session.AdmitTool | internal/agenthost/responses.go:303-313 | only the first pending call can be attempted, once |
| Host.Session.Deliver | internal/agenthost/responses.go:316-338 | a delivery appends the answer of the attempted call, removes it from the pending ones, and charges its size |
| Host.Session.Stop | internal/agenthost/responses.go:122-129 | a stopped session holds no history, and its usage stays |
| AgentLoop.RunLoop | internal/agenteval/episode.go:153-211 | every run records a replayable trace, frontiers that never fall back, and usage within budget that counts them; a clean one satisfies the verifier's accounting and replay. The record is that of the conversation: each response was given to the log of all responses and results before it, its calls were made in order with their tools and inputs, and the run ends with the last response's answer, when the steps are over, or at a named refusal, whose code it reports |
| AgentLoop.CodesMean | internal/agenteval/episode.go:268-293 | the code and the status reported for each error |
| AgentLoop.ReplayEvents | internal/agenteval/evidence.go:131-143 | the replay ends in a state iff each event is delivered and what the world does |
| AgentLoop.Replay | internal/agenteval/evidence.go:80-156 | the verifier accepts iff the episode is clean, accounted for and what the deterministic world does: there are states, one before each event and one after the last, through which the world's own steps produce the events |
| AgentLoop.RunThenReplay | internal/agenteval/evidence.go:107-151 | a run passes the verifier iff it completed and its terminal inspection succeeded |
| AgentLoop.Inspect | internal/agenteval/episode.go:231-246 | a failed inspection or grading sets the terminal code, and the failure code if there was none; otherwise the final state and its grade are recorded; nothing else changes |
| ArchiveRoundTrip.Freeze | internal/agenteval/suite_archive.go:86-103 | reading under the shared budget succeeds iff each file and their sum stay within bounds |
| ArchiveRoundTrip.FrozenTotal | internal/agenteval/suite_archive.go:87-101 | in whatever order the frozen files are listed, their sizes add up to what the freezer counted |
| Archive.EncodeArchive | internal/agenteval/suite_archive.go:175-212 | the writer emits manifest and payload in key order, or fails exactly when the manifest is too large or a header cannot be written |
| Archive.DecodeArchive | internal/agenteval/suite_archive.go:213-316 | the importer returns files iff the archive is acceptable, and then the ones its entries hold |
| ArchiveMeaning.DecodesIff | internal/agenteval/suite_archive.go:213-303 | an archive decodes to these files iff its bytes are a manifest and the payload it lists, one after the other in byte order of portable names that differ in more than case, within every limit, and then two zero blocks |
| ArchiveRoundTrip.ArchiveFits | internal/agenteval/suite_archive.go:21 | headers, padding, manifest and trailer included, an exported suite stays below the importer's limit |
| ArchiveRoundTrip.FrozenIsFreezable | internal/agenteval/suite_archive.go:86-161 | the files of an eligible suite that the freezer let through have portable lower-case names, sizes and counts within every limit of the importer |
| ArchiveRoundTrip.RoundTrip | internal/agenteval/suite_archive.go:175-316 | the importer accepts what the exporter wrote and restores the same file map |
| ArchiveRoundTrip.ExportThenImport | internal/agenteval/suite_archive.go:175-316 | exporting then importing gives the files back, or the exporter's error |
| ArchiveRoundTrip.FreezeExportImport | internal/agenteval/suite_archive.go:68-316 | freezing, exporting and importing a suite gives back the files read, or the error of the first check that stops it |
| ArchiveRoundTrip.SamePayload | internal/agenteval/suite_archive.go:294-303 | accepted archives that restore equal file maps have equal payload entries in the same order |
| Publication.Directory.RecordRun | internal/agenteval/evidence.go:208-248 | whichever operation fails, the directory has one of the shapes allowed: terminal.json is never torn and equals the pending file; an existing directory is left alone; success iff nothing failed |
| Publication.Directory.WriteExclusive | internal/agenteval/storage.go:117-134 | an existing file is never written; a failed write leaves nothing, a torn file or a whole one |
| Publication.Directory.Publish | internal/agenteval/storage.go:136-147 | the terminal appears with the pending content before any staging is removed |
| Publication.TerminalVerdict | internal/agenteval/inspect.go:267-282 | a closure verified before cleanup verifies as a terminal iff cleanup completed, and is partial otherwise |
| Publication.Inspect | internal/agenteval/inspect.go:95-225 | the walk over the directory returns the specified state |
| Publication.InvalidIffTorn | internal/agenteval/inspect.go:138-218 | at every point the writer can stop, the inspector reports invalid iff some file is torn |
| Publication.PublishedIff | internal/agenteval/inspect.go:190-224 | with no torn file, a published state is reported iff the terminal of a verified, cleaned-up run is linked, and residue iff staging remains |
| Inspection.StateMeans | internal/agenteval/inspect.go:95-225 | the verdict on any directory: invalid iff the claim or a file is unreadable, of another run or rejected, or two files disagree; published iff the terminal is closed and reproduced, with residue iff staging remains |
| Inspection.VerdictMeans | internal/agenteval/evidence.go:80-156 | a record is accepted iff the world passes through states that show it, and, for a terminal, it is closed; it is partial iff it does not claim to be whole |
| Inspection.WrittenRecords | internal/agenteval/evidence.go:215-247 | what closure and terminal say, after a clean and after a failed cleanup |
| Publication.RunAndRecord | internal/agenteval/evidence.go:215-247 | a recorded run always passes its own closure check; when storage and encoding never fail, and only then, the directory ends with exactly the claim and the terminal of that run |
| Publication.RunRecordInspect | internal/agenteval/inspect.go:95-225 | with a fault or a stop anywhere, the inspector reports a publication only of a run that completed, was graded and closed its world, reports it without residue after a clean recording, and reports invalid iff a file is torn |

## Left out

- SQLite, SQL text, migrations and the connection pool: each transaction is one atomic step. The read that `Submit` makes
  through the pool inside its open transaction (internal/episode/remote.go:163) is a read of the current state in `Coordinator`,
  and a wait without effect in `OneConnection`.
- The HTTP coordinator and client, authentication, worker goroutines and heartbeat timers.
- Event `created_at` columns, the Evidence claim level, and read-back errors after a commit.
- `validateTaskRecord` and `scanRecord` parse stored texts; here instants are numbers that the formatter renders, and only
  the text comparison of recovery and the order of claims work on texts.
- SHA-256, canonical JSON, regular expressions, the JSON parser, CEL and the tar header format: uninterpreted functions.
  Digests are assumed to separate requests, and headers and manifests to decode to what was encoded, only where a lemma says so.
- Unicode case mapping and case folding: two separate uninterpreted functions, as the two library calls differ.
- Floating-point rounding: means, rates and percentiles are over reals, so bit-exact intervals are not claimed.
- Cost, token, latency and per-entry reliability columns of the release report, and the disclosure and live-plan checks of
  plan preparation: field checks and counting loops.
- EpisodeRun.RunPersistent: states the outcome of a first execution only for runs with no other transaction in between and with
  room for one more record; interleavings are covered by the theorems on runs.
- Deciding.Decide: the report's metrics columns are not part of the result.
- Building the tool list and the first user message of a session, and encoding requests: a request is a size and a sensitivity
  computed from the history.
- AgentLoop.RunLoop: the world store and the engine are a deterministic step function. What a step that breaks the
  environment leaves behind is not modelled, so the final state is claimed only for clean episodes.
- AgentLoop.Replay: bundle decoding, admission and the content policy, which the writer has already applied to the same bytes.
- Publication.Inspect: names outside the four known ones, symbolic links, unreadable directories and cancellation.
- Publication.Directory.RecordRun: file systems beyond exclusive create, partial write, link-if-absent and remove; a torn
  document never decodes.
- Archive.DecodeArchive: which code a refused archive gets is stated only for one that is too large and for a suite that may
  not be imported.
- Responses.JudgeMeans: says when a response is refused, not with which code.
- ArchiveRoundTrip.FreezeExportImport: takes the files the freezer asks for as given; reading the directory, decoding the claim
  that names the trials, symbolic links and read errors are not modelled. Lower-casing is assumed to leave ASCII without capitals
  alone, and names are strings of bytes.
- Directory walking in the freezer, the export and import destinations, project and campaign reporting, provider transport
  and command-line output.
