# Verified core of the dataflow vulnerability scanner

A Dafny 4.11 model of the parts of the scanner whose correctness depends on state, order or recursion, with
proofs of what those parts promise. `dafny verify dfyconfig.toml` checks all of it.

| files | what they model |
|---|---|
| `DispatchRows`, `DispatchProtocol` | the database-to-broker dispatch protocol: row updates and the interleaving state machine |
| `DispatchLiveness`, `DispatchClaims`, `DispatchStranding`, `DispatchReset`, `DispatchLeases`, `DispatchTimes` | over that machine: recovery, what a worker's claim and lease are worth, which rows are stranded, the late stale reset, and when recovery may release a row |
| `DispatcherLoops`, `DispatchColumns`, `DispatchRefinement` | the dispatcher's own loops, what they leave column by column, and why they are runs of the state machine |
| `TaintDag`, `Chains`, `ChainTree`, `ChainBounds` | taint DAGs, the two chain walks over them, what every step of their results says, and bounds on the tree |
| `DagStore`, `DagRoundTrip`, `Reservations`, `DagReplay` | storing a DAG as rows, the reservation table all tasks share, and what a task finds in these tables over a whole run |
| `BranchWalk`, `BranchOrder`, `BranchMeaning` | the branch-aware call walk, which calls it records in which order, and what its mutual-exclusion verdict means |
| `ValidationState`, `ValidationMeaning` | subsumption of validation states, and its meaning over integers |
| `JsonScan`, `JsonTokens`, `BraceScan`, `BraceTokens` | the JSON candidate scanner and the C brace scanner, each also against text given as tokens |
| `TaintedList`, `TaintedFields` | the follow-up list, as text and by its fields |
| `TraceTree`, `TraceShape`, `RetryLoop`, `Quantile` | the trace tree, the agent retry loop, histogram quantiles |

## How the code is modelled

Every SQL `UPDATE ... WHERE` (and the reservation `INSERT ... WHERE NOT EXISTS`) is one atomic step on a row; the
gap between a SELECT and the UPDATE that follows is kept, so any number of pumps, workers, dispatchers, operators
and broker restarts interleave in it. The dispatch state machine has a crash step at every point of a pump and a
worker, redelivery, lost messages, a clock that only moves forward, and a broker epoch that may change at any
time. What the broker inspection reports is an input of every recovery pass. Fresh UUIDs are numbers never drawn
before. `claim_specific_task`, `begin_delivery_handoff`, `begin_execution_if_owner`, `release_lease`,
`recover_running_task_if_owner` and `commit_terminal_state_if_owner` follow app/service/execution_coordinator.py.

Objects whose methods change fields are classes (`Dispatcher`, `TaskTable`, `Walker`, `Reconstructor`,
`DagDatabase`, `Store`, `TreeBuilder`); their loops are proved equal to specification functions, and the theorems
are about those functions. What the functions say is stated a second time without them: over the columns of a row, over
the edges of a DAG, over the tokens of a text, over the places of a tree. SHA-1 values are taken as injective, floats as reals, and what a callee name means to
the sink classifier, which characters are letters, and what an agent answers are inputs.

## What the proofs found

The model keeps the code as it is. Where the code does less than its documentation says, a lemma gives a concrete
case and another one the exact condition.

* A worker that dies between `claim_specific_task` and `begin_execution_if_owner` leaves a pending row with an owner.
  No pump, redelivery, recovery pass or stale reset ever touches that row again (`AbandonedClaimIsForever`,
  `WorkerDeathAfterClaimStrands`). `ClaimedRowMovesExactly` says which owned rows these are: the ones with no claim and
  no reset under way. `PendingTaskFates` says what becomes of every other pending row.
* A lease released before execution began keeps the token and drops the dispatch state; only a changed broker epoch
  gets that row back (`LeaseDroppedBeforeExecutionStrands`). `PendingTasksRecover` says exactly which rows recover.
* The stale-heartbeat reset writes by row id alone and can wipe out a newer reservation whose message is still queued
  (`StaleResetCanEraseNewerToken`). It erases exactly the reservations made since it read the row, and so needs the
  row to have been freed in between (`StaleResetErasesReservationsSince`). Nor does it recheck the heartbeat: a worker
  that renewed after the row was read loses its running task (`FreshWorkerLosesTask`, `FreshRowIsResetExactly`).
* `mutex_siblings` is kept per callee name, so two names are siblings although one execution calls both
  (`SiblingsMayRunTogether`). Names never run together exactly when all pairs of their calls are judged exclusive
  (`NeverTogetherExactly`), which being listed does imply for names called once (`SiblingsCalledOnce`).
* `facts_cover` asks that every incoming fact be matched by an existing one; "every value let through by incoming is
  let through by existing" needs the converse (`CoverMissesExtraFacts`, `InclusionExact`). Strictness is not compared,
  which is off by one at one bound (`CoverDiffersOnlyAtBoundary`).
* A "validated" context may cover a riskier "partial" one, and that is the only such inversion (`CoveringIsRiskier`).
  No state ever carries the signature "unknown", so the rule for it never fires (`CoversOnStates`).
* `is_ready` is documented as "every outgoing callee has been analysed", but it reads reservations. A function counts
  as ready while its callee is still being analysed (`ReadyWhileCalleeIsAnalysed`). In every reachable state in which
  it is ready, the documented promise holds exactly when no pair it asks for is still held by a worker or was left
  behind by a dead one (`ReadyMeansAnalysedExactly`); no query over the rows can tell (`RowsCannotTell`). With
  cross-task deduplication off a function is never ready once it has a direct indexed callee with a real parameter
  (`ReadyWithoutDedup`). A row left by a dead worker looks like a finished analysis (`UnheldRowStays`).
* A pair counts as processed if any task reserved it, but only the own task's rows are loaded, so a pair another task
  has processed is skipped and replays nothing; for the default root pair, whose signature is "auto", that is the whole
  analysis. The analyser also saves the empty signature under "auto", so that pair replays nothing either, and "auto"
  replays whichever of the two was saved last. `ReplayLoadsExactly` gives the exact condition.
* For the same reason `is_ready` finds no edges for such a pair and calls it ready at once (`NotOwnIsReadyAtOnce`).
* `extract_function` is documented to stop at the matching `}`. It runs on into the next function when the function
  stands on one line (`OneLineFunctionSwallowsNext`) or when the next one opens on its closing line
  (`NextOnClosingLineIsSwallowed`). When no `}` stands unmatched before the first `{`, `ExtractionEndsAtMatch` says
  exactly when it stops at the line of the brace that matches this `{`, and it never stops earlier, unless it gives up
  with the start line alone (`ExtractionReachesMatch`). After an unmatched `}`, as in an `else` branch, it does stop
  earlier: inside the body, at the first line that ends at depth zero after a deeper one (`LeadingCloseMovesEnd`,
  `LeadingCloseCutsBody`), or with the start line alone although the body is closed properly
  (`LeadingCloseLosesBody`); a matching brace with nothing opened after it is then not where the text ends
  (`LeadingCloseMissesMatch`).
* A chain with a sink two or more calls down infers the effect "propagate", not "sink" (`SinkIsOneCallDeep`).
* A loaded DAG has lost each edge's end line, callee, tainted arguments and condition lines, and each node's end
  line, source text and check lines (`SaveLoadRoundTrip` says what comes back).
* With one try per cycle the retry loop never compacts (`SingleTryNeverCompacts`).

## Model

| member | source | states |
|---|---|---|
| DispatchRows.VerdictHoldsOfTheRowRead | app/dispatcher.py:428-502 | Every row the recovery query picks and a branch decides to release satisfies the condition its UPDATE rechecks, so the UPDATE misses only if the row changed meanwhile |
| DispatchRows.ObservationsFollowHistory | app/dispatcher.py:572-589 | The whole observation map is determined by the reports: a token is remembered, with count one, exactly after an odd streak of equal "unacked" or "missing" reports |
| DispatchRows.PublishedReleaseNeedsTwoEqualReports | app/dispatcher.py:416-465 | Over any sequence of passes, a published row with reservation time and epoch is released exactly when its epoch changed, or it is past the age cutoff and its last report closes an even streak of one lost location, so the two last reports are equal and lost |
| DispatchProtocol.StepKeepsInv | app/dispatcher.py:154-261 | Every step of every pump, worker, dispatcher, operator and of the broker keeps the invariant: the reservation and delivery columns of each row agree with its token and dispatch state, tokens were drawn for their own task, each published at most once, each message in one hand |
| DispatchProtocol.RunKeepsInv | app/dispatcher.py:133-502 | The invariant holds after every run |
| DispatchProtocol.AtMostOneCurrentMessage | app/dispatcher.py:154-207 | In every reachable state a token was published at most once, at most one outstanding message per task carries the row's token, and all others carry released ones |
| DispatchProtocol.RetiredForever | app/dispatcher.py:162-207 | A token its row no longer holds is never held by that row again, through any run |
| DispatchProtocol.OldTokensChangeNothing | app/dispatcher.py:477-502 | An acknowledgement, release, recovery write, handoff or claim started with a token changes no row but the one still holding that token |
| DispatchLiveness.PendingTasksRecover | app/dispatcher.py:353-407 | In every reachable state a pending, undeleted row can be pumped, or is released by any two late enough passes that find its message lost, whatever was remembered; the latter fails exactly for rows with an owner (claimed, see PendingTaskFates), or without dispatch state in an unchanged epoch |
| DispatchLiveness.AbandonedClaimIsForever | app/service/execution_coordinator.py:125-207 | A pending row with an owner, and no claim or reset of it under way, is left unchanged by every run without an operator step on it |
| DispatchLiveness.WorkerDeathAfterClaimStrands | app/celery_tasks.py:71-97 | Such a state is reached by one worker death between claim and begin; the message is redelivered, cannot be claimed and is acknowledged, so none is left |
| DispatchLiveness.LeaseDroppedBeforeExecutionStrands | app/service/execution_coordinator.py:360-378 | Releasing the lease before execution begins reaches a pending row that recovers only after the broker epoch changes |
| DispatchLiveness.StaleResetCanEraseNewerToken | app/dispatcher.py:286-323 | A reachable run in which a late stale reset erases the token of a message that is in the queue |
| DispatchLiveness.FreshWorkerLosesTask | app/dispatcher.py:294-317 | A reachable run in which a worker renews between the read and the write of a stale reset, and the reset takes the running task, with its fresh heartbeat and lease, away from it |
| DispatchClaims.StepKeepsClaims | app/service/execution_coordinator.py:125-207 | Every step keeps: a pending row with an owner is leased, and a row a claiming worker still owns is the one it claimed, under the same token, epoch and version |
| DispatchClaims.FencedByToken | app/service/execution_coordinator.py:337-540 | In every reachable state the statements a worker runs after its claim, keyed on owner and epoch only, change no row but that of its own message, and only while the row still holds that message's token |
| DispatchStranding.UnderWayBegins | app/service/execution_coordinator.py:475-498 | In every reachable state a worker with a claim of a pending task under way can take it to running by its own steps alone |
| DispatchStranding.ClaimedRowMovesExactly | app/service/execution_coordinator.py:125-207 | In every reachable state some run without an operator step changes a pending, undeleted, owned row exactly when a claim or a reset of it is under way |
| DispatchStranding.PendingTaskFates | app/dispatcher.py:353-407 | Every pending, undeleted row of every reachable state: without a token it can be pumped; unclaimed it recovers, unless it lost its dispatch state in this epoch; claimed it is leased, and a worker with the message in hand can begin it, or a reset is under way, or it is stuck |
| DispatchReset.HeldMeansReserved | app/dispatcher.py:154-207 | Over any run, a row ends holding a token it did not hold at the start exactly when some step reserved the row under it and the row held it ever since |
| DispatchReset.StaleResetErasesReservationsSince | app/dispatcher.py:286-323 | In any run between the read and the write of a stale reset, a token other than the one read is erased exactly when the row was reserved under it in between and held it since, and then it was freed first |
| DispatchReset.FreshRowIsResetExactly | app/dispatcher.py:294-317 | In any run between the read and the write of a stale reset, the row that is reset has a fresh heartbeat exactly when a claim or a renewal wrote one in between, recently enough, and it was kept |
| DispatchLeases.LeaseProtects | app/service/execution_coordinator.py:125-207 | In every reachable state the row of a running task whose lease has not run out is changed only by its owner, a stale reset or an operator |
| DispatchLeases.TerminalStays | app/service/execution_coordinator.py:475-540 | In every reachable state a finished or cancelled row stays exactly as it is until an operator acts on it, but for a stale reset under way |
| DispatchLeases.DeletedIsNeverStarted | app/service/execution_coordinator.py:125-244 | No step gives a deleted row a token or an owner, starts it or brings it back |
| DispatchTimes.RunKeepsTelling | app/dispatcher.py:154-207 | After every run a row's reservation, publication and delivery times are those at which these statements last ran, and its broker epoch is the one current when the pump that reserved it selected it |
| DispatchTimes.ReleasedOnlyWhenOverdue | app/dispatcher.py:337-502 | In any run a recovery write frees a row only if its pump selected it under another epoch than that of the pass, or the statement that put it into its dispatch state ran more than its timeout before the pass read the table (and a published message is reported lost) |
| DispatcherLoops.PumpedTableAt | app/dispatcher.py:154-261 | A pump pass leaves rows it did not select alone and each selected row as its own attempt decides |
| DispatchColumns.PumpSelectsExactly | app/dispatcher.py:143-152 | A pump pass selects the pending, undeleted rows without a token |
| DispatchColumns.PumpedColumns | app/dispatcher.py:154-250 | Column by column: a kept reservation has its attempt's uuid, the epoch the pass read, the attempt's time and one attempt more, and is published, at its acknowledgement time, exactly when acknowledged; a released one is cleared; a reservation that did not take effect changes nothing |
| DispatchColumns.CountsDone | app/dispatcher.py:200 | The count of a pass is the number of attempts at which nothing raised |
| DispatchColumns.SendsAccepted | app/dispatcher.py:185-186 | The messages of a pass are those of the attempts the broker accepted, one each, in order |
| DispatchColumns.SelectedExactly | app/dispatcher.py:353-407 | Which rows a recovery pass selects, over their columns and the timeouts |
| DispatchColumns.ReleasedExactly | app/dispatcher.py:428-476 | Which rows a turn of the recovery loop releases, over their columns, the timeouts, the reported location and what was remembered |
| DispatchColumns.ReasonExactly | app/dispatcher.py:428-476 | And with which reason |
| DispatchColumns.RecoveredColumns | app/dispatcher.py:477-511 | Every column of every row a recovery pass read: a released row is cleared and carries its reason, any other is unchanged |
| DispatchColumns.ResetColumns | app/dispatcher.py:286-317 | Which rows a stale pass resets, and every column of every row after it |
| DispatcherLoops.RecoveredTableAt | app/dispatcher.py:428-511 | A recovery pass leaves each row it read as its own verdict says, the verdict taken with the observations of the rows before it |
| DispatcherLoops.RecoveredTableElsewhere | app/dispatcher.py:428-511 | Rows the pass did not read are unchanged |
| DispatcherLoops.Dispatcher.ConfirmPublishedRecovery | app/dispatcher.py:572-589 | Computes the confirmation answer and the observation map left behind |
| DispatcherLoops.Dispatcher.PumpOnce | app/dispatcher.py:133-261 | Leaves the table, the queue and the count that the attempts determine: one message per attempt the broker accepted, counted only when acknowledged |
| DispatcherLoops.Dispatcher.RecoverDispatchHandoffs | app/dispatcher.py:337-511 | Leaves table, observation map and release count as the passes specify; every verdict to release takes effect |
| DispatcherLoops.Dispatcher.ResetStale | app/dispatcher.py:272-323 | Resets exactly the running rows with a stale heartbeat whose clean-up does not time out, changes no other row, and counts them |
| DispatchRefinement.PumpOnceIsRun | app/dispatcher.py:133-261 | What a pump pass does undisturbed, whichever statements raise, the release in the handler included, is a run of the state machine: same table, same accepted messages |
| DispatchRefinement.RecoverDispatchHandoffsIsRun | app/dispatcher.py:337-511 | So is a recovery pass: same table, same observation map, nothing else touched |
| DispatchRefinement.ResetStaleIsRun | app/dispatcher.py:286-323 | So is a stale pass |
| TaintDag.SortIsStable | app/dagflow/chain_builder.py:42-45 | Edges are walked in line order, edges of one line in their original order, none lost or added |
| ChainTree.ArcsListEdges | app/dagflow/chain_builder.py:42-45 | What is sorted are the edges of all nodes, each once, node after node |
| ChainTree.IndirectExactly | app/dagflow/chain_builder.py:92-94 | A reference is indirect exactly when it contains an arrow or a star or starts with a parenthesis |
| ChainTree.EntryIsFirst | app/dagflow/chain_builder.py:33-34 | The entry is the first node without parents or marked as a source, or else the first node |
| Chains.CalleeEffect | app/dagflow/dag_tools.py:29-64 | The effect of a callee's DAG, cleaning before returning before passing on; downstream pairs exist exactly when it propagates and name real parameters |
| Chains.BuildChain | app/dagflow/chain_builder.py:16-89 | The loop computes the line-ordered fold of the taint state |
| Chains.CleanMeansSanitized | app/dagflow/chain_builder.py:41-89 | A step is "clean" exactly when a callee step sanitized since the last source step |
| ChainTree.ChainIsBuilt | app/dagflow/chain_builder.py:28-89 | Step by step, after the entry: one step for each edge of a known kind in line order, with the edge's number, line, node, taints, checks and state, and each callee step with the effect of the DAG of that callee and its first parameter, or unknown |
| Chains.Reconstructor.BuildSubChain | app/dagflow/chain_reconstructor.py:51-167 | The recursive method with its shared visited set computes the expansion and leaves that visited set |
| Chains.SinkIsOneCallDeep | app/dagflow/chain_reconstructor.py:170-184 | A caller infers "sink" exactly when a callee that is itself a sink comes before anything else that settles the effect |
| ChainTree.InferExactly | app/dagflow/chain_reconstructor.py:170-184 | All effects: the first step that settles it decides; otherwise "return" if some step returns, "unchanged" if there are no steps, "propagate" otherwise |
| ChainTree.ReconstructedIsTree | app/dagflow/chain_reconstructor.py:51-167 | At every level of the tree: a step has a sub chain exactly when its edge is a callee edge, no named sink, not too deep, direct and indexed, and its first parameter is real and has a stored DAG; the sub chain is the tree of that DAG, named after it, and skipped exactly when its key was expanded before in the order of the walk |
| ChainBounds.ReconstructIsBounded | app/dagflow/chain_reconstructor.py:36-167 | Every key is expanded at most once in the whole tree, calls nest at most max_depth deep, and the total number of steps is that of the expanded DAGs, at most one plus the edge count of each |
| ChainBounds.ReconstructOverApproximates | app/dagflow/chain_reconstructor.py:82-184 | On the same root it emits build_chain's step numbers, kinds and lines, and is tainted at every step of the whole tree |
| BranchWalk.Walker.Walk | app/clang_analyzer.py:239-314 | The walk restores the branch stack it was given and appends exactly the hits of the node |
| BranchWalk.PathsExtendStack | app/clang_analyzer.py:289-314 | Every recorded path extends the stack the walk was given |
| BranchWalk.HitsAreExact | app/clang_analyzer.py:239-314 | For any tree, switch, case and repeated ids included: the recorded hits are exactly the wanted calls of the tree, each with exactly the arms that enclose it |
| BranchOrder.ListHits | app/clang_analyzer.py:239-314 | For any tree: the hits are its wanted calls, each place once, in the order of the text, a call before those in its arguments |
| BranchOrder.SitesAreRecordedOnce | app/clang_analyzer.py:289-314 | In if/sequence code with distinct ids no two hits share a site |
| BranchMeaning.ExclusiveMeansNoCommonRun | app/clang_analyzer.py:341-348 | For if/sequence code with distinct ids, two sites' paths disagree on a common group exactly when no loop-free execution runs both |
| BranchMeaning.JudgementIsExact | app/clang_analyzer.py:289-348 | The same for the calls the walk records |
| BranchMeaning.ComputeMutex | app/clang_analyzer.py:336-352 | A name is listed for another exactly when some call of one and some call of the other exclude each other |
| BranchMeaning.SiblingsMeanSomePairExcluded | app/clang_analyzer.py:336-352 | Two names are siblings exactly when some pair of their calls has no common execution |
| BranchMeaning.SiblingsMayRunTogether | app/clang_analyzer.py:336-352 | An example where siblings are both run by one execution |
| BranchMeaning.NeverTogetherExactly | app/clang_analyzer.py:336-352 | No execution runs a recorded call of each of two names exactly when every pair of their recorded calls is judged exclusive |
| BranchMeaning.SiblingsCalledOnce | app/clang_analyzer.py:336-352 | For names recorded once each, being listed means exactly that no execution runs both |
| JsonScan.BalancedLength | app/parsers.py:49-68 | The inner loop finds the shortest text after which the scan from one opening bracket closes, if any |
| JsonScan.IterBalancedJsonCandidates | app/parsers.py:41-70 | The loops return, for each opening bracket in order, the shortest text after which the scan closes it, if any |
| JsonScan.ValueIsNeutral | app/parsers.py:49-68 | Every JSON value printed per sections 4, 5 and 7 of RFC 8259, brackets and escaped quotes in its strings included, leaves depth and string state as they were |
| JsonScan.ScanStopsAtOwnBracket | app/parsers.py:49-68 | Scanning from the opening bracket of a printed object or array stops at its own closing bracket, whatever follows |
| JsonScan.PrintedValueIsCandidate | app/parsers.py:41-70 | Every printed object or array in any surrounding text is returned as a candidate, character for character |
| JsonTokens.CandidateIsFewestBalanced | app/parsers.py:49-68 | For any text, JSON or not, given as string literals and other characters: from an opening bracket the scan takes exactly the fewest pieces with as many closing as opening brackets outside strings |
| JsonScan.ExtractStructured | app/parsers.py:192-262 | Skipping candidates seen before never changes the outcome: the first candidate, in order, that parses or whose repair parses |
| JsonScan.ExtractedExactly | app/parsers.py:192-262 | Nothing is extracted exactly when no candidate parses or has a repair that does; otherwise the first such one is, repaired only when it does not parse itself |
| DagStore.EdgeIdInjective | app/dagflow/dag_store.py:49-53 | A generated edge id determines its source node and its position among that node's edges |
| DagStore.FlattenEdges | app/dagflow/dag_store.py:48-59 | The loops list the edge rows of all nodes in order |
| DagStore.DagDatabase.SaveDag | app/dagflow/dag_mysql_store.py:166-206 | Replaces the node, edge and summary rows of the DAG's key and task |
| DagStore.DagDatabase.LoadDag | app/dagflow/dag_mysql_store.py:208-249 | Returns nothing exactly when the key has no nodes, and otherwise the nodes in id order with their edges in the order the rows came |
| DagRoundTrip.EntriesTellRows | app/dagflow/dag_store.py:48-59 | With distinct node ids no two edge rows of a DAG share a key, so INSERT IGNORE drops none |
| DagRoundTrip.SaveLeavesOthersAlone | app/dagflow/dag_mysql_store.py:166-206 | Rows of every other key and task are unchanged, for any DAG |
| DagRoundTrip.SaveLoadRoundTrip | app/dagflow/dag_mysql_store.py:166-249 | Loading what was saved gives exactly the saved nodes in id order, each with the same multiset of outgoing edges, and the same summary, whatever the tables held and in whatever order edge rows come back |
| Reservations.Store.ReserveOrSkip | app/dagflow/dedup.py:15-22 | Grants an analysis exactly to the caller whose row it put in when nobody had one; with the switch off, to everybody and without a record |
| Reservations.Store.AnalyzeOrReplay | app/dagflow/orchestrator.py:82-126 | Replays exactly the processed pairs; a pair stays reserved exactly when its analysis made a DAG, and a failed attempt leaves the table as it was |
| Reservations.StepKeepsInv | app/dagflow/dag_mysql_store.py:120-162 | Every step keeps: one row per pair over all tasks, a row for every running analysis, one analysis per pair |
| Reservations.ReservationsStayUnique | app/dagflow/dag_mysql_store.py:120-162 | So in every run in which tasks clear only when quiet |
| Reservations.OnlyTheOwnerFrees | app/dagflow/dag_mysql_store.py:147-153 | A row disappears only by its holder's release or its task's clear, and then the pair is free and nobody is analysing it |
| Reservations.ClearIsSafeWhenQuiet | app/dagflow/dag_mysql_store.py:120-132 | Clearing a task keeps the invariant exactly when none of its analyses is under way |
| Reservations.ClearDuringAnalysisAllowsTwo | app/dagflow/dag_mysql_store.py:120-132 | Otherwise two tasks can analyse one pair |
| Reservations.UnheldRowStays | app/dagflow/dag_mysql_store.py:126-145 | A row nobody is working for stays until its own task is cleared |
| Reservations.IsReady | app/dagflow/trigger.py:12-42 | Ready exactly when every real parameter of every direct indexed callee has a reservation row |
| Reservations.ReadyStays | app/dagflow/trigger.py:12-42 | While no row is released or cleared, readiness never turns from true to false |
| Reservations.StepKeepsAccounts | app/dagflow/orchestrator.py:82-126 | Every step keeps: each reservation row is there for one reason only, a worker at work, a saved analysis, or a worker that died |
| Reservations.ReadyMeansAnalysedExactly | app/dagflow/trigger.py:12-42 | In every reachable state in which a function is ready, all pairs it asks for have been analysed exactly when none of them is held by a worker or was left behind by a dead one |
| Reservations.ProcessedMeansAnalysed | app/dagflow/dedup.py:10-22 | The same for one processed pair |
| Reservations.ReadyWhileCalleeIsAnalysed | app/dagflow/trigger.py:12-42 | For any edge to a direct indexed callee, a reachable state that is ready, and was not before, because the callee's analysis has begun |
| Reservations.RowsCannotTell | app/dagflow/dag_mysql_store.py:134-145 | Finishing an analysis and dying in it leave the same rows and the same workers, one with the pair analysed and one without |
| Reservations.ReadyWithoutDedup | app/dagflow/dag_store.py:68-72 | With the switch off, ready exactly when no direct indexed callee has a real parameter |
| DagReplay.RowsAreTheLastSaved | app/dagflow/dag_mysql_store.py:166-206 | After any run the rows of a pair and a task, columns and all, are those that saving the last DAG saved there since the task was cleared would leave in empty tables |
| DagReplay.LastIsAnalysed | app/dagflow/taint_analyzer.py:139-140 | That DAG is the pair's own if its analysis has finished; none under the empty signature; under "auto" that of "auto" or that of the empty signature |
| DagReplay.ReplayLoadsExactly | app/dagflow/orchestrator.py:86-87 | After any run, a task that skips a processed pair finds exactly the nodes of the DAG saved last under it for the task itself, so none without one; that is the pair's own DAG exactly when the reservation is its own and its worker neither at work nor dead, except for the empty signature (none) and for "auto" when the task has also analysed the empty signature (whichever of the two was saved last) |
| DagReplay.ReadyOverTables | app/dagflow/trigger.py:12-42 | Over the tables any run leaves: with no DAG saved by the task itself a pair has no outgoing edges and is ready; otherwise it is ready exactly when every child edge of the DAG saved last says so, if node ids are distinct |
| DagReplay.NotOwnIsReadyAtOnce | app/dagflow/dag_store.py:99-103 | So a pair another task has processed, and any pair with the empty signature, is ready whatever its callees are, unless it is "auto" and the task's own analysis of the empty signature was saved there |
| ValidationState.Normalize | app/validation_state.py:90-120 | The loops compute the state of the collected facts: signature, risk and class |
| ValidationState.ClassExactly | app/validation_state.py:90-120 | Class and risk by the kinds that occur among the facts; the signature is "none" exactly with the class |
| ValidationState.ComputeFactsCover | app/validation_state.py:157-162 | The nested loops decide: every incoming fact has a covering existing one |
| ValidationState.CoversOnStates | app/validation_state.py:165-179 | On normalised states covering holds in three cases only; the rule for "unknown" is dead |
| ValidationState.UnvalidatedIsTop | app/validation_state.py:165-179 | "none" covers everything, and is covered only by "none" |
| ValidationState.CoversTransitive | app/validation_state.py:165-179 | Covering is transitive on normalised states |
| ValidationState.CoveringIsRiskier | app/validation_state.py:108-118 | A covering state is at least as risky, with exactly one exception: validated over partial |
| ValidationState.ValidatedCoversPartial | app/validation_state.py:165-179 | The exception happens |
| ValidationState.SelfCoverExact | app/validation_state.py:138-162 | Facts cover themselves exactly when every range fact has a comparison and a constant |
| ValidationMeaning.AdmitsExactly | app/validation_state.py:123-131 | A range fact with constant c and operator `<`, `<=`, `>` or `>=` lets through just the values so related to c; any other operator, or no constant, is no usable bound |
| ValidationMeaning.SameKeyExactly | app/validation_state.py:133-135 | Two targets are one key exactly when index, symbol and path agree, a missing one standing for 0, the empty symbol, the empty path |
| ValidationMeaning.FactCoversExactly | app/validation_state.py:138-154 | One fact covers another exactly when kind and key agree and, for ranges, both have constants and operators of one direction with the existing constant at least as wide, for others the predicates are equal |
| ValidationMeaning.CoverDiffersOnlyAtBoundary | app/validation_state.py:145-154 | For any two range facts on one key, covering agrees with "what incoming lets through, existing lets through" except exactly when their operators mix strictness at one constant |
| ValidationMeaning.SameOperatorCoverIsInclusion | app/validation_state.py:145-154 | With the same operator they always agree |
| ValidationMeaning.SatisfiableExact | app/validation_state.py:123-154 | Facts are satisfiable exactly when no lower bound of a target lies above an upper bound of it |
| ValidationMeaning.InclusionExact | app/validation_state.py:157-162 | Incoming lets through only what existing lets through exactly when incoming is unsatisfiable or each existing fact is forced by one incoming fact |
| ValidationMeaning.CoverImpliesInclusion | app/validation_state.py:157-162 | Covering implies that inclusion when existing ranges are unique per target and side and each existing fact has an incoming counterpart with the same operator |
| ValidationMeaning.CoverMissesExtraFacts | app/validation_state.py:157-162 | Without a counterpart covering does not imply inclusion |
| ValidationMeaning.CoverMissesTheBoundary | app/validation_state.py:149-151 | `x < 10` covers `x <= 10` |
| BraceScan.CountBraces | tools/extract_func.py:21-79 | The index loop equals a character-by-character lexer of comments and literals, started in code or in a block comment |
| BraceTokens.OnlyBraceTokensCount | tools/extract_func.py:21-79 | For any text given as tokens (comments, literals and other characters): the depth changes by the opening less the closing braces that are tokens of their own |
| BraceScan.LineByLineIsWhole | tools/extract_func.py:111-126 | Line by line equals the whole text when every literal closes on its own line |
| BraceScan.PartAtOpenLiteral | tools/extract_func.py:46-70 | The two stay together past a line exactly when no literal is open at its end |
| BraceScan.ExtractFunction | tools/extract_func.py:111-126 | Returns the lines up to the least end line whose depth is zero after some positive end-of-line depth, or the start line alone |
| BraceScan.WatchedIsWhole | tools/extract_func.py:111-126 | The first opening brace and its matching one, found line by line, are those of the whole text, when every literal before that line closes on its own line |
| BraceScan.ExtractionEndsAtMatch | tools/extract_func.py:108-126 | When no closing brace stands unmatched before the first opening one: the extracted text ends with the line of the brace matching the first one exactly when, for a body over several lines, some earlier line ended at positive depth and that line ends at depth zero; for a body on the start line, exactly when no later line closes anything |
| BraceScan.ExtractionReachesMatch | tools/extract_func.py:108-126 | Under the same condition it never ends before that line, unless nothing closes and it is the start line alone |
| BraceScan.LeadingCloseMovesEnd | tools/extract_func.py:108-126 | After unmatched closing braces the text ends inside the body, with the first brace still open, exactly when some line before the matching brace ends at depth zero after a line of positive depth; and it ends with the line of the matching brace exactly when that line is the first to do so (for a body on the start line, when no line does) |
| BraceScan.LeadingCloseMissesMatch | tools/extract_func.py:108-126 | So it does not end with the matching brace's line when nothing is opened after that brace, unless that is the start line and nothing closes |
| BraceScan.LeadingCloseCutsBody | tools/extract_func.py:118-123 | Any body after one unmatched closing brace is cut off at the end of its first inner block |
| BraceScan.LeadingCloseLosesBody | tools/extract_func.py:125-126 | Without an inner block only its start line is returned |
| BraceScan.NoMatchIsStartLine | tools/extract_func.py:125-126 | Without an opening brace, as for a declaration, or when the first one, with no unmatched closing brace before it, is never matched, it is the start line alone |
| BraceScan.OneLineFunctionSwallowsNext | tools/extract_func.py:118-123 | Any function written on one line runs on to the end of the next |
| BraceScan.NextOnClosingLineIsSwallowed | tools/extract_func.py:118-123 | So does any function whose closing line opens the next |
| TaintedList.GenTaintedList | tools/gen_tainted_list.py:52-101 | Writes the accepted entries in order, and collects variables and errors, line by line |
| TaintedList.ReadTaintedList | app/parsers.py:378-400 | Reads each line of the content independently, in order |
| TaintedList.AcceptedIsWellFormed | tools/gen_tainted_list.py:56-94 | What the writer accepts: stripped fields without separators, a nonempty path not starting with `#`, a valid name |
| TaintedFields.JudgeExactly | tools/gen_tainted_list.py:56-94 | For any line made of fields: ignored, refused, a variable or an entry, and with which values, over the trimmed fields |
| TaintedFields.ReadExactly | app/parsers.py:378-400 | For any line made of fields: whether it is read, and as which callee |
| TaintedFields.CountsRefused | tools/gen_tainted_list.py:61-86 | The errors are the refused lines, one each |
| TaintedList.ComesBackExactly | app/parsers.py:378-400 | An accepted entry's line reads back as that entry exactly when neither its path nor its line field ends in `#` |
| TaintedList.WriteReadRoundTrip | app/parsers.py:378-400 | Reading the written file gives exactly the accepted entries in order, "-" and "*" read as empty, skipped names dropped, if no field has a line break and no path or line field ends in `#` |
| TraceTree.TreeBuilder.BuildNode | app/vuln_graph_service.py:139-221 | The recursive method terminates on every graph and leaves the tree and visited set of the specification |
| TraceShape.FollowupsExactly | app/vuln_graph_service.py:172-204 | A run's follow-ups are those on its edges, and those that share no id with one of these and whose parent node is of its function |
| TraceShape.LinkedComeFirst | app/vuln_graph_service.py:184-204 | Those on its edges come first |
| TraceShape.RunOfExactly | app/vuln_graph_service.py:228-257 | A follow-up that is not pruned leads to the last run with its id, or else to the last one of its callee's file and function; any other nowhere |
| TraceShape.TreeShowsRoot | app/vuln_graph_service.py:148-291 | At every level: one child for each follow-up in order, a stub exactly when it leads nowhere, and a cycle exactly when its run was expanded before in the order of the walk |
| TraceTree.BuildIsWellShaped | app/vuln_graph_service.py:139-291 | Depth is the parent's plus one, the child count is right, and only expanded runs have children |
| TraceTree.ExpandsOnce | app/vuln_graph_service.py:148-171 | The expanded runs of a tree are distinct, none was visited before, and they are what the visited set gained |
| TraceTree.TreeExpandsReachableRunsOnce | app/vuln_graph_service.py:139-294 | From an empty visited set exactly the runs that follow-up calls lead to are expanded, each once |
| RetryLoop.RunWithRetry | app/llm_retry.py:136-264 | The loop always ends, in the end and with the log of events its turns determine |
| RetryLoop.RetryBounds | app/llm_retry.py:145-262 | One cycle of calls, or two when compacted between; compacted at most once and exactly when a whole cycle failed and a failure before its last gave text; saved error sessions numbered 1, 2, 3, ... by the failed calls; giving up only at the end of the budget |
| RetryLoop.LogIsTranscript | app/llm_retry.py:145-262 | The whole log of a finished run: what each call is asked, which error session is saved after it, and whether the session is kept, dropped, rolled back or compacted before the next, from what the calls gave |
| RetryLoop.SingleTryNeverCompacts | app/llm_retry.py:203-222 | With retry_max at most one there is one call and no compaction |
| Quantile.HistogramQuantile | app/metrics_summary.py:247-269 | Returns the value read off the first bucket whose count reaches the target rank, and nothing exactly when there is no such bucket or nothing was counted |
| Quantile.HolderHasShare | app/metrics_summary.py:253-259 | That bucket is the first up to whose bound at least the share q of everything was counted |
| Quantile.BucketEdges | app/metrics_summary.py:256-268 | It starts at the bound and count of the one before, the first one at zero |
| Quantile.ReadOffLiesInBucket | app/metrics_summary.py:259-266 | That value lies in its bucket and cuts the bucket's width as the rank cuts its count; in the last, unbounded bucket it is the bound before |
| Quantile.QuantileExists | app/metrics_summary.py:247-269 | For q in [0, 1] there is a value, never above the largest finite bound |
| Quantile.QuantileMonotone | app/metrics_summary.py:255-266 | A larger q never gives a smaller value |

## Left out

- DispatchReset.StaleResetErasesReservationsSince: the reset is one write of all its columns; the object mapper writes only the columns it believes changed, so the real write can be narrower.
- BranchMeaning.JudgementIsExact: switch statements, loops and short-circuit evaluation are walked as the code does, but the meaning is stated for if/sequence code only; cases of one switch share the switch's group.
- JsonScan.ExtractStructured: fenced blocks are found by a regular expression that is not modelled (they are an input), and parsing, validation and repair of a candidate are parameters; truncated-JSON recovery is not modelled.
- ValidationState.Normalize: which facts a free text yields (keyword and number recognition) is an input.
- Quantile.HistogramQuantile: selecting, parsing and sorting the metric rows is done before; rounding of floats is not modelled.
- TraceTree.TreeExpandsReachableRunsOnce: assumes distinct run ids, the primary key of their table; the choice of the root run and the display fields of a node are not modelled.
- RetryLoop.RunWithRetry: session files, event reporting and the returned parse value are not modelled, only that and when they are saved, dropped, rolled back or compacted.
- Restart, cancel and delete of a task are single steps of the dispatch model; their own multi-statement service code is not modelled.
- Reservations.ReadyMeansAnalysedExactly: a worker that dies and one whose save raises are one step, as both leave the row and no DAG; clearing a task is one step over all its tables.
- Batch limits and the order of the dispatcher's SELECTs, revoking a Celery task, cleaning task data, and the broker inspection calls behind a reported location are inputs or left out.
- Column widths, collations and the JSON text encoding of stored columns; two identifiers are equal exactly when their values are.
- Name lookup by function id in the chain reconstructor, human-readable details of chain steps, and which callee names are dangerous sinks.
- libclang cursors, text extents and the fallback for unexposed expressions: the walk runs over a small syntax tree.
- The reservation INSERT with its NOT EXISTS test is taken as atomic, as its comment claims; no unique key in the schema enforces it across tasks.
- Prompt and report formatting, metrics collection, the HTTP API, process and workspace handling: input and output with no further property to prove.
