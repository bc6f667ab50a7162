# Training platform backend: verified model

This project models the parts of the backend that hold state, ordering or arithmetic, and proves what they promise:

- **Recommendations** (`Ordering.dfy`, `Signals.dfy`, `Recommendations.dfy`): candidate pool, the six signals and their weights, trimming, prerequisite order, time cut and coverage gaps, and the whole pipeline in one piece.
- **Teams meetings** (`Meetings.dfy`): the `meeting.create` and `meeting.update` jobs the cancel request and the trainer's start and completion reports as steps over one session's row, its calendar events and the two queues. Every interleaving of these steps, of failures, retries, exhausted retries and deletions made outside is a run, and each job method is shown to run exactly its own schedule of steps.
- **Tenant scoping** (`Tenancy.dfy`, `SharedKeys.dfy`): the query rewriter, non-interference between organizations, and exactly what the columns that are unique across organizations let one of them observe.
- **Department repair script** (`Departments.dfy`): the dry run against the apply run, for one organization and for the whole script.
- **Refresh tokens** with the nightly purge (`Tokens.dfy`), **password lockout** (`Lockout.dfy`), **learner assignments with escalation** (`Assignments.dfy`, `RefusedPatches.dfy`, `AssignmentEffects.dfy`, `AssignmentRuns.dfy`) and **sibling positions** (`Positions.dfy`): invariants over whole runs.
- **Calendar and local days** (`Calendar.dfy`), with the UTC accessors of section 21.4.1 of ECMA-262.
- **Cursor paging** (`Paging.dfy`) against the plain sorted list.
- **Orphaned-blob sweep** (`BlobSweep.dfy`), racing with uploads.
- **Rubric scores and verdicts** (`Verdict.dfy`), over the reals.

`Common.dfy` holds shared facts about sequences, filters and stable sorting. `dafny verify dfyconfig.toml` checks everything.

A method models code that changes things step by step. It is tied to a specification function, and the lemmas are about that function. What an operation does is also said without that function, row by row, in a predicate of its own (`DoesAs`, `Repairs`, `Refreshes`, `Completes`, `PicksBest` and the like), which the method or a lemma about every step of a run promises. Lists read from the database are values; tables and queues are fields that methods reassign.

## What the code does differently from what it says

- `Date.UTC` reads the years 0 to 99 as 1900 to 1999, so `localDayBounds` does not return the day of an instant in those years. `LocalTime.OwnDayContains` gives the exact condition, `LocalTime.MisreadYearsDisagree` the consequence.
- The blob sweep's comment counts three tables that refer to a blob. `PlanContentMedia` is a fourth (src/modules/training-plans/services/plan-content-media.service.ts:98-111), which no read of the sweep looks at: `BlobSweep.PlanMediaGoesAfterADay`. The three tables that are read are read once each, and a report's organization is looked up before its rows, so the safe delay for a report counts from the organization id read and not from the first key read: `BlobSweep.SparedExactly`, `BlobSweep.LateRowIsSwept`. The reads are capped at 100,000 organizations and 1,000,000 rows (src/modules/organizations/repositories/organization.repository.ts:26-29, src/modules/reports/repositories/report.repository.ts:122-128); the safety results are for tables within the caps.
- The comment on the two-phase reorder says that the offset guarantees no collision. It does not once positions have climbed by deleting and creating: `Positions.ReorderSucceedsExactly` is the exact condition, `Positions.ReorderSucceedsAfterRun` shows that 1000 deletions since the last reorder are harmless, and `Positions.OneDeletionMoreCanFail` that 1001 are not. With repeated ids the service check passes and a reorder can even be carried out, but not as requested: `Positions.DoneAsRequestedExactly`.
- Update data may carry another `organizationId`, which the rewriter leaves in place: `Tenancy.OthersUnchangedExactly`.
- Columns such as `PortalUser.entraObjectId` and `Session.joinToken` are unique over all organizations (prisma/schema.prisma:233, prisma/schema.prisma:1103), so scoped queries are not perfectly isolated. `SharedKeys.IndistinguishableExactly` says how much shows through: which keys the others hold, and nothing else.
- Six signals are weighted into a score, but among the content of one outcome only two of them can differ: `Recommendations.TopPicksByEvidence`. The vector store never returns a match (src/ai/vector.service.ts:17-23), so in fact effectiveness alone picks an outcome's content.
- The repair script's prediction is exact for each organization taken alone. For the whole script it holds exactly when no vacated department loses its remaining learners to organizations repaired before: `DepartmentRepair.ScriptPredictsExactly`. It is enough that learners sit in departments of their own organization (`DepartmentRepair.ScriptDryRunPredictsApply`); `DepartmentRepair.CrossOrganizationReferencesBreakPrediction` is a family where it fails.
- The cursor carries the sort value alone, so tied rows can be lost at a page boundary: `Paging.WalkAll` says exactly when.
- Reading a cursor guesses the column's type from the text. A text that is what some number prints as, or that reads as a date, comes back as a number or a date: `CursorValues.NumberTextIsMisread`, `CursorValues.CarriedExactly`. Departments are paged by the text column `nameEn` (src/modules/departments/repositories/department.repository.ts:22-31), so one named "1.5" breaks the walk when it ends a full page. `Paging.CursorsAtBoundaries` names the rows this concerns; it concerns none if every key comes back as itself, `Paging.AllCarriedSuffices`.
- The effectiveness index joins two ids with a colon. That is harmless: generated content ids hold no colon (prisma/schema.prisma:673), and two contents can share a key exactly when one id continues the other with a colon: `Recommendations.KeyNamesOnePair`, `Recommendations.ContentsCollideExactly`.
- A patch of outcomes is not one transaction. `RefusedPatches.RefusedPatchLeavesRowsExactly` says exactly when a refused one leaves the rows alone.
- `cancelMeeting` answers a missing event with a general failure (src/integrations/microsoft/graph.service.ts:286-289), although the update job's comment expects a not-found error. The model follows the code: deleting a missing event always fails. So a session whose event was deleted outside is never marked, `MeetingProtocol.DeletedOutsideIsNeverMarked`, and its update jobs end only by using up their retries, `MeetingProtocol.DrainsWithoutGivingUpExactly`.
- An update job has four retries (src/queue/queues.ts:52). When they are used up the event stays on the calendar until somebody cancels again: `MeetingProtocol.OrphanCanStay`, `MeetingProtocol.CancelledCanBeCleanedUp`.
- A session is started or completed by a write that does not look at the status again (src/modules/agent/services/agent-session.service.ts:49-61, src/modules/sessions/repositories/session.repository.ts:466-473), although the recording of a meeting is written so as never to revive a CANCELLED session. A report that read the session before it was cancelled therefore writes over CANCELLED: `MeetingProtocol.StaysCancelledExactly`. The removal that was due is then dropped and the event stays: `MeetingProtocol.EventOutlivesExactly`.
- After the nightly purge the replay of a deleted token is answered as unknown and revokes nothing: `TokenFamilies.ReplayKillsExactly`.

## Assumptions

Repository and queue writes succeed, and failed jobs are retried until their retries are used up. Each token, sign-in, assignment and reorder request is one step; the code has no transaction around a token rotation or a sign-in. One `meeting.create` job runs at a time for a session, and a session row and its plan stay in place while jobs run. Random ids are fresh, which a counter stands for; hashes are injective. A refresh token lives 30 days. A clock never runs backwards. `Number(text)` and `String(number)` are a pair of functions under the laws of sections 6.1.6.1.20 and 7.1.4.1 of ECMA-262, which `CursorValues.Lawful` states; `CursorValues.LawsCanBeMet` shows that some functions meet them.

## Model

| member | source | states |
|---|---|---|
| `Ordering.TopologicalSort` | src/modules/recommendations/services/ordering.service.ts:47-75 | Answers `None` exactly when the restricted prerequisite graph has a cycle (a self-loop counts); otherwise a duplicate-free order of exactly the ranked ids in which every edge points forward |
| `Ordering.BuildEdges` | src/modules/recommendations/services/ordering.service.ts:20-28 | The edge map holds exactly the prerequisites that lie inside the ranked set |
| `Ordering.GraphIs` | src/modules/recommendations/services/ordering.service.ts:20-28 | The graph's nodes are the ranked contents, and its edges the rows that name a ranked prerequisite |
| `Ordering.Order` | src/modules/recommendations/services/ordering.service.ts:18-45 | Always a permutation of the items; acyclic: every in-set prerequisite before its dependents and entries of one content in input order; cyclic: descending score |
| `Graphs.OrderRulesOutCycles` | src/modules/recommendations/services/ordering.service.ts:47-75 | An order that respects every edge cannot exist on a cyclic graph |
| `Graphs.StuckMeansCyclic` | src/modules/recommendations/services/ordering.service.ts:70-74 | Ids that all still wait for one another contain a cycle, so an early-dry queue is never a false alarm |
| `Ordering.LeftOverMeansCyclic` | src/modules/recommendations/services/ordering.service.ts:60-74 | When the queue runs dry before every id is out, the ids left over form a cycle |
| `Ordering.Release` | src/modules/recommendations/services/ordering.service.ts:62-70 | One finished id: the counts of its dependents drop by one and exactly those reaching zero are queued |
| `Ordering.ByScoreRanks` | src/modules/recommendations/services/ordering.service.ts:77-79 | The fallback order is a permutation with descending scores, ties in input order |
| `Ordering.PrerequisiteHasLowerKey` | src/modules/recommendations/services/ordering.service.ts:34-44 | Sorting by topological position puts a prerequisite strictly first |
| `Ordering.Fit` | src/modules/recommendations/services/duration-fit.service.ts:27-44 | Fitted followed by deferred is the whole list, fitted is within the budget, and no selection of the items within the budget has more of them |
| `Ordering.CutKeepsPrerequisites` | src/modules/recommendations/services/duration-fit.service.ts:27-44 | On an ordered acyclic list whatever a fitted item needs in the set is fitted too |
| `Ordering.RankAndCut` | src/modules/recommendations/services/duration-fit.service.ts:27-44 | Rank then cut: fitted followed by deferred is the ranked list, the session share is the largest that fits and is closed under in-set prerequisites |
| `Recommendations.BuildPool` | src/modules/recommendations/services/candidate-pool.service.ts:24-62 | Each outstanding known outcome is bound to exactly the usable content of its skill, and every candidate appears once |
| `Recommendations.GroupBySkill` | src/modules/recommendations/services/candidate-pool.service.ts:38-48 | Groups hold exactly the outstanding known outcomes of each skill |
| `Recommendations.CollectOne` | src/modules/recommendations/services/candidate-pool.service.ts:50-59 | Adding one more skill keeps the candidate set and its bindings right |
| `Recommendations.GroupsMakePool` | src/modules/recommendations/services/candidate-pool.service.ts:24-62 | The skill groups taken together are the pool defined outcome by outcome |
| `Recommendations.Score` | src/modules/recommendations/services/scorer.service.ts:41-73 | One scored item for each bound (content, outcome) pair with a known outcome and a priority, its score the weighted sum of the six signals of that pair, and no other item |
| `Recommendations.ScoreContent` | src/modules/recommendations/services/scorer.service.ts:46-70 | The scored pairs of one content |
| `Signals.ScoreOne` | src/modules/recommendations/services/scorer.service.ts:76-100 | The loop over the signals yields the weighted sum and each signal's value |
| `Signals.WeightedSum` | src/modules/recommendations/signals/index.ts:33-49 | The weights and the signals written out, for content of any skill |
| `Signals.ScoreRange` | src/modules/recommendations/signals/index.ts:33-40 | Content of the outcome's own skill scores between 0.375 and 0.925 |
| `Signals.SameOutcomeDiffersByEvidence` | src/modules/recommendations/services/scorer.service.ts:52-70 | For one outcome two contents of its skill differ in score by a tenth of their difference in effectiveness and similarity, whatever the priority |
| `Recommendations.TopPicksByEvidence` | src/modules/recommendations/services/recommendation.service.ts:205-219 | The three items kept for an outcome are the first three of its scored items sorted by effectiveness and similarity alone |
| `Recommendations.DifficultyNeverRanks` | src/modules/recommendations/signals/index.ts:17-32 | Leaving the constant difficulty signal out of every sum ranks any scored items alike |
| `Recommendations.ResolveEffectiveness` | src/modules/recommendations/services/scorer.service.ts:128-137 | The map the loop builds row by row is the index that the lookup results are about |
| `Recommendations.KeyNamesOnePair` | src/modules/recommendations/services/scorer.service.ts:128-137 | The joined key names one pair when content ids hold no colon; outcome ids may |
| `Recommendations.ContentsCollideExactly` | src/modules/recommendations/services/scorer.service.ts:128-137 | Two contents can share a key exactly when one id continues the other with a colon |
| `Recommendations.LookupIsExact` | src/modules/recommendations/services/scorer.service.ts:128-137 | With one row per pair a lookup finds exactly that row |
| `Recommendations.OnlyBeatenItemsAreDropped` | src/modules/recommendations/services/recommendation.service.ts:205-219 | Trimming drops an item only when three kept items of its outcome score at least as much |
| `Recommendations.TrimmingKeepsCoverage` | src/modules/recommendations/services/recommendation.service.ts:205-219 | An outcome is covered after trimming exactly when it was before |
| `Recommendations.DetectReports` | src/modules/recommendations/services/coverage-gap.service.ts:22-42 | A gap is reported exactly for outstanding known outcomes without a scored item |
| `Recommendations.ScoringCoversExactly` | src/modules/recommendations/services/scorer.service.ts:41-73 | An outcome gets a scored item exactly when it has a priority entry, a skill, and usable content |
| `Recommendations.Generate` | src/modules/recommendations/services/recommendation.service.ts:100-203 | Pool, score, trim, rank and detect in a row: each outstanding outcome gets its three best pieces of usable content, or all it has, each once and with the score that the run's priorities, weak outcomes, effectiveness rows and distances give it, and nothing left out scores more; the gaps are exactly the outstanding known outcomes with no skill or no usable content; prerequisites come first, or scores decide on a cycle |
| `Recommendations.ScoreIsDue` | src/modules/recommendations/services/scorer.service.ts:54-100 | The score of a pair written out from the inputs: 0.3, a fifth of its urgency, 0.075, 0.15 for a weak outcome, a tenth of its effectiveness and a tenth of its nearness |
| `Recommendations.PoolIsScored` | src/modules/recommendations/services/scorer.service.ts:41-73 | Pool and scorer together give exactly one scored item for each outstanding outcome and usable content, with the score it is due |
| `Recommendations.TrimmingPicksBest` | src/modules/recommendations/services/recommendation.service.ts:205-219 | Of those the trim keeps the three best of each outcome, or all, and what it drops scores no more than any it keeps |
| `Recommendations.GapsAreTheirs` | src/modules/recommendations/services/coverage-gap.service.ts:22-42 | A gap carries the English and the Arabic title of its own outcome |
| `Recommendations.SamePrerequisiteGraph` | src/modules/recommendations/services/recommendation.service.ts:194-202 | The ranked prerequisite graph depends on which contents are ranked, not on their order |
| `MeetingProtocol.StepKeeps` | src/queue/jobs/create-meeting.job.ts:27-160 | Every step of every job, request, report, retry or outside deletion keeps the protocol invariant |
| `MeetingProtocol.RunKeeps` | src/queue/jobs/create-meeting.job.ts:27-160 | So does every interleaved run |
| `MeetingProtocol.OneEventPerSession` | src/queue/jobs/create-meeting.job.ts:56-160 | Over any interleaving and any number of retries at most one event is created for a session, plus one for each attempt that lost the id of the event it had created |
| `MeetingProtocol.NoOrphanMeeting` | src/queue/jobs/meeting-update.job.ts:49-79 | A CANCELLED session whose recorded event is still live has its update job pending or a step about to enqueue it, unless a removal job used up its retries on that event |
| `MeetingProtocol.DrainedLeavesNothingLive` | src/queue/jobs/meeting-update.job.ts:49-79 | Once all work is done a session that is CANCELLED leaves live only events whose id was lost or whose removal was given up; none at all if neither ever happened |
| `MeetingProtocol.RecordedMeansNoMoreCreated` | src/queue/jobs/create-meeting.job.ts:109-121 | Once an id is recorded no further run creates an event or changes the id |
| `MeetingProtocol.StaysCancelledExactly` | src/modules/agent/services/complete-session.service.ts:65-101 | A cancelled session stays cancelled over every run exactly when no report that it has started or is complete, read before the cancel, is still to be written |
| `MeetingProtocol.EventOutlivesExactly` | src/queue/jobs/meeting-update.job.ts:49-79 | The recorded event of a cancelled session can be live after all work is done, without any removal job having given up on it, exactly when such a report is under way |
| `MeetingProtocol.LateReportKeepsEvent` | src/modules/sessions/repositories/session.repository.ts:466-473 | A run that does so: the report is written, failed removals are retried, and every update job finds a session that is no longer cancelled |
| `MeetingProtocol.CanDrain` | src/queue/jobs/create-meeting.job.ts:27-160 | From any state the pending work can be finished, whether removals succeed or give up, and a cancelled session stays cancelled |
| `MeetingProtocol.CancelledCanBeCleanedUp` | src/queue/jobs/meeting-update.job.ts:49-79 | A cancelled session can always be brought to a calendar without its event, by cancelling once more if need be; only events whose id was lost remain |
| `MeetingProtocol.OrphanCanStay` | src/queue/jobs/meeting-update.job.ts:49-79 | When every removal job uses up its retries an orphan stays although nothing is left to do |
| `MeetingProtocol.DeletedOutsideIsNeverMarked` | src/integrations/microsoft/graph.service.ts:275-292 | A session whose event was deleted outside is never marked as cleaned up, over any run |
| `MeetingProtocol.DrainsWithoutGivingUpExactly` | src/queue/jobs/meeting-update.job.ts:49-79 | With only update jobs left, no report among the rest, a cancelled session drains without a job giving up exactly when at most one removal is under way, and none if the event is already gone |
| `MeetingJobs.World.ProcessCreateMeetingJob` | src/queue/jobs/create-meeting.job.ts:27-160 | Every execution, whatever is interleaved at its awaits, runs exactly its schedule of protocol steps, ends with the job over and creates at most the replied event, none when an id is recorded |
| `MeetingJobs.CreateAlone` | src/queue/jobs/create-meeting.job.ts:27-160 | What the job leaves when nothing is interleaved, for each answer of the calendar and each state of the session |
| `MeetingJobs.World.AskForMeeting` | src/queue/jobs/create-meeting.job.ts:37-143 | The guards, then create or re-read, in the job's own order |
| `MeetingJobs.World.Record` | src/queue/jobs/create-meeting.job.ts:130-160 | The recording step; it reports the cancel race exactly when the row has become CANCELLED |
| `MeetingJobs.World.ProcessMeetingUpdateJob` | src/queue/jobs/meeting-update.job.ts:49-79 | The CANCELLED branch, whatever is interleaved at its awaits, runs exactly its schedule of protocol steps, ends with its job over, and marks the session when the event was still there and its deletion went through |
| `MeetingJobs.UpdateAlone` | src/queue/jobs/meeting-update.job.ts:49-79 | Likewise: the event goes and the session is marked, or the job is retried or given up |
| `MeetingJobs.World.Cancel` | src/modules/sessions/services/session.service.ts:195-227 | A cancel request, whatever is interleaved, runs exactly its schedule of protocol steps; it refuses exactly the other terminal states, and otherwise leaves the session cancelled for good unless a report was under way when it became CANCELLED |
| `MeetingJobs.CancelAlone` | src/modules/sessions/services/session.service.ts:195-227 | Likewise: CANCELLED, the create job off its queue, one more update job exactly if a recorded event was not removed yet |
| `MeetingJobs.CancelDuringCreation` | src/queue/jobs/create-meeting.job.ts:130-160 | A cancel request that runs while the calendar creates the event: the session stays CANCELLED, the event is recorded, and exactly one removal is queued |
| `MeetingJobs.OthersDo` | src/modules/sessions/services/session.service.ts:120-160 | Where a session starts, and what a confirmation, a reschedule and a deletion made outside add to the run |
| `MeetingJobs.ReportAlone` | src/modules/agent/services/agent-session.service.ts:49-61 | Likewise for a start or completion report |
| `MeetingJobs.World.WriteStatus` | src/modules/sessions/services/session.service.ts:201-211 | What the status write leaves, and whether a removal is still due |
| `GraphEvents.Calendar.CreateMeeting` | src/integrations/microsoft/graph.service.ts:181-225 | At most one event appears, at most three polls are made, and the outcome names the event unless a request failed |
| `Tenancy.TenantClient.AllOperations` | src/database/tenant.extension.ts:55-88 | Refuses without an organization; otherwise the arguments keep all the caller wrote but for the organization, and each operation finds, changes, deletes, counts or appends exactly the organization's rows that meet the caller's own conditions; other models and unscoped operations do what the caller wrote |
| `Tenancy.ScopedDoes` | src/database/tenant.extension.ts:55-88 | A scoped operation, row by row: which rows it asks for, what becomes of each, and what it answers |
| `Tenancy.UnscopedDoes` | src/database/tenant.extension.ts:57-60 | The same for an operation as the caller wrote it |
| `Tenancy.RunDoesEach` | src/database/tenant.extension.ts:26-88 | Over any run each request does this in the table its predecessors left |
| `Tenancy.UnaskedRowsStay` | src/database/tenant.extension.ts:76-84 | A row that no request of a run asks for is still there at its end |
| `Tenancy.MatchingInView` | src/database/tenant.extension.ts:76-84 | A pinned condition finds the same rows in the whole table and in the organization's own view |
| `Tenancy.RunsAsIfAlone` | src/database/tenant.extension.ts:55-88 | Without columns unique across organizations, each of the twelve operations answers, and changes the organization's rows, as if the table held only those |
| `Tenancy.OthersUnchangedExactly` | src/database/tenant.extension.ts:76-84 | Another organization's rows stay as they were if and only if no update data hands it a matching row |
| `Tenancy.NonInterference` | src/database/tenant.extension.ts:26-88 | Without such columns, two tables agreeing on an organization's rows give it the same answers over any run, and still agree afterwards |
| `Tenancy.OthersUntouched` | src/database/tenant.extension.ts:26-88 | Over any run with well-behaved update data, every other organization's rows are untouched |
| `SharedKeys.ExecuteSplits` | src/database/tenant.extension.ts:55-88 | A scoped operation leaves the other organizations' rows, as they were, beside what it makes of the organization's own |
| `SharedKeys.GoesThroughExactly` | src/database/tenant.extension.ts:55-88 | With columns unique across organizations, a write is accepted exactly when the organization's own rows allow it and it sets no key another one holds |
| `SharedKeys.AsIfAloneExactly` | src/database/tenant.extension.ts:55-88 | An operation answers and acts as if the table held only the organization's rows exactly when it meets no such key |
| `SharedKeys.RunAlike` | src/database/tenant.extension.ts:26-88 | Two tables with the same rows of the organization's own and the same keys held elsewhere answer any run alike and stay so |
| `SharedKeys.IndistinguishableExactly` | src/database/tenant.extension.ts:26-88 | Two tables with the same rows of its own answer an organization alike over every run if and only if the others hold the same unique keys in both |
| `DepartmentRepair.Database.RepairOrganization` | scripts/backfill-learner-departments.ts:47-144 | With `--apply` every learner of the organization ends in the team's department, or without one if the team is unknown, unless skipped as having none; the moves name exactly those learners in order; exactly the departments emptied by the moves are deleted. A dry run reports the same and writes nothing |
| `DepartmentRepair.RepairIs` | scripts/backfill-learner-departments.ts:47-144 | The same of the specified repair, learner by learner and department by department |
| `DepartmentRepair.ScriptRepairsEach` | scripts/backfill-learner-departments.ts:146-167 | The script repairs each organization in the data that those before it left |
| `DepartmentRepair.Database.CollectMoves` | scripts/backfill-learner-departments.ts:52-86 | The moves name exactly the misplaced learners, in order |
| `DepartmentRepair.Database.FindOrphans` | scripts/backfill-learner-departments.ts:114-132 | The orphan pass lists exactly the vacated departments it judges empty |
| `DepartmentRepair.PlacingCounts` | scripts/backfill-learner-departments.ts:101-127 | Applying the moves lowers a department's head count by exactly its movers, unless somebody moves in |
| `DepartmentRepair.NobodyMovesWithoutTeam` | scripts/backfill-learner-departments.ts:61-77 | Nobody is ever moved into a department without a team |
| `DepartmentRepair.DryRunPredictsApply` | scripts/backfill-learner-departments.ts:114-143 | The departments a dry run lists are exactly those `--apply` deletes, in the same order |
| `DepartmentRepair.DeletedAreUnreferenced` | scripts/backfill-learner-departments.ts:114-143 | After `--apply` no learner, team or track refers to a deleted department, which was one of this organization vacated by a move |
| `DepartmentRepair.SecondRunIsIdle` | scripts/backfill-learner-departments.ts:60-143 | A second run in the same scope mode finds no move and no orphan |
| `DepartmentRepair.MovesNameMisplaced` | scripts/backfill-learner-departments.ts:61-77 | Each move names one misplaced learner and carries that learner's team department |
| `DepartmentRepair.ApplyLeavesOthers` | scripts/backfill-learner-departments.ts:99-143 | Repairing one organization leaves another's data and counts as they are exactly when it moves nobody off that one's teamless departments |
| `DepartmentRepair.ScriptPredictsExactly` | scripts/backfill-learner-departments.ts:146-167 | Over any list of organizations the dry run's lists are what `--apply` deletes exactly when no organization's vacated, teamless and trackless department has learners left that only organizations repaired before take out |
| `DepartmentRepair.ListsAgreeExactly` | scripts/backfill-learner-departments.ts:114-143 | The same for the list of the k-th organization alone, in the data its predecessors left |
| `DepartmentRepair.ScriptDryRunPredictsApply` | scripts/backfill-learner-departments.ts:146-167 | In particular the prediction holds when every learner's department is one of the learner's own organization, wherever teams and tracks are |
| `DepartmentRepair.CrossOrganizationReferencesBreakPrediction` | scripts/backfill-learner-departments.ts:114-127 | A family where it fails: a learner in another organization's department, repaired first, empties it |
| `TokenFamilies.StepKeeps` | src/modules/auth/services/token.service.ts:31-100 | Login, refresh, logout and the nightly purge each keep the family invariant |
| `TokenFamilies.RunKeeps` | src/modules/auth/services/token.service.ts:31-100 | So does every run |
| `TokenFamilies.AtMostOneUnrevoked` | src/modules/auth/services/token.service.ts:47-100 | In every reachable state, purged rows included, a family has at most one unrevoked token |
| `TokenFamilies.ChainIsFamily` | src/modules/auth/services/token.service.ts:85-97 | From any token the `replacedById` links run through every later token of its family and no other, counting rows since purged |
| `TokenFamilies.FamilyIsOneChain` | src/modules/auth/services/token.service.ts:85-97 | A family is one chain, all of it but the last token revoked, counting rows since purged |
| `TokenFamilies.SurvivorsAreTheEnd` | src/modules/users/repositories/refresh-token.repository.ts:35-43 | Over any run in time order the purge takes a family's rows from the front: everything the links reach from a surviving row survives too |
| `TokenFamilies.ReplayOrLogoutEndsFamily` | src/modules/auth/services/token.service.ts:47-72 | Over any run from the empty table: after a stale presentation or a logout, whatever follows, no token of the family is unrevoked and no row ever joins it |
| `TokenFamilies.DeadForever` | src/modules/auth/services/token.service.ts:47-71 | A dead family stays dead over any later run and gets no new row; presenting a token of it that is still there is answered as reuse |
| `TokenFamilies.ReplayKillsExactly` | src/modules/auth/services/token.service.ts:47-60 | Replaying a stale token ends its family exactly when the row has not been purged, or the family had ended before |
| `TokenFamilies.RunAnswersEach` | src/modules/auth/services/token.service.ts:31-71 | The k-th answer of a run is that of its request in the state its predecessors left |
| `TokenFamilies.StepDoes` | src/modules/auth/services/token.service.ts:31-100 | What a login, refresh, logout or purge does to every row, with expiry, revocation, user, family and thirty days written out |
| `TokenFamilies.RunDoesEach` | src/modules/auth/services/token.service.ts:31-100 | Over any run each request does this in the table its predecessors left |
| `TokenFamilies.IssuedLivesExactly` | src/modules/auth/services/token.service.ts:74-102 | A token whose family nobody presents meanwhile is exchanged again, by its own hash and for the user it was issued to, exactly within thirty days |
| `TokenFamilies.RefreshSucceedsExactly` | src/modules/auth/services/token.service.ts:47-65 | A refresh succeeds exactly for a current token of an active account; its successor is then the only live one |
| `TokenFamilies.TokenService.RotateRefreshToken` | src/modules/auth/services/token.service.ts:47-65 | A revoked or expired token revokes its family and is answered as reuse; a current one of an active account is replaced by a successor of thirty days for the same user and family; nothing else changes |
| `TokenFamilies.TokenService.IssuePairInFamily` | src/modules/auth/services/token.service.ts:74-102 | Creates the new row, then marks the one it replaces revoked and linked |
| `TokenFamilies.TokenService.IssueTokenPair` | src/modules/auth/services/token.service.ts:31-45 | A login starts a new family of one token of thirty days |
| `TokenFamilies.TokenService.RevokeRefreshToken` | src/modules/auth/services/token.service.ts:67-72 | Logout revokes every row of the family and no other |
| `TokenFamilies.TokenService.DeleteExpiredOrRevokedBefore` | src/modules/users/repositories/refresh-token.repository.ts:35-43 | One batch deletes rows that are due and no other, and counts them; a short batch has deleted all of them |
| `TokenFamilies.TokenService.SweepExpired` | src/queue/jobs/cleanup.job.ts:75-92 | Batch after batch the sweep deletes exactly the rows that expired or were revoked more than thirty days ago, and reports how many |
| `Calendar.YearOf` | src/modules/notifications/format-local-time.ts:18-33 | The year whose days include this one (ECMA-262 section 21.4.1) |
| `Calendar.CivilRoundTrip` | src/modules/notifications/format-local-time.ts:18-33 | Year, month and date name the day they were read from |
| `Calendar.CivilIsRead` | src/modules/notifications/format-local-time.ts:18-33 | A date that exists is read back as itself |
| `Calendar.DaysAreCounted` | src/modules/notifications/format-local-time.ts:18-33 | Day 0 is 1 January 1970, and years have 365 or 366 days by the Gregorian rule (ECMA-262 section 21.4.1) |
| `Calendar.MonthsAreCounted` | src/modules/notifications/format-local-time.ts:18-33 | Months follow one another with their own numbers of days |
| `LocalTime.PrintedPairNamesMinute` | src/modules/notifications/format-local-time.ts:26-33 | Two instants print the same (date, time) pair exactly when they share their minute |
| `LocalTime.PrintsLocal` | src/modules/notifications/format-local-time.ts:26-33 | What is printed: year, month and date of the local day, and the minute of the day on a twelve-hour clock with AM before noon and PM after it, three hours ahead of UTC |
| `LocalTime.OwnDayContains` | src/modules/notifications/format-local-time.ts:18-24 | An instant lies in its own 24-hour range exactly when its local year is not 0 to 99 |
| `LocalTime.BoundsAre` | src/modules/notifications/format-local-time.ts:18-24 | A range is the 24 hours from the local midnight of the date that `Date.UTC` makes of the local one |
| `LocalTime.SameDayAgreement` | src/modules/notifications/format-local-time.ts:18-33 | Away from those years: same range exactly when the same date is printed |
| `LocalTime.RangesPartition` | src/modules/notifications/format-local-time.ts:18-24 | Ranges sharing an instant are the same range |
| `LocalTime.MisreadYearsDisagree` | src/modules/notifications/format-local-time.ts:18-24 | Every instant of a misread year shares its range with one printed as another date |
| `LocalTime.BoundsExistExactly` | src/modules/notifications/format-local-time.ts:18-24 | When both returned instants are valid at all |
| `CursorValues.NumberTextExactly` | src/common/repositories/base.repository.ts:18-31 | The code's test for a number text accepts exactly what some double prints as |
| `CursorValues.PatternExactly` | src/common/repositories/base.repository.ts:12-17 | Which texts have the ISO date-time pattern: a head to the second, perhaps a fraction, and a Z |
| `CursorValues.FractionIs` | src/common/repositories/base.repository.ts:18-25 | A fraction counts to the millisecond, missing digits as zeros |
| `CursorValues.IsoTextIs` | src/common/repositories/base.repository.ts:27-31 | A date with a four-digit year is written as its fields in the ISO format, place by place |
| `CursorValues.LongYearReads` | src/common/repositories/base.repository.ts:27-31 | Any other year is written with a sign and six digits |
| `CursorValues.SpelledDates` | src/common/repositories/base.repository.ts:18-25 | A text of the ISO form with milliseconds is read as the moment it spells, if there is one |
| `CursorValues.DateRoundTrip` | src/common/repositories/base.repository.ts:18-31 | A date survives exactly when its year has four digits |
| `CursorValues.CarriedExactly` | src/common/repositories/base.repository.ts:18-31 | Which sort values come back from a cursor as themselves: doubles, dates with a four-digit year, and texts that read neither as a date nor as a number |
| `Paging.FindMany` | src/common/repositories/base.repository.ts:97-124 | One page is the first rows of some sorted list of what lies ahead of the cursor, ties in any order, with a next cursor naming its last row exactly when more rows are ahead |
| `Paging.SameKeys` | src/common/repositories/base.repository.ts:107-115 | Sorting a table two ways puts the same keys in the same places |
| `Paging.CutAt` | src/common/repositories/base.repository.ts:101-106 | A cursor cuts the sorted table right behind its last tied row |
| `Paging.AheadIsTail` | src/common/repositories/base.repository.ts:101-106 | What lies ahead of a cursor is what follows its cut |
| `Paging.PagesConcatSorted` | src/common/repositories/base.repository.ts:97-124 | Pages come in order |
| `Paging.WalkAll` | src/common/repositories/base.repository.ts:97-124 | If the keys that can end a full page survive the cursor, following `nextCursor` terminates, never repeats a row, and misses none exactly when no multiple of the limit falls between tied rows |
| `Paging.CursorsAtBoundaries` | src/common/repositories/base.repository.ts:97-124 | Where no boundary splits a tie, the keys that must survive the cursor are those at the ends of full pages and their ties, and no other |
| `Paging.DistinctMeansExact` | src/common/repositories/base.repository.ts:97-124 | With distinct sort values no page boundary splits a tie, and a walk that misses nothing is exactly the filtered sorted list |
| `BlobSweep.Worker.SweepOrphanedBlobs` | src/queue/jobs/cleanup.job.ts:135-169 | Whatever changes between its reads, the sweep asks for exactly the deletions those reads justify, and counts them |
| `BlobSweep.Worker.CollectReportKeys` | src/queue/jobs/cleanup.job.ts:139-144 | Each organization's report keys, read one after another |
| `BlobSweep.SweptExactly` | src/queue/jobs/cleanup.job.ts:152-163 | A key is deleted exactly when it was listed, is a day old at the cutoff, and no read returned it |
| `BlobSweep.ReadsAreCapped` | src/modules/reports/repositories/report.repository.ts:122-128 | What a read returns of a table beyond its cap |
| `BlobSweep.OwnedIsSeen` | src/queue/jobs/cleanup.job.ts:139-152 | A row kept from before the first read it needs is seen |
| `BlobSweep.SparedExactly` | src/queue/jobs/cleanup.job.ts:139-163 | For each kind of owner, an upload is spared in every history exactly when its row is there at the first read it needs or it is younger than a day at the cutoff |
| `BlobSweep.SafeDelay` | src/queue/jobs/cleanup.job.ts:139-163 | For each kind of owner, the safe delay between upload and row is exactly 24 hours less the time from that first read to the cutoff |
| `BlobSweep.LateRowIsSwept` | src/queue/jobs/cleanup.job.ts:139-144 | For each kind of owner a history with a late row loses its blob; a report of an organization created after the id read is missed although every key read follows its row |
| `BlobSweep.PlanMediaGoesAfterADay` | src/queue/jobs/cleanup.job.ts:146-163 | A blob owned only by a `PlanContentMedia` row is deleted exactly when it is a day old |
| `BlobSweep.PlanMediaIsSwept` | src/queue/jobs/cleanup.job.ts:146-163 | A concrete plan-content upload, owned throughout, that is deleted |
| `Positions.NextIs` | src/modules/levels/services/level.service.ts:63 | The two facts that determine max + 1 numbering |
| `Positions.NextIsFree` | src/modules/levels/services/level.service.ts:51-64 | The next position is free |
| `Positions.PhaseSpreads` | src/modules/levels/repositories/level.repository.ts:75-85 | After every single write of a phase positions are still distinct, and only the rows written so far have moved |
| `Positions.PhaseSucceedsExactly` | src/modules/levels/repositories/level.repository.ts:75-85 | A phase succeeds exactly when no waiting row sits where an earlier one goes |
| `Positions.ReorderSucceedsExactly` | src/modules/levels/repositories/level.repository.ts:75-85 | A reorder fails exactly on such a collision with the temporary range; otherwise it ends as 0, 1, 2 ... in the requested order and moves nothing else |
| `Positions.LowPositionsNeverCollide` | src/modules/levels/repositories/level.repository.ts:67-85 | Positions below the temporary range never collide |
| `Positions.AcceptedPermutes` | src/modules/levels/services/level.service.ts:163-176 | Length, membership and distinctness together make a permutation of the siblings |
| `Positions.DoneAsRequestedExactly` | src/modules/levels/services/level.service.ts:157-176 | An accepted and completed reorder is as requested exactly when the order has no repeated id |
| `Positions.RunKeepsUnique` | src/modules/outcomes/repositories/outcome.repository.ts:57-97 | Over any run of create, duplicate, delete and reorder positions stay distinct |
| `Positions.StepDoes` | src/modules/outcomes/services/outcome.service.ts:49-216 | What create, duplicate, delete and reorder answer and do to every row, a delete being refused while anything is attached |
| `Positions.RunDoesEach` | src/modules/outcomes/services/outcome.service.ts:49-216 | Over any run each operation does this on the table its predecessors left |
| `Positions.LastWriteCounts` | src/modules/levels/repositories/level.repository.ts:75-85 | In a phase a row ends where it is named last |
| `Positions.NumberingNeverConflicts` | src/modules/outcomes/repositories/outcome.repository.ts:76-97 | Create and duplicate never meet the constraint; the new row goes behind all its siblings and nothing else changes |
| `Positions.RunKeepsWithin` | src/modules/outcomes/services/outcome.service.ts:59-73 | Positions never exceed the number of siblings by more than the deletions since the last reorder |
| `Positions.ReorderSucceedsAfterRun` | src/modules/levels/repositories/level.repository.ts:75-85 | After at most 1000 deletions since the last reorder any order of the siblings is carried out |
| `Positions.OneDeletionMoreCanFail` | src/modules/levels/repositories/level.repository.ts:67-85 | With 1001 deletions a reorder can be refused |
| `Positions.Store.MaxPlusOne` | src/modules/outcomes/services/outcome.service.ts:59-71 | The running maximum over the siblings is the next position |
| `Positions.Store.Create` | src/modules/outcomes/services/outcome.service.ts:49-86 | The service answers and leaves what the step says |
| `Positions.Store.Duplicate` | src/modules/outcomes/repositories/outcome.repository.ts:76-97 | Likewise for a copy |
| `Positions.Store.Delete` | src/modules/outcomes/services/outcome.service.ts:158-183 | Likewise for a delete, refused while anything is attached |
| `Positions.Store.WriteOrder` | src/modules/levels/repositories/level.repository.ts:75-85 | Both phases or nothing |
| `Positions.Store.Reorder` | src/modules/outcomes/services/outcome.service.ts:186-216 | The service check, then the transaction |
| `Lockout.Accounts.SignInWithPassword` | src/modules/auth/services/auth.service.ts:286-333 | Changes the one account as the step says, or nothing |
| `Lockout.LockoutBound` | src/modules/auth/services/auth.service.ts:296-314 | From any account state, a window of length W without a sign-in has at most 5 + floor(W / 15 min) failed verifications |
| `Lockout.LockoutBoundIsReached` | src/modules/auth/services/auth.service.ts:296-314 | Some run reaches that bound for every number of lock windows |
| `Lockout.RowRemembers` | src/modules/auth/services/auth.service.ts:302-314 | Count and lock are determined by the failures since the last sign-in |
| `Lockout.RightPasswordIsRefusedExactly` | src/modules/auth/services/auth.service.ts:296-315 | A right password is refused exactly within 15 minutes of the latest of at least five failures since the last sign-in, and clears them when accepted |
| `Lockout.AnswersExactly` | src/modules/auth/services/auth.service.ts:286-333 | After any attempts, an attempt is refused exactly if the account has no password, is inactive or is locked out, and otherwise signs in exactly with the right password |
| `Verdict.ComputeWeightedScore` | src/modules/agent/services/verdict.service.ts:23-44 | The loop computes the weighted score |
| `Verdict.TotalIs` | src/modules/agent/services/verdict.service.ts:23-44 | The total is the weighted mean share in percent over all the weight, rounded to the nearest whole number, halves up; 0 without criteria |
| `Verdict.FlatPush` | src/modules/agent/services/verdict.service.ts:30-32 | The judgements of all answers, whole and in order |
| `Verdict.VerdictIs` | src/modules/agent/services/verdict.service.ts:46-53 | Achieved from the threshold on, partially achieved from six tenths of it on, otherwise not achieved |
| `Verdict.TotalIsPercentage` | src/modules/agent/services/verdict.service.ts:23-44 | Scores within scale and weights at least zero give a whole number from 0 to 100 |
| `Verdict.TotalIgnoresOrder` | src/modules/agent/services/verdict.service.ts:30-38 | Order and grouping of answers and order of criteria do not matter |
| `Verdict.RaisingNeverLowers` | src/modules/agent/services/verdict.service.ts:23-53 | Raising any scores lowers neither total nor verdict |
| `Verdict.EvenScoresTotal` | src/modules/agent/services/verdict.service.ts:26-43 | When every counted score is the same share of its maximum the total is that share of the judged weight over all the weight |
| `AssignmentRuns.EveryRun` | src/modules/learners/repositories/learner-assignment.repository.ts:57-112 | After any run: one active assignment a learner, one row an outcome, `achievedAt` exactly on achieved rows |
| `AssignmentRuns.StepKeeps` | src/modules/learners/services/learner-assignment.service.ts:32-199 | Every request keeps the whole invariant |
| `AssignmentRuns.AssignStartsExactly` | src/modules/learners/repositories/learner-assignment.repository.ts:76-112 | The new assignment is the only active one, has one row for each enabled outcome, ACHIEVED exactly if some earlier row of the learner was, and leaves every other row alone |
| `AssignmentEffects.AssigningAssigns` | src/modules/learners/repositories/learner-assignment.repository.ts:76-112 | A new assignment: who is retired, which rows are created, and every field of each, position and base membership included |
| `Assignments.MaterializeFacts` | src/modules/learners/repositories/learner-assignment.repository.ts:94-108 | The rows of a new assignment, written one by one |
| `Assignments.PatchExactly` | src/modules/learners/services/learner-assignment.service.ts:114-199 | A patch succeeds exactly when every added outcome exists and no removed one is a base outcome; then the outcomes are the old plus the added less the removed; no base row ever goes |
| `Assignments.PatchPrioritiesExactly` | src/modules/learners/services/learner-assignment.service.ts:190-196 | Afterwards an outcome has the last priority given for it, and rows given none are as they were |
| `AssignmentEffects.PatchingPatches` | src/modules/learners/services/learner-assignment.service.ts:114-199 | How far a patch gets, done or refused: which new custom rows it creates with which fields, which rows it removes, and which priority each row ends with |
| `RefusedPatches.RefusedPatchLeavesRowsExactly` | src/modules/learners/services/learner-assignment.service.ts:114-199 | A refused patch leaves the rows alone exactly when, up to the refused item, every added outcome was there already or is removed again and no removal names an outcome that was there |
| `RefusedPatches.RowsStayExactly` | src/modules/learners/services/learner-assignment.service.ts:132-188 | The same for any number of additions and removals carried out |
| `RefusedPatches.RefusedPatchStops` | src/modules/learners/services/learner-assignment.service.ts:132-188 | A refused patch ends with what came before the refused item, and changes no priority |
| `RefusedPatches.RefusedPatchKeepsAdditions` | src/modules/learners/services/learner-assignment.service.ts:132-148 | For example a new outcome followed by an unknown one: the patch is refused and the first one stays |
| `Assignments.ApplyVerdictKeeps` | src/modules/learners/repositories/learner-outcome.repository.ts:44-61 | A verdict keeps the invariant, the row's history and its events |
| `AssignmentRuns.EscalationExactly` | src/modules/agent/services/update-learner-outcomes.ts:33-53 | A row's events number its failing verdicts less one exactly if the first failed, carry in increasing order the attempt counts of the later failures, and the row shows exactly its last verdict |
| `AssignmentRuns.CompletingCompletes` | src/modules/agent/services/update-learner-outcomes.ts:24-73 | The same of the specified step, for any list of outcomes |
| `AssignmentRuns.StepDoes` | src/modules/learners/services/learner-assignment.service.ts:32-199 | What an assign, patch, deactivation or completion answers and does to every assignment, row and event |
| `AssignmentRuns.RunDoesEach` | src/modules/learners/services/learner-assignment.service.ts:32-199 | Over any run from nothing each request does this in the state its predecessors left |
| `AssignmentRuns.LearnerService.Assign` | src/modules/learners/services/learner-assignment.service.ts:32-95 | The method answers with its refusals, or retires what was active and creates the assignment and its rows, every field of them said |
| `AssignmentRuns.LearnerService.AssignOutcomes` | src/modules/learners/repositories/learner-assignment.repository.ts:76-112 | Retire, create, one row an outcome |
| `AssignmentRuns.LearnerService.DeactivateAllForLearner` | src/modules/learners/repositories/learner-assignment.repository.ts:57-63 | Retires what is active, never more than one |
| `AssignmentRuns.LearnerService.PatchOutcomes` | src/modules/learners/services/learner-assignment.service.ts:114-199 | Three loops over a local copy that stays equal to the stored rows; how far they get and what becomes of every row |
| `AssignmentRuns.LearnerService.WriteVerdict` | src/modules/learners/repositories/learner-outcome.repository.ts:44-61 | The row update and the repeat-failure report |
| `AssignmentRuns.LearnerService.UpdateLearnerOutcomes` | src/modules/agent/services/update-learner-outcomes.ts:24-73 | Every row of the active assignment whose outcome is listed gets status, score and date of the verdict and one attempt for each time it is listed; no other row changes; the events published are exactly those of listed rows that fail after an earlier attempt, in order |

## Left out

- MeetingProtocol.OneEventPerSession: does not extend to the reschedule and recreate branch of the update job, which records no event created without a join URL.
- MeetingProtocol.NoOrphanMeeting: covers the CANCELLED branch only, for the same reason.
- Tenancy.RunsAsIfAlone: is about columns that are not unique across organizations; `SharedKeys.AsIfAloneExactly` is the exact form with them.
- Tenancy.NonInterference: likewise; `SharedKeys.IndistinguishableExactly` is the exact form.
- SharedKeys.IndistinguishableExactly: takes a new row's required columns as given; unique pairs that include the organization cannot meet another one's rows and are left out, and so is an update that sets a column to null.
- BlobSweep.SparedExactly: takes `storage.list` as one read, although it is paged, and a key as named by one upload.
- LocalTime.PrintedPairNamesMinute: is about instants as numbers of milliseconds; an invalid date is not modelled.
- CursorValues.CarriedExactly: takes number printing and reading as a lawful pair of functions, so digit-by-digit conversion, negative zero and the infinities are not modelled; an ISO-shaped text with an impossible date is read as an invalid date, where an engine may be more lenient; JSON and base64url (section 5 of RFC 4648) are taken as a faithful carrier.
- Paging.WalkAll: is about the default order and a fixed table; a caller-supplied `orderBy`, or a filter on the sort field, is outside it.
- Recommendations.Score: sums over the reals, so two scores that differ by rounding alone are equal here; semantic distances are an input, since the vector store never returns one.
- Recommendations.ScoreContent: likewise.
- Recommendations.TopPicksByEvidence: likewise; rounding can separate items of equal evidence.
- Positions.StepDoes: does not say when a reorder with repeated ids meets a conflict, only that it is then undone.
- Verdict.TotalIs: uses reals where the code uses floating point.
- Verdict.ComputeWeightedScore: uses reals where the code uses floating point.
- Verdict.TotalIgnoresOrder: likewise; a floating-point sum can depend on the order.
- AssignmentRuns.EveryRun: takes each request as one step, so two assign requests that interleave are not covered.
- Candidate pools built from a plan snapshot, recommendation confirmation, explanations and persistence: easier variants of what is here.
- The transcript, audit-log, handshake and temp-folder sweeps: batch loops without interplay.
- Unscoped `findUnique` and `upsert`, and nested relation filters in a `where`: the rewriter does not touch them.
- Level keys, audit rows, notifications, mail, reports, PDF rendering, routing, validation schemas and mappers: no state that the properties depend on.
- The foreign keys of deleting a learner with dependents, label normalisation and analytics: not part of this model.
- Cryptography, JWT signing and duration-text parsing: taken as given.
