# Verification model of the trip-planning backend

This project models the parts of the backend that keep a strong guarantee over every run, and
proves those guarantees with Dafny. `dafny verify dfyconfig.toml` checks all of it.

| module | what it is about |
|---|---|
| `Availability`, `TripDates` | When a party is free together, which dates a trip gets and how long it is. Ranges on consecutive days are not joined, so a list of ranges means a set of half days: its days, and the nights between them. |
| `ItineraryVersions`, `ItineraryPersistence` | The version history of one trip. The first module is a protocol of single steps (insert, re-read, judge, supersede, check, approve or reject) by any number of runs and members; the second holds the optimistic-lock loop of one run and the decision of one member, each shown to be one execution of that protocol whatever the others do between its calls. |
| `Itineraries`, `Conflicts`, `Regeneration`, `RegenerationFacts`, `Additions`, `TimeOrder`, `Refinement`, `Accounting`, `Promises`, `Negotiation` | Refining a plan from feedback: affected scope, conflict report, winning rows, accepted drafts and the time order of the day they go into, the rebuilt days, the exact account of what was honoured, and what that means for the proposal as a whole. |
| `Tallies`, `VoteSessions`, `VoteProgress`, `UninterruptedVotes`, `LateVotes` | Votes: tally and winner, whole operations over whole runs, the same operations interleaved call by call, that calls nobody interrupts do what the whole operation does, and what a closed vote still promises when somebody does. |
| `AgentRuns`, `SplitMarks` | One run row, any number of executors and reclaimers on it, and the background executor; and the row's marks with their reading and their writing apart. |
| `Guardrails`, `LlmClient`, `ExternalTools` | The bounded loops: repair, the model chain with cooldowns, the capped and cached tool call. |
| `Sorting`, `Text`, `Wrappers` | A stable sort, text order and trimming, `Option`. |

A date is its day number, day 1 being a Monday. Money and clock times of the model client are
reals. The database is modelled by the rows it holds and by the rules it enforces: one version
number per trip, the source check, one approved version, one vote per member and session, no tie
held on a closed vote. These are inputs, of any value: the parsed dates, the replies of models and
tools, the outcome, count and direction read from a comment, the drafted revisions and additions.

Where the code does not give what its comments or its callers suggest, the code is modelled as it
is; a lemma gives an input that shows it, and another says exactly when it does hold:

- A settled version can be settled again, because deciding reads its status and writes it in two
  calls: `ItineraryVersions.StaleCheckOverwritesApproval`. Settled versions stay settled exactly if
  every effective decision finds its version still proposed when it is written:
  `ItineraryVersions.SettledStaysExactlyWhen`.
- A retry after a lost race re-inserts the plan built from the old base and so undoes every change
  the winner made outside the scope: `Accounting.RetryCanUndoTheWinnersChange` gives two versions,
  the feedback and its scope. It gives what the latest version would give exactly if the winner
  changed nothing: `Accounting.RetryMatchesLatestExactlyWhen`.
- Two accepted drafts of one row can put a day out of time order:
  `TimeOrder.TwoDraftsCanBreakTimeOrder`. They do not exactly if any two for the same gap differ in
  time and those after its left neighbour precede those before its right one:
  `TimeOrder.AcceptedDraftsKeepTimeOrderExactlyWhen`. With several rows, a rebuilt day is in time
  order exactly if its edits left it so and every row that inserts meets that condition on the day
  as it stands at its turn: `TimeOrder.RebuiltDayInTimeOrderExactlyWhen`.
- If a vote's category cannot be resolved, the last cast stores its vote and then fails, and the
  vote stays open with nobody left to vote: `VoteProgress.VoteWithoutCategoryGetsStuck`. However the
  calls interleave, a full vote that nobody retired is settled exactly if its category is known:
  `VoteProgress.FullVoteIsSettledExactlyWhen`.
- A cast that read a vote as open can still store its vote after the vote was closed, and overtake
  the option that was locked: `LateVotes.LateVoteOvertakesTheLock`. A closed vote is frozen exactly
  if no such cast is left (`LateVotes.ClosedVoteIsFrozenExactlyWhen`), and an option keeps its lead
  exactly if no other option can end with more members than are bound to it
  (`LateVotes.LeadSurvivesExactlyWhen`).
- A second executor of the same row can fail the run the first one is working on:
  `AgentRuns.SecondExecutorFailsTheFirst`. A starting executor does so exactly if it finds the row
  running (`AgentRuns.StartingExecutorFailsTheRunExactlyWhen`), and over whole executions a run is
  failed by somebody else exactly if that executor was refused its start while the row was running
  and recovered while it still was (`AgentRuns.RivalFailedTheRunExactlyWhen`).
- A mark of a run row reads and checks the row in one call and updates it by id in another. Two
  executors that both read the pending row are both granted their start
  (`SplitMarks.TwoStartsCanBeGranted`), and a completed run can become a failed one
  (`SplitMarks.CompletedRunCanBeFailed`). At most one start is granted, and the run is dispatched at
  most once, exactly if every granted start still finds the row without a start time
  (`SplitMarks.StartedOnceExactlyWhen`, `SplitMarks.DispatchedAtMostOnceExactlyWhen`). A terminal row
  is final exactly if no start is waiting to be written, and no outcome but the one the row has
  (`SplitMarks.TerminalIsFinalExactlyWhen`).
- The tool documentation counts every attempt against the cap, but a failed invocation raises and
  returns no state, so its attempts are lost: `ExternalTools.FailedInvocationsAreNotCounted`. An
  invocation's attempts are counted exactly if it brings a valid response
  (`ExternalTools.AttemptsAreCountedExactlyWhen`), and all attempts of a run exactly if none of its
  invocations fails (`ExternalTools.EveryAttemptIsCountedExactlyWhen`). Today's only caller,
  backend/app/agents/nodes/logistics.py:386, makes one invocation a run and lets its failure end the
  run, so it never meets the uncounted case; a caller that catches the failure and goes on would.
- A plan's note can say that it was shortened for money although money shortened nothing:
  `TripDates.BudgetNoteCanBeIdle`. That is so exactly if the stay is not affordable and already no
  longer than two days: `TripDates.BudgetNoteIsIdleExactlyWhen`.
- `Conflicts.ReportIgnoresRowOrder` needs item ids to be non-empty, as the plan's schema demands;
  a whole day and an item with an empty id would sort alike.

## Model

| member | source | states |
|---|---|---|
| Availability.CanonicalUnique | backend/app/agents/group_profile.py:96-108 | Two sorted, strictly separated lists of ranges that cover the same half days are the same list. |
| Availability.StretchInOneRange | backend/app/agents/group_profile.py:96-108 | A stretch of days lies inside one merged range exactly when all its days and inner nights are covered. |
| Availability.UsableEntriesAreTheWellFormedOnes | backend/app/agents/group_profile.py:59-78 | Reading a member's entries keeps exactly those with two parsed dates in order; the others constrain nothing. |
| Availability.ExtractRanges | backend/app/agents/group_profile.py:59-78 | The usable ranges of a raw value, in order; anything but a list gives none. |
| Availability.Merge | backend/app/agents/group_profile.py:96-108 | The canonical list of the same half days. |
| Availability.Intersect | backend/app/agents/group_profile.py:81-93 | The canonical list of the half days covered by both lists. |
| Availability.ComputeAvailabilityOverlap | backend/app/agents/group_profile.py:111-137 | The overlap is canonical and covers a half day exactly when somebody supplied dates and every member who did covers it. |
| Availability.EmptyStaysEmpty | backend/app/agents/group_profile.py:131-135 | Stopping at an empty overlap changes nothing: no later member can bring time back. |
| Availability.OverlapDependsOnTimeOnly | backend/app/agents/group_profile.py:111-137 | The overlap depends only on the time each date-supplying member asks for. |
| Availability.MemberOrderIrrelevant | backend/app/agents/group_profile.py:111-137 | Permuting the members gives the identical list. |
| Availability.RestatingOneMemberIrrelevant | backend/app/agents/group_profile.py:111-137 | A member who states the same time in other pieces gives the identical list. |
| Availability.WhereARangeMayBeCut | backend/app/agents/group_profile.py:96-108 | Cutting a range at a shared end day is the same time; cutting it between two consecutive days is not. |
| TripDates.Windows | backend/app/core/trip_dates.py:47-58 | The usable windows of a stored overlap, in order. |
| TripDates.StoredOverlapReadsBack | backend/app/core/trip_dates.py:47-58 | Storing an overlap and reading its windows back is the identity. |
| TripDates.Longest | backend/app/core/trip_dates.py:61-63 | The length of the longest window, 0 without windows. |
| TripDates.WeekendDays | backend/app/core/trip_dates.py:66-67 | The number of Saturdays and Sundays in the stretch, day 6 being the first Saturday. |
| TripDates.CandidateStarts | backend/app/core/trip_dates.py:80-87 | Exactly the starts from which the whole stretch stays inside one window. |
| TripDates.PickDates | backend/app/core/trip_dates.py:70-94 | Nothing exactly when no start fits; otherwise the start no candidate beats by tier (tomorrow on, today, past), then weekend days, then earliest. |
| TripDates.MostWeekend | backend/app/core/trip_dates.py:90-94 | The start with the most weekend days, the earliest among equals. |
| TripDates.BestStartUnique | backend/app/core/trip_dates.py:70-94 | The choice depends only on which starts fit. |
| TripDates.BestStartMeans | backend/app/core/trip_dates.py:90-94 | A start is best exactly if it is after today where any is, not past where any is, and none like it has more Saturdays and Sundays, or as many and comes earlier. |
| TripDates.AWeekGivesItsWeekend | backend/app/core/trip_dates.py:90-94 | Two days out of the week that begins on Monday 8 are Saturday 13 and Sunday 14. |
| TripDates.CandidateMeansFreeForEveryone | backend/app/core/trip_dates.py:70-94 | A stretch fits the overlap exactly when it lies inside one merged range of every member who supplied dates. |
| TripDates.ChooseLength | backend/app/core/trip_dates.py:110-124 | The longest affordable length up to the wanted one and the longest window, with a floor of two days or that window; and which note explains it. |
| TripDates.AffordableUpTo | backend/app/core/trip_dates.py:118-121 | Flooring the quotient gives exactly the lengths whose cost fits the budget share. |
| TripDates.PlanTrip | backend/app/core/trip_dates.py:97-128 | A plan exactly when a window exists; right length, best start for it, end on the last day, right note. |
| TripDates.SuggestionIsFollowed | backend/app/core/trip_dates.py:110-115 | Where days are free and affordable, the trip is as long as suggested, between 2 and 14 days, and 5 days long without a suggestion. |
| TripDates.PlanFitsTheBudget | backend/app/core/trip_dates.py:117-122 | A stay of more than two days costs at most six tenths of the limit, and one day more would cost more, unless the trip is as long as was asked for or is free. |
| TripDates.BudgetNoteIsIdleExactlyWhen | backend/app/core/trip_dates.py:111-124 | The note blames the budget although money shortened nothing exactly if the stay is not affordable and is no longer than two days already. |
| TripDates.BudgetNoteCanBeIdle | backend/app/core/trip_dates.py:111-124 | A shared window of two days and an unaffordable stay: the trip is as long as without a budget, yet the note blames it. |
| TripDates.CheckChange | backend/app/services/trip_dates_service.py:111-124 | Accepted exactly when the length is in range, the start is not past and the stretch lies inside one window; otherwise the first failing check, in that order. |
| TripDates.AllowedLengths | backend/app/services/trip_dates_service.py:80-85 | A change may ask for 2 to 14 days up to the longest window, or for 1 where that is all there is. |
| TripDates.PlansPassTheChangeChecks | backend/app/services/trip_dates_service.py:56-80 | Every plan satisfies the length and window checks, and starts in the past only if every fitting stretch does. |
| ItineraryVersions.Highest | backend/app/repositories/itinerary_version_repository.py:64-86 | The highest stored version number, 0 when there is none. |
| ItineraryVersions.NextKeepsInv | backend/app/agents/nodes/itinerary.py:165-207 | Every step of any run or member keeps the invariant of the version table and of all runs in flight. |
| ItineraryVersions.HistoryIsWellNumbered | backend/app/agents/nodes/itinerary.py:165-207 | In every execution the versions are 1..n, only version 1 is a build, at most one is approved, and each proposed version below the highest is covered by a pending supersede. |
| ItineraryVersions.QuietTripHasOneProposal | backend/app/repositories/itinerary_version_repository.py:178-194 | When no run is between its insert and its supersede, only the highest version can be proposed. |
| ItineraryVersions.HistoryOnlyGrows | backend/app/repositories/itinerary_version_repository.py:117-160 | No row is lost or rewritten apart from its status, and no status returns to proposed. |
| ItineraryVersions.SettledRowsAreSafe | backend/app/repositories/itinerary_version_repository.py:178-194 | Only a member's decision on that very version changes a row that is not proposed; superseding never does. |
| ItineraryVersions.OneRowPerRunAtMost | backend/app/agents/nodes/itinerary.py:163-210 | A run inserts at most three times, owns the one row it stored or none, and gives up exactly on its third collision. |
| ItineraryVersions.BaseIsTheLastRead | backend/app/agents/nodes/negotiation.py:1018 | In every execution a run's base is the highest version at its own begin or its last re-read. |
| ItineraryVersions.CollisionIsWitnessed | backend/app/agents/nodes/itinerary.py:176-186 | In every execution, a run that lost the race was overtaken: since its own begin or its last re-read, another run inserted the very number it was about to take. |
| ItineraryVersions.InsertCollidesExactlyWhen | backend/app/agents/nodes/itinerary.py:165-186 | In every execution, an insert whose source fits collides exactly if the run was overtaken; otherwise it adds the next version, with the run's plan. |
| ItineraryVersions.UndisturbedRunStoresTheNext | backend/app/agents/nodes/itinerary.py:165-207 | After any history, a run that begins and has the table to itself stores the next version and retires every older proposal; with the wrong source it adds nothing. |
| ItineraryVersions.CollisionRaisesBase | backend/app/agents/nodes/itinerary.py:184-196 | Re-reading after a collision strictly raises the run's base version. |
| ItineraryVersions.OthersLeaveTheRunAlone | backend/app/agents/nodes/itinerary.py:163-210 | What others do never changes a run's own state. |
| ItineraryVersions.StaleCheckOverwritesApproval | backend/app/services/refine_service.py:142-195 | Two decisions checked on the same proposal can turn an approved version into a rejected one. |
| ItineraryVersions.StepOverwritesExactlyWhen | backend/app/services/refine_service.py:142-195 | A step changes a settled version exactly if it writes a decision whose version was settled since its check, and the write has an effect. |
| ItineraryVersions.SettledStaysExactlyWhen | backend/app/services/refine_service.py:88-195 | In every execution, whatever is settled stays settled the same way exactly if every effective decision finds its version still proposed at its write. |
| ItineraryVersions.LateDecisionOverwritesExactlyWhen | backend/app/services/refine_service.py:142-166 | However long after its check a decision is written, it changes a settled version exactly if its own version was settled in between, and the write has an effect. |
| ItineraryPersistence.VersionRepository.InsertVersion | backend/app/repositories/itinerary_version_repository.py:117-160 | Adds one proposed row under its number, or reports that the number is taken and changes nothing. |
| ItineraryPersistence.VersionRepository.GetLatest | backend/app/repositories/itinerary_version_repository.py:64-86 | A stored version no other exceeds, 0 when there is none. |
| ItineraryPersistence.VersionRepository.SupersedeLowerVersions | backend/app/repositories/itinerary_version_repository.py:178-194 | Retires exactly the proposed rows below the bound. |
| ItineraryPersistence.VersionRepository.MarkApproved | backend/app/repositories/itinerary_version_repository.py:196-231 | Sets the one status exactly if no other version is approved; otherwise changes nothing. |
| ItineraryPersistence.VersionRepository.MarkRejected | backend/app/repositories/itinerary_version_repository.py:233-252 | Sets the one status and leaves every other row, and the rest of this one, as it was. |
| ItineraryPersistence.VersionRepository.BeginCall | backend/app/agents/nodes/negotiation.py:1018 | A run begins with the highest stored version as its base, 0 without one; one protocol step. |
| ItineraryPersistence.VersionRepository.CheckCall | backend/app/services/refine_service.py:186-195 | The check is one protocol step; only a proposed version goes on to be decided. |
| ItineraryPersistence.VersionRepository.PrecheckCall | backend/app/repositories/itinerary_version_repository.py:206-210 | Before an approval is written, gives up exactly if another version is approved. |
| ItineraryPersistence.VersionRepository.MarkCall | backend/app/repositories/itinerary_version_repository.py:212-252 | The write is one protocol step; it is refused exactly when it is an approval and another version is approved. |
| ItineraryPersistence.DecideVersion | backend/app/services/refine_service.py:142-166 | A member's decision, its check and its write in separate calls, is one execution of the protocol; each outcome says what the version is then, and only a decided or duplicate one was written or tried. |
| ItineraryPersistence.PersistItineraryVersion | backend/app/agents/nodes/itinerary.py:106-210 | The loop is one execution of the protocol; it stores base + 1, declines exactly on a refusal after the first or second collision, and raises contention exactly after the third. With nobody else about, it stores the number after the latest. |
| ItineraryPersistence.Attempt | backend/app/agents/nodes/itinerary.py:165-207 | One turn of the loop: stored and superseded, or one more lost race with a strictly higher base. |
| ItineraryPersistence.RowsOf | backend/app/agents/nodes/itinerary.py:163-210 | After any execution the run's rows are exactly what it reports: its own plan under its number, or nothing. |
| Itineraries.LocateItem | backend/app/agents/nodes/negotiation.py:119-135 | Finds the day of an item id, or shows that no day has it. |
| Itineraries.ResolveTarget | backend/app/agents/nodes/negotiation.py:138-177 | Exactly the target the raw value names: an item of the plan first, then a day of the plan; none otherwise. |
| Itineraries.IdNamesOnePosition | backend/app/agents/proposals.py:202-210 | In a valid day an id names one position. |
| Itineraries.TouchedIds | backend/app/agents/nodes/negotiation.py:228-260 | Exactly the ids a target touches: all of a named day, or the item, its neighbours and the items that share its stated time. |
| Itineraries.ComputeAffectedScope | backend/app/agents/nodes/negotiation.py:213-265 | The scope holds exactly the named whole days and the touched ids. |
| Conflicts.RuleFindsConflicts | backend/app/agents/nodes/negotiation.py:431-444 | The rule on all rows of a target finds exactly the targets with two incompatible rows. |
| Conflicts.DetectConflicts | backend/app/agents/nodes/negotiation.py:407-455 | One entry per conflicting target, with its sorted ids and outcomes, in report order. |
| Conflicts.ReportIgnoresRowOrder | backend/app/agents/nodes/negotiation.py:407-455 | Every permutation of the rows gives the identical report. |
| Conflicts.WinningFeedback | backend/app/agents/nodes/negotiation.py:458-477 | One winner per target, targets in order of first appearance. |
| Conflicts.OldestWinsConflictsNewestOtherwise | backend/app/agents/nodes/negotiation.py:458-477 | The oldest row wins a conflicting target, the newest any other. |
| Conflicts.WinnersAreWellAimed | backend/app/agents/nodes/negotiation.py:458-477 | Winners come from the requests, and different targets have different winning rows. |
| RegenerationFacts.EditsKeepIdentity | backend/app/agents/nodes/negotiation.py:485-514 | Only a removal drops the item; an edit keeps id, tags and cost, and a changed place loses its old place entry. |
| RegenerationFacts.UndraftedEditKeepsTheComment | backend/app/agents/nodes/negotiation.py:507-514 | Without a drafted rewrite the trimmed comment ends the description and nothing else changes. |
| Regeneration.EditDay | backend/app/agents/nodes/negotiation.py:561-584 | The edited items and the settled rows of one day. |
| Regeneration.InsertAdditions | backend/app/agents/nodes/negotiation.py:586-606 | The day after every addition that fits, in order of the targets. |
| Regeneration.RegenerateAffectedOnly | backend/app/agents/nodes/negotiation.py:517-616 | The new plan and the addressed ids, as the functions of the lemmas below. |
| RegenerationFacts.EditedHasId | backend/app/agents/nodes/negotiation.py:561-584 | An old id is still there exactly when its item was not dropped. |
| RegenerationFacts.EditedKeepsOrder | backend/app/agents/nodes/negotiation.py:561-584 | Editing keeps the order of the items that stay. |
| RegenerationFacts.AroundIds | backend/app/agents/nodes/negotiation.py:595-605 | Inserting adds exactly the drafted items whose anchors are there, each once. |
| RegenerationFacts.AroundKeepsOrder | backend/app/agents/nodes/negotiation.py:595-605 | Inserting keeps the order of the items already there. |
| RegenerationFacts.AroundPlaces | backend/app/agents/nodes/negotiation.py:595-605 | A drafted item stands on the requested side of its anchor. |
| Refinement.PassHonours | backend/app/agents/nodes/negotiation.py:586-606 | A row reported as inserted has all its drafts on their sides, also after later insertions. |
| Refinement.PassNoRepeats | backend/app/agents/nodes/negotiation.py:586-606 | Insertions repeat no id and never pass ten items. |
| Refinement.RefinedPlanIsValid | backend/app/agents/nodes/negotiation.py:517-616 | The refined plan is valid again: the same day numbers, 1 to 10 valid items a day, ids unique in the whole plan. |
| Additions.Requests | backend/app/agents/nodes/negotiation.py:670-676 | Drafts are asked for exactly the winning additions on days with room. |
| Additions.PrepareRow | backend/app/agents/nodes/negotiation.py:717-788 | A row's drafts are accepted all together, exactly when the count, the room, and every draft's anchor, direction, time, texts and id are right. |
| Additions.AcceptDrafts | backend/app/agents/nodes/negotiation.py:717-788 | Exactly the acceptable rows have drafts, each all of them, in order. |
| Additions.AcceptedDraftsAreFresh | backend/app/agents/nodes/negotiation.py:764-788 | Accepted items are valid, with ids that are new to the plan and all different. |
| Additions.AcceptedDraftsFitTheirDay | backend/app/agents/nodes/negotiation.py:736-742 | Accepted drafts are as many as asked for, fit their day, and hang on the named item when one is named. |
| TimeOrder.OneInserted | backend/app/agents/nodes/negotiation.py:595-605 | A single draft lands exactly next to its anchor and nothing else moves. |
| TimeOrder.InsertionKeepsTimeOrderExactlyWhen | backend/app/agents/nodes/negotiation.py:595-605 | Into a day in time order, drafts that fit their gaps leave it in order exactly if any two for the same gap agree. |
| TimeOrder.AcceptedDraftsKeepTimeOrderExactlyWhen | backend/app/agents/nodes/negotiation.py:739-759 | A row's accepted drafts keep the time order exactly if, in each gap, times differ and those after the left neighbour precede those before the right one. |
| TimeOrder.OneAdditionKeepsTimeOrder | backend/app/agents/nodes/negotiation.py:745-759 | A single accepted draft leaves a day in time order in time order. |
| TimeOrder.TwoDraftsCanBreakTimeOrder | backend/app/agents/nodes/negotiation.py:739-759 | Two accepted drafts between 09:00 and 11:00, asked for in one comment, put the day out of order. |
| TimeOrder.DayInTimeOrderExactlyWhen | backend/app/agents/nodes/negotiation.py:595-605 | After any insertion a day is in time order exactly if it was before, each draft lies in time between the items around its gap, and any two for the same gap agree. |
| TimeOrder.PassKeepsTimeOrderExactlyWhen | backend/app/agents/nodes/negotiation.py:586-606 | However many rows insert into a day, it comes out in time order exactly if it went in so and every row's drafts fit the day as it stands at that row's turn. |
| TimeOrder.RebuiltDayInTimeOrderExactlyWhen | backend/app/agents/nodes/negotiation.py:561-606 | A rebuilt day is in time order exactly if its edits and removals left it so and every inserting row fits at its turn. |
| Accounting.OtherDaysAreIdentical | backend/app/agents/nodes/negotiation.py:555-559 | A day outside the scope is carried forward as it is. |
| Accounting.OnlyScopedItemsChange | backend/app/agents/nodes/negotiation.py:517-616 | Every old item that was changed or dropped is in the computed scope of its day. |
| Accounting.SurvivorsKeepTheirOrder | backend/app/agents/nodes/negotiation.py:517-616 | Surviving old items keep their relative order. |
| Accounting.OldIdStaysHome | backend/app/agents/nodes/negotiation.py:517-616 | An old id is never found on another day. |
| Accounting.AddressedRowsAreWinners | backend/app/agents/nodes/negotiation.py:612-616 | Every addressed id is the winner of exactly one target and is listed once. |
| Accounting.AddressedAdditionIsIn | backend/app/agents/nodes/negotiation.py:586-606 | An addressed addition has each of its drafts in its day exactly once, on its side of its anchor. |
| Accounting.UnaddressedAdditionIsOut | backend/app/agents/nodes/negotiation.py:586-611 | An addition that is not addressed left none of its drafts on any day. |
| Accounting.AddressedRemovalIsGone | backend/app/agents/nodes/negotiation.py:573-584 | An addressed removal names one item, which is gone from every day. |
| Accounting.AddressedEditIsDone | backend/app/agents/nodes/negotiation.py:568-584 | An addressed edit or retain row did its work on every item it governs. |
| Accounting.UnaddressedRowsChangeNothing | backend/app/agents/nodes/negotiation.py:561-611 | A winner that is not addressed changed none of the items it governs. |
| Accounting.DayRemovalStaysOpen | backend/app/agents/nodes/negotiation.py:569-575 | Removing a whole day, or an unclear comment, is never addressed. |
| Accounting.ItemRowIsAddressedUnlessDayEmpties | backend/app/agents/nodes/negotiation.py:608-612 | A winning edit, retain or removal of one item is addressed exactly when not every item of its day has a removal of its own. |
| Accounting.DayRowIsAddressedExactlyWhen | backend/app/agents/nodes/negotiation.py:563-584 | A winning edit or retain of a whole day is addressed exactly if some item of the day has no winning row of its own. |
| Accounting.AdditionIsAddressedExactlyWhen | backend/app/agents/nodes/negotiation.py:586-606 | An addition is addressed exactly if, at its target's turn, it has drafts, they fit and every anchor is still there. |
| Accounting.WinnersAreInScope | backend/app/agents/nodes/negotiation.py:213-272 | Every winning row's day is among the affected days. |
| Accounting.OpenFeedbackIsPartitioned | backend/app/agents/nodes/negotiation.py:1066-1072 | The open feedback is exactly the addressed rows together with the unresolved ones. |
| Accounting.ScopeContentDiffers | backend/app/agents/nodes/negotiation.py:927-938 | Walks the affected days of both versions, looked up by number; true exactly when the versions do not agree on all of them. |
| Accounting.IsStillApplicable | backend/app/agents/nodes/negotiation.py:941-979 | A retry is worthwhile exactly if the scope was left alone, some of the feedback is still open, and neither locked selection changed. |
| Accounting.RetryMatchesLatestExactlyWhen | backend/app/agents/nodes/negotiation.py:927-979 | When the scope was left alone, the retried plan is the one the latest version would give exactly if the winner of the race changed nothing at all. |
| Accounting.RetryCanUndoTheWinnersChange | backend/app/agents/nodes/itinerary.py:177-199 | Two valid versions and one feedback row with its scope and its winner: the retry is applicable on all three grounds, and puts back the name the race winner changed outside the scope. |
| Promises.ItemRowsFollow | backend/app/agents/nodes/negotiation.py:608-612 | Of the proposal: a winning edit, retain or removal of one item is addressed exactly when not every item of its day is removed. |
| Promises.DayRowsFollow | backend/app/agents/nodes/negotiation.py:561-575 | Of the proposal: an edit or retain of a whole day is addressed exactly if some item has no row of its own; a removal of a day and an unclear comment never are. |
| Promises.RemovalsFollow | backend/app/agents/nodes/negotiation.py:495-496 | An addressed removal names an item, and that item is on no day of the proposed plan. |
| Promises.EditsFollow | backend/app/agents/nodes/negotiation.py:499-512 | Every item an addressed edit decides about has the drafted title, time, description and location, or its comment as a note; a retained item is unchanged. |
| Promises.RestFollows | backend/app/agents/nodes/negotiation.py:561-611 | An item no addressed row decides about is in the proposed plan as it was. |
| Promises.AdditionsFollow | backend/app/agents/nodes/negotiation.py:586-606 | An addressed addition has as many activities on its day as asked for, each as drafted, once, on its side of its anchor, within the rules for drafts and with a new id. |
| Promises.AdditionsAreAddressedAtTheirTurn | backend/app/agents/nodes/negotiation.py:586-606 | An addition is addressed exactly if its accepted drafts fit the day at its target's turn and every anchor is still there. |
| Promises.LoneAdditionsFollow | backend/app/agents/nodes/negotiation.py:717-788 | An acceptable addition is addressed where nothing else is to be done on its day. |
| Promises.OpenAdditionsFollow | backend/app/agents/nodes/negotiation.py:586-611 | An addition that is not addressed left none of its drafts on any day of the proposed plan. |
| Negotiation.Refine | backend/app/agents/nodes/negotiation.py:1028-1072 | Whatever was drafted: a valid plan, days out of scope identical, scope and report as defined, open feedback partitioned; the rows that win under the reported conflicts are addressed exactly where they can be honoured, and all that is addressed is done. |
| Tallies.UpsertReplaces | backend/app/repositories/vote_repository.py:20-52 | A member's new vote replaces the old one and touches nobody else's. |
| Tallies.CountByOption | backend/app/repositories/vote_repository.py:67-93 | The tally holds exactly the options with eligible votes, with their numbers. |
| Tallies.CountDistinctVoters | backend/app/repositories/vote_repository.py:95-110 | The number of eligible voters; it reaches the number of members exactly when all of them voted. |
| Tallies.TallyAddsUp | backend/app/repositories/vote_repository.py:67-110 | The counts of all options add up to the number of distinct eligible voters. |
| Tallies.PickWinner | backend/app/services/vote_service.py:103-139 | The highest count, then the lowest position; a tie is reported with all its leaders; an empty tally or a foreign leader has no winner. |
| Tallies.TopsLead | backend/app/services/vote_service.py:103-139 | The tops of the tally are the options no other option beats. |
| VoteSessions.NextKeepsInv | backend/app/services/vote_service.py:164-425 | Every whole operation keeps: one vote per member, votes for real options, locks and ties held by leaders. |
| VoteSessions.ClosedSessionIsFrozen | backend/app/services/vote_service.py:312-316 | Over every run of whole operations a closed session never changes again and takes no vote. |
| VoteSessions.LockedOptionsWon | backend/app/services/vote_service.py:247-281 | Over every run of whole operations a locked option is one of its session's and kept with its details, no option has more votes, and its session locked nothing else. |
| VoteSessions.LocksOnlyGrow | backend/app/services/vote_service.py:247-281 | A lock is never taken back. |
| VoteSessions.ClosingSelectsTheWinner | backend/app/services/vote_service.py:247-267 | An operation that closes a session, except by retiring it, selects for its category a leading option with its data, the only leader or the one the owner picked among the tied, and changes no other category. |
| VoteSessions.SelectionIsTheLastWinner | backend/app/services/vote_service.py:261-266 | Over every run a category has a selection exactly if a session of it was closed with a winner, and it is a leading option of the last such session. |
| VoteSessions.OnlyTheOwnerEndsAVoteEarly | backend/app/services/vote_service.py:356-397 | Before everyone has voted, and out of a tie, a session is ended by the owner or by retiring it, never by anybody else. |
| VoteSessions.OnlyCastsChangeVotes | backend/app/services/vote_service.py:311-321 | Votes change only by a member's cast for an option of an open session without a tie, and then by exactly that vote. |
| VoteSessions.FullVoteIsSettled | backend/app/services/vote_service.py:321-330 | Once everyone has voted, the vote is closed or held as a tie exactly when its category is known. |
| VoteSessions.EveryoneVotedExactlyWhenTallyIsFull | backend/app/services/vote_service.py:323-328 | Everyone has voted exactly if the counts of the options add up to the number of members. |
| VoteSessions.SelectionKeepsTheOption | backend/app/services/vote_service.py:142-161 | A locked selection keeps all the option carries; other fields come from the item, its own fields before its details. |
| VoteSessions.LeadersAreTops | backend/app/services/vote_service.py:164-194 | What the tally puts on top are the leaders of the vote. |
| VoteSessions.VoteService.LockWinner | backend/app/services/vote_service.py:247-281 | Writes the selection with the winning option and its details, and closes the session. |
| VoteSessions.VoteService.ResolveVoteSession | backend/app/services/vote_service.py:164-244 | Locks a single leader, holds several as a tie, and fails exactly without a category or a leader among the options. |
| VoteSessions.VoteService.CastVote | backend/app/services/vote_service.py:284-330 | Refuses without a write, or stores the vote and resolves the session when everyone has voted. |
| VoteSessions.VoteService.CloseSession | backend/app/services/vote_service.py:333-366 | The owner's early close resolves with the votes at hand. |
| VoteSessions.VoteService.PickFromTie | backend/app/services/vote_service.py:369-425 | The owner's pick among the tied options is locked. |
| VoteProgress.AdvanceIsSafe | backend/app/services/vote_service.py:321-330 | After any one call, a session everyone voted on is decided or held, or an operation that will settle it is still under way. |
| VoteProgress.NextKeepsInv | backend/app/services/vote_service.py:164-425 | Every single call of any operation keeps that. |
| VoteProgress.NoVoteGetsStuck | backend/app/services/vote_service.py:321-330 | Once all operations have finished, an open vote with a known category and no held tie has a member who has not voted. |
| VoteProgress.VoteWithoutCategoryGetsStuck | backend/app/services/vote_service.py:87-100 | Without a category a party of one ends with an open vote that nobody can finish. |
| VoteProgress.WithoutCategoryOnlyRetiringCloses | backend/app/services/vote_service.py:87-100 | However the calls interleave, a vote whose category is unknown is never held as a tie, and closed by nothing but a retirement. |
| VoteProgress.FullVoteIsSettledExactlyWhen | backend/app/services/vote_service.py:321-330 | Once everyone has voted and all operations have finished, however they interleaved, a vote that nobody retired is closed or held as a tie exactly if its category is known. |
| UninterruptedVotes.UninterruptedIsWhole | backend/app/services/vote_service.py:164-425 | An operation whose calls nobody interrupts leaves the room as the whole operation does, whatever else is under way, and has finished. |
| LateVotes.ClosedVoteIsFrozenExactlyWhen | backend/app/services/vote_service.py:311-321 | However the calls interleave, a closed vote takes no further vote exactly if no cast that read it as open still has a new vote to store. |
| LateVotes.PickedWinnerLeads | backend/app/services/vote_service.py:183-194 | The option a tally picks leads among the votes it counted, and for as long as those stay the eligible votes. |
| LateVotes.LateVoteOvertakesTheLock | backend/app/services/vote_service.py:311-330 | Two casts at once in a party of one: the vote is closed and one option locked, then the other cast stores its vote, and the locked option has none left. |
| LateVotes.LeadSurvivesExactlyWhen | backend/app/services/vote_service.py:311-330 | However the calls go on, an option of a closed vote keeps the lead exactly if no other option can end with more members than are bound to it, by what they voted and are about to write. |
| AgentRuns.MarksKeepTheRow | backend/app/repositories/agent_run_repository.py:153-206 | Whatever transitions are tried: end time exactly when terminal, error exactly when failed, result only when completed; terminal rows and start times are final. |
| AgentRuns.NextKeepsInv | backend/app/services/run_endpoint_service.py:88-121 | Every step of any executor or reclaimer keeps the invariant of the row and of all executors. |
| AgentRuns.DispatchedAtMostOnce | backend/app/services/run_endpoint_service.py:80-111 | With each mark one step: however many executors hold the row, the graph is dispatched at most once, once exactly if an executor got to it, and the columns agree with the status. |
| AgentRuns.TerminalIsFinal | backend/app/repositories/agent_run_repository.py:258-269 | With each mark one step: over every execution a terminal run never changes and a start time once set is kept. |
| AgentRuns.BackgroundExecutorsSettleTheRun | backend/app/services/run_endpoint_service.py:88-121 | When a background executor returns, the run is terminal, whatever its node or its rivals did. |
| AgentRuns.LeftAloneItEnds | backend/app/services/run_endpoint_service.py:88-121 | Wherever it is, an executor that is left alone comes to its end. |
| AgentRuns.UndisturbedRunEndsAsItsNode | backend/app/services/agent_run_service.py:242-309 | An undisturbed executor of a pending run dispatches it once and completes it with its node's result, or fails it if the node raised. |
| AgentRuns.EscalationEndsTheRun | backend/app/agents/guardrails/escalation.py:186-255 | An escalation completes the run once its message is written and fails it otherwise, whatever the executor does afterwards. |
| AgentRuns.UnpreparedRunFails | backend/app/services/run_endpoint_service.py:97-121 | A run that was started and cannot be prepared is failed without being dispatched. |
| AgentRuns.DeliveredEscalationStands | backend/app/agents/guardrails/escalation.py:223-237 | Once an escalation was delivered, the run is completed without error or result unless a rival failed it. |
| AgentRuns.SecondExecutorFailsTheFirst | backend/app/services/run_endpoint_service.py:98-121 | Two executors of one row: the second is refused and fails the run the first has started. |
| AgentRuns.StartingExecutorFailsTheRunExactlyWhen | backend/app/services/run_endpoint_service.py:97-121 | In every reachable world, a background executor about to start fails the run with its next two steps exactly if it finds the row running. |
| AgentRuns.RivalFailedTheRunExactlyWhen | backend/app/services/run_endpoint_service.py:97-121 | Over every execution, an executor that does not own the run failed it exactly if it was refused its start while the row was running and recovered while it still was. |
| AgentRuns.OnlyItsOwnerFailsTheRunExactlyWhen | backend/app/services/run_endpoint_service.py:88-121 | Without reclaims, a failed run was failed by its own executor exactly if no rival was refused and recovered while the row was running. |
| AgentRuns.LoneExecutorIsUndisturbed | backend/app/services/run_endpoint_service.py:88-121 | With one executor and no reclaim, nobody but that executor fails the run. |
| AgentRuns.RunRow.MarkRunning | backend/app/repositories/agent_run_repository.py:153-165 | Starts a pending run and keeps a start time already set; refuses otherwise. |
| AgentRuns.RunRow.MarkCompleted | backend/app/repositories/agent_run_repository.py:167-189 | Completes a running run with its result and no error; refuses otherwise. |
| AgentRuns.RunRow.MarkFailed | backend/app/repositories/agent_run_repository.py:191-206 | Fails a run in flight with a summary; refuses otherwise. |
| AgentRuns.RunRow.PerformHumanEscalation | backend/app/agents/guardrails/escalation.py:186-255 | Completes the run once its message is written, fails it when the message is lost. |
| AgentRuns.RunRow.DispatchAndFinalize | backend/app/services/agent_run_service.py:242-309 | The run is terminal afterwards; undisturbed it is what the dispatch says, also when the node completed it already. |
| AgentRuns.RunRow.ExecuteRun | backend/app/services/run_endpoint_service.py:88-121 | Always returns with a terminal run; a terminal run is left alone; undisturbed the run ends as its dispatch says, or failed. |
| SplitMarks.WriteIsAtomicExactlyWhen | backend/app/repositories/agent_run_repository.py:153-206 | The separate update of a mark does what one atomic step would do exactly if the transition is still permitted, or the row already has every column the mark sets. |
| SplitMarks.TerminalIsFinalExactlyWhen | backend/app/repositories/agent_run_repository.py:271-289 | With reading and writing apart, a terminal row is final, whatever is called next, exactly if every mark waiting to be written is an outcome the row already has in every column. |
| SplitMarks.CompletedRunCanBeFailed | backend/app/repositories/agent_run_repository.py:167-206 | Two outcomes checked on the same running row: the run is completed, and then failed. |
| SplitMarks.StartedOnceExactlyWhen | backend/app/repositories/agent_run_repository.py:153-165 | At most one start is granted exactly if every granted start still finds the row without a start time. |
| SplitMarks.TwoStartsCanBeGranted | backend/app/repositories/agent_run_repository.py:153-165 | Two executors that both read the pending row are both granted their start. |
| SplitMarks.DispatchedAtMostOnceExactlyWhen | backend/app/services/run_endpoint_service.py:97-111 | With reading and writing apart, once every executor that was granted its start has dispatched, the run was dispatched at most once exactly if every granted start found the row without a start time. |
| Guardrails.RunGuardrailLoop | backend/app/agents/guardrails/__init__.py:207-259 | The first passing attempt within the budget is returned, the last rejected one escalates, findings that do not fit raise; all findings are recorded in order. |
| Guardrails.PassesExactlyWhenAllLayersAreSilent | backend/app/agents/guardrails/__init__.py:92-138 | A proposal passes exactly if no layer finds anything in what it is given; what passes is the factual layer's correction of the structural layer's result; a rejection carries the findings of the first layer that has any. |
| Guardrails.AcceptedPassedAllLayers | backend/app/agents/guardrails/__init__.py:239-256 | What the loop accepts passed all three layers and is the corrected last proposal. |
| Guardrails.ProducerGetsTheFindings | backend/app/agents/guardrails/__init__.py:198-204 | Each repair is asked for with one more on the count, the last evaluation's findings as feedback, and all findings on record. |
| Guardrails.OutcomeIsDetermined | backend/app/agents/guardrails/__init__.py:207-259 | The attempts alone determine how the loop ends. |
| Guardrails.CountStopsAtTheCap | backend/app/agents/state.py:303-313 | One evaluation more than the counter advanced; the counter never passes the cap and rests on it when escalating. |
| Guardrails.EscalatesExactlyWhen | backend/app/agents/guardrails/__init__.py:178-204 | The loop escalates exactly when every evaluation in the budget rejects and all findings fit their bound. |
| Guardrails.StubbornProducer | backend/app/agents/guardrails/__init__.py:207-259 | A producer that always returns the first proposal passes at once, or escalates after the whole budget exactly if that many copies of its findings fit. |
| Guardrails.EveryRejectionSaysWhy | backend/app/agents/guardrails/__init__.py:92-138 | The pipeline never rejects without a finding, so n rejected evaluations leave at least n findings. |
| LlmClient.ModelChain | backend/app/core/config.py:189-196 | The trimmed, non-blank model names, each once, in the order in which they first turn up, the primary first. |
| LlmClient.UsableIsInChainOrder | backend/app/agents/llm.py:249-256 | The usable models are tried in chain order. |
| LlmClient.Ask | backend/app/agents/llm.py:305-356 | One contact, and a second one only after a timeout or a transport failure. |
| LlmClient.Client.TakeTurn | backend/app/agents/llm.py:302-356 | One model's turn and its rest: 300 seconds without quota, 60 after failing twice, none after a refused request. |
| LlmClient.Client.GenerateStructured | backend/app/agents/llm.py:263-399 | Usable models in order, each giving up but the last; every reply is heard once, in the order it came; rests never move earlier; no model is asked within 300 seconds of running out of quota. |
| LlmClient.OneMoreTurn | backend/app/agents/llm.py:329-337 | Asking a rested model keeps the quota rule over the whole log. |
| LlmClient.FirstAnswerWins | backend/app/agents/llm.py:302-399 | The call returns the first well-shaped answer and asks nothing after it. |
| LlmClient.ExhaustedModelsRest | backend/app/agents/llm.py:393-399 | When no model could help, each one tried was put to rest or had refused the request. |
| LlmClient.RestsFollowTheTurns | backend/app/agents/llm.py:329-356 | After a call each model asked rests for 300 seconds without quota, for 60 after failing twice in transit, and as before otherwise; every other model rests as before. |
| ExternalTools.ExternalTool.Invoke | backend/app/agents/tools/base.py:178-240 | Cached answers are free; at the cap nothing is called; one retry after a transport error only; a valid response is cached, recorded and counted. |
| ExternalTools.CallsStayBudgeted | backend/app/agents/state.py:367-399 | Over any invocations of any tools the call count is at least twice the recorded responses and at most the cap plus two, so the response bound never fires. |
| ExternalTools.RepeatingIsFree | backend/app/agents/tools/base.py:200-203 | Repeating the parameters on a tool, however much later, gives the same response and leaves the state as it is. |
| ExternalTools.InvocationReturns | backend/app/agents/tools/base.py:200-235 | A cached response for nothing; at the cap nothing; otherwise the first valid response, recorded last and cached under its parameters only; a failure changes nothing. |
| ExternalTools.ResponsesAreRecordedInOrder | backend/app/agents/state.py:367-383 | Over a run the recorded responses are exactly those the providers brought, in order. |
| ExternalTools.AttemptsAreCountedExactlyWhen | backend/app/agents/tools/base.py:205-235 | An invocation's attempts are counted exactly if it brings a valid response, at once or at its one retry; otherwise none is. |
| ExternalTools.CallCountOverARun | backend/app/agents/state.py:367-399 | Over any invocations the call count is the attempts made, less those of failed invocations, plus one for each response. |
| ExternalTools.EveryAttemptIsCountedExactlyWhen | backend/app/agents/tools/base.py:205-235 | All attempts of a run are counted exactly if none of its invocations fails. |
| ExternalTools.FailedInvocationsAreNotCounted | backend/app/agents/tools/base.py:205-235 | Any number of failing invocations, of any tools and in any way, leave the run state as it was. |

## Left out

- Several trips: one trip's version table, one room's votes and one run row at a time.
- Failing writes and crashes between calls, except where an escalation's message is lost.
- ItineraryPersistence.PersistItineraryVersion: the source check stands before the loop, because the source can only mismatch on the first number; the row that is returned is represented by its number.
- ItineraryPersistence.VersionRepository.MarkApproved: the version exists; a missing row is an error the model does not reach, since rows are never deleted.
- The readiness flags and the trip status that reviewing and deciding also write.
- Itineraries.ComputeAffectedScope: the scope is sets of ids; the source also sorts them for display.
- TimeOrder.AcceptedDraftsKeepTimeOrderExactlyWhen: for the drafts of one row; several rows that add to the same day are the subject of `TimeOrder.RebuiltDayInTimeOrderExactlyWhen`.
- Conflicts.DetectConflicts: order of ids and outcomes is by character; the classification of a comment by patterns or by a model is an input.
- Itineraries.ResolveTarget: whether a text reads as a day number is an input.
- Drafting prompts, the parsing of model replies, and the selection of the items a model is asked to revise.
- Additions.AcceptDrafts: item ids are an injective naming of feedback id and index, standing for the name-based UUIDs; the hard-constraint check on a draft's texts is an input.
- Tallies.PickWinner: the tied ids are a set; the source lists them in the order of the tally.
- VoteSessions.VoteService.LockWinner: advancing the trip once its vote is locked is left out.
- VoteSessions.ClosedSessionIsFrozen: for whole operations; when it survives interleaved calls is stated by `LateVotes.ClosedVoteIsFrozenExactlyWhen`.
- VoteSessions.LockedOptionsWon: for whole operations; between calls the picked option leads among the votes it was picked from, as `LateVotes.PickedWinnerLeads` states, and `LateVotes.LeadSurvivesExactlyWhen` says when late votes leave it the lead.
- AgentRuns.DispatchedAtMostOnce: takes the reading, checking and updating of a mark as one step; taken apart it holds exactly as `SplitMarks.DispatchedAtMostOnceExactlyWhen` states.
- AgentRuns.TerminalIsFinal: takes each mark as one step; taken apart it holds exactly as `SplitMarks.TerminalIsFinalExactlyWhen` states.
- Members never leave a room in the model, as in the backend there is no operation that removes one.
- Announcing a tie, the advice run it starts, and all other messages.
- Creating runs: idempotency keys, the search for an active run, staleness by the clock; any number of executors may hold one row, and a reclaim may come at any time.
- The inline executor that answers within the request: its steps are part of the protocol, but no claim is made about how it leaves the run, because it has no outer handler.
- Guardrails.RunGuardrailLoop: the three layers are arbitrary functions; group profile and tool responses do not change within the loop, since a producer returns a proposal and no state.
- The other fields and bounds of the run state, and loading the trip context.
- LlmClient.Client.GenerateStructured: timeouts and transport errors are one kind of reply; the delay before a retry and the call log for developers are part of the passing time.
- Days are unbounded integers: dates at the end of the calendar, where the source would overflow, are not modelled.
- Budget ceilings, activities and wishes of the group profile, trip status, room codes, schema mapping and demo content: facts of one branch each.
