# A verified model of the league application

The repository runs a pool league: it generates schedules, takes scoresheets through a protocol of
team approvals and admin acceptance, books results into standings, recommends and applies
handicaps, and pushes a season back. This project models those five parts in Dafny and proves what
they promise. Code that changes things step by step is written as methods with loops and, where the
program has mutable objects or tables, as classes; each method is proved against a specification
function, and the theorems are lemmas about those functions.

`dafny verify dfyconfig.toml` checks everything.

| part | modules |
|---|---|
| shared | `Prelude`, `Ordering` |
| schedule | `Schedule`, `RoundRobin`, `CircleMethod`, `ByeRequests`, `ByeProperties`, `ByeOutcomes`, `ByeMatching`, `DateAssignment`, `Generators`, `ScheduleTheorems`, `LeagueByes`, `CustomByes`, `ByeMoves` |
| match approval | `MatchRecords`, `MatchApproval`, `ApprovalInvariants`, `ApprovalRuns`, `ApprovalEffects`, `ApprovalRevisions`, `CloseChecks`, `ApprovalStore` |
| scoresheet, saving, standings | `Scoresheet`, `ScoresheetTheorems`, `Snapshots`, `SnapshotTheorems`, `Tallies`, `SaveRounds`, `SaveService`, `ResultTheorems`, `Standings`, `StandingsTheorems` |
| handicaps | `HandicapRecs`, `HandicapRacks`, `HandicapApply`, `HandicapStores`, `HandicapTheorems`, `HandicapReplay`, `HandicapAfterwards`, `HandicapAnswers` |
| pushback | `Pushback`, `PushbackTheorems` |

How things are represented: dates are day numbers; handicaps are reals, and rounding to a cent or a
ball is `math.Round` (halves away from zero); a Go map range is a loop that takes an arbitrary
remaining key; a table is a sequence or a map, and a transaction that fails leaves the old state; a
SHA-256 digest is a datatype value holding the canonical content, so equal digests mean equal
content. The findings of week validation, player eligibility, a busy database and the actor of an action are
parameters.

## What the proofs found

- The result of bye requests can depend on Go's map iteration order, although the comment at
  `backend/domains/matches/scheduling.go:166-167` says it does not. In an odd league it never does in
  a single pass, nor in a custom schedule of at most one pass; home and away it does for every request
  map that names a team of the league and does not panic; in a longer custom schedule it does exactly
  if a team is named whose second bye falls within the season (`LeagueByes.RequestsInPass`,
  `LeagueByes.RequestsHomeAndAway`, `CustomByes.RequestsInCustom`).
- A request map that asks for fewer existing weeks than it names teams with a bye makes the program
  index past the end of a slice, in every iteration order, and no other map does (the same three).
- Two approved requests of one team, which the database accepts (`db/db.go:173`), can put two weeks'
  fixtures into one week, so that teams play twice: exactly when a week left alone was not asked for
  or was asked for last (`ByeMatching.MatchingKeptExactlyWhen`). Home and away it happens under some
  iteration order whenever a team of the league is named twice
  (`LeagueByes.OneMatchAWeekExactlyWhenNamedOnce`).
- The older `ApproveMatch` checks first and then writes unconditionally; clearing the results in
  between leaves an accepted match without scores (`ApprovalRuns.ApproveCanRaceWithClear`).
- In rounds of four or more pairings a round declared for the away side can still go to the home
  side (`ScoresheetTheorems.AwayRoundOfFourCanFlip`; exactly when it cannot is
  `ScoresheetTheorems.AwayRoundIsFinalExactlyWhen`).
- Replaying a committed handicap request fails once its season is closed, and after one of its
  players has been merged away it is reported as a hash collision
  (`HandicapReplay.ReplayAfterAnyRun`, `HandicapReplay.ReplayAfterMerge`). A capped recommendation
  stays applicable under a new request ID although it changes nothing
  (`HandicapAfterwards.NeverAppliedTwice`).
- A pushback can move an unplayed match into a week in which one of its teams has already played
  (`PushbackTheorems.OneMatchAWeekExactlyWhen`, with a calendar in
  `PushbackTheorems.PlayedAheadCollides`). Applying one to a season that does not exist fails in the
  closed-season lookup, where a preview reports that the season was not found; but for that and for
  closed seasons the two always answer alike (`PushbackTheorems.PreviewForetells`). The same lookup
  precedes applying handicaps, where the store's interface comment
  (`backend/domains/handicaps/store.go:112-114`) promises otherwise.

## Model

| member | source | states |
|---|---|---|
| RoundRobin.RoundRobinBase | backend/domains/matches/scheduling.go:111-145 | the array rotated in place yields exactly the closed-form circle schedule, and fewer than two teams is the error |
| RoundRobin.Rotate | backend/domains/matches/scheduling.go:139-142 | one rotation keeps the first seat and moves every other team one seat on |
| RoundRobin.SeatOfInvertsOrigin | backend/domains/matches/scheduling.go:139-142 | the seat a team reaches after any number of rounds and the team standing on a seat are inverse to each other |
| RoundRobin.MeetingRoundIsUnique | backend/domains/matches/scheduling.go:123-142 | two teams sit opposite each other in one round only, the one given by halving modulo n-1 |
| CircleMethod.EveryPairMeetsOnce | backend/domains/matches/scheduling.go:111-145 | any two distinct teams meet in exactly one entry of the rotation |
| CircleMethod.RotationLength | backend/domains/matches/scheduling.go:122-144 | k teams play k(k-1)/2 matches |
| CircleMethod.RotationWellFormed | backend/domains/matches/scheduling.go:117-143 | entries are between two different real teams, in weeks 1 to n-1, in ascending order of week |
| CircleMethod.WeeklyMatching | backend/domains/matches/scheduling.go:117-143 | every team plays exactly once a week, except the one idle team of an odd league |
| CircleMethod.RotationIsWeeklyMatching | backend/domains/matches/scheduling.go:124-143 | no team appears twice in a week |
| CircleMethod.OneByePerWeekAndTeam | backend/domains/matches/scheduling.go:117-134 | in an odd league each week has one idle team and each team is idle in one week |
| CircleMethod.IdleWeeksAndTeamsMatch | backend/domains/matches/scheduling.go:117-134 | idle weeks and idle teams are inverse to each other |
| CircleMethod.LeagueOfFour | backend/domains/matches/scheduling.go:111-145 | the schedule of any four teams, match by match |
| CircleMethod.LeagueOfThree | backend/domains/matches/scheduling.go:111-145 | and of any three, with their byes |
| Schedule.MaxWeekNum | backend/domains/matches/scheduling.go:147-155 | the largest week number, or zero |
| Generators.SingleRoundRobin | backend/domains/matches/scheduling.go:27-33 | the rotation with bye requests and dates applied: every match of it, in order, on the date of its week if there is a start date and on none otherwise, and in its own week unless byes were requested |
| Generators.FinishedIsSchedule | backend/domains/matches/scheduling.go:265-297 | whatever the options, only bye requests can fail, no match is lost, and each stands on the date of its week |
| Generators.DoubleRoundRobin | backend/domains/matches/scheduling.go:37-53 | the rotation followed by its return matches, in the same way with bye requests and dates applied |
| ScheduleTheorems.EveryPairHomeAndAway | backend/domains/matches/scheduling.go:37-53 | every team receives every other exactly once |
| ScheduleTheorems.HomeAndAwayIsWeeklyMatching | backend/domains/matches/scheduling.go:37-53 | no team plays twice in a week of the double round robin |
| Generators.CustomSchedule | backend/domains/matches/scheduling.go:62-89 | the home-and-away cycle repeated and cut after the last week, in the same way with bye requests and dates applied |
| Generators.CycleThrough | backend/domains/matches/scheduling.go:72-87 | the loop with its early break terminates with the cycle repeated periodically and cut at the last week |
| Generators.BreakLosesNothing | backend/domains/matches/scheduling.go:76-84 | once the break is taken nothing later in any pass would have been kept |
| ScheduleTheorems.CustomScheduleIsPeriodic | backend/domains/matches/scheduling.go:62-89 | week w has exactly the fixtures of week (w-1) mod c + 1 of the cycle, and no week after the last has any |
| ScheduleTheorems.ValidIDsTerminate | backend/domains/matches/scheduling.go:62-89 | distinct non-zero team IDs give a non-empty cycle, which the loop needs to end |
| ByeRequests.ApplyByeRequests | backend/domains/matches/scheduling.go:169-261 | for every iteration order, the entries moved by the week map the requests amount to, or an index out of range |
| ByeRequests.NaturalByeWeeks | backend/domains/matches/scheduling.go:185-203 | each week with idle teams books one of them, and a team is booked only for a week it is idle in |
| ByeRequests.NaturalByesOf | backend/domains/matches/scheduling.go:195-203 | the pass leaves what its week order and its picks amount to, whatever they are, and that is a map of distinct idle weeks reaching every week with an idle team |
| ByeRequests.NaturalByesExactlyWhen | backend/domains/matches/scheduling.go:194-203 | the maps described without reference to an order are exactly those that some iteration order leaves |
| ByeProperties.OverrunsExactlyWhen | backend/domains/matches/scheduling.go:237-251 | for any schedule and natural byes, the pairing of remaining weeks runs past the end exactly when fewer requested weeks exist than teams are served |
| ByeOutcomes.PanicsExactlyWhen | backend/domains/matches/scheduling.go:223-251 | with one idle team a week, the program panics under every order or under none, exactly when fewer of the requested weeks exist than teams with a bye are named |
| ByeOutcomes.OrderMattersExactlyWhen | backend/domains/matches/scheduling.go:166-251 | with one idle team a week, two iteration orders give different results exactly when the requests do not panic and name a team that is idle twice |
| ByeMatching.MatchingKeptExactlyWhen | backend/domains/matches/scheduling.go:236-260 | whatever is requested, teams keep to one match a week exactly when every week left alone was asked for and no bye was moved to it |
| ByeProperties.RemapPermutesWeeks | backend/domains/matches/scheduling.go:223-251 | for requests naming different teams and existing weeks the week map is a bijection that sends natural byes to requested weeks and keeps the order of all other weeks |
| ByeMoves.LatestRequestCounts | backend/domains/matches/scheduling.go:212-235 | whatever else is requested, a team's bye goes to the latest of the weeks it asked for |
| ByeMoves.OtherWeeksKeepOrder | backend/domains/matches/scheduling.go:237-251 | weeks not given up for a request keep their order and go only where nobody asked |
| ByeProperties.WeeksMoveTogether | backend/domains/matches/scheduling.go:253-260 | a week's fixtures arrive together, unmixed, in its new week |
| ByeProperties.PairingsUnaffected | backend/domains/matches/scheduling.go:253-260 | who meets whom, and where, is unaffected by moving weeks |
| ByeProperties.RequestsAreGranted | backend/domains/matches/scheduling.go:223-260 | every honoured team is idle in the week it asked for |
| ByeProperties.GrantedExactlyWhenDistinct | backend/domains/matches/scheduling.go:223-260 | where every team has one idle week and the requested weeks exist, all requests are granted if and only if they name different teams |
| ByeProperties.NoByesNoChange | backend/domains/matches/scheduling.go:196-203 | a schedule without idle teams is returned unchanged whatever is requested |
| ByeProperties.NaturalByesAreUnique | backend/domains/matches/scheduling.go:195-203 | with one idle team a week and one idle week a team, the iteration order does not matter |
| LeagueByes.RequestsInPass | backend/domains/matches/scheduling.go:169-261 | in a single pass of an odd league: the exact request maps that panic, and that the iteration order never matters |
| LeagueByes.SingleRoundRobinByes | backend/domains/matches/scheduling.go:169-261 | in a single pass of an odd league, requests for existing weeks are all granted if and only if no league team is named twice, for every iteration order |
| LeagueByes.RequestsHomeAndAway | backend/domains/matches/scheduling.go:166-251 | home and away in an odd league: the exact request maps that panic, and that the order matters for every other map that names a league team, and for no map else |
| LeagueByes.OneMatchAWeekExactlyWhenNamedOnce | backend/domains/matches/scheduling.go:223-260 | home and away with requests for existing weeks, no team named twice is the same as one match a week under every order, and the same as every request granted under every order |
| CustomByes.RequestsInCustom | backend/domains/matches/scheduling.go:62-261 | in a custom schedule of an odd league of any length: the exact request maps that panic, and the exact ones for which the order matters |
| CustomByes.OrderMattersFromTheSecondPassOn | backend/domains/matches/scheduling.go:62-261 | there is a request map for which the order matters if and only if the season is longer than one pass |
| CustomByes.CustomIsWeeklyMatching | backend/domains/matches/scheduling.go:62-89 | no team plays twice in a week of a custom schedule of an odd league, and any two of its weeks share a team |
| CustomByes.IdleWeeksOfTeam | backend/domains/matches/scheduling.go:72-87 | in a custom schedule a team is idle in its bye week and half a cycle later, and otherwise only later still |
| DateAssignment.WeekDates | backend/domains/matches/scheduling.go:273-289 | the search ends for every finite skip set and dates weeks 1 to the last |
| DateAssignment.AssignCalendar | backend/domains/matches/scheduling.go:273-296 | every entry gets the date of its week |
| DateAssignment.WeekIsNthPlayable | backend/domains/matches/scheduling.go:279-289 | week w is not skipped and exactly w-1 playable dates come before it |
| DateAssignment.EveryPlayableDateIsUsed | backend/domains/matches/scheduling.go:279-289 | each playable date is the date of exactly the week its rank among playable dates says |
| DateAssignment.DatesAscend | backend/domains/matches/scheduling.go:279-289 | later weeks have later dates |
| DateAssignment.UnskippedWeeks | backend/domains/matches/scheduling.go:279-289 | with no date to skip on the way, week w is 7(w-1) days after the start |
| ScheduleTheorems.FinishedKeepsPromises | backend/domains/matches/scheduling.go:265-297 | for every request map, the empty one included: an error exactly when the week map cannot be built, otherwise all pairings and every match on the date of its week; one match a week exactly when the requests fit, and requests for existing weeks by different teams always fit and are granted |
| ApprovalInvariants.FreshMatchesFit | backend/domains/matches/round_store.go:142-163 | a match as created satisfies the invariant |
| ApprovalInvariants.EditKeepsInv | backend/storage/sqlite/round_store.go:712-766 | a score edit clears both sides, logs it, and keeps state, ladder and history in step |
| ApprovalInvariants.ApproveKeepsInv | backend/storage/sqlite/round_store.go:813-851 | a committed team approval keeps the invariant |
| ApprovalInvariants.WithdrawKeepsInv | backend/storage/sqlite/round_store.go:859-897 | a committed withdrawal keeps the invariant |
| ApprovalInvariants.CorrectKeepsInv | backend/storage/sqlite/round_store.go:906-944 | a committed correction request keeps the invariant |
| ApprovalInvariants.AcceptKeepsInv | backend/storage/sqlite/round_store.go:954-1038 | a committed acceptance keeps the invariant, so its event is true to the history before it |
| ApprovalInvariants.ScoreEditRefusalIsTrue | backend/storage/sqlite/round_store.go:600-617 | the reason given for a refused edit holds of the row |
| ApprovalInvariants.TeamActionRefusalIsTrue | backend/storage/sqlite/round_store.go:624-653 | the reason given for a refused team action holds of the row |
| ApprovalInvariants.AcceptRefusalIsTrue | backend/storage/sqlite/round_store.go:662-692 | the reason given for a refused acceptance holds of the row |
| ApprovalRuns.StepKeepsInv | backend/domains/matches/round_store.go:142-238 | every step keeps: sides pending without revision or decided at the current one; decided, accepted and processed laddered; the log folding to both sides; decisions true to the log |
| ApprovalRuns.RunKeepsInv | backend/domains/matches/round_store.go:142-238 | the invariant holds in every reachable state of the league |
| ApprovalRuns.RevisionStep | backend/domains/matches/round_service.go:69-76 | one step raises a match's revision by one if it commits an edit of it, and otherwise leaves it |
| ApprovalRuns.RevisionCountsEdits | backend/domains/matches/round_service.go:69-76 | over any run the revision grows by exactly the number of committed edits |
| ApprovalRuns.AtMostOneCommits | backend/domains/matches/round_store.go:142-163 | of any number of edits naming the same expected revision at most one commits |
| ApprovalRuns.LockedIsFrozen | backend/storage/sqlite/round_store.go:697-703 | no step touches scores, sides or history of a match that is accepted, processed or in a closed week |
| ApprovalRuns.AcceptedScoresStand | backend/domains/matches/approval_service.go:347-375 | over any run an accepted match keeps its scores until it is unapproved |
| ApprovalRuns.ProcessedScoresStand | backend/domains/matches/approval_service.go:347-406 | over any run a processed match stays accepted and keeps its scores until it is unprocessed |
| ApprovalRuns.ClosedWeekIsProcessed | backend/domains/matches/store.go:67-74 | closing a week locks its matches, processes exactly the accepted ones and touches nothing else |
| ApprovalEffects.ReopenedWeekIsUnlocked | backend/domains/matches/service.go:165-193 | reopening unlocks the matches of the week, takes back no acceptance and no processing, and touches nothing else |
| ApprovalRuns.CommitIsAtomic | backend/domains/matches/approval_service.go:179-261 | under any interference between reads and guarded write, a committed acceptance is the atomic acceptance of the state it commits in |
| ApprovalRuns.UndisturbedIsAtomic | backend/domains/matches/approval_service.go:179-261 | without interference the two phases accept and refuse exactly as one |
| ApprovalRuns.CommitsExactlyWhen | backend/domains/matches/round_store.go:212-238 | it commits if and only if both decisions allow it and neither side moved in between |
| ApprovalRuns.AcceptedMeansBothApproved | backend/domains/matches/approval_service.go:216-260 | the event's snapshot is both sides at commit, and it is a normal acceptance if and only if both are approved at the current revision |
| ApprovalRuns.LateWriteKeepsInvExactlyWhen | backend/domains/matches/approval_service.go:269-406 | the unconditional write of an older call keeps the invariant if and only if the row still fits the call |
| ApprovalRuns.ApproveCanRaceWithClear | backend/domains/matches/approval_service.go:269-301 | clearing results between check and write of ApproveMatch breaks the invariant |
| ApprovalEffects.GoesThroughExactlyWhen | backend/domains/matches/round_store.go:142-238 | for each step of the protocol, the exact state of the league in which it goes through |
| ApprovalEffects.ClosedSeasonIsFrozen | backend/storage/sqlite/round_store.go:697-703 | over any run that does not reopen the season, its matches stay exactly as they are |
| ApprovalEffects.ApprovalLeaves | backend/storage/sqlite/round_store.go:813-851 | a committed approval sets the side that acted, at the current revision and by that actor, logs exactly that, and touches neither the other side nor anything else |
| ApprovalEffects.WithdrawalLeaves | backend/storage/sqlite/round_store.go:859-897 | the same for a withdrawal, which leaves its side pending |
| ApprovalEffects.CorrectionLeaves | backend/storage/sqlite/round_store.go:906-944 | the same for a correction request, with its note |
| ApprovalEffects.EditLeaves | backend/domains/matches/round_service.go:62-416 | a committed edit leaves the rows, results and completion it is for, under the next revision, both sides pending, one event for each side that was not, and all else as it was |
| ApprovalEffects.AcceptanceLeaves | backend/domains/matches/approval_service.go:242-260 | a committed acceptance puts admin and note on record, adds one event, and leaves the scores |
| ApprovalEffects.AdminCallLeaves | backend/domains/matches/approval_service.go:269-406 | what each of the older calls sets or clears, and that it leaves everything else |
| ApprovalEffects.AdminCallsUndo | backend/domains/matches/approval_service.go:269-406 | unapproving undoes an approval and unprocessing a processing, to the very same league |
| ApprovalEffects.ApprovalStandsExactlyWhen | backend/domains/matches/team_approval_service.go:96-196 | after any run a side stands approved if and only if the run approved it and has neither withdrawn nor corrected it nor edited the match since |
| ApprovalEffects.AcceptedExactlyWhen | backend/domains/matches/approval_service.go:179-261 | after any run a match can be accepted if and only if it is scored and open and both sides stand approved or an override is asked for, and the event says which |
| ApprovalEffects.TwoApprovals | backend/domains/matches/approval_service.go:216-240 | two approvals of a scored match allow a normal acceptance if and only if they are of different sides |
| ApprovalRevisions.SameRevisionSameScores | backend/domains/matches/round_store.go:142-163 | over any run that leaves the revision as it was, rounds, results and completion are as they were |
| ApprovalRevisions.AcceptsWhatWasRead | backend/domains/matches/approval_service.go:179-261 | an acceptance that commits, with any runs between its reads and its write, accepts the scores that were read |
| ApprovalRevisions.ApprovalVouchesForScores | backend/domains/matches/team_approval_service.go:30-40 | a side approved at a revision vouches, after any run in which that still holds, for the scores it approved |
| ApprovalStore.RoundStore.AdvanceScoreRevisionForEdit | backend/storage/sqlite/round_store.go:712-766 | the guarded update and the two clears take the specified step, or report why and change nothing |
| ApprovalStore.RoundStore.EditScores | backend/domains/matches/round_service.go:62-416 | advance first, then write: one edit step, and a refused or failing edit leaves every row as it was, the advance included |
| ApprovalStore.RoundStore.GuardScoredLineupChange | backend/storage/sqlite/lineup_store.go:226-251 | a substitute swap is an edit step on a scored match and no step otherwise |
| ApprovalStore.RoundStore.ApproveTeamSide | backend/domains/matches/team_approval_service.go:96-121 | one approval step, with its refusals |
| ApprovalStore.RoundStore.WithdrawTeamApproval | backend/domains/matches/team_approval_service.go:131-156 | one withdrawal step, with its refusals |
| ApprovalStore.RoundStore.RequestCorrection | backend/domains/matches/team_approval_service.go:168-196 | one correction step, which needs a note, with its refusals |
| ApprovalStore.RoundStore.DecideAcceptance | backend/domains/matches/approval_service.go:179-240 | the checks in order, and the decision with the states it is pinned to |
| ApprovalStore.RoundStore.CommitAcceptance | backend/domains/matches/approval_service.go:242-260 | guarded write and event, both or neither |
| ApprovalStore.RoundStore.AdminCall | backend/domains/matches/approval_service.go:269-406 | the older calls as steps, with their refusals |
| CloseChecks.CheckClose | backend/domains/matches/service.go:88-154 | the first reason not to close, with the warnings not acknowledged, or the acknowledgments to write |
| CloseChecks.ClosesExactlyWhen | backend/domains/matches/service.go:88-154 | a week may be closed if and only if its season is no draft and every finding is an acknowledged warning; then one acknowledgment per finding is written, the last one sent for it |
| ApprovalStore.RoundStore.CloseTheWeek | backend/domains/matches/service.go:81-161 | a closed season, then the checks, then one step: all matches of the week are locked, the accepted ones processed, and their number returned |
| ApprovalStore.RoundStore.ReopenTheWeek | backend/domains/matches/service.go:165-193 | all matches of a closed week are unlocked, and nothing else |
| Scoresheet.SpotLevelsThePairing | logic/handicap.go:65-80 | the spot goes to the side the handicaps predict to trail, and makes up for the predicted lead to within half a ball |
| Scoresheet.ValidateRounds | backend/domains/matches/scoresheet.go:83-254 | messages, pairing winners and round winners are those of the specification, for every map iteration order |
| Scoresheet.CheckPairing | backend/domains/matches/scoresheet.go:116-230 | a slot's messages and its winner under spot, early stop and tie-break |
| ScoresheetTheorems.BlockedExactlyByIllegalGames | backend/domains/matches/scoresheet.go:116-166 | saving is blocked if and only if some game breaks the rules of the game |
| ScoresheetTheorems.MessagesExactlyWhen | backend/domains/matches/scoresheet.go:83-184 | a message is raised if and only if some game calls for it, at that game's place, and one more if there is no ten on the sheet |
| ScoresheetTheorems.DeclaredWinnerIsFinal | backend/domains/matches/scoresheet.go:201-230 | a declared pairing winner is never changed by legal play of the remaining games |
| ScoresheetTheorems.CalledExactlyWhenOutOfReach | backend/domains/matches/scoresheet.go:201-212 | with games to come, a side is declared if and only if it leads in every legal finish, in balls scored plus the worth of the handicaps |
| ScoresheetTheorems.PlayedOutHasWinner | backend/domains/matches/scoresheet.go:186-227 | a pairing played out goes to the side ahead in balls plus the rounded worth of its lower handicap, which counts for nothing below the minimum, and when level to the side that won two games |
| ScoresheetTheorems.AdjustedLead | backend/domains/matches/scoresheet.go:186-199 | at any stage the home lead is the difference in points plus the worth of the handicaps |
| ScoresheetTheorems.LowerHandicapKeepsTheWin | backend/domains/matches/scoresheet.go:186-227 | a lower handicap, or a higher one of the opponent, never costs a side a pairing, whatever is played and whatever the minimum |
| ScoresheetTheorems.SidesAreAlike | backend/domains/matches/scoresheet.go:186-227 | exchanging home and away exchanges the winner and nothing else |
| ScoresheetTheorems.UnplayedHasNoWinner | backend/domains/matches/scoresheet.go:202-208 | a handicap alone wins nothing |
| ScoresheetTheorems.RoundWinnerIsFinal | backend/domains/matches/scoresheet.go:230-251 | a declared round winner is final: always for the home side, and for the away side in rounds of up to three pairings |
| ScoresheetTheorems.AwayRoundIsFinalExactlyWhen | backend/domains/matches/scoresheet.go:230-251 | in a round of any size, an away winner is final if and only if the home side sweeping every open game would not win two pairings |
| ScoresheetTheorems.AwayRoundOfFourCanFlip | backend/domains/matches/scoresheet.go:242-251 | a round of four declared for the away side can end with the home side |
| Snapshots.GroupByRound | backend/domains/matches/round_service.go:103-111 | each round's earlier rows, in their order |
| Snapshots.ResolveSlots | backend/domains/matches/round_service.go:113-158 | the effective handicaps of every slot, or a refusal if and only if some slot is ambiguous; with nothing stored, the handicaps the players have |
| SnapshotTheorems.UnchangedSlotKeepsSnapshots | backend/domains/matches/round_service.go:124-138 | a slot with the same round and home player keeps the home snapshot, and with the same away player both |
| SnapshotTheorems.NewHomePlayerKeepsAwaySnapshot | backend/domains/matches/round_service.go:139-156 | a new home player against an away player of exactly one earlier pairing keeps the away snapshot; several are refused, and only they |
| SnapshotTheorems.SavedRowsTell | backend/domains/matches/round_service.go:170-196 | a stored row holds its games, the handicaps they were played under, and a spot that levels them to within half a ball |
| SnapshotTheorems.ResavingKeepsRows | backend/domains/matches/round_service.go:103-196 | saving the same sheet again under any other current handicaps is accepted and stores the same rows |
| SnapshotTheorems.ResultsAreUnique | backend/domains/matches/round_service.go:198-269 | the results of a sheet are the same rows whenever and in whatever map order they are derived |
| SaveService.SnapshotsSurvive | backend/domains/matches/round_service.go:103-196 | after a save, over any run of the protocol in which later saves keep the pairing on the sheet, its stored row keeps its handicaps, whatever happens to the match, the other slots, the players and the rules |
| SaveRounds.MatchTables.SaveRounds | backend/domains/matches/round_service.go:69-292 | the first reason to refuse, or the rows, results and completion of the sheet |
| SaveRounds.MatchTables.InsertRoundResult | db/db.go:219-233 | a row is refused if and only if its round and home player are already stored |
| SaveRounds.TallyGames | backend/domains/matches/round_service.go:198-223 | the tally map holds every player's games won and lost |
| SaveRounds.TallySets | backend/domains/matches/round_service.go:232-249 | and the sets won and lost, in whatever order won rounds are visited |
| ResultTheorems.SaveRefusedExactlyWhen | backend/domains/matches/round_service.go:78-196 | each reason to refuse a sheet is given if and only if it is the first that holds |
| SaveService.SaveSheet | backend/domains/matches/round_service.go:69-292 | one edit step of the approval protocol: the match ends up with the rows, results and completion of the sheet under the next revision, or with nothing changed and the reason |
| ResultTheorems.ResultsConserve | backend/domains/matches/round_service.go:198-269 | games won equal games lost equal decided games, sets won equal sets lost, and differentials sum to zero |
| ResultTheorems.SavedSheetsAreLegal | backend/domains/matches/round_service.go:160-168 | only sheets of legal games are saved |
| ResultTheorems.TeamIsCredited | backend/domains/matches/round_service.go:198-249 | each team is credited with exactly the games and sets its side won and lost, if nobody plays for both |
| ResultTheorems.PlayerIsCredited | backend/domains/matches/round_service.go:198-265 | every player's row holds exactly the games won and lost and the sets of won rounds that the sheet has for that player, and their difference |
| ResultTheorems.BookedByLastPairing | backend/domains/matches/round_service.go:225-230 | a player is booked for the side of the last pairing that names the player |
| ResultTheorems.StandingsFollowTheSheet | backend/domains/matches/scoring.go:17-97 | the match goes 2-0 to the side that won more decided games and 1-1 if they won as many, and both lines in the standings show the games of the sheet |
| Standings.MatchOutcome | backend/domains/matches/scoring.go:17-35 | both teams' points always add up to two |
| Standings.CountMatch | backend/domains/matches/scoring.go:58-97 | one match is added to the records of its two teams through pointers, whether or not they coincide, and to no other |
| Standings.ComputeStandings | backend/domains/matches/scoring.go:39-118 | one row per team, each with the sum of its matches, best first |
| StandingsTheorems.LinesBalance | backend/domains/matches/scoring.go:65-86 | played is wins plus losses plus ties and points are twice the wins plus the ties, even for a team entered against itself |
| StandingsTheorems.PlayedAreAppearances | backend/domains/matches/scoring.go:58-68 | a line counts the completed matches of its team between known teams, and no others |
| StandingsTheorems.TwoPointsAMatch | backend/domains/matches/scoring.go:58-86 | over the table every counted match is worth exactly two points, and wins equal losses |
| StandingsTheorems.GamesBalance | backend/domains/matches/scoring.go:88-97 | if every match's results conserve games, so does the table |
| StandingsTheorems.OrderDoesNotMatter | backend/domains/matches/scoring.go:58-97 | the lines are the same for any order of the matches |
| StandingsTheorems.SameRowsAnyOrder | backend/domains/matches/scoring.go:39-118 | two tables of the same matches hold the same rows |
| StandingsTheorems.SortedIsDescending | backend/domains/matches/scoring.go:99-117 | no row has fewer points than a later one, nor with equal points fewer wins, nor with equal wins fewer games won |
| StandingsTheorems.PlacesAreSettled | backend/domains/matches/scoring.go:99-117 | every place has the same points, wins and games won, whatever the sort does with ties |
| HandicapRecs.ComputeImpliedHandicap | backend/domains/handicaps/public.go:57-81 | the averages over all samples and over the window, in whole cents |
| HandicapRecs.BuildRecs | backend/domains/handicaps/service.go:226-372 | the accumulating loops give every roster entry the recommendation of its racks |
| HandicapRecs.IncludedAreSamples | backend/domains/handicaps/service.go:244-289 | the racks reported as included are exactly the samples averaged |
| HandicapRacks.CollectedSamples | backend/domains/handicaps/service.go:244-289 | what is collected for a player: row by row and the latest game first, for each game won by ten to at most seven, the opponent's handicap and own balls less the opponent's; and the games with no handicap on record |
| HandicapRacks.DifferencesAreBalls | backend/domains/handicaps/service.go:250-265 | a player's differences add up to the balls scored less the balls scored against |
| HandicapRacks.OpponentsAreOpposite | backend/domains/handicaps/service.go:268-281 | the two players of a row have as many samples, with opposite differences |
| HandicapRacks.LeagueBalances | backend/domains/handicaps/service.go:244-289 | over a roster of everybody who played, all differences add up to nothing |
| HandicapRacks.RecommendedExactlyWhen | backend/domains/handicaps/service.go:284-372 | in terms of the racks: which reason is given, when there is a recommendation, and which |
| HandicapRecs.AverageFitsTheRacks | backend/domains/handicaps/public.go:32-47 | the average before rounding is the one handicap for which the spot formula predicts the total difference that the racks came to |
| HandicapRecs.OlderRacksOnlyChangeTheToken | backend/domains/handicaps/token.go:18-36 | racks older than the window leave the recommendation alone but always change its token |
| HandicapRecs.RecommendedWithinCap | backend/domains/handicaps/service.go:318-337 | every recommendation is in whole cents and within the cap rounded to a cent |
| HandicapRecs.RecommendingAgain | backend/domains/handicaps/service.go:311-337 | once assigned, a recommendation is repeated with change zero, as no change or capped |
| HandicapApply.ValidateApplyRequest | backend/domains/handicaps/apply.go:117-154 | accepted if and only if the ID is a version 4 UUID and entries are present, for distinct players, with tokens |
| HandicapTheorems.IDsAreGrouped | backend/domains/handicaps/apply.go:117-130 | IDs are exactly the groups of 8, 4, 4, 4 and 12 hexadecimal digits with version four and variant 8 to b |
| HandicapApply.ComputeRequestHash | backend/domains/handicaps/token.go:89-120 | the season with the normalised entries, each once, in order of players |
| HandicapTheorems.HashIgnoresOrderOnly | backend/domains/handicaps/token.go:73-120 | two requests hash the same if and only if season and entries agree to the cent, in any order |
| HandicapStores.HandicapStore.UpdatePlayerHandicap | backend/storage/sqlite/handicap_apply_store.go:125-140 | updates if and only if the stored handicap still has the expected cents |
| HandicapStores.HandicapStore.InsertHandicapHistory | backend/storage/sqlite/handicap_apply_store.go:144-163 | appends unless the request already has a row for the player |
| HandicapStores.HandicapStore.AppliedChangesByRequestID | backend/storage/sqlite/handicap_apply_store.go:168-197 | exactly the rows of the request, in order of players |
| HandicapStores.HandicapStore.JudgeAll | backend/domains/handicaps/apply.go:290-399 | rejections, conflicts and intents as the gates decide, in their order |
| HandicapStores.HandicapStore.WriteIntents | backend/domains/handicaps/apply.go:405-457 | the write loop never fails and changes exactly the players on the request |
| HandicapStores.HandicapStore.Apply | backend/domains/handicaps/apply.go:171-484 | the whole transaction is one apply step |
| HandicapTheorems.AllOrNothing | backend/domains/handicaps/apply.go:290-457 | the ledger changes if and only if every check and every entry passes; then all players on the request and no others get their recommendation |
| HandicapAfterwards.WritesExactlyWhen | backend/domains/handicaps/apply.go:298-391 | an entry passes if and only if its player has a live token, the entry carries it, and both expected values agree to the cent |
| HandicapAfterwards.AppliesWhatWasShown | backend/domains/handicaps/apply.go:362-457 | every committed change takes its player from the value shown to the value shown |
| HandicapAnswers.CommitIsOnRecord | backend/domains/handicaps/apply.go:405-457 | each entry of a commit has one history row with request, hash, season, token and change, and the change is from the handicap the player had to the one the player has |
| HandicapAnswers.LiveExactlyWhen | backend/domains/handicaps/service.go:56-225 | when a player has a live recommendation, and which, in terms of roster, closed weeks, method, racks and the season's rules with their defaults |
| HandicapAnswers.VerdictIsTrue | backend/domains/handicaps/apply.go:298-391 | what is said of an entry, rejection or conflict, holds of its player |
| HandicapAnswers.FailsExactlyWhen | backend/domains/handicaps/apply.go:171-399 | which failure is answered when, and that a refusal lists all rejected entries or, if there are none, all in conflict |
| HandicapTheorems.RunKeepsConsistent | backend/domains/handicaps/apply.go:204-231 | over every run the rows of a request share one hash and no key repeats |
| HandicapTheorems.RunKeepsPlayerSets | backend/domains/handicaps/apply.go:233-252 | over every run without merges they are for exactly the players the hash names |
| HandicapTheorems.UnreachableAnswers | backend/domains/handicaps/apply.go:214-252 | the inconsistent-hash and failed-update answers never come, and the collision answer only after a merge |
| HandicapReplay.ReplayAfterAnyRun | backend/domains/handicaps/apply.go:204-270 | after a commit and any run of applies and other changes, the same entries in any order write nothing and return the same changes as replayed, if and only if the season is there and open and the lock free |
| HandicapReplay.AnswerOverCommit | backend/domains/handicaps/apply.go:204-270 | under a committed ID, other entries or another season are answered as a reused key |
| HandicapReplay.ReplayAfterMerge | backend/storage/sqlite/player_store.go:174-187 | one merge leaves the replay intact if and only if the player merged away is not on the request |
| HandicapAfterwards.RecomputeAfterCommit | backend/domains/handicaps/service.go:311-337 | after a commit each applied player is recommended the applied value again, within the cap, and nobody else's recommendation moves |
| HandicapAfterwards.NeverAppliedTwice | backend/domains/handicaps/apply.go:313-391 | the same entries under a new ID pass again if and only if each was capped at the handicap already assigned |
| Pushback.PushbackStore.Compute | backend/domains/matches/pushback_service.go:96-196 | the first error, or the plan |
| Pushback.PushbackStore.ApplyPushback | backend/storage/sqlite/pushback_store.go:14-52 | the loop of updates moves exactly the listed unplayed matches of the season, and sets its end date if there is one |
| Pushback.PushbackStore.Apply | backend/domains/matches/pushback_service.go:66-92 | the plan of the preview, carried out; or the first error and no change |
| PushbackTheorems.PlanIsInOrder | backend/storage/sqlite/pushback_store.go:105-125 | a plan lists its matches by week and then by ID |
| PushbackTheorems.PreviewForetells | backend/domains/matches/pushback_service.go:58-92 | a preview and an application of one request give the same answer, plan or error, if and only if the season exists and is open |
| PushbackTheorems.AppliesExactlyWhen | backend/domains/matches/pushback_service.go:66-125 | applied if and only if cutoff and weeks are positive, the season is there and open, and no week from the cutoff on is closed |
| PushbackTheorems.PlanComesTrue | backend/domains/matches/pushback_service.go:58-92 | a plan shows all matches that move and all that are preserved, and what it shows as shifted, preserved and end date is what the calendar has after applying it |
| PushbackTheorems.MovedMatchesStayTogether | backend/domains/matches/pushback_service.go:160-176 | matches move by the weeks asked for, seven days each, and keep their distances in weeks and days and their weekday |
| PushbackTheorems.PushbacksCompose | backend/domains/matches/pushback_service.go:96-196 | pushing back twice, the second time from the shifted cutoff, leaves the calendar that one pushback by the sum leaves |
| PushbackTheorems.RefusedTogether | backend/domains/matches/pushback_service.go:96-125 | and the two ways are refused for the same reasons |
| PushbackTheorems.OneMatchAWeekExactlyWhen | backend/domains/matches/pushback_service.go:130-176 | a pushback keeps teams to one match a week if and only if no match moves into a week its team has already played in |
| PushbackTheorems.PlayedAheadCollides | backend/domains/matches/pushback_service.go:130-176 | a calendar with one match a week on which a pushback makes a team play twice |

## Left out

- HTTP handlers, routes, sessions, authorization, logging, JSON and the user interface: plumbing.
- SQL text, connection handling, foreign keys, schema migration, backup and seeding; of the
  constraints only the two unique keys the modelled code can run into are there.
- `BlanketTemplate`, `SplitSeason` and `RoundRobin`: wrappers and an unrelated template.
- ByeRequests.ApplyByeRequests: the maps it fills are values reassigned in loops, not shared objects;
  the index out of range is modelled as the answer None.
- Generators.CustomSchedule: requires a non-empty cycle, without which the loop does not end; distinct
  non-zero IDs guarantee one.
- ApprovalStore.RoundStore.AdminCall: the older calls are one atomic step each; what can happen
  between their check and their write is stated by the late-write and race lemmas.
- ApprovalStore.RoundStore.CloseTheWeek: which findings the validation of a week makes is a parameter,
  and so is whether the season is a draft.
- ApprovalStore.RoundStore.GuardScoredLineupChange: the lineup row itself is not modelled, only its
  effect on the match.
- ApprovalStore.RoundStore.RequestCorrection: a blank note is one of ASCII white space; other Unicode
  white space is not modelled.
- ApprovalRuns.RunKeepsInv: pushbacks and player merges, which change a match's week or the name of
  an actor, are not steps of these runs, and a match is created with the lock of its week.
- SaveRounds.MatchTables.SaveRounds: a refused save leaves the working tables half written, as the
  program does; SaveService.SaveSheet states the rollback.
- ResultTheorems.StandingsFollowTheSheet: for two different teams without a common player, which is
  what a match is; for a player entered on both sides the program books everything on the last side.
- Standings.ComputeStandings: team names are not modelled, and a library sort is an insertion sort
  that leaves ties in some order.
- HandicapRecs.ComputeImpliedHandicap: reals instead of floating point, so rounding noise, infinities
  and NaN checks are not modelled; the window is positive, as the rule parser guarantees.
- HandicapStores.HandicapStore.Apply: effective date, week number, acting user and the window columns
  of a history row are not modelled, and rule values arrive parsed.
- HandicapReplay.ReplayAfterMerge: of a merge only its effect on the history is modelled; everything
  else it changes is an arbitrary change of data.
- `computePairingResult` and the display fields it fills, `SubmitResults` row contents, handicap
  previews and review messages, eligibility lookup, league, team, player and finance records.
- Parsing of dates and rule strings, and message texts.
