# MUSKOM: verification of its transactional protocols

MUSKOM is an election and registration backend. Many requests work on shared tables at the
same time, and what keeps the tables right is a small number of locks, unique keys and
check-then-write sequences. This project models those protocols and proves what they keep.

Each protocol is a state and a total step function. A request is a small program with a
program counter; each read, each locked statement and each commit is one event, and an
interleaving is an arbitrary sequence of events (`Runs.dfy`). An event that needs a lock
somebody else holds changes nothing, which is waiting. The code that updates rows is written
as methods over mutable tables, and each method is proved to be exactly the step, or the
answer, that the theorems speak about.

| file | part of MUSKOM |
|---|---|
| `Voting.dfy`, `VotingSafety.dfy`, `VotingStore.dfy` | ballot casting, the voting session, reopening |
| `Capacity.dfy`, `CapacitySafety.dfy`, `WaitingListSafety.dfy`, `NumberSafety.dfy`, `RegistrationStore.dfy` | public registration, waiting list, approval, official numbers |
| `RegistrationNumber.dfy` | printer and reader of official numbers |
| `DirectApproval.dfy` | status changes on the participant page |
| `Timeline.dfy`, `PublicHome.dfy` | phases, the public page and the registration endpoint |
| `EmailQueue.dfy`, `EmailQueueSafety.dfy`, `EmailQueueDrain.dfy` | registration e-mails: retries, backoff, termination |
| `CampaignQueue.dfy`, `CampaignStore.dfy` | the notification queue and the reminder blast |
| `RateLimiter.dfy` | the access-code limiter |
| `Attendance.dfy`, `AttendanceSafety.dfy` | check-in, undo, summary, eligibility |
| `Results.dfy`, `Template.dfy`, `Workflow.dfy`, `WorkflowSafety.dfy` | results and ranks, the template normaliser, the workflow engine |
| `Common.dfy`, `Runs.dfy`, `Text.dfy` | shared vocabulary |

Assumptions, once for all files: database and Redis statements succeed unless a constraint
rejects them or the model has an event for the failure; a statement sees all data committed
before it; the configuration row of group `registration` exists; generated ids and tokens are
new where a method or a run says so; letter case and blanks are those of ASCII text; times are
whole numbers and do not go back; a Redis key is gone at the instant of its expiry; lengths of
texts count characters. The status check of migration 007
(`database/migrations/007_create_registrations.sql`, line 17) is taken not to be in force: no
migration drops it, and it would reject the statuses the code writes.

Where the code does less than one might expect, the code is modelled and the exact condition
is proved:

* Two overlapping session actions can take the session out of CLOSED without an audit row
  (`VotingSafety.InterleavedActionsCanReopen`); one at a time they cannot.
* The public page upper-cases the capacity mode without trimming it and treats a negative limit
  as no limit; the endpoint trims, and compares with a negative limit. They agree exactly under
  `PublicHome.SettingsAgree`, which every documented setting satisfies.
* An approval keeps a number the row already has. It leaves an official number exactly on a row
  that had none or an official one (`RegistrationStore.ApprovedIsOfficialExactly`), and the
  `PENDING-` number of a public registration stays in every interleaving.
* Approvals on the participant page read the maximum without a common lock. Any two rows
  without a number can collide (`DirectApproval.TwoApprovalsCollide`), and a request is refused
  exactly when its number was taken since it read the maximum, or sits in participants.
* A manual retry of a failed campaign job can leave two active jobs, not only when it has an
  active twin but also when a request is past its existence check. The exact condition is
  `CampaignQueue.RetryIsSafe`.
* The comments of migration 018 (`database/migrations/018_update_attendance_undo.sql`) want a
  new check-in to be possible after an undo. Migration 054
  (`database/migrations/054_fix_attendance_votes_participants_fk.sql`, lines 11 to 13) adds a
  unique constraint over all rows beside the partial index, and the insert yields to it too, so
  an undone check-in is final. Both rules are modelled (`Attendance.Uniqueness`).
* A check-in reads the status before its transaction, and the transaction copies the status of
  that later moment.
* A six-failure minute is possible at exactly 60 seconds, not below.
* Without any votes the first row of the result is named winner.
* Two workflow transitions that read the same state both write; the history is then no path
  (`WorkflowSafety.StaleWriteIsReachable`). Over runs it is a path exactly when no move of its
  instance was stale (`WorkflowSafety.HistoryIsPathExactly`).

## Model

| member | source | states |
|---|---|---|
| `VotingSafety.NoVoteBeforeAStart` | apps/api/internal/modules/voting/repository.go:201-212 | while no session row has been stored nobody votes: any ballot comes after a start or resume was written |
| `VotingStore.Store.Advance` | apps/api/internal/modules/voting/service.go:63-107 | each read of a cast and each statement of its transaction, written as code, is exactly one step of the protocol |
| `VotingStore.Store.CastVote` | apps/api/internal/modules/voting/service.go:63-107 | a cast that nothing interrupts reports the first check it fails, in the order RUNNING, eligible, not voted yet, valid candidate, existing rows; it adds one receipt and one ballot when none fails, and neither otherwise |
| `VotingSafety.OneVoteEach` | apps/api/internal/modules/voting/repository.go:43-54 | in every interleaving of casts, session actions and table changes: at most one receipt per participant, as many ballots as receipts as finished casts, per candidate exactly the ballots of the casts that named them, and nothing behind a failed cast |
| `VotingSafety.LoserHasVoted` | apps/api/internal/modules/voting/repository.go:43-54 | in every interleaving: once the vote of a participant is committed, another cast of theirs that has passed every check can only be cancelled or end with ErrAlreadyVoted, and does so with its next step |
| `VotingSafety.TallyMatchesCasts` | apps/api/internal/modules/voting/repository.go:94-117 | counting anonymous ballots per candidate counts the committed casts that named the candidate |
| `VotingSafety.EveryBallotSawRunning` | apps/api/internal/modules/voting/service.go:64-71 | every ballot in every run belongs to a cast whose own status read, at an earlier point of the run, saw RUNNING |
| `VotingSafety.CutOff` | apps/api/internal/modules/voting/service.go:159-200 | once the session is not RUNNING, and until a start or resume, at most the casts already past their status read add ballots; when there are none the tally is frozen |
| `VotingStore.Store.ReadAction` | apps/api/internal/modules/voting/service.go:159-189 | an action is accepted for exactly eight pairs of action and stored status |
| `VotingStore.Store.UpdateSessionStatus` | apps/api/internal/modules/voting/service.go:159-200 | an action that nothing interrupts: start from NOT_STARTED, stored or not, and resume from PAUSED write RUNNING, pause from RUNNING writes PAUSED, stop or close from RUNNING or PAUSED writes CLOSED, and any other pair is refused and writes nothing |
| `VotingSafety.SerialWritesFollowTheMachine` | apps/api/internal/modules/voting/service.go:159-193 | with session actions one at a time, every event of every run keeps the stored status or moves it along one of six edges, or from CLOSED to NOT_STARTED with its audit row |
| `VotingStore.Store.ReopenSession` | apps/api/internal/modules/voting/reopen.go:28-105 | exactly a CLOSED session and a trimmed reason of 1 to 500 characters: NOT_STARTED is written together with the audit row of that reason; otherwise nothing is |
| `VotingSafety.ClosedIsLeftByReopenOrStaleWrite` | apps/api/internal/modules/voting/reopen.go:54-97 | over any run, exits from CLOSED = new reopen audit rows + stale session writes |
| `VotingSafety.ClosedIsLeftOncePerAuditRow` | apps/api/internal/modules/voting/reopen.go:54-97 | with session actions one at a time, CLOSED is left exactly once per reopen audit row |
| `VotingSafety.InterleavedActionsCanReopen` | apps/api/internal/modules/voting/service.go:159-193 | two overlapping actions can take the session from CLOSED to RUNNING without an audit row: the concrete run |
| `VotingStore.Store.GetSummary` | apps/api/internal/modules/voting/service.go:117-145 | votes cast are exactly the ballots for candidates that are still valid, and the percentage is their share of the voters checked in, zero when there are none |
| `VotingStore.TallyCountsBallots` | apps/api/internal/modules/voting/service.go:128-131 | adding up the per-candidate counts counts each of those ballots once |
| `RegistrationStore.Store.Create` | apps/api/internal/modules/participant/repository.go:72-116 | the insert adds one row, pending with a PENDING- number or waiting without one, or meets a taken id or number and adds nothing |
| `RegistrationStore.Store.AdvanceRegister` | apps/api/internal/modules/participant/service.go:314-400 | each statement of a registration, written as code, is exactly one step of the protocol |
| `RegistrationStore.Store.PublicRegister` | apps/api/internal/modules/participant/service.go:314-460 | a registration that nothing interrupts gets the first applicable answer (closed, duplicate e-mail, registered, quota reached, waiting list full, waitlisted), as conditions on rows and settings, leaves exactly the row it stands for and gives the lock back |
| `RegistrationStore.EndsWithAnswer` | apps/api/internal/modules/participant/service.go:346-394 | the request's own statements reach that answer from every state of the tables |
| `Text.TrimTakesTheBlanks` | apps/api/internal/modules/participant/service.go:337-340 | the trimmed mode is the stored one without the blanks at its two ends, and nothing else is taken off |
| `Text.UpperLetterByLetter` | apps/api/internal/modules/participant/service.go:337-340 | upper-casing changes exactly the letters a to z, each to its capital |
| `WaitingListSafety.WaitingListIsNeverOverfull` | apps/api/internal/modules/participant/service.go:346-394 | with a positive capacity that is never lowered, no interleaving brings the waiting list above it, whatever happens to limit and mode and whichever settings a request has read |
| `WaitingListSafety.WaitlistedOnlyWhenFull` | apps/api/internal/modules/participant/service.go:374-392 | whoever is waitlisted had counted, while holding the advisory lock, at least as many approved registrations as the limit it read |
| `CapacitySafety.QuotaIsNeverExceeded` | apps/api/internal/modules/verification/service.go:108-173 | in every interleaving of registrations, approvals, rejections, deletions and limit changes that do not undercut, approved registrations never exceed a positive limit, although the status is read before the transaction |
| `CapacitySafety.NoApprovalPassesTheLimit` | apps/api/internal/modules/verification/service.go:108-173 | in every run, with limits set to anything at any time, no event that adds an approved registration takes their number above a positive limit in force |
| `CapacitySafety.ConfigLockIsExclusive` | apps/api/internal/modules/verification/repository.go:195-217 | in every run at most one approval is between locking the configuration row and the end of its transaction |
| `RegistrationStore.Store.AdvanceVerify` | apps/api/internal/modules/verification/service.go:98-225 | each statement of an approval or rejection, written as code, is exactly one step of the protocol |
| `RegistrationStore.Store.VerifyParticipant` | apps/api/internal/modules/verification/service.go:98-225 | a decision that nothing interrupts is refused for the first reason that applies, as conditions on rows and settings, and otherwise changes exactly its row: the status, and for an approved row without a number the printed text with the year of the call and one more than the largest number stored |
| `RegistrationStore.KeepsShape` | apps/api/internal/modules/verification/service.go:71-96 | what a request has established at each program counter: only a pending row is decided, only an approval counts or numbers |
| `RegistrationNumber.ReadBack` | apps/api/internal/modules/verification/service.go:146-152 | stripping the prefix and reading the integer undoes the printed number, for every four-digit year and every natural n, 10000 and above included |
| `RegistrationNumber.FormatExactly` | apps/api/internal/modules/verification/service.go:146-152 | a text is what is printed for a year and a number exactly when it is the prefix, four digits that read as the year, a dash, and at least four digits, without a zero in front of a fifth, that read as the number |
| `RegistrationNumber.FormatIsInjective` | apps/api/internal/modules/verification/service.go:146-152 | no two pairs of year and number are printed alike |
| `RegistrationNumber.FormatWidth` | apps/api/internal/modules/verification/service.go:146-152 | the number has exactly four digits as long as it is below 10000 |
| `RegistrationNumber.CastsExactly` | apps/api/internal/modules/verification/repository.go:279-299 | of the texts with the prefix the aggregate reads exactly those with four digits, a dash and digits behind it, and reads the digits behind the dash |
| `NumberSafety.NextNumberIsAbove` | apps/api/internal/modules/verification/repository.go:279-299 | MAX + 1, printed for any year, is above every stored official number of every year and taken by no row |
| `NumberSafety.MaximumIsAttained` | apps/api/internal/modules/verification/repository.go:279-299 | the maximum is read exactly when every official number casts to INTEGER; it is one of them, or zero without any |
| `NumberSafety.NumbersAreNeverShared` | apps/api/internal/modules/verification/service.go:146-173 | in every interleaving, numbers stay well formed and pairwise different and no locked approval ever meets a duplicate |
| `NumberSafety.OtherNumbersStay` | apps/api/internal/modules/verification/service.go:141-152 | in every interleaving with new ids, a number that is not official stays with its row, however approvals overlap |
| `NumberSafety.PublicNumberStays` | apps/api/internal/modules/participant/service.go:403-460 | a public registration in the main pool gets a PENDING- number and keeps it in every interleaving |
| `RegistrationStore.ApprovedIsOfficialExactly` | apps/api/internal/modules/verification/service.go:141-152 | an approval leaves an official number if and only if the row had none or already an official one |
| `DirectApproval.NumbersStayUnique` | apps/api/internal/modules/participant/service.go:156-238 | approvals that lock only their own row, interleaved with every other writer that meets the unique keys, whatever text it stores as a number, keep the numbers unique in both tables |
| `DirectApproval.NumbersStayWellFormed` | apps/api/internal/modules/participant/service.go:156-238 | in every run whose other writers store castable official numbers, so do the approvals |
| `DirectApproval.SecondOfTwoIsRefused` | apps/api/internal/modules/participant/service.go:172-186 | of two approvals that hold the same new number the first to write gets it and the second is refused |
| `DirectApproval.TwoApprovalsCollide` | apps/api/internal/modules/participant/service.go:156-186 | for any two rows without a number there is a run in which both approvals read the maximum, the first gets the next number and the second is refused |
| `DirectApproval.RefusedExactlyWhenTakenSince` | apps/api/internal/modules/participant/service.go:172-186 | in every run, whatever numbers the other writers store, a request at its write is refused if and only if another registration has taken its number since it read the maximum, or another row of participants carries it |
| `DirectApproval.UpdateAlone` | apps/api/internal/modules/participant/service.go:156-247 | the statements of one request on an unlocked row lead to its answer; an approval leaves both tables with the requested status and the number, any other status is written to registrations beside the old number, and a refusal leaves both tables untouched |
| `DirectApproval.ApprovalIsFinal` | apps/api/internal/modules/participant/service.go:156-171 | approving an approved row again, with either status and in any year, answers already approved and changes nothing |
| `DirectApproval.Store.NextNumber` | apps/api/internal/modules/participant/repository.go:266-281 | the number offered is the printed text of the year of the call and one more than the largest number stored, and is carried by no registration |
| `DirectApproval.Store.UpdateStatusAndNumber` | apps/api/internal/modules/participant/repository.go:227-264 | both tables take the requested status and the number, or a missing row or taken number leaves both as they were; numbers stay unique |
| `DirectApproval.Store.UpdateStatus` | apps/api/internal/modules/participant/service.go:156-247 | for every status: an approval stores the requested status and the number the row has, or the printed text with the year of the call and one more than the largest number stored, in both tables; it refuses what is missing, approved already, not castable or duplicate; another status is written to registrations alone, beside the old number |
| `Timeline.Store.Create` | apps/api/internal/modules/website/service.go:561-605 | the new phase as requested; a flagged one unflags every live phase, and nothing else changes |
| `Timeline.Store.Update` | apps/api/internal/modules/website/service.go:607-653 | a live phase is replaced as requested and the other live ones unflagged if it is flagged; for a missing or deleted phase everything, the unflagging included, is rolled back |
| `Timeline.Store.Delete` | apps/api/internal/modules/website/repository.go:264-268 | the phase is marked deleted and nothing else changes |
| `Timeline.Store.Reorder` | apps/api/internal/modules/website/repository.go:270-285 | orders are written one by one, the last item for a phase wins, deleted phases keep theirs |
| `Timeline.FlagStaysUnique` | apps/api/internal/modules/website/service.go:561-683 | over every sequential run of create, update, delete and reorder at most one live phase is flagged current |
| `Timeline.CalculatePhasesStatus` | apps/api/internal/modules/website/service.go:121-157 | every status is written, nothing else changes, and at most one phase is active: the first flagged, else the first whose dates contain now; the others are past or upcoming by their end |
| `Timeline.PageMatchesResolver` | apps/api/internal/modules/website/resolver.go:23-42 | page and resolver name the same phase, whatever row a tie lets the query return, exactly when the data leave it no choice |
| `Timeline.DistinctOrdersDetermine` | apps/api/internal/modules/website/repository.go:191-215 | distinct display orders and a single flag leave no choice |
| `PublicHome.CurrentAndNext` | apps/api/internal/modules/website/service.go:193-218 | the active phase shown is the one the rule picks; the next one is its successor, or the first that has not ended |
| `PublicHome.Buttons` | apps/api/internal/modules/website/service.go:263-333 | participant and candidate buttons as conditions on the registration type, the two settings rows, limit, capacity, mode and counts |
| `PublicHome.Aggregate` | apps/api/internal/modules/website/service.go:193-333 | the active phase and the next one, and both buttons of the page, as conditions on the published phases, the settings rows and the counts |
| `PublicHome.CapacityViewsAgree` | apps/api/internal/modules/website/service.go:284-309 | page and endpoint see room for all the same counts if and only if the settings satisfy a condition readable from limit, capacity and mode |
| `PublicHome.DocumentedSettingsAgree` | apps/api/internal/modules/website/repository.go:582-602 | a limit that is not negative and one of the three documented modes satisfy that condition |
| `PublicHome.AcceptsExactly` | apps/api/internal/modules/participant/service.go:314-394 | the endpoint accepts an unused e-mail exactly when registration is open and it sees room |
| `PublicHome.PageAgreesWithEndpoint` | apps/api/internal/modules/participant/service.go:314-394 | on one state of the tables and one clock value the page offers participant registration exactly when its button is enabled and the endpoint would accept an unused e-mail |
| `EmailQueueSafety.MaximaAgree` | apps/api/internal/modules/registration/repository.go:592-612 | in every run the worker and the SQL read the same maximum off every stored log, and it allows an attempt |
| `EmailQueue.Queue.CreateEmailLog` | apps/api/internal/modules/registration/repository.go:592-612 | a new log is pending without attempts; a maximum that is not positive becomes 5 |
| `EmailQueue.Queue.GetPendingEmails` | apps/api/internal/modules/registration/repository.go:701-716 | only logs that are pending, below their maximum and due, each once, at most ten, and all of them when fewer |
| `EmailQueueSafety.FailsAtTheMaximum` | apps/api/internal/modules/registration/repository.go:728-748 | after n failures a fresh log is FAILED without a retry time exactly when n has reached its maximum, and until then waits for the time last offered |
| `EmailQueue.Queue.SendNext` | apps/api/internal/modules/registration/worker.go:91-146 | one send and its update is exactly one step of the protocol: SENT, or the count goes up and the log is FAILED at the maximum of its row and otherwise waits 1, 5, 15, 60 or 360 minutes by the count of the fetched copy |
| `EmailQueue.Queue.RetryEmailLog` | apps/api/internal/modules/registration/repository.go:750-758 | a manual reset makes any log pending, with no attempts counted and due at once |
| `EmailQueueSafety.PendingHasAttemptsLeft` | apps/api/internal/modules/registration/repository.go:728-758 | in every run, resets between fetch and update included, a pending log has attempts left and a failed one has none |
| `EmailQueueSafety.RetriesAreBoundedAndSpaced` | apps/api/internal/modules/registration/worker.go:112-137 | without resets: never more attempts than the maximum, and the k-th retry starts no earlier than the first attempt plus the sum of the first k waits |
| `EmailQueueSafety.BackoffTable` | apps/api/internal/modules/registration/worker.go:119-132 | those sums are 0, 1, 6, 21, 81 minutes and six hours more each |
| `EmailQueueSafety.DecisionsCoincide` | apps/api/internal/modules/registration/worker.go:114-118 | the worker has no retry time to offer exactly when the update moves the row to FAILED |
| `EmailQueueDrain.AttemptUsesOneUp` | apps/api/internal/modules/registration/worker.go:91-146 | every attempt lowers the sum of remaining attempts |
| `EmailQueueDrain.QueueDrains` | apps/api/internal/modules/registration/worker.go:91-146 | for polls at any times and sends with any outcome: once as many polls have come late, each the longest backoff or more after the end of the late one before it, as attempts were left, no log is pending |
| `EmailQueueDrain.QueueDrainsInTime` | apps/api/internal/modules/registration/worker.go:91-146 | after any history without resets, when no logs are added and polls start at most a gap apart, no log is pending once six hours and two gaps have passed for every attempt left |
| `CampaignQueue.AtMostOneActiveJob` | apps/api/internal/modules/notification/repository.go:369-419 | in any interleaving of queueing requests, the worker and safe manual retries, at most one job that has not failed per campaign and recipient |
| `CampaignQueue.ActiveStaysExactly` | apps/api/internal/modules/notification/worker.go:52-160 | a recipient with an active job still has one after any event if and only if the event is not the worker reporting a failed send of that job |
| `CampaignQueue.RepeatedRequestIsSkipped` | apps/api/internal/modules/notification/repository.go:369-419 | in every interleaving, a request that begins while its recipient has an active job for the campaign never inserts one, unless a send to that recipient fails |
| `CampaignQueue.RetryKeepsInvExactly` | apps/api/internal/modules/notification/repository.go:234-238 | a manual retry keeps the invariant behind that if and only if it revives no failed job with an active twin or with a request past its existence check |
| `CampaignQueue.UnsafeRetryBreaks` | apps/api/internal/modules/notification/repository.go:234-238 | any other retry gives two active jobs at once or after one more statement |
| `CampaignQueue.RetryRacesWithQueueing` | apps/api/internal/modules/notification/repository.go:234-238 | such a retry is reachable: the concrete run from an empty table |
| `CampaignStore.QueueAlone` | apps/api/internal/modules/notification/repository.go:369-419 | lock, existence check, insert and commit of one request amount to queueing once |
| `CampaignStore.Store.QueueUniqueCampaignJob` | apps/api/internal/modules/notification/repository.go:369-419 | a pending job is appended exactly when every job of the campaign for the recipient has failed and the insert does not |
| `CampaignStore.Store.QueueNotification` | apps/api/internal/modules/notification/service.go:69-97 | a pending job outside any campaign is appended, which is one step of the protocol |
| `CampaignStore.Store.GetPendingJobs` | apps/api/internal/modules/notification/repository.go:132-137 | the ten oldest pending jobs in their order, or all when there are fewer |
| `CampaignStore.Store.ProcessJobs` | apps/api/internal/modules/notification/worker.go:41-160 | the worker takes every fetched job to SENT if the sending worked and to FAILED if not, touches no other and logs each outcome once; with unique active jobs a recipient keeps an active one exactly when the sending worked; all of it is the run of the protocol over these steps |
| `CampaignStore.StartedIsNotFetched` | apps/api/internal/modules/notification/worker.go:52-54 | a job that is being sent is PROCESSING and in no further batch |
| `CampaignStore.Store.RetryJob` | apps/api/internal/modules/notification/repository.go:234-238 | a manual retry makes a job pending whatever it was, and is one step of the protocol |
| `CampaignStore.Store.BlastMusyawarahReminder` | apps/api/internal/modules/notification/service.go:279-350 | requested = queued + skipped + failed inserts; jobs are only appended, each for a recipient who had no active one at that moment; afterwards every eligible recipient whose insert worked has one; each error is met in order and queues nothing |
| `CampaignStore.Store.BlastTwice` | apps/api/internal/modules/notification/service.go:279-350 | once a blast is through, any run of the worker, of other requests and of retries in which no send to a chosen recipient fails leaves a repeated blast nothing to queue: it skips every eligible recipient, whichever of those reached the second blast selects |
| `RateLimiter.LiveCountIsChain` | apps/api/internal/modules/evoting/handler.go:54-72 | in every run the count a request reads is the length of the last chain of failures less than a minute apart, and zero a minute after its end |
| `RateLimiter.Handler.IncrementFailure` | apps/api/internal/modules/evoting/handler.go:54-63 | the count goes up by one, from zero when it had expired, and its life is renewed |
| `RateLimiter.Handler.Authenticate` | apps/api/internal/modules/evoting/handler.go:103-161 | answer and new counter for every request, from the live count and the code: blocked, malformed, unconfigured and accepted requests count nothing, a wrong code counts one and renews the minute |
| `RateLimiter.AtMostFivePerSpan` | apps/api/internal/modules/evoting/handler.go:103-161 | for every history and address, a span of less than 60 seconds holds at most five failed comparisons |
| `RateLimiter.BlockedExactlyAfterAChainOfFive` | apps/api/internal/modules/evoting/handler.go:103-113 | a request is turned away exactly when there are five failures, each within a minute of the one before, and the last within the last minute |
| `RateLimiter.SixFitIntoAMinute` | apps/api/internal/modules/evoting/handler.go:54-63 | a span of exactly 60 seconds can hold six: the concrete runs |
| `Attendance.Store.GetParticipantIDByRegNumber` | apps/api/internal/modules/attendance/repository.go:43-48 | a registration with that number or QR token, and none exactly when there is none |
| `Attendance.Store.CreateAttendance` | apps/api/internal/modules/attendance/repository.go:67-109 | the participant row is provisioned once and never overwritten, unless its number is taken; the row is inserted unless a unique index is in its way; an error writes nothing |
| `Attendance.Store.CheckIn` | apps/api/internal/modules/attendance/service.go:50-113 | a check-in that nothing interrupts: the registration it is about, its answer for every input, and the tables and the audit row it leaves |
| `Attendance.Store.CheckInParticipant` | apps/api/internal/modules/attendance/service.go:67-105 | for every registration: not found, not approved, number taken, already checked in, final after an undo or checked in, as conditions on the rows, and what each leaves in participants, attendance and audit |
| `Attendance.CheckInAlone` | apps/api/internal/modules/attendance/service.go:67-105 | the reads, the transaction and the final read of one request amount to that answer |
| `Attendance.Store.MarkUndone` | apps/api/internal/modules/attendance/repository.go:139-171 | exactly the active rows named by a row or participant id are marked, and the count is their number |
| `Attendance.Store.UndoCheckIn` | apps/api/internal/modules/attendance/service.go:134-156 | an undo succeeds exactly when an active row matches; otherwise nothing changes and nothing is logged |
| `Attendance.Store.BulkUndoCheckIn` | apps/api/internal/modules/attendance/service.go:158-184 | all matching rows are undone and logged once, and without a match nothing is |
| `AttendanceSafety.OneActiveRowEach` | apps/api/internal/modules/attendance/repository.go:81-109 | in every run a participant has at most one active attendance row, under either uniqueness rule |
| `AttendanceSafety.CheckInsAreLogged` | apps/api/internal/modules/attendance/service.go:87-93 | in every run the audit log holds one check-in entry per attendance row, in order |
| `AttendanceSafety.SummaryCountsRegistrations` | apps/api/internal/modules/attendance/repository.go:173-188 | in every run the left join never duplicates: total, present and absent are the numbers of approved registrations, with and without an active row |
| `AttendanceSafety.StepKeepsEligibleExactly` | apps/api/internal/modules/voting/repository.go:141-155 | after any event a participant who could vote still can, if and only if the event does not undo one of their rows |
| `AttendanceSafety.StatusStaysVoterExactly` | apps/api/internal/modules/attendance/repository.go:68-80 | for each participant: a step keeps their status one that votes if and only if it does not provision them from a registration with another one |
| `AttendanceSafety.ProvisionedVoterVotes` | apps/api/internal/modules/attendance/service.go:67-105 | a participant provisioned from a voting status, if at all, can vote when a check-in succeeds, in every run |
| `AttendanceSafety.EligibleUntilUndone` | apps/api/internal/modules/voting/repository.go:141-155 | in every run a check-in that succeeds admits to the vote exactly when the status in participants votes, and then the participant can vote until one of their own rows is undone, whatever else happens |
| `AttendanceSafety.ApprovalAdmitsExactly` | apps/api/internal/modules/participant/repository.go:227-264 | an approval on the participant page lets exactly those vote who are checked in, whatever status they had |
| `AttendanceSafety.UninterruptedCheckIn` | apps/api/internal/modules/attendance/service.go:67-99 | a check-in that nothing interrupts admits to the vote exactly when the spelling it finds votes |
| `AttendanceSafety.StaleStatusIsProvisioned` | apps/api/internal/modules/attendance/service.go:67-85 | the status is read before the transaction: a rejection in between is copied and the successful check-in does not admit to the vote |
| `AttendanceSafety.UndoIsFinal` | apps/api/internal/modules/attendance/repository.go:81-109 | with the table constraint of migration 054, a participant whose check-in was undone never has an active row again |
| `AttendanceSafety.CheckInAgainExactly` | apps/api/internal/modules/attendance/service.go:99-105 | in every run, a new check-in after an undo succeeds if and only if the partial index is the only one |
| `Results.ElectionOutcome` | apps/api/internal/modules/result/repository.go:64-103 | with a positive maximum: a winner exactly when one row leads alone, a tie exactly when several do, and the tied rows are the leaders; without votes the first row is named; each row has its percentage of all ballots |
| `Results.PercentagesAddUp` | apps/api/internal/modules/result/repository.go:71-82 | the percentages of the listed candidates add up to the share of the ballots cast for them, so with any ballots to 100 exactly when no other candidate has one |
| `Results.LeadersAreUnbeaten` | apps/api/internal/modules/result/repository.go:87-103 | the leaders are exactly the rows that no row has more votes than |
| `Results.ExportRanks` | apps/api/internal/modules/result/handler.go:149-165 | a row's rank is one more than the number of rows with strictly more votes |
| `Results.RankOneLeads` | apps/api/internal/modules/result/handler.go:217-234 | no row is above a row exactly when it is a leader |
| `Template.FittingTextMatches` | apps/api/internal/modules/notification/renderer.go:13 | the pattern has one reading: text is matched, as that match, exactly when it starts with text that fits |
| `Template.MatchedExactly` | apps/api/internal/modules/notification/renderer.go:13 | a text is matched as blanks, name and blanks exactly when it starts with them in double braces, the blanks are the five of the pattern, and the name consists of letters, digits and underscores and starts with no digit |
| `Template.KeywordsExactly` | apps/api/internal/modules/notification/renderer.go:14-26 | eleven words are keywords, in any mixture of cases, and no others |
| `Template.MatchesDoNotOverlap` | apps/api/internal/modules/notification/renderer.go:13 | no match starts inside another |
| `Template.RewritesPiecewise` | apps/api/internal/modules/notification/renderer.go:29-42 | text before a match stays, a keyword stays, any other name gets its dot and loses the blanks, and the rest is normalised by itself |
| `Template.NormalizedHasNoBareName` | apps/api/internal/modules/notification/renderer.go:29-42 | no match with a name that is not a keyword is left anywhere in the output |
| `Template.UnchangedExactlyWithoutBareName` | apps/api/internal/modules/notification/renderer.go:14-26 | a text is left as it is if and only if all its matches are keywords |
| `Template.NormalizeIsIdempotent` | apps/api/internal/modules/notification/renderer.go:29-42 | normalising twice is normalising once |
| `Workflow.Engine.GetTransition` | apps/api/internal/modules/workflow/repository.go:73-80 | some rule for the pair of states, and none exactly when there is none |
| `Workflow.Engine.StartWorkflow` | apps/api/internal/modules/workflow/service.go:32-65 | the instance in the initial state with its opening row, or the error of the first lookup that fails and no change; the two commits are the steps of the protocol |
| `Workflow.Engine.TransitionState` | apps/api/internal/modules/workflow/service.go:67-115 | unknown instance, no rule for the pair of states, or unauthorized exactly when the rule found asks for another role or for a permission that the role lacks; then nothing changes, and otherwise the instance moves and the history row is appended |
| `WorkflowSafety.SequentialHistoriesArePaths` | apps/api/internal/modules/workflow/service.go:32-115 | for every sequence of calls, the history of every instance leads from the initial state along rules whose role the actor had and whose permission that role had, and replaying it gives the current state |
| `WorkflowSafety.HistoriesArePaths` | apps/api/internal/modules/workflow/repository.go:111-140 | the same for every interleaving of starts, reads and writes in which no move is stale, whichever matching rule the query returns |
| `WorkflowSafety.HistoryIsPathExactly` | apps/api/internal/modules/workflow/repository.go:111-140 | in every interleaving, the history of an opened instance is a permitted path to its current state if and only if no move of that instance was stale when it was written, whatever happened to other instances |
| `WorkflowSafety.WriteKeepsInvExactly` | apps/api/internal/modules/workflow/service.go:67-108 | a move keeps the histories paths if and only if the instance is still where the request read it and its opening row is written |
| `WorkflowSafety.SecondWriteBreaksThePath` | apps/api/internal/modules/workflow/service.go:67-108 | when two requests have read the same state, both writes keep the path if and only if the first leads back to where it started |
| `WorkflowSafety.StaleWriteIsReachable` | apps/api/internal/modules/workflow/service.go:67-108 | two such writes are reachable from an empty table: the concrete run |
| `WorkflowSafety.ReplayIsConnected` | apps/api/internal/modules/workflow/repository.go:128-137 | replaying succeeds exactly when every row starts where the one before ended |

## Left out

- CapacitySafety.QuotaIsNeverExceeded: says nothing about runs with the approval paths that skip the quota (participant UpdateStatus and BulkUpdateStatus, the registration module's approval, an admin's create with a status), because those paths do not count; a new limit below what is already approved, which nothing in the code prevents, is excluded here and allowed in CapacitySafety.NoApprovalPassesTheLimit.
- WaitingListSafety.WaitingListIsNeverOverfull: says nothing about runs in which an admin's create, UpdateStatus or BulkUpdateStatus writes a waiting-list status, because those paths do not count; a capacity that is lowered is excluded, because the list may already be longer.
- NumberSafety.NumbersAreNeverShared: the other writers of numbers are in DirectApproval, where the unique key can refuse an approval; beside them a locked approval can be refused too.
- CapacitySafety.NoApprovalPassesTheLimit: the approval paths that skip the quota are no events here either.
- NumberSafety.OtherNumbersStay: an admin's create, which can store any number with a new row, is not an event.
- RegistrationStore.Store.Create: the row of persons that the same transaction inserts or updates is not modelled; the e-mail stands for it.
- RegistrationStore.Store.VerifyParticipant: the audit row and the rejection reason are not modelled.
- EmailQueueSafety.RetriesAreBoundedAndSpaced: runs without manual resets; with resets only the bound of EmailQueueSafety.PendingHasAttemptsLeft is claimed.
- EmailQueueDrain.QueueDrainsInTime: logs neither come nor go while the queue drains; before that they may.
- Timeline.FlagStaysUnique: timeline operations one after the other; the code does not lock them against each other.
- VotingStore.Store.GetSummary: the number of voters checked in is a parameter.
- E-mail uniqueness of registrations under concurrency: the duplicate check comes before the lock, so it is not claimed.
- The order in which the pending queries return rows, and the text of error messages and audit entries.
- Casting an official number that is signed or padded with blanks: only plain digits are read; anything else counts as a failed cast.
- The number allocator of the registration module, which counts rows instead of taking the maximum.
- CheckParticipantEligibilityByRegNumber: two of the reads of a cast, shown to the operator, with no effect.
- Candidate verification, which has neither a quota nor numbers.
- The page cache, so the page is the uncached aggregation; the realtime hub; HTTP handlers, the frontend, CSV and XLSX writing.
- Mail delivery, password hashing, template execution and file storage: sending is an arbitrary success or failure.
