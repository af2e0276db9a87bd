# Live server: verified models

Dafny models of the protocols and algorithms of a live-streaming server (Node.js, Redis, Postgres), with
proofs of what they promise. `dafny verify dfyconfig.toml` checks all of it. One file per component:

| file | what it models |
|---|---|
| `Options.dfy` | the option type that the other modules share |
| `EditDistance.dfy`, `Censor.dfy` | the fuzzy chat censor: the one-row Levenshtein loop, pruning, word-list and verdict caches |
| `CallSession.dfy` | a video-call row and the requests that race to accept, reject and end it |
| `InitiateCall.dfy` | starting a call: two per-user locks around the busy checks, stale clean-up and insert |
| `CallBilling.dfy` | billing passes against the contract of the external ledger |
| `LeaderLease.dfy`, `DurableTimers.dfy` | the cluster's leader lock and its durable timers |
| `MarkerReconciler.dfy` | the self-repair of the "active stream" markers |
| `AgencyTier.dfy`, `AgencyRace.dfy` | the agency ladder, its lock and window; the two writers racing on one agency row |
| `ViewerCards.dfy`, `CameraAccounting.dfy` | the epoch-keyed viewer cards and their order; camera-off time and effective duration |
| `TokenBuckets.dfy`, `LedgerClient.dfy` | rate limiting; the retrying ledger call |
| `LuckyDraw.dfy`, `Heartbeat.dfy` | lucky-gift odds, rewards and breakdown; the expiring heartbeat key |

Redis and Postgres are values changed by atomic commands. A protocol is the set of all finite sequences of such
commands, by any number of requests and nodes, and its laws are lemmas over all of them. A request is a method
that runs other requests' commands (`others`, `between`, `before...`) at each of its awaits; its contract gives the
exact sequence of commands that resulted, so that the laws apply to it. Clocks, random draws, lost messages and
database reads are parameters. Numbers are exact: integers, and reals where the code has fractions.

Some promises of the code or of its comments do not hold for all inputs. One of them gets a bound and a run that
shows why it is needed: while every lock section of `initiateCall` ends within its 5 s TTL no user is in two calls; in
`InitiateCall.OverrunCanCreateTwo` a section overruns and a user is.

For the others an exact condition is proved:

* A ledger call that fails may be charged all the same. As far as its client can tell, the ledger's refusal is final
  exactly when it refused the first attempt (`LedgerClient.RefusalIsFinalIff`): after a retry, the first attempt may
  still be at work. With the limits in use no attempt is retried after a timeout
  (`LedgerClient.DefaultsNeverRetryATimeout`), but one is after a network error or a gateway's 502, 503 or 504, and
  `LedgerClient.RefusedThenCharged` is such a run. A call that gives up, or that a gateway refuses, looks the same when
  its request is charged and when it never will be (`LedgerClient.ChargedUnseen`, `LedgerClient.LostUnseen`), also when
  no attempt timed out and the client logs a plain failure without a requestId. At the ledger, a request is
  uncharged for good exactly when it is uncharged and no attempt is open (`LedgerClient.UnchargedForGoodIff`).
* Agency evaluations on rising UTC days. The daily check compares days for equality only. Over every run the days of
  the winning evaluations rise strictly exactly when no winner's clock was on a day before the row it replaced
  (`AgencyRace.OneWinPerDayIff`); then there is at most one on each day. Rising days are more than distinct ones: won
  days 1 and 0 are distinct, with a winner behind. Such a winner, an evaluator that read its clock before midnight and
  the row after the next day's evaluation, can win an old day again (`AgencyRace.StraddlingMidnightWinsADayTwice`).
* "Within a day the total only grows" (a comment on the window bounds). A credit stops to count when it is reversed,
  or when its host is suspended or deleted. Within a UTC day the total of a whole-day window falls exactly when more
  points have stopped to count than new ones were gained (`AgencyTier.WithinADayTheTotalGrows`).
* An admin's tier lock that is assigned while an evaluation runs. The compare-and-set looks at
  `last_level_recomputed_at` only, so, with no other evaluation in between, it wipes the new lock out exactly when the
  lock it had read was not active at the start of the day (`AgencyRace.AssignedLockIsLostIff`).
* A durable timer's payload. A claim drops the payload in a separate command after its zRem. Over every run a pending
  deadline has lost its payload exactly when such a drop came after its last schedule and its claim before it
  (`DurableTimers.PayloadLostIff`).
* Marker repair settles in four passes exactly when no live user's marker is an empty string: such a key is skipped
  by the reader and blocks SET NX for as long as it exists (`MarkerReconciler.FourPassesSettle`). A user with
  several live rows also needs the same row first in consecutive reads (`MarkerReconciler.RestoredIffSameFirstRow`).
* The combo draw pays less when the return is over its target exactly when the reduce fix is switched on or the combo
  is free (`LuckyDraw.ComboCoinsFollowTheTargetIff`, on whole coins; `LuckyDraw.ComboFollowsTheTargetIffFixed`, on
  ratios).
* The expiring heartbeat key is as good as a memory exactly while a monitor tick reads it within the TTL's margin
  (`Heartbeat.ExpiringKeyAgreesIffReadInTime`); a slower tick would end a stream that pinged in time.

## Model

| member | source | states |
|---|---|---|
| `EditDistance.GetLevenshteinDistance` | src/utils/censor.js:48-73 | the in-place loop returns the recurrence on the lower-cased texts |
| `EditDistance.NextRow` | src/utils/censor.js:52-71 | one turn of the outer loop overwrites row i - 1 by row i of the distance table, in place |
| `EditDistance.DistanceIsMinimal` | src/utils/censor.js:48-73 | that value is the least number of single-character insertions, deletions and substitutions over all edit scripts |
| `EditDistance.LowerBound` | src/utils/censor.js:48-73 | no script that turns one text into the other is shorter |
| `EditDistance.UpperBound` | src/utils/censor.js:48-73 | a script of exactly that length exists |
| `EditDistance.OneEdit` | src/utils/censor.js:48-73 | one edit anywhere in a text changes its distance to any other text by at most one |
| `EditDistance.AtLeastLengthDifference` | src/utils/censor.js:93-94 | the distance is at least the difference in length, the bound the pruning rests on |
| `EditDistance.OnlyDistance` | src/utils/censor.js:48-73 | the recurrence is the only edit distance of two texts |
| `EditDistance.LowersLetters` | src/utils/censor.js:49-50 | lower-casing moves the codes of A to Z up by 32 and nothing else |
| `Censor.SimilarityBounds` | src/utils/censor.js:93-94 | similarity lies between 0 and shorter / longer |
| `Censor.SimilaritySymmetric` | src/utils/censor.js:75-83 | similarity does not depend on the order of its arguments |
| `Censor.SimilarityIgnoresCase` | src/utils/censor.js:92-103 | lower-casing the banned words once, beforehand, changes no similarity |
| `Censor.GetSimilarity` | src/utils/censor.js:75-83 | computes the similarity from the in-place distance; SimilarityByEdits says what that is |
| `Censor.SimilarityByEdits` | src/utils/censor.js:75-83 | it is (n - d) / n for the length n of the longer text and the least number d of edits between the lower-cased texts, and 1 for two empty texts |
| `Censor.SimilarIffCloseEnough` | src/utils/censor.js:119-120 | it reaches the threshold exactly when some script edits at most the share 1 - threshold of the longer text |
| `Censor.IsBannedWord` | src/utils/censor.js:114-123 | the pruned comparison says yes exactly when some word of the list is that close |
| `Censor.Reaches` | src/utils/censor.js:116-120 | skipping a pair by its lengths never changes its verdict |
| `Censor.FuzzyCensor.PrepareList` | src/utils/censor.js:100-112 | the list and threshold asked for are in the caches, which stay correct and lose nothing |
| `Censor.FuzzyCensor.Verdict` | src/utils/censor.js:143-148 | a verdict from the memo, or computed, remembered and the memo cleared at 5000, is the verdict of comparing with every word; a remembered verdict is answered without a change |
| `Censor.Remember` | src/utils/censor.js:144-148 | adding a correct verdict keeps the memo correct and within 5000 entries |
| `Censor.FuzzyCensor.CensorOnePart` | src/utils/censor.js:132-155 | a part is starred out, character by character, exactly when it is all letters, digits and Devanagari, none of the eleven safe words in any case, and close enough to the word of some row |
| `Censor.SplitAtBoundaries` | src/utils/censor.js:130-130 | the split is the maximal runs of word and non-word characters |
| `Censor.PartsAreTheText` | src/utils/censor.js:130-130 | the parts join to the text, are not empty, and are cut exactly where word and non-word characters meet |
| `Censor.CharacterClasses` | src/utils/censor.js:130-133 | which characters make a word and which a token |
| `Censor.FuzzyCensor.CensorText` | src/utils/censor.js:125-158 | the cached, pruned filter returns the unpruned, uncached reference result |
| `Censor.CensoredPieceByPiece` | src/utils/censor.js:125-158 | the result is the text cut at its word boundaries with exactly the parts starred out that CensorOnePart describes |
| `Censor.FuzzyCensor.CensorAll` | src/utils/censor.js:89-158 | it does so for every sequence of calls with any texts, lists and thresholds |
| `Censor.CensoringIsIdempotent` | src/utils/censor.js:125-158 | censoring keeps the length, and censoring censored text changes nothing |
| `Censor.CensoredAfter` | src/utils/censor.js:130-157 | starred runs merge with the non-word text around them and are left alone by the next pass, surviving words stay whole runs |
| `CallSession.RunForward` | src/modules/videoCall/service.js:573-576 | no sequence of commands takes a session back, revives an ended one, or leaves an inconsistent row |
| `CallSession.OneFinisher` | src/modules/videoCall/service.js:649-681 | a session is finished by exactly one command, whichever ends, rejects and resets race |
| `CallSession.FinisherIsRecorded` | src/modules/videoCall/service.js:665-672 | end time and reason in the row are those of the finisher; MISSED and REJECTED rows were never charged |
| `CallSession.AtMostOneWinner` | src/modules/videoCall/service.js:649-681 | of all endCall updates on one session at most one takes effect |
| `CallSession.BilledIsNeverMissed` | src/modules/videoCall/service.js:655-656 | a session that was ever accepted, so billed, is never MISSED or REJECTED |
| `CallSession.FirstDecides` | src/modules/videoCall/service.js:564-681 | the first accept, reject, end or reset to reach a ringing session decides how it ends up |
| `CallSession.ChargedInOrder` | src/modules/videoCall/service.js:443-448 | an active session is charged minute after minute, and ends as ENDED with the time and reason of its end |
| `CallSession.SessionRow.EndAttempt` | src/modules/videoCall/service.js:660-676 | an attempt either finds the session over or its caller unauthorized, or updates it under the status it read; a miss means the session moved on |
| `CallSession.SessionRow.TryToEnd` | src/modules/videoCall/service.js:658-676 | an attempt within a call: its update is the last of the traffic so far and took effect or not; without effect the session has moved on |
| `CallSession.SessionRow.EndCall` | src/modules/videoCall/service.js:649-681 | two attempts suffice: a null result means gone or terminal; a result means this call's update is the one that ended the session, with its time and reason; undisturbed, caller, callee and the system for its seven reasons end any live call, and only others are refused |
| `CallSession.MayEndIff` | src/modules/videoCall/service.js:647-667 | who may end a call: its caller, its callee, and the system for one of seven reasons |
| `CallSession.SessionRow.RejectCall` | src/modules/videoCall/service.js:564-583 | succeeds exactly for the callee of a session still ringing at the read and at the update; otherwise changes nothing |
| `InitiateCall.StepKeeps` | src/modules/videoCall/service.js:247-391 | every step of every request keeps the invariant: one call per user, locks of their owners, findings that stay true |
| `InitiateCall.NeverInTwoCalls` | src/modules/videoCall/service.js:225-229 | while lock sections stay within their TTL no user is in two ringing or active calls, in either role, under any interleaving |
| `InitiateCall.TakeLockKeeps` | src/modules/videoCall/service.js:254-264 | SET NX PX never takes a lock from a request that is still in its section |
| `InitiateCall.CleanedOrOver` | src/modules/videoCall/service.js:343-343 | after the stale clean-up's two end attempts the stale session is over |
| `InitiateCall.CreateKeeps` | src/modules/videoCall/service.js:383-391 | the insert by the holder of both locks puts nobody into a second call |
| `InitiateCall.SessionWasBegun` | src/modules/videoCall/service.js:383-391 | every new session goes back to a start of the run: inserted ringing and uncharged, with that start's caller as caller and callee as creator, which it keeps |
| `InitiateCall.ReleaseSparesOthers` | src/modules/videoCall/service.js:233-245 | the owner-checked release never drops another request's lock, at any time |
| `InitiateCall.OverrunCanCreateTwo` | src/modules/videoCall/service.js:230-269 | the TTL bound is needed: a run in which a user gets two ringing calls |
| `CallBilling.EachDueMinuteOnce` | src/modules/videoCall/service.js:853-858 | any number of interleaved passes on stale snapshots charge exactly the minutes 1..k, each once and in order, k times the rate, and k is at most the minute running |
| `CallBilling.OnePassMore` | src/modules/videoCall/service.js:859-952 | the traffic that a billing pass reports holds only minute requests that it or the passes meanwhile make: due, after the snapshot, and not to be skipped |
| `CallBilling.ServeKeeps` | src/modules/videoCall/service.js:895-903 | every request the ledger serves keeps that |
| `CallBilling.ChargesWhatIsDue` | src/modules/videoCall/service.js:853-856 | the ledger's contract at work: an accept and the next minute are charged as long as there are coins, repeats and minutes ahead change nothing |
| `CallBilling.NothingAfterTheEnd` | src/modules/videoCall/service.js:925-928 | once the call is over nothing is charged |
| `CallBilling.LedgerAccount.Call` | src/modules/videoCall/service.js:899-903 | a ledger call, lost on the way there, on the way back or answered, after other traffic; a charged or repeated answer means the minute is billed |
| `CallBilling.LedgerAccount.BillDueMinutes` | src/modules/videoCall/service.js:859-952 | a pass asks for consecutive due minutes after its snapshot; it skips one only in enforce mode after 30 s of silence or after a disconnect seen within 5 s of its start, and ends the call only when the next minute cannot be paid; undisturbed and with coins for it, every minute up to the running one is charged after it |
| `CallBilling.SkippedForGoodReason` | src/modules/videoCall/service.js:872-898 | when a minute must be skipped, in milliseconds; the log mode skips none |
| `CallBilling.LedgerAccount.BillMinute` | src/modules/videoCall/service.js:895-944 | one turn of the loop: goes on only when the minute is billed; out of coins and other errors stop it for the reason they name |
| `CallBilling.NoMinuteAfterSilence` | src/modules/videoCall/service.js:873-881 | in enforce mode, when no pass has read a heartbeat later than some time, no minute after the first is charged that starts more than 30 s after it, over any number of passes |
| `CallBilling.SilenceStopsAPass` | src/modules/videoCall/service.js:873-881 | every minute request that an enforcing pass adds to the traffic is for a minute starting at most 30 s after the heartbeat it read |
| `CallBilling.NoMinuteAfterDisconnect` | src/modules/videoCall/service.js:883-898 | when every pass sees the caller disconnected since some time, every minute charged after the first starts more than 5 s before it |
| `CallBilling.TimerIsOnTime` | src/modules/videoCall/service.js:976-980 | the billing timer is set to the start of the next unbilled minute, or to 5 s from now if that is sooner than 5 s away |
| `LeaderLease.LeaseLasts` | src/services/cluster.service.js:106-132 | from a grant at Redis time t the lease stays its node's until t + TTL, unless the node releases it |
| `LeaderLease.LeasesAreDisjoint` | src/services/cluster.service.js:69-151 | no other node is granted the name before t + TTL, unless the owner released it in between |
| `LeaderLease.OthersCannotTouch` | src/services/cluster.service.js:69-79 | no command of another node takes, shortens or renews a running lease |
| `LeaderLease.ClusterNode.IsLeader` | src/services/cluster.service.js:106-132 | true exactly when its last command granted, with the whole TTL ahead; false while shutting down or without Redis; a free or expired name is always won, one's own running lease always renewed, another's never |
| `LeaderLease.ClusterNode.ReleaseLeaderLocks` | src/services/cluster.service.js:141-151 | with other nodes and the clock at work between the releases, sends exactly one owner-checked release for every lock this node holds, and then holds none of them |
| `DurableTimers.DeadlinesAreConserved` | src/services/cluster.service.js:193-267 | over all runs: first inserts of a member = winning claims + effective cancels + one if pending |
| `DurableTimers.NoMoreClaimsThanSchedules` | src/services/cluster.service.js:197-215 | persisted handler runs never exceed schedules |
| `DurableTimers.NothingToClaimAfterCancel` | src/services/cluster.service.js:254-267 | after a cancel nothing can claim the deadline before it is scheduled again |
| `DurableTimers.PayloadLostIff` | src/services/cluster.service.js:197-267 | over all interleavings of fires, schedules and cancels, a pending deadline has no payload exactly when a drop came after its last schedule and that drop's claim before it |
| `DurableTimers.DeadlineIsTheLastOne` | src/services/cluster.service.js:224-240 | over all runs a pending deadline has the time of its last schedule, and its payload, where it is not lost, is that schedule's |
| `DurableTimers.FireIssues` | src/services/cluster.service.js:197-215 | the commands of a fire, with any others in between, keep every drop behind a winning claim of its own |
| `DurableTimers.RescheduleCanLoseItsPayload` | src/services/cluster.service.js:205-233 | a concrete run in which a reschedule loses its payload |
| `DurableTimers.TimerNode.ScheduleDurable` | src/services/cluster.service.js:224-251 | deadline and payload are persisted together and, whatever was stored before, are the ones given; then the local timer replaces an earlier one |
| `DurableTimers.TimerNode.CancelDurable` | src/services/cluster.service.js:254-267 | the member leaves the local timers, the deadlines and the payloads |
| `DurableTimers.TimerNode.Fire` | src/services/cluster.service.js:197-215 | the handler runs exactly when this claim took the deadline out; undisturbed, with the payload stored with it |
| `DurableTimers.TimerNode.Sweep` | src/services/cluster.service.js:287-302 | with other nodes at work between its claims, the sweep claims only deadlines that are 1.5 s overdue and have no local timer here, and each of them when fewer than 100 are; undisturbed, exactly these are gone with their payloads |
| `MarkerReconciler.PlanMarkerRepair` | src/services/liveHostStatus.service.js:64-93 | suspects are exactly the repairs markers and rows call for; planned are exactly those suspected before as well; touched are exactly the live markers |
| `MarkerReconciler.GroupByUser` | src/services/liveHostStatus.service.js:65-70 | rows without user or stream are skipped; each user's streams are its usable rows, the first row first |
| `MarkerReconciler.NoUsableRowBefore` | src/services/liveHostStatus.service.js:85-88 | the marker restored is that of the user's first usable row |
| `MarkerReconciler.Reconciler.ReadChunks` | src/services/liveHostStatus.service.js:95-107 | every marker read was in Redis at some moment of the reading, empty ones are skipped; undisturbed, all are read |
| `MarkerReconciler.LiveMarkersAreSpared` | src/services/liveHostStatus.service.js:76-83 | the plan deletes no marker of a stream that is live in its snapshot |
| `MarkerReconciler.GoLiveSurvives` | src/services/liveHostStatus.service.js:124-141 | a marker that a go-live put in place after planning survives the apply steps, unless it is the very one found stale |
| `MarkerReconciler.Reconciler.Apply` | src/services/liveHostStatus.service.js:124-141 | the apply steps issue only the plan's compare-and-deletes and set-if-absents, with others in between; alone, they apply all of it |
| `MarkerReconciler.Reconciler.Reconcile` | src/services/liveHostStatus.service.js:112-148 | with go-lives and ends between scan, chunks, rows and commands, the pass plans from markers that were there while it read, issues only what its plan contains and remembers exactly the proposals; undisturbed, it makes exactly the due repairs |
| `MarkerReconciler.Reconciler.ReconcileFourTimes` | src/services/liveHostStatus.service.js:112-148 | four passes from any markers and suspects settle everything exactly when no live user's marker is empty |
| `MarkerReconciler.FourPassesSettle` | src/services/liveHostStatus.service.js:95-148 | the same for any four consecutive passes over fixed rows |
| `MarkerReconciler.SettledMeans` | src/services/liveHostStatus.service.js:76-91 | settled: every non-empty marker names a row of its user, and every user with a usable row has one |
| `MarkerReconciler.SettledStays` | src/services/liveHostStatus.service.js:112-148 | settled markers stay as they are and leave no suspects |
| `MarkerReconciler.RepairNeedsTwoPasses` | src/services/liveHostStatus.service.js:80-91 | a pass changes a marker only by a repair proposed in this pass and in the last |
| `MarkerReconciler.RestoredIffSameFirstRow` | src/services/liveHostStatus.service.js:85-91 | a missing marker is restored by the second pass exactly when both passes saw the same row of the user first |
| `AgencyTier.MatchAgencyLevel` | src/utils/agencyTierLock.js:47-58 | the downward loop finds the last row met, the first row when none is, D without a ladder |
| `AgencyTier.MatchIsHighest` | src/utils/agencyTierLock.js:47-58 | on an ascending ladder no tier the total meets ranks above the matched one, which is itself met whenever the lowest is |
| `AgencyTier.MatchIsMonotone` | src/utils/agencyTierLock.js:47-58 | more points never match a lower level |
| `AgencyTier.HigherLevel` | src/utils/agencyTierLock.js:35-45 | one of the two, ranking at least as both; the first on a tie |
| `AgencyTier.EffectiveTotal` | src/utils/agencyTierLock.js:10-33 | under a lock that runs, names a level and has a bonus: the larger of the level's minimum and actual + bonus; otherwise the actual total |
| `AgencyTier.FoundIffOnLadder` | src/utils/agencyTierLock.js:39-45 | a level has a minimum exactly when the ladder has the level; one that it lacks ranks lowest |
| `AgencyTier.LockIsAFloor` | src/utils/agencyTierLock.js:1-8 | while the lock is active the matched level never ranks below the locked tier |
| `AgencyTier.WindowReachesBack` | src/services/agencyTierRecompute.service.js:53-60 | the window reaches back for its length from now, or, when that is whole days, from the last midnight UTC |
| `AgencyTier.WithinADayTheTotalGrows` | src/services/agencyTierRecompute.service.js:50-60 | a whole-day window does not move within a UTC day, so its total falls exactly when more points stop to count than are gained, and only grows when none stops |
| `AgencyTier.Balance` | src/services/agencyTierRecompute.service.js:63-153 | later total + points that stopped to count = earlier total + points gained |
| `AgencyTier.OneCreditMore` | src/services/agencyTierRecompute.service.js:82-90 | the total is that of all counted credits in the window |
| `AgencyRace.LevelRisesBetweenEvaluations` | src/services/agencyTierRecompute.service.js:321-326 | under any interleaving the level's rank never falls between winning evaluations |
| `AgencyRace.OneWinPerDayIff` | src/services/agencyTierRecompute.service.js:218-222 | over any run the won days rise strictly exactly when no winning evaluation had a clock on a day before the row it replaced |
| `AgencyRace.OneWinPerDay` | src/services/agencyTierRecompute.service.js:218-222 | when no winner's clock is behind the row, two winning evaluations fall on different, rising UTC days |
| `AgencyRace.DayRepeatsIffClockBehind` | src/services/agencyTierRecompute.service.js:218-223 | after a run without such a winner, a won day can be won again exactly by a clock on a day before the row's |
| `AgencyRace.StraddlingMidnightWinsADayTwice` | src/services/agencyTierRecompute.service.js:218-223 | three well-issued evaluations that win days 0, 1 and 0 |
| `AgencyRace.EvaluationRespectsLock` | src/services/agencyTierRecompute.service.js:238-250 | an evaluation under an active lock neither clears it nor ranks below its tier |
| `AgencyRace.EvaluationTakesTheHigher` | src/services/agencyTierRecompute.service.js:246-250 | the evaluated level ranks as the one matched by the larger of the two effective totals, for any windows and locks |
| `AgencyRace.AssignedLockIsLostIff` | src/services/agencyTierRecompute.service.js:252-310 | a lock assigned between an evaluation's read and its update is, with no other evaluation in between, wiped out exactly when the lock that was read was not active at the start of the day |
| `AgencyRace.WinnerKeepsActiveLock` | src/services/agencyTierRecompute.service.js:245-310 | a winning evaluation leaves a lock that was active when the day began, and drops any other one |
| `AgencyRace.AgencyRow.RecomputeAgencyLevel` | src/services/agencyTierRecompute.service.js:209-319 | up to five compare-and-set attempts: a win writes the level evaluated from the row as read, its clock and total, and drops a lock that is over; a non-forced call issues only evaluations of another day than the row's; alone, the first attempt decides |
| `AgencyRace.AgencyRow.RefreshWindowProgress` | src/services/agencyTierRecompute.service.js:327-372 | evaluates exactly when the row was not evaluated on the clock's day; otherwise raises or keeps the level, never lowers it, and stores the total |
| `ViewerCards.ServedAfterTheBump` | src/routes/service/serviceLive.js:2102-2121 | a request that reads the epoch after a bump is served only cards whose database read began after it, under any interleaving of readers, late writers and bumps |
| `ViewerCards.StepKeeps` | src/routes/service/serviceLive.js:2135-2174 | every step keeps: cached and served cards are read no earlier than their epoch's bump |
| `ViewerCards.WrittenCardsAreServed` | src/routes/service/serviceLive.js:2142-2174 | a card written back is served under its epoch for 60 s, and nothing older is |
| `ViewerCards.BumpRetires` | src/routes/service/serviceLive.js:2112-2121 | a request that reads the epoch right after a bump finds no cached card |
| `ViewerCards.CompareIsATotalPreorder` | src/routes/service/serviceLive.js:2123-2133 | the comparator is consistent and transitive, and ties exactly on equal four tiers |
| `ViewerCards.CompareIsByTiers` | src/routes/service/serviceLive.js:2123-2133 | more 7-day coins first, then guardians, then VIPs, then the higher wealth level |
| `ViewerCards.SortIsStable` | src/routes/service/serviceLive.js:2123-2133 | the sort permutes, orders by the four tiers and keeps the order of ties |
| `ViewerCards.SortRoomViewers` | src/routes/service/serviceLive.js:2135-2179 | the answer is exactly the visible viewers asked for, each once, by the four tiers and among ties in the order of the request, by cached cards of at most 60 s or the database |
| `CameraAccounting.IntervalsAreTheOffTimes` | src/routes/service/serviceLive.js:1041-1067 | the intervals that are summed are the off times: an instant lies in one exactly when the camera is off then |
| `CameraAccounting.OffIntervalsFollow` | src/routes/service/serviceLive.js:1041-1067 | they lie one after the other without overlap |
| `CameraAccounting.IntervalsAreMaximal` | src/routes/service/serviceLive.js:1046-1051 | each ends with the stream or when the camera is switched on, so a repeated off starts no new grace |
| `CameraAccounting.UncountedFits` | src/routes/service/serviceLive.js:1054-1059 | the uncounted seconds of separate intervals fit into the whole seconds around them |
| `CameraAccounting.SecondsBeyondSixty` | src/routes/service/serviceLive.js:1054-1059 | of an off time every whole second beyond the first sixty is not counted |
| `CameraAccounting.OneIntervalMore` | src/routes/service/serviceLive.js:1054-1059 | and the sum has them of every interval |
| `CameraAccounting.StreamCamera.HandleCameraStateChange` | src/routes/service/serviceLive.js:1041-1067 | the first off is stored, a repeat is ignored, an on adds the seconds beyond 60 and clears it |
| `CameraAccounting.StreamCamera.EndStream` | src/routes/service/serviceLive.js:372-400 | the end closes a running off interval and computes gross and effective seconds |
| `CameraAccounting.StreamCamera.WholeStream` | src/routes/service/serviceLive.js:372-400 | for every trace of toggles and an end the counter is the sum over the maximal off intervals, never exceeds the gross seconds, and the clamp never bites |
| `TokenBuckets.SpentIsCovered` | src/utils/tokenBucket.js:17-31 | admissions never exceed the tokens at the start and those that flowed in since |
| `TokenBuckets.RateIsBounded` | src/utils/tokenBucket.js:17-31 | in any window of length T of any history at most capacity + refill * T takes are admitted |
| `TokenBuckets.BurstIsAdmitted` | src/utils/tokenBucket.js:17-31 | a bucket of at least n tokens admits n takes at once |
| `TokenBuckets.NewBucketIsFull` | src/utils/tokenBucket.js:18-21 | a new key can take its whole capacity at once |
| `TokenBuckets.PacedIsAdmitted` | src/utils/tokenBucket.js:22-29 | takes that leave time for a token to flow in are all admitted |
| `TokenBuckets.RefusedCostsNothing` | src/utils/tokenBucket.js:26-30 | a take that is not admitted costs nothing |
| `TokenBuckets.PruneIsInvisible` | src/utils/tokenBucket.js:33-36 | a pruned bucket map answers like one never pruned whenever the capacity flows in within idleMs + 1 ms |
| `TokenBuckets.PrunedAreFullIff` | src/utils/tokenBucket.js:33-36 | every bucket that a prune drops is full exactly when the capacity flows in within idleMs + 1 ms |
| `TokenBuckets.TokenBuckets.TakeToken` | src/utils/tokenBucket.js:17-31 | a take on the map refills, caps and spends the key's bucket and leaves the others alone |
| `TokenBuckets.TokenBuckets.PruneIdle` | src/utils/tokenBucket.js:34-36 | drops exactly the keys untouched for longer than idleMs and leaves the others as they are |
| `TokenBuckets.SocketBucket.TakeToken` | src/utils/tokenBucket.js:44-57 | the bucket kept on an object takes by the same rule, so the rate bound covers it |
| `LedgerClient.CallLedger` | src/services/ledgerClient.js:84-147 | its attempts, its end and the ledger then are those that limits, network and ledger determine; over every pattern of lost, late and overlapping attempts the request is charged at most once, and exactly once on success; the caller is told the last answer or, without one, whether any attempt timed out; done within budget + 300 ms |
| `LedgerClient.Retry` | src/services/ledgerClient.js:95-146 | the loop makes exactly the attempts that follow from its limits and from what it sees, and its last outcome decides |
| `LedgerClient.LoopEnds` | src/services/ledgerClient.js:95-121 | every attempt but the last was retried, and retries stop only after three attempts or for lack of budget |
| `LedgerClient.Schedule` | src/services/ledgerClient.js:95-113 | retries start 100 and 300 ms after the attempt before; each attempt has its timeout or what is left of the budget |
| `LedgerClient.RetriedTimeout` | src/services/ledgerClient.js:96-113 | a timed-out attempt is retried only if the limits leave room for another one after a whole timeout |
| `LedgerClient.FirstTimeoutIsRetriedIff` | src/services/ledgerClient.js:95-116 | a first attempt that timed out is retried exactly when the limits leave room for a second one |
| `LedgerClient.DefaultsNeverRetryATimeout` | src/services/ledgerClient.js:20-37 | with 18 s for an attempt and 19 s in all, no attempt is retried after a timeout |
| `LedgerClient.CallIsDetermined` | src/services/ledgerClient.js:95-138 | limits, network and ledger leave only one course for a call |
| `LedgerClient.LedgerEnds` | src/services/ledgerClient.js:84-147 | an attempt that the ledger has answered cannot charge any more; a success is charged |
| `LedgerClient.PromptAnswerCounts` | src/services/ledgerClient.js:122-137 | an answer of the ledger that comes within the first attempt's time is the result |
| `LedgerClient.RunKeeps` | src/services/ledgerClient.js:15-18 | whatever happens at the ledger and on the network, now or after the call, the requestId is charged at most once and answers are final |
| `LedgerClient.UnchargedForGoodIff` | src/services/ledgerClient.js:139-146 | a request stays uncharged in every future exactly when it is uncharged and no attempt is in flight or running |
| `LedgerClient.RefusalIsFinalIff` | src/services/ledgerClient.js:128-137 | in every behaviour of network and ledger that gives the client this view, the refused request stays uncharged, exactly when the first attempt was refused |
| `LedgerClient.RefusedThenCharged` | src/services/ledgerClient.js:108-121 | with the default limits, for every network error or 502, 503, 504 of the first attempt and every refusal of the second: a call that fails as refused and is charged afterwards |
| `LedgerClient.ChargedUnseen` | src/services/ledgerClient.js:139-146 | every unsuccessful view also fits a world in which the request is charged, timed out or not |
| `LedgerClient.LostUnseen` | src/services/ledgerClient.js:139-146 | and one in which it never will be |
| `LedgerClient.ChargedForGood` | src/services/ledgerClient.js:15-18 | a charged request is charged exactly once in every future |
| `LedgerClient.OneCharge` | src/services/ledgerClient.js:15-18 | of all attempts that commit only one is told that it made the charge, the others replay it |
| `LuckyDraw.ReturnFollowsTheTarget` | src/modules/luckyGift/luckyReward.engine.js:53-108 | for every gift cost, the coins a draw is expected to pay never fall when targetRtp - currentRtp rises, through all roundings |
| `LuckyDraw.KinderPaysMore` | src/modules/luckyGift/luckyReward.engine.js:62-82 | moving weight from misses to the two high steps never lowers the expected payment |
| `LuckyDraw.SteeringIsMonotone` | src/modules/luckyGift/luckyReward.engine.js:56-85 | a larger difference never gives more misses or fewer high wins, and every weight stays within its bounds |
| `LuckyDraw.SteersByTheDifference` | src/modules/luckyGift/luckyReward.engine.js:62-82 | how far each weight is moved past a difference of 2 and up to 5, to the nearest whole; within 2 nothing is moved |
| `LuckyDraw.SteeringIsFelt` | src/modules/luckyGift/luckyReward.engine.js:62-82 | the mean multiplier is 0.675 at rest, above 0.8 when the return is too low and below 0.6 when it is too high |
| `LuckyDraw.DrawStep` | src/modules/luckyGift/luckyReward.engine.js:91-102 | the cumulative loop picks the step whose share of the total the draw falls into |
| `LuckyDraw.DrawnOnce` | src/modules/luckyGift/luckyReward.engine.js:91-102 | a draw falls on one step only |
| `LuckyDraw.CalculateSingleReward` | src/modules/luckyGift/luckyReward.engine.js:87-108 | the reward is nothing, half the cost, the cost, two and a half or ten times it, in whole coins, by the drawn step |
| `LuckyDraw.ComboReturns` | src/modules/luckyGift/luckyReward.engine.js:115-144 | the expected combo returns are 0.715, 0.665 and, over target, 0.563 with the fix or 0.7375 without |
| `LuckyDraw.RatiosPaid` | src/modules/luckyGift/luckyReward.engine.js:121-175 | what each category pays below, on and above the target, with and without the fix |
| `LuckyDraw.ComboFollowsTheTargetIffFixed` | src/modules/luckyGift/luckyReward.engine.js:17-22 | the expected combo return is monotone in the difference exactly when the reduce fix is on |
| `LuckyDraw.ComboCoinsFollowTheTargetIff` | src/modules/luckyGift/luckyReward.engine.js:146-177 | for every cost, the whole coins a combo is expected to pay follow the target, through the rounding, exactly when the reduce fix is on or the combo is free |
| `LuckyDraw.CalculateComboReward` | src/modules/luckyGift/luckyReward.engine.js:146-199 | a category is drawn by its weight, its return on the total cost is rounded to the nearest coin, and the split sums to it |
| `LuckyDraw.Breakdown` | src/modules/luckyGift/luckyReward.engine.js:178-192 | at most ten steps, none negative, that sum to the reward, each but the last with the part of its random weight |
| `LuckyDraw.FillShares` | src/modules/luckyGift/luckyReward.engine.js:185-190 | each step gets its weight's part, to the nearest coin, or all that is left; shares and rest always sum to the reward |
| `Heartbeat.ExpiringKeyAgreesIffReadInTime` | src/routes/service/serviceHeartbeat.js:22-26 | the expiring key gives the verdict of a memory of all pings exactly when it is read within the TTL's margin, which is from 15 to 16 s |
| `Heartbeat.EndsIffSilent` | src/routes/service/heartbeatPolicy.js:1-35 | over any history of pings and keepalives in order: a stream past its grace is judged at all exactly when none of them fell into the timeout before now; then the room keeps it alive, a pause only keeps it, and otherwise it is ended |
| `Heartbeat.StreamHeartbeat.RecordStreamHeartbeat` | src/routes/service/serviceHeartbeat.js:33-48 | a ping is added to the history and replaces the stored one |
| `Heartbeat.StreamHeartbeat.CheckStream` | src/routes/service/serviceHeartbeat.js:344-400 | over every history of pings and ticks, the verdict of a tick that reads the key within the TTL's margin after its clock is the one of a monitor that never forgets, so that a stream is ended exactly after a silence; a later tick judges by what the key still holds; a keepalive counts as a ping |

## Left out

- Redis being down: the local fallbacks (billing timers fired locally, `LIVE_LEADER_REDIS_DOWN=local`, initiate without locks, in-memory heartbeats) give up exclusivity on purpose.
- Express routes, sockets, LiveKit, logging, metrics, authentication and payload schemas: plumbing around the modelled decisions.
- The ledger's own transaction, wallets and commission SQL: they are not in this repository. `CallBilling` assumes its answers to minute charges; `LedgerClient` assumes that a transaction looks its requestId up under the wallet lock and charges only when it is not recorded, and that a request that has committed is not refused on a retry.
- The order of an overdue list longer than the sweep's limit, and local timers that change while a sweep runs.
- Which keys a SCAN returns while others write: any list of keys may come back; undisturbed, it is the keys there are.
- `toLowerCase` outside ASCII, where it may change a text's length, and texts with surrogate pairs: characters are compared and counted one by one, letters A-Z are lowered, all else is its own lower case.
- A banned-word row whose word is not a string, and a threshold that is not a number.
- `getBannedWords`: loading and refreshing the word list; a refresh makes a new list object, which `CensorAll` covers.
- Joining suspect ids by `|`: repairs are compared as values, as if no user or stream id held a `|`.
- The expiry of markers and of the 24 h epoch key: with the epoch key gone, epoch numbers start again.
- `resetActiveCalls` of one row only: its update is one more atomic command that may reach the row at any await.
- `initiateCall`, the viewer-card epochs and the Redis sides of leases and timers are state machines over single commands rather than classes: their point is the interleaving of many requests.
- The clock checks behind a stale call (45 s ringing, 30 s without heartbeat): any busy call may be found stale or not.
- Low-coin disconnect scheduling and `withBillingSlot`: a newcomer can enter between a release and the woken waiter, so at most ten billings at once is not claimed.
- A durable timer that fires early: another node's old local timer may claim a rescheduled deadline, so only at-most-once is claimed.
- Leader-only work that outlasts its lease: only the leases are disjoint, not the work started under them.
- The agency ledger SQL: which credits count at a read (host membership, reversals, suspended hosts) is a flag of each credit, and the two ledgers are one list.
- Computing the bonus of an agency tier lock (`computeTierLockBonus`): a subtraction. The assignment itself, a write by another service, is the command `AssignLock`, which may reach the row at any await.
- Forced evaluations (`skipDailyDedupe`): they win on any day, so the once-per-day laws leave them out.
- Camera toggles racing each other or the end: the counter is read and then increased, so the accounting is for toggles one at a time; so is the BLOCK path of frame verification, which ends a stream without closing the camera interval.
- The claim of `endLiveStreamService`: one conditional update; only the winner's bookkeeping is modelled.
- The library sort of viewer lists: modelled as a stable insertion sort, which is what the language promises of it.
- `calculate1130DateRanges`: its week range does not match its own comment.
- Rounding of floating point: token levels, similarities, odds and shares are exact reals.
- The heartbeat monitor's checks for a host that never appeared in the room, and its throttles.
