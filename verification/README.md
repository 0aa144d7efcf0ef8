# Flight circle search: a verified model

A Dafny 4.11 model of the search-job protocol of the flight circle search service and of the
pieces of logic around it, with proofs. `dafny verify dfyconfig.toml` checks all of it.

## What is modelled

**The search job.** `JobState` is one job as the database holds it, one function for the effect of
each SQL statement. `JobProtocol` puts Submit, the queue (one item a row, five attempts an item)
and the attempts around it: every statement is one atomic event, every statement can succeed, fail
without effect, or fail after taking effect, and all events interleave freely. A run is a list of
events; a `Regime` is a hypothesis on the events of a run:

| regime | allows |
|---|---|
| `Anything` | all interleavings, errors, crashes of any set of attempts, redeliveries of an item whose attempt still runs (and then also starts after its success), claims of any pending row |
| `Healthy` | as `Anything`, but once every row is terminal no statement after a row write is lost: no repository error there, and no crash of an attempt past its row write |
| `Quiet` | as `Anything`, but no statement after a row write is ever lost |
| `Calm` | as `Quiet`, and an attempt starts only when the earlier ones of its item have ended in an error or a crash |
| `WriteOnce` | a row is written only while it is not terminal |
| `OneAtATime` | no repository error or crash in an attempt, and at most one attempt runs at any time |
| `OneWriter` | as `WriteOnce`, and at most one attempt runs at any time |

`Safety` (what holds in every run), `FinalStatus` (is the decided status right), `Liveness` (is a
finalisation ever lost), `Quiescence` (what is left when nothing more can happen), `Recovery` (which
unfinished jobs can still be finished), `LastingStatus` (will a final status stay right),
`Termination` (how long a run can be) and `Witnesses` (runs showing that the hypotheses are needed)
are about one job. `Snapshots` takes UpdateJobProgress apart: it counts the rows when it starts and
writes the counters when it gets the lock on the job; `Progress` says when that takes progress back. `Fleet` runs any number of jobs through the one
rate limiter of a worker process.

**The same code in its sequential form.** `Repository`, `FareWorker` and `Submission` are classes
whose methods update tables, limiter and queue in place. `Repository` proves that on each single job
its statements are those of `JobState` and that other jobs do not change. `Schedules` says when a run
follows a script (what a part does next in each state) and that a script has one whole run; `Work`
and `Submit` are proved to follow theirs, so the results about runs apply to them and their
contracts leave no choice.

**Tuples.** `Calendar` (Gregorian dates as strings), `Geo`, `Routes` and `Tuples` go from a request
to its tuples.

**Durations, links, migrations, fares.** `IsoDuration` is the index-resetting scanner with 64-bit
wrap-around. `RateWindow` is the per-email counter with expiry, `SingleUse` the tokens and sessions,
and `Auth` the stores and the callback over Redis. `Migrations` is one and many runners over one version table.
`FareCache` is the cache-aside search.

## Where the code does less than its documentation or comments say

The code is modelled as it is. For each finding a lemma says exactly when it happens; lemmas of
`Witnesses` give a concrete run where there is one.

* Submit can write `running` over a job that is already final (`Witnesses.RunningOverFinal`). Such a
  job becomes final again exactly when an attempt that had not returned from its finish call at the
  write ends in success (`Quiescence.StuckJob`); in calm runs, exactly when some attempt was then in
  its finish call or about to enter it (`Quiescence.LateRunningExactly`).
* Without that, a job ends final exactly when it has a row and all rows are terminal, or Submit
  marked it failed (`Quiescence.StuckInTime`): so a job without pairs stays `running`
  (`Witnesses.NoPairs`), and so does a job with an item whose attempts are used up
  (`Witnesses.Discarded`). `Quiescence.StuckRows` says which rows those are.
* A lost counter recompute, or a crash after the row write of a last attempt, leaves the job running
  for good (`Witnesses.LostRecount`, `Witnesses.CrashAfterWrite`). `Recovery.FinalisableExactly` says
  of every reachable state, whatever errors and crashes led to it, whether the job can still become
  final.
* `completed_pairs` already includes the failed rows, so the finish test can pass on old counters: two
  dead-lettered rows finalised as `complete` (`Witnesses.StaleCounters`). `FinalStatus.VerdictExact`
  says exactly when the decided status is right.
* Rows of a final job can still be rewritten, by a redelivery (`Witnesses.FailedThenStored`) or by an
  ordinary retry after an error of the finish call (`Witnesses.FailedThenRetried`), so a status that
  was right can become wrong. `LastingStatus.RightForGoodExactly` says exactly when `failed` and
  `complete` stay right.
* Two UpdateJobProgress statements can write their counters in the other order than they counted them:
  without any fault, progress then goes back and a job with all rows complete stays `running` for good
  (`Witnesses.StoredOutOfOrder`). `Progress.MayGoBackExactly` says of every reachable state whether
  progress can still go back, `Snapshots.SnapFinalisableExactly` whether the job can still become final;
  the bounds on the counters and
  "never finalised early" survive (`Snapshots.StillSound`), and so does finalisation when counts are
  stored in order (`Snapshots.OrderKeepsFinalisation`).
* The per-email limit is documented as a cap per rolling 24 hours (internal/auth/tokens.go:35-36).
  Up to 2 L - 1 calls pass in 24 hours, and that many can (`RateWindow.WindowCapReached`); the cap
  holds exactly for L = 1 (`RateWindow.RollingCapExactly`). A lost EXPIRE locks the email out for
  good; `RateWindow.LockoutExactly` says exactly when.
* An ISO duration reads back exactly when its nanoseconds fit in 64 bits (`IsoDuration.RoundTrip`).

## Assumptions

* A SQL statement, a transaction and a Redis script are atomic. UpdateJobProgress counts and writes at
  one moment everywhere but in `Snapshots`. The rows of a job get increasing ids.
* The queue starts an item at most five times, in order, and never again after a success, unless it
  was requeued before, while the attempt was still running.
* Job ids, tokens and session ids are fresh; the token hash does not collide on the tokens in play.
* Redis drops a key once its time has passed. A cached value that decodes is the value that was encoded.
* The versions in the two migration directories are all different.

## Model

| member | source | states |
|---|---|---|
| JobState.NoneRemaining | internal/jobengine/repository.go:304-313 | counting pending and claimed rows gives 0 exactly when every row is terminal |
| JobState.CountsPartition | internal/jobengine/repository.go:282-288 | the counts of done, dead and failed rows split the rows of the job |
| JobState.ClaimCountsNothing | internal/jobengine/repository.go:209-218 | claiming a pending row, whichever it is, changes no count and no terminal row |
| Safety.StepKeepsInv | internal/worker/fareworker.go:51-171 | every statement of every attempt and of Submit, with any fault, keeps the invariant linking counters, status, history and what attempts have read |
| Safety.NeverFinalisedEarly | internal/jobengine/repository.go:303-346 | when the guarded UPDATE takes effect all n rows of the job are terminal, and they still are after any further run |
| Safety.FinalMeansDone | internal/jobengine/repository.go:301-302 | a job shown as final, unless Submit failed it, has no open row |
| Safety.CountersSound | internal/jobengine/repository.go:282-294 | 0 <= failed <= completed <= total always, and completed never decreases |
| Safety.RunAdvances | internal/jobengine/repository.go:247-277 | terminal rows stay terminal along every run, even when redelivery rewrites them |
| Safety.FinalisedOncePerPhase | internal/jobengine/repository.go:331-345 | the finish update takes effect at most once before and once after Submit's status write; unless Submit failed it, the job is final exactly when it has in the current phase; completed_at is set exactly on final jobs |
| Safety.DecidedForever | internal/jobengine/repository.go:335-340 | after Submit has returned, a final status never changes again |
| Safety.MarkedFailedForever | internal/jobengine/service.go:199-204 | a job Submit marked failed stays failed, and no finish call changes it |
| FinalStatus.FailedIsSound | internal/jobengine/repository.go:326-329 | with rows written once, finalised as failed means every row failed, for good; without, see LastingStatus.RightForGoodExactly |
| FinalStatus.VerdictExact | internal/jobengine/repository.go:315-329 | with rows written once, the decided status is right if and only if the finaliser read completed = total or some row is no failure |
| FinalStatus.SoloVerdictExact | internal/worker/fareworker.go:81-100 | with one attempt at a time and no fault or crash in it, the decided status is always right, however often rows are rewritten |
| FinalStatus.WriterVerdictExact | internal/worker/fareworker.go:81-100 | with one attempt at a time and rows written once, the decided status is always right, under every fault and every crash |
| LastingStatus.RightForGoodExactly | internal/worker/fareworker.go:157-170 | in every reachable state of a job that is final after Submit: `failed` is right for good if and only if every row is unsuccessful and no attempt may still store one; `complete` if and only if some complete row has no attempt that may still dead-letter it |
| Liveness.NoLostFinalisation | internal/worker/fareworker.go:81-100 | if no statement after a row write is lost once all rows are terminal (before that, any errors and crashes), a job with rows, all terminal, that is not final has an attempt that finalises it within four statements, unless `running` was written late |
| Liveness.FinishesAlone | internal/jobengine/repository.go:303-346 | an attempt before its recompute, in the finish call with counters that pass the guard, or at the update, run alone on terminal rows, finalises the job |
| Quiescence.StuckRows | internal/api/river.go:15-46 | with redeliveries, claims, crashes and lost row writes, when nothing more can happen: a row is open exactly when every attempt of its item ended in an error or a crash before its row write (or it was claimed before it got an item), and terminal otherwise; if nobody claims, pending exactly when every attempt errored or crashed |
| Quiescence.StuckJob | internal/jobengine/service.go:89-106 | when nothing more can happen: a job that was not final at the `running` write is final if and only if it has a row and all are terminal; one that was is final if and only if some attempt that had not returned from its finish call at the write ended in success |
| Quiescence.StuckInTime | internal/jobengine/service.go:89-106 | when nothing more can happen and `running` was not written over a final status: final if and only if marked failed by Submit, or with a row and all rows terminal |
| Quiescence.LateRunningExactly | internal/jobengine/service.go:102-104 | when no attempt starts beside a running one of its item, a job that was final at the `running` write ends final if and only if at the write some attempt was in its finish call or about to enter it |
| Quiescence.CalmRunWritesOnce | internal/worker/fareworker.go:124-171 | a run in which no attempt starts beside a running one of its item, and none loses a statement after its row write, writes each row at most once, so the exactness results apply to it |
| Recovery.FinalisableExactly | internal/worker/fareworker.go:51-171 | every reachable unfinished job, after any faults and crashes, can still become final if and only if Submit may still mark it failed, or every open row has an attempt whose write is ahead, or without open rows some attempt can still write, recompute, or pass the guard |
| Snapshots.StillSound | internal/jobengine/repository.go:281-293 | with counters written later than counted, in every run: 0 <= failed <= completed <= total, at most one effective finish update in each phase, and only over terminal rows, which stay so |
| Snapshots.OnlyOutOfOrder | internal/jobengine/repository.go:281-293 | an event that takes completed back stores a count with fewer rows than the job shows, and a later count was stored before it |
| Snapshots.OrderedAdvances | internal/jobengine/repository.go:281-293 | when counts are stored in the order taken, completed never decreases |
| Progress.MayGoBackExactly | internal/jobengine/repository.go:281-293 | in every reachable state, progress can still go back if and only if two rows are about to get items, or, with the items out, some attempt holds a count older than what the job shows, or some attempt may still write more than another one holds or may come to hold, and before it |
| Snapshots.SnapFinalisableExactly | internal/jobengine/repository.go:281-293 | which unfinished jobs can still become final when counters are written later than counted, as an if and only if over every reachable state |
| Snapshots.OrderKeepsFinalisation | internal/jobengine/repository.go:281-293 | when counts are stored in the order taken once all rows are terminal, and nothing after a row write is lost then, a job that is owed its finalisation has an attempt that, alone and without a fault, finalises it within five events |
| Snapshots.SnapStuckInTime | internal/jobengine/repository.go:281-293 | under the same hypotheses, when nothing more can happen and `running` was not written late: final if and only if marked failed by Submit, or with a row and all rows terminal |
| Snapshots.SnapStuckRows | internal/api/river.go:15-46 | with counters written later than counted, in any order: when nothing more can happen a row is open exactly when its attempts are used up |
| Snapshots.SnapVerdictExact | internal/jobengine/repository.go:315-329 | with counters written later than counted and rows written once, the decided status is right exactly under the same condition, and `failed` always |
| Snapshots.Embed | internal/jobengine/repository.go:281-293 | every run with atomic recounts is a run with the count stored at once |
| Termination.RunsAreBounded | internal/worker/fareworker.go:51-171 | any run of a job of n rows has at most 55 n + 3 steps plus one for each snooze |
| Termination.SettlesEventually | internal/api/river.go:15-18 | whatever has happened, a run can be carried on to a state with nothing left to do |
| Witnesses.RunningOverFinal | internal/jobengine/service.go:102-104 | a run in which `running` overwrites `complete` for good |
| Witnesses.LostRecount | internal/worker/fareworker.go:92-98 | a run in which an ignored recompute error loses the finalisation for good |
| Witnesses.CrashAfterWrite | internal/worker/fareworker.go:81-98 | a run in which the last attempt crashes after its row write; the job could be finalised before, and cannot after |
| Witnesses.StaleCounters | internal/jobengine/repository.go:322-329 | a run in which two dead-lettered rows are finalised as complete |
| Witnesses.FailedThenStored | internal/jobengine/repository.go:247-260 | a run in which a redelivered attempt rewrites a row of a job finalised as failed; the status was right, but not for good |
| Witnesses.FailedThenRetried | internal/worker/fareworker.go:157-170 | a run without redelivery in which the finish call takes effect but returns an error, and the retry stores the row of the failed job |
| Witnesses.StoredOutOfOrder | internal/jobengine/repository.go:281-293 | a run without any fault in which an attempt that holds an old count takes progress back and leaves a complete job running for good |
| Witnesses.NoPairs | internal/api/river.go:26-28 | a job without pairs stays running for good |
| Witnesses.Discarded | internal/worker/fareworker.go:140-146 | five retryable errors leave the row pending and the job running |
| Fleet.SlotsAccounted | internal/worker/ratelimiter.go:34-56 | over all interleavings of all jobs 0 <= inflight <= permits <= max, and the permits are exactly the attempts between acquire and release |
| Fleet.LimiterNeverStarves | internal/worker/ratelimiter.go:39-51 | in every run of the process, when no job can go on, no permit is held and no job waits for the limiter |
| Fleet.ProcessSettles | internal/worker/runner.go:70-84 | when no job of a worker process can go on, each job and each row is as StuckJob and StuckRows say, with s the state of the job right before its `running` write |
| Repository.SetRowViews | internal/jobengine/repository.go:256-272 | writing a row by id is the single-job write, and no other job changes |
| Repository.ClaimViews | internal/jobengine/repository.go:209-221 | claiming a pending row in the shared table is claiming a row of its job |
| Repository.PendingExact | internal/jobengine/repository.go:138-151 | the pending query returns exactly the job's pending rows, in increasing id order |
| Repository.FreshPending | internal/jobengine/repository.go:69-96 | reading a new job back gives its rows in the order of its pairs |
| Repository.PostgresRepository.CreateJob | internal/jobengine/repository.go:53-102 | all or nothing: the job with its total and one pending row a pair, in order; a taken id changes nothing |
| Repository.PostgresRepository.GetPendingResults | internal/jobengine/repository.go:138-198 | the scan loop returns the pending rows of the job in id order, nothing on an error |
| Repository.PostgresRepository.ClaimNextResult | internal/jobengine/repository.go:202-245 | the first pending row that is not locked becomes claimed and is returned as it is then; nothing to claim and a failed statement are told apart; other jobs do not change |
| Repository.PostgresRepository.UpdateResult | internal/jobengine/repository.go:247-265 | sets status, fare, error and time of the row, whatever it was; nothing when the statement is lost |
| Repository.PostgresRepository.MarkResultDeadLetter | internal/jobengine/repository.go:267-277 | sets dead_letter and the error, and keeps the fare |
| Repository.PostgresRepository.UpdateJobProgress | internal/jobengine/repository.go:280-299 | recounts the job's counters from its rows; other jobs do not change |
| Repository.PostgresRepository.MarkJobCompleteIfDone | internal/jobengine/repository.go:303-346 | the three statements, their early exits and errors; true exactly when the job was finalised |
| Repository.FinishCallExactly | internal/jobengine/repository.go:303-346 | true exactly when the job was finalised and that was answered; an error exactly at a statement that it runs and that fails; no change unless every row is terminal and the counters pass the guard |
| Repository.PostgresRepository.MarkJobStatus | internal/jobengine/repository.go:348-366 | writes status, summary and completed_at unconditionally |
| Schedules.OneSchedule | internal/worker/fareworker.go:51-171 | a script of one call has a single whole run, so a contract that names one determines the call |
| FareWorker.FinishCallSteps | internal/jobengine/repository.go:303-346 | a finish call that nobody disturbs is one to three statements of the protocol, with the same outcome |
| FareWorker.RateLimiter.Wait | internal/worker/ratelimiter.go:34-45 | on success one more permit and one more in flight, on error neither |
| FareWorker.RateLimiter.Release | internal/worker/ratelimiter.go:48-51 | gives both back |
| FareWorker.Worker.MarkDeadLetter | internal/worker/fareworker.go:157-171 | follows the script of the attempt from its row write; every repository error is returned |
| FareWorker.Worker.Work | internal/worker/fareworker.go:51-155 | follows the script of the attempt from Wait to its end, for every outcome of every call: result, job, row and other jobs are determined by it; the slot is given back on every path |
| FareWorker.WorkDecides | internal/worker/fareworker.go:51-171 | for every outcome of every call: a cancelled wait snoozes, a refused one errs; a rate-limited, unavailable or unencodable answer errs and leaves the job as it was; fares complete the row, and only an error of the row write fails the attempt; any other answer dead-letters the row, and every error fails the attempt |
| FareWorker.WorkUndisturbed | internal/worker/fareworker.go:51-171 | an attempt alone with no error leaves the row written, the counters right, and, after the last row, the status right |
| FareWorker.RowAfterExactly | internal/worker/fareworker.go:124-155 | which columns of the row an attempt writes, and the reason it gives, for each answer |
| Submission.RiverQueue.EnqueueBatch | internal/api/river.go:25-47 | one item a result, in order, five attempts each; an empty batch is no insert |
| Submission.ItemsConserve | internal/jobengine/service.go:68-100 | after the job transaction the k-th item carries the id of the k-th row of the job, which is pending and holds the k-th tuple; every row has an item |
| Submission.ItemsDiffer | internal/jobengine/service.go:97-100 | of such items no two are for the same tuple or the same row |
| Submission.Service.Dispatch | internal/jobengine/service.go:88-106 | read back, enqueue and mark follow the script of Submit, with every error path; accepted exactly when none fails |
| Submission.Service.Persist | internal/jobengine/service.go:68-106 | the result, rows, items and status left behind by every combination of errors; accepted exactly when there is none |
| Submission.Service.Submit | internal/jobengine/service.go:59-107 | the rows are exactly the wanted tuples, the items theirs, at most 5000, and the job is as its script says; a refused request changes nothing |
| Submission.PersistResultExactly | internal/jobengine/service.go:83-106 | accepted exactly when no statement fails, each error exactly when its statement is the first to fail |
| Submission.SubmitDecides | internal/jobengine/service.go:88-106 | for every outcome of every statement: running when all items are out, failed when not, pending when that could not be written |
| Calendar.NextDayNum | internal/jobengine/service.go:189-191 | carrying a day into month and year counts one day further, leap years included |
| Calendar.YearStartClosed | internal/jobengine/service.go:189-191 | the day count agrees with the closed Gregorian leap formula |
| Calendar.MonthTable | internal/jobengine/service.go:189-191 | the days before each month are those of the usual closed formula, leap day included |
| Calendar.MonthLength | internal/jobengine/service.go:189-191 | the length of every month, by name |
| Calendar.DayNumClosed | internal/jobengine/service.go:185-189 | the day number of a date in closed form |
| Calendar.OrderIsDayNum | internal/jobengine/service.go:185-189 | Before is the order of day numbers, and the number determines the date |
| Calendar.ParseFormat | internal/jobengine/service.go:177-190 | a printed date parses to itself |
| Calendar.FormatParse | internal/jobengine/types.go:64-95 | a string that parses is the print of its date |
| Calendar.ParseExactly | internal/jobengine/service.go:177-184 | a string parses if and only if it is YYYY-MM-DD with a month and a day of that month, and those are its numbers |
| Calendar.ExpandDateRange | internal/jobengine/service.go:176-193 | terminates; each error exactly on its condition; otherwise one string a day from the first to the last |
| Calendar.RangeIsExact | internal/fareprovider/travelpayouts.go:266-283 | the strings are strictly increasing, without duplicates, exactly the dates in range, and pass the provider's date check |
| Geo.FirstOfEachExact | internal/geo/resolve.go:46-73 | no code twice, a code is kept exactly when an airport with it qualifies, and the airport is the first such |
| Geo.ResolveAirports | internal/geo/resolve.go:46-73 | empty on a radius not above 0, error on a bad centre, otherwise the first airport of each code in the circle |
| Routes.AllPairsExact | internal/routes/routes.go:30-41 | exactly the pairs of different codes, none twice |
| Routes.KeepExact | internal/routes/routes.go:46-55 | a filter keeps exactly the pairs satisfying it, none twice |
| Routes.GenerateAllPairs | internal/routes/routes.go:30-41 | the nested loops produce the pair product |
| Routes.FilterByRoutes | internal/routes/routes.go:46-55 | keeps the pairs linked in either direction |
| Routes.ReachableViaHub | internal/routes/routes.go:99-111 | true exactly when a hub other than both ends is linked to both, in whatever order hubs come up |
| Routes.FilterByRoutesWithHubs | internal/routes/routes.go:74-97 | keeps the pairs linked directly or through a hub; without hubs, as FilterByRoutes |
| Tuples.PairsExact | internal/jobengine/service.go:133-148 | the pairs are exactly the wanted code pairs, none twice |
| Tuples.WantedExactly | internal/routes/routes.go:46-111 | what a wanted pair of codes is, from airports, graph and hubs alone |
| Tuples.ProductExact | internal/jobengine/service.go:155-165 | pairs times dates: exact, none twice, that many |
| Tuples.GenerateTuples | internal/jobengine/service.go:119-166 | fails exactly on an invalid request, failed load or inverted range; otherwise exactly the wanted tuples, none twice, as many as pairs times days |
| Tuples.ValidExactly | internal/jobengine/types.go:66-98 | a request is valid exactly when points, radii and dates are in bounds; otherwise a bad field is named |
| Tuples.TupleFailureExactly | internal/jobengine/service.go:119-166 | which error comes first: request, airports, routes, range |
| IsoDuration.AtoiSafe | internal/fareprovider/duffel.go:285-297 | the number modulo 2^64 in two's complement, an error on the empty string and non-digits |
| IsoDuration.SegmentsSplit | internal/fareprovider/duffel.go:266-281 | splitting at H and M loses nothing: joining gives the string back |
| IsoDuration.ParseISODuration | internal/fareprovider/duffel.go:255-283 | the index-resetting loop terminates, and the last all-digit piece of each kind counts |
| IsoDuration.RoundTrip | internal/fareprovider/duffel.go:253-283 | PThHmM with any leading zeros reads back as h hours and m minutes in nanoseconds if and only if that fits in an int64 |
| IsoDuration.HoursAlone | internal/fareprovider/duffel.go:253-283 | hours alone read back as hours, without minutes, exactly when they fit |
| IsoDuration.MinutesAlone | internal/fareprovider/duffel.go:253-283 | minutes alone read back as minutes, without hours, exactly when they fit |
| IsoDuration.LaterCounts | internal/fareprovider/duffel.go:266-281 | of two numbers of hours the later counts, and a piece that is no number does not |
| IsoDuration.LastCounts | internal/fareprovider/duffel.go:266-281 | the last number of a kind counts, whatever else there is |
| IsoDuration.NothingRead | internal/fareprovider/duffel.go:255-264 | without the prefix or without a number the duration is 0 |
| RateWindow.LifetimeCap | internal/auth/tokens.go:46-57 | in a lifetime of the counter at most L calls pass, and the first L do when all INCRs are answered |
| RateWindow.WindowCap | internal/auth/tokens.go:44-57 | in no 24 hours do more than 2 L - 1 calls pass, whatever the interleaving and lost EXPIREs |
| RateWindow.WindowCapReached | internal/auth/tokens.go:44-57 | for every L a run in which 2 L - 1 calls pass within 24 hours |
| RateWindow.RollingCapExactly | internal/auth/tokens.go:35-39 | the rolling cap of L per 24 hours holds for all runs if and only if L = 1 |
| RateWindow.GoneAfterADay | internal/auth/tokens.go:50-54 | once the counter has its expiry, it is gone 24 hours later, whatever calls come in between |
| RateWindow.LockoutExactly | internal/auth/tokens.go:50-54 | in every reachable state: an email is locked out for good exactly when its counter is at the limit, has no expiry, and no EXPIRE is outstanding |
| SingleUse.SingleUseHolds | internal/auth/tokens.go:19-27 | no token opens two sessions, each use is within 15 minutes and keeps the email, sessions <= uses <= tokens issued |
| SingleUse.SessionsAreGenuine | internal/auth/sessions.go:34-59 | every live session carries the email of the token it was opened with and is at most 30 days old |
| SingleUse.NoReplay | internal/auth/tokens.go:71-87 | a used or expired token is never accepted |
| SingleUse.GoodTokenWorks | internal/auth/tokens.go:74-87 | in every reachable state a token issued to an email at most 15 minutes ago, that nobody has presented, is accepted for it |
| SingleUse.GoodLinkLogsIn | internal/http/auth_handlers.go:136-160 | such a token opens a session, which is there at once with the email |
| SingleUse.SessionsLast | internal/auth/sessions.go:34-59 | a session opened at most 30 days ago, of which nobody has logged out, is accepted with its email |
| Auth.TokenStore.Issue | internal/auth/tokens.go:44-69 | takes exactly these steps of the counter machine; refuses exactly past the limit; stores the token exactly when admitted |
| Auth.TokenStore.Consume | internal/auth/tokens.go:74-87 | takes the token atomically; an empty email is not found |
| Auth.SessionStore.Create | internal/auth/sessions.go:34-52 | stores the session for 30 days |
| Auth.AuthHandlers.Callback | internal/http/auth_handlers.go:136-160 | takes exactly these steps of the token machine; logs in exactly when the token is accepted and the session stored |
| Migrations.VersionsExact | internal/db/db.go:79-90 | the versions are exactly the names with the suffix, stripped, none twice |
| Migrations.SchemaMigrations.Migrate | internal/db/db.go:88-125 | records the missing versions in order up to the first one that cannot be checked or applied, and fails exactly if there is one |
| Migrations.SchemaMigrations.RunRiverMigrations | internal/db/db.go:130-185 | is one such run over the two lists put together |
| Migrations.KeepsPrefix | internal/db/db.go:88-125 | a run started on a prefix of the plan ends on a prefix, and on the whole plan when it succeeds; started on the whole plan it changes nothing |
| Migrations.AlwaysAPrefix | internal/db/db.go:88-124 | with any runners crashing and restarting, the recorded versions are a prefix of the plan, each once |
| Migrations.FinishedForGood | internal/db/db.go:89-99 | once a runner finishes all versions are recorded and nothing changes any more |
| Migrations.NewRunnerFinishes | internal/db/db.go:88-124 | whatever crashes and errors there have been, a new runner left alone finishes with all versions recorded |
| FareCache.FareKeyInjective | internal/cache/keys.go:7-9 | a validated request shares its key with no other request |
| FareCache.FareKeyShared | internal/cache/keys.go:7-9 | a request shares its key with a different one if and only if a colon occurs in its origin, destination or date |
| FareCache.FetchWithFallback | internal/fareprovider/travelpayouts.go:90-115 | exact fares first, otherwise one cheapest fare of the month, with the error cases |
| FareCache.HitsAreFetches | internal/fareprovider/travelpayouts.go:58-88 | after any history of searches side by side a hit that decodes is the latest stored fetch for the same request, stored less than one TTL ago, marked cached |
| FareCache.FreshFetchesHit | internal/fareprovider/travelpayouts.go:58-88 | a request whose latest stored fetch is less than one TTL old is a hit, unless the lookup fails, and is answered with it |
| FareCache.MarkedExactly | internal/fareprovider/travelpayouts.go:66-72 | a hit differs from its fetch in the cached flag alone |
| FareCache.ValidRequestExactly | internal/fareprovider/travelpayouts.go:268-283 | a request is valid exactly with three capital letters twice and a date |
| FareCache.HitsAreNewest | internal/fareprovider/travelpayouts.go:58-88 | when puts of a request come in the order of its fetches, a hit is the latest fetch among the stored ones |
| FareCache.OlderOverNewer | internal/fareprovider/travelpayouts.go:58-88 | latest stored is not latest fetched: for every request a history in which an older fetch takes the place of a newer one |
| FareCache.InMemoryCache.Get | internal/cache/memory.go:27-39 | the value before its expiry, a miss otherwise |
| FareCache.InMemoryCache.Set | internal/cache/memory.go:41-53 | stores with expiry; nothing for a TTL not above 0 |
| FareCache.Travelpayouts.Search | internal/fareprovider/travelpayouts.go:58-88 | alone, answers and updates the cache as the lookup, the fetch and the store of the history machine do, bytes that do not decode included |

## Left out

- Wall-clock fields: submitted_at, completed_at and created_at are kept only as set or not set.
- More than one worker process: `Fleet` is one of them, with its own limiter; the results on one job let any set of its attempts die while others go on.
- The token bucket of the limiter: it only delays; its errors are the Wait errors of the model.
- Snooze counting by the queue: a snoozed attempt is the same attempt again.
- A `running` write over a final status (`Quiescence.StuckJob`) with counters written later than counted: `Snapshots.SnapFinalisableExactly` says whether such a job can still become final, not whether it will.
- Retention: deleting old jobs and their rows.
- Reads for the API: GetJob and ListResults change nothing.
- Great-circle distance: a parameter; coordinates and radii are reals, so no NaN.
- Provider HTTP and JSON: an arbitrary answer for every call; so are the fare fields other than price and the cached flag.
- Redis retries by the client: a command is sent once.
- Sorting of file names and creation of the version table: the plan is given in order.
- Mail delivery, the address allowlist and cookies.
- The React frontend, HTTP routing, configuration and data ingestion.
