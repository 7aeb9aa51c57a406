# Verified model of the OpenJobSpec Go SDK

The SDK is a client of a job server. Its plain requests are thin, but several files hold protocols:
a record/replay log for durable handlers, a worker that fetches and drains jobs concurrently, two nested
retry loops around the report of a job's outcome, an event stream that resumes after a broken connection,
circuit breakers with routing strategies on top, a compiler from workflow definitions to dependency graphs,
regular languages for names, and a middleware chain. This project models these and proves what they are
for. Each module follows one component:

| file | component |
|---|---|
| `Durable.dfy` | the record/replay context: what one call, and any sequence of calls, does to the log |
| `DurableRuns.dfy` | adaptive handlers over any number of crashing attempts |
| `WorkerPool.dfy` | fetch loop, job goroutines, semaphore, map, counter and lifecycle, interleaved step by step |
| `ActiveJobs.dfy`, `WorkerProgress.dfy` | when the map of active jobs is exact, and what the worker can always still do |
| `Delivery.dfy` | ACK/NACK retries around the HTTP retry loop |
| `Sse.dfy`, `Subscribe.dfy` | the event-stream reader, and resumption over refused and cut connections |
| `Breaker.dfy`, `Router.dfy`, `Federation.dfy` | circuit breaker, routing strategies, and the client that combines them |
| `Workflow.dfy` | validation and compilation of workflows, and the schedules the result admits |
| `Names.dfy` | the regular expressions for queues and job types |
| `Middleware.dfy` | editing the chain and building the nested handler |
| `Sequences.dfy`, `Wrappers.dfy` | shared vocabulary |

Code that updates fields is a class whose methods are proved against functions on the field values; loops
are loops. The environment is a parameter and arbitrary: clocks, random numbers, the network, crashes, the
moment of cancellation, the order in which a Go map is visited.

## What the code needs

Some promises hold only under conditions, and these are exact:

- An attempt follows the stored log exactly if every call it makes inside the log is accepted by the entry there
  (`OnTrackIff`). Handlers whose next recorded call depends only on the recorded results meet this on their own logs
  (`DeterministicIsAccepted`); `OtherCallAfterFailure` shows one that does not, because it goes on to another call
  after a failed side effect. The saved values come back exactly if the log could be read and `Complete` has not
  removed it (`FaithfulIffReadable`).
- `activeCount` stays within the concurrency exactly if a reply holds no more jobs than there is room for
  (`OverDelivery`). `activeJobs` stays exact over a run exactly if no reply repeats an id or names one that is in the
  map (`LossIff`, `ExactIff`).
- A zero count concludes a drain exactly if the fetch loop holds no undispatched job (`DrainIsFinalIff`).
- The breaker's three fields agree all along a run exactly if the threshold is at least one and the 32-bit failure
  counter does not wrap (`ConsistentIff`); a long outage makes it wrap (`OutageWraps`). With probes that take time, a
  circuit closes the cooldown after every failure exactly if none was recorded while the closing probe was under way
  (`ClosedAfterCooldownIff`); `ClosedTooEarly` is a run in which one was.
- As many round-robin calls as there are regions visit each once exactly if the counter does not wrap among
  them or the number of regions divides 2^64 (`WindowVisitsEachOnce`); with three regions a wrap misses one
  (`WrapSkipsARegion`). For any other number of calls that condition is sufficient (`RoundRobinFair`).
- Resumption hands over every event in order and once exactly if every event with data has an id that no earlier
  event has (`ExactlyOnceIff`). An event with a line too long for the scanner holds it up for good
  (`StuckAtLongLine`).

## Where the documentation and the code disagree

The model follows the code.

- `subscribe.go:161` says that the backoff is reset once an event was received; any response with status 200
  resets it, and so does the model (`Subscribe.NextWait`).
- `validate.go:44` describes queue names more loosely than the pattern (`Names.MessageIsWeaker`).
- `workflow.go:91` calls 500 the maximum number of steps in a workflow; a batch of 500 jobs compiles to as many
  as 503 (`Workflow.StepsBeyondTheMaximum`). Per-step options are sent for chains only (`workflow.go:210-212`).
- `federation/client.go:255` says that the healthy regions are those whose breaker is not open; a half-open one
  is left out too (`Federation.HealthyIffClosed`).

## Model

| member | source | states |
|---|---|---|
| Durable.AnyCallSequence | durable.go:79-182 | For any calls, diverging ones included: the loaded log stays a prefix, replaying implies the cursor is inside an untouched log, appended entries are numbered by position, and the calls that succeeded are the cursor plus the entries appended |
| Durable.ReplayNeverResumes | durable.go:79-182 | Once replay mode is off, no later call turns it on |
| Durable.DurableContext.constructor | durable.go:44-75 | A new context replays the readable stored log; every failure to get one leaves it empty and recording |
| Durable.DurableContext.Now | durable.go:79-104 | State and result are those of the replay-or-record step for time |
| Durable.DurableContext.Random | durable.go:107-134 | State and result are those of the replay-or-record step for randomness |
| Durable.DurableContext.SideEffect | durable.go:145-182 | State, result and whether the function ran are those of the step, with key mismatch and failures that are not logged |
| Durable.DurableContext.Checkpoint | durable.go:186-220 | If the request takes effect the stored text is the whole log, replayed or not |
| Durable.DurableContext.Complete | durable.go:223-228 | If the request takes effect nothing is stored |
| Durable.ReplayingIff | durable.go:230-235 | After any calls IsReplaying says that none was executed and that entries of the loaded log are left; its cursor test is redundant |
| Durable.ExecutedCall | durable.go:79-182 | Whatever is not answered from the log is answered with what the world supplied, and exactly that is appended, with its kind and key, unless the function failed; nothing else changes |
| Durable.AnsweredFromLog | durable.go:79-182 | Every other call is answered by the entry at the cursor, runs nothing and moves the cursor by one, unless two different keys clash, which changes nothing |
| DurableRuns.Execute | durable.go:272-277 | Running a handler on a context leaves the server with, and shows the handler, what the attempt semantics says |
| DurableRuns.ReplayIsFaithful | durable.go:44-182 | After any crashing attempts, an attempt cut anywhere sees position by position the values of the stored log, no key mismatch, replays exactly while values remain, and then appends what it is given |
| DurableRuns.SavedLogsFormAChain | durable.go:145-220 | All logs saved over all attempts form a prefix chain ending in the stored one, and no side-effect function runs for a saved position |
| DurableRuns.SameHistory | durable.go:79-220 | A value given and saved in one attempt is given again at its position in every later one |
| DurableRuns.FaithfulIffReadable | durable.go:63-72 | The first saved value is returned whatever the world supplies if and only if the log could be read and Complete had not removed it |
| DurableRuns.OnTrackIff | durable.go:79-182 | For any handler, log and codec: after every turn the results are those of the log, replay lasts exactly while results are left and no key clashes, if and only if every call made inside the log is accepted by its entry (kind, readable, keys equal or one empty) |
| DurableRuns.DeterministicIsAccepted | durable.go:79-182 | A deterministic handler's own log accepts every call it makes in replay |
| DurableRuns.OtherCallAfterFailure | durable.go:166-181 | An instance off the track: a run in which a different call after a failed side effect makes the saved log not replay |
| DurableRuns.UndauntedIsNotDeterministic | durable.go:166-181 | That handler is outside the condition |
| WorkerPool.RunWorker | worker.go:250-335 | A worker object driven by any schedule ends in the scheduled, reachable state, with at most `concurrency` slots taken, exact counts, requests within range, and nothing left when it has returned with count zero |
| WorkerPool.ScheduleRuns | worker.go:250-335 | Every run of the transition system is what some schedule does |
| WorkerPool.Occupancy | worker.go:250-335 | In every reachable state the semaphore and the counter are exact counts of jobs by phase, executing jobs <= occupied slots <= concurrency, and every id in the map belongs to a job between its store and its delete |
| WorkerPool.RequestedCount | worker.go:286-291 | Every request asks for 1 to concurrency jobs, whatever the server does: the correction of counts below one is dead code |
| WorkerPool.PoliteServer | worker.go:276-333 | If no reply exceeds the request, the counter stays within the concurrency and the send on the semaphore never blocks |
| WorkerPool.OverDelivery | worker.go:276-333 | A reply can push the counter over the concurrency before the next reply if and only if it holds more jobs than there is room for |
| ActiveJobs.ActiveJobsExact | worker.go:322-328 | In a run without redelivery the map holds exactly the ids of jobs between store and delete |
| ActiveJobs.LossIff | worker.go:322-328 | In a run without redelivery so far, a reply can make the map lose a running job before the next reply if and only if it repeats an id or names one in the map |
| ActiveJobs.ExactIff | worker.go:322-328 | Over a whole run, the map can at no time lose a job before the next reply if and only if no reply redelivers one |
| WorkerPool.CountZeroAfterReturn | worker.go:560-565 | Once the fetch loop has returned, count zero means all jobs done, map empty, semaphore free, no handler running |
| WorkerPool.DrainIsFinalIff | worker.go:213-221 | After cancellation and a zero count, a handler can still run later if and only if the fetch loop has a job or an answer it has not dispatched |
| WorkerPool.TerminateIsFinal | worker.go:213-291 | Terminate is never left, and after it is stored at most one more fetch begins, only if the loop had already read the state |
| WorkerPool.RunningOnlyFromQuiet | worker.go:532-545 | Running is re-entered only by a directive received while quiet |
| WorkerPool.NotRunningFetches | worker.go:263-291 | From a quiet or terminated state, until told to run, at most one fetch begins, and none unless the loop had already passed its check |
| WorkerPool.CancelledFetches | worker.go:254-291 | After cancellation at most one fetch begins, only if the loop had already looked, and its request gets no jobs |
| WorkerPool.DirectivesAreObeyed | worker.go:532-545 | After any run the state is the last one the server asked for, or terminate once the server or the shutdown has asked for that |
| WorkerProgress.CanDrain | worker.go:213-335 | From every reachable state, once cancelled, the loop can return and every job finish, with semaphore, counter and map empty |
| WorkerProgress.CanFetch | worker.go:254-291 | A running worker with free slots can come to ask for exactly as many jobs as it has room for |
| WorkerProgress.RepliesCanRun | worker.go:306-333 | All the jobs of any reply, an oversized one too, can be dispatched and finish, so no deadlock is forced |
| Delivery.BackoffIsClamped | rate_limiter.go:45-62 | No backoff exceeds the maximum, and without Retry-After none is less than half the minimum |
| Delivery.RetryAfterIsHonoured | rate_limiter.go:45-51 | A positive Retry-After is the wait, or else the maximum if that is less |
| Delivery.BackoffDoubles | rate_limiter.go:53-61 | Without one the unjittered wait starts at the minimum and doubles up to the maximum, and jitter is applied to it last |
| Delivery.Do | transport.go:98-179 | The loop makes the requests and ends as the semantics says, sending one message over and over |
| Delivery.DoEnds | transport.go:110-178 | Every answer but the last was retryable; the call ends on a final answer, on used-up retries or by cancellation, and with the matching outcome |
| Delivery.SuccessIff | transport.go:157-177 | A call succeeds exactly if its last answer has a status below 400 and decodes |
| Delivery.SecondRequestIff | rate_limiter.go:66-80 | A second request is made exactly if retries are enabled and allowed, the first answer is transient and the wait is not cut; a cut wait ends the call |
| Delivery.DoBound | transport.go:110-178 | At most MaxRetries + 1 requests and MaxRetries * MaxBackoff of waiting |
| Delivery.ReportWithRetry | worker.go:605-648 | The outer loop with its pauses, cut short by success or cancellation |
| Delivery.ReportEnds | worker.go:605-648 | A report ends with the first call that succeeded, was cancelled or whose pause was cut, else with the last one allowed, and it succeeds exactly if that call did |
| Delivery.PausesGrow | worker.go:605-648 | The two pauses are half a second and a second |
| Delivery.ProcessJob | worker.go:356-424 | Sends one kind of message only, an ACK exactly if a registered handler returned nil, about this job, within 3 * (MaxRetries + 1) requests and 3 * MaxRetries * MaxBackoff + 3 s of waiting; a NACK is retryable exactly if a registered handler panicked or returned an error not marked non-retryable |
| Delivery.BoundIsReached | worker.go:602-648 | A server that is always overloaded makes both bounds exact |
| Sse.ReadSSEStream | subscribe.go:77-135 | The scan loop computes what feeding the lines, up to cancellation, computes |
| Sse.FewerLines | subscribe.go:84-125 | A prefix of the lines delivers a prefix of the events |
| Sse.CommentsChangeNothing | subscribe.go:112-113 | Comment lines anywhere change nothing |
| Sse.BareFields | subscribe.go:118-123 | A bare `data` or `id` line does what the same line with an empty value does |
| Sse.OtherLinesChangeNothing | subscribe.go:112-124 | A non-blank line that names none of the three fields changes nothing |
| Sse.RoundTrip | subscribe.go:91-124 | Parsing the printed form of any events gives back those with data, each with its type and the latest id; if no data line holds a line break, each text handed over splits at its line breaks into the data lines of its event |
| Sse.TextRoundTrip | subscribe.go:77-135 | The same through the bytes and the line scanner, data lines included |
| Sse.SplitJoin | subscribe.go:94-102 | Data lines without line breaks are joined so that splitting at the line breaks gives them back |
| Sse.EitherLineEnd | subscribe.go:84-91 | Lines within the scanner limit may end in LF or CRLF alike |
| Sse.PrintedPrefix | subscribe.go:91-124 | A printed stream cut between lines has delivered exactly a prefix of its events |
| Sse.CutScan | subscribe.go:84-91 | A text cut at any byte scans to its first lines and at most a non-blank piece, so a cut never dispatches |
| Subscribe.SubscribeOnce | subscribe.go:185-212 | One connection, cancelled at any line or not, advances the session, or leaves it alone when refused |
| Subscribe.SubscribeWithReconnect | subscribe.go:140-181 | The loop's events, the ids it sends and its waits are those of the session semantics, whether it is cancelled in a wait or at any line of a connection |
| Subscribe.NextWait | subscribe.go:149-176 | One second after an accepted connection, else double the last wait up to thirty |
| Subscribe.WaitsBackOff | subscribe.go:149-176 | Over any connections the waits are a second after each accepted one and otherwise the last wait doubled, up to thirty seconds |
| Subscribe.CutConnection | subscribe.go:185-212 | A connection cut at any byte delivers exactly the first q of its events, all of them if uncut |
| Subscribe.ExactlyOnce | subscribe.go:140-212 | For any refused and cut connections the handler has seen exactly the first m events of the server's log, and the next id sent is the latest of them; an uncut connection catches up |
| Subscribe.SentIdsFollow | subscribe.go:193-195 | Each connection asks to resume after the latest id of what was handed over before it |
| Subscribe.WithDataThroughout | subscribe.go:94-102 | If every event has data, the m-th event handed over is the m-th of the log and the id sent next is its own |
| Subscribe.StuckAtLongLine | subscribe.go:78-84 | No event with a line longer than the scanner's limit, and none after it, is ever handed over |
| Subscribe.CancelledIsOnce | subscribe.go:154-157 | The same beginning has been handed over when the loop is cancelled at any line of a connection |
| Subscribe.ExactlyOnceIff | subscribe.go:91-212 | For printable events: in every run with an honest server the events are handed over in order and once, if and only if every event with data has an id that no earlier event has |
| Breaker.RegionState.RecordFailureAt | federation/client.go:246-253 | The fields after a failure |
| Breaker.RegionState.CheckRegion | federation/client.go:213-242 | The fields after a check: nothing in the cooldown, else a probe that begins and ends |
| Breaker.BreakerInvariant | federation/client.go:213-253 | In every interleaving of probe starts, probe ends and enqueue failures: healthy iff closed iff failures below the threshold, and the counter is the number of failures since the last successful probe |
| Breaker.HalfOpenFailureReopens | federation/client.go:222-235 | A failed half-open probe always reopens the circuit |
| Breaker.ThresholdNeeded | federation/client.go:109-115 | The fields agree in all runs without a wrap if and only if the threshold is at least one |
| Breaker.ConsistentIff | federation/client.go:246-253 | Along a given run the fields agree after every step if and only if the threshold is at least one and the failures in a row never exceed an int32 |
| Breaker.OutageWraps | federation/client.go:246-253 | As many failures in a row as an int32 cannot count make the counter wrap and the fields disagree |
| Breaker.StateIsAfter | federation/client.go:213-242 | A run of whole checks is the run of their steps |
| Breaker.OpenUntilCooledProbe | federation/client.go:213-253 | With a monotone clock, an open breaker closes if and only if a probe succeeds that started at least the cooldown after every recorded failure, else it stays open |
| Breaker.LastFailureIsLatest | federation/client.go:246-247 | No recorded failure is later than the one remembered |
| Breaker.NotHalfOpen | federation/client.go:213-242 | After any run of whole checks and failures the breaker is not half-open |
| Breaker.LatencyIsMeasured | federation/client.go:237-241 | The latency is that of the last successful probe end, and zero before there is one |
| Breaker.LatencyOfLastCheck | federation/client.go:225-241 | After any run of whole checks it is the time from start to finish of the last check that succeeded and was not skipped for the cooldown |
| Breaker.NoLatencyYet | federation/client.go:213-241 | It is zero if there was no such check |
| Breaker.ClosedAfterCooldownIff | federation/client.go:213-253 | With probes that take time, a circuit that is not closed closes only at the successful end of a probe, and that probe began at least the cooldown after every recorded failure if and only if none was recorded while it was under way |
| Breaker.ClosedTooEarly | federation/client.go:213-253 | For every cooldown, a run in which an open circuit closes although a failure was recorded after the closing probe began |
| Router.OverflowSelect | federation/router.go:33-58 | Fails exactly if all weights are zero, else picks by the running subtraction; the code after the loop is unreachable |
| Router.TotalOfAnyOrder | federation/router.go:38-41 | The total does not depend on the map order |
| Router.PickIff | federation/router.go:46-52 | A region is picked exactly by the numbers in its share |
| Router.PickIsSome | federation/router.go:47-57 | Every number below the total picks a region of positive weight |
| Router.WeightedExactly | federation/router.go:33-58 | For every pair of map orders, exactly weight(id) of the numbers that can be drawn select id |
| Router.LowestLatencyRegion | federation/router.go:174-191 | The first region of the lowest latency in the visiting order, or an error exactly when none counts |
| Router.SortedRegionIDs | federation/router.go:193-200 | A sorted list of each region once |
| Router.LessIff | federation/router.go:193-200 | The sorting order: at the first difference the lesser byte, or the end of the shorter id, comes first |
| Router.SortOfAnyOrder | federation/router.go:193-200 | The list does not depend on the map order |
| Router.RoundRobinRouter.Select | federation/router.go:81-88 | Selects by the old counter and advances it modulo 2^64, unless there are no regions |
| Router.RoundRobinRouter.SelectInTurn | federation/router.go:81-88 | k calls in a row, with any map order each time, return the k turns, which are fair |
| Router.RoundRobinFair | federation/router.go:81-88 | In any k turns every region has had k/n or k/n + 1 of them, and no two differ by more than one |
| Router.TurnsGoRound | federation/router.go:81-88 | The first turn is that of the first id, and each turn is followed by that of the next id, the last by the first |
| Router.WindowVisitsEachOnce | federation/router.go:81-88 | n turns visit each of n regions once if and only if the counter does not wrap among them or n divides 2^64 |
| Router.WrapSkipsARegion | federation/router.go:81-88 | From the last counter value, three calls do not visit each of three regions |
| Router.AffinitySelect | federation/router.go:17-27 | The local region if healthy, else the lowest latency |
| Router.GeoPinSelect | federation/router.go:66-74 | The target region or the error that names it |
| Router.ActivePassiveSelect | federation/router.go:106-123 | A healthy primary, else the first healthy secondary, else the least id |
| Router.GeographicSelect | federation/router.go:139-161 | The region the hint is mapped to if healthy, else a healthy default region, else the least id |
| Router.Select | federation/router.go:17-161 | Every built-in strategy selects, by its own rule and in its own order of preference, one of the regions it was shown |
| Router.SameFromAnyOrder | federation/router.go:17-161 | For every strategy but Overflow, whose pick for a drawn number depends on it, map order decides only ties between equally low latencies |
| Federation.Isolated | federation/client.go:213-253 | In any run each breaker is as its own steps alone leave it |
| Federation.HealthyIffClosed | federation/client.go:255-267 | After any run a region is in the snapshot iff its circuit is closed iff it has fewer failures since its last successful probe than the threshold |
| Federation.ShownIs | federation/client.go:237-267 | After any run a region is shown with its configured weight and the latency of its last successful probe |
| Federation.New | federation/client.go:125-141 | A client unless no region can be reached |
| Federation.FederatedClient.constructor | federation/client.go:30-63 | All configured regions with closed breakers, each with its last configured weight, or one |
| Federation.WeightIsLast | federation/client.go:30-47 | The weight of an id is that of its last reachable configuration, or one if that is not positive |
| Federation.FederatedClient.HealthyRegions | federation/client.go:256-267 | The snapshot is exactly the healthy regions, each with its weight and latency |
| Federation.FederatedClient.EnqueueWithRegion | federation/client.go:306-336 | The job goes to the region the strategy selects from the snapshot, whose circuit was closed; only that breaker is affected and only by a rejection; no built-in strategy causes the unavailable error |
| Federation.FederatedClient.EnqueueToRegion | federation/client.go:339-364 | The exact result in every case, and a failure recorded exactly on rejection |
| Federation.FederatedClient.CheckRegion | federation/client.go:196-242 | A check changes one region only, and is a run of its steps |
| Workflow.ChainAcceptedIff | workflow.go:95-108 | A chain passes exactly with 1 to 500 steps, all typed |
| Workflow.GroupAcceptedIff | workflow.go:109-120 | A group passes exactly with 2 to 500 jobs, all typed |
| Workflow.BatchAcceptedIff | workflow.go:121-130 | A batch passes exactly with 1 to 500 jobs, typed or not, and some callback |
| Workflow.ErrorsAreAccurate | workflow.go:95-135 | Each error names a fault the definition has, and a missing type is reported at its first position |
| Workflow.CreateWorkflow | workflow.go:182-268 | The error of validation, else the compiled steps |
| Workflow.EveryStepOnce | workflow.go:197-268 | The compiled steps carry the types and arguments of the given ones, in order, callbacks last |
| Workflow.CallbacksAreNamed | workflow.go:242-266 | Each callback given is compiled under its own id and depends on exactly the ids of all jobs |
| Workflow.OptionsSent | workflow.go:200-236 | A chain sends the options of a step unless they are the defaults; a group sends none |
| Workflow.IdsDenote | workflow.go:202-219 | The ids of chain steps and group jobs are a prefix and digits that denote the position |
| Workflow.StepsBeyondTheMaximum | workflow.go:91-135 | More than 500 steps come out exactly of a batch whose jobs and callbacks exceed 500 |
| Workflow.IdsDistinct | workflow.go:202-264 | No two compiled steps have the same id, for any number of steps |
| Workflow.DependsOnEarlier | workflow.go:205-264 | Every dependency is the id of an earlier step |
| Workflow.ListedOrderIsSchedule | workflow.go:197-268 | The listed order respects all dependencies, so there is no cycle |
| Workflow.ChainSchedules | workflow.go:66-72 | The only schedule of a chain is the given order |
| Workflow.GroupSchedules | workflow.go:74-80 | The schedules of a group are all permutations |
| Workflow.BatchSchedules | workflow.go:82-89 | The schedules of a batch are the orders in which every callback follows all the jobs |
| Names.QueuePatternIff | validate.go:10 | The pattern with its nested star denotes exactly the names that start and end alphanumeric and have no two adjacent separators |
| Names.ScannerDecides | validate.go:10 | A one-pass scanner decides the pattern |
| Names.QueueAcceptedIff | validate.go:36-47 | A queue passes iff it is empty or within 128 bytes and accepted by the scanner |
| Names.TypePatternIff | validate.go:9 | The type pattern denotes the dot-separated names whose parts all begin with a letter |
| Names.TypeAcceptedIff | validate.go:19-33 | An enqueue passes iff arguments are given and the type is such a name within 255 bytes |
| Names.QueueErrors | validate.go:36-47 | Each error of a queue exactly when it applies |
| Names.TypeErrors | validate.go:19-33 | Each error of an enqueue exactly when it applies |
| Names.Characters | validate.go:9-10 | The character classes by character code |
| Names.MessageIsWeaker | validate.go:43-45 | Among names that satisfy the error text, exactly those ending in a separator or with two in a row are rejected |
| Middleware.MiddlewareChain.Add | middleware.go:37-39 | Inserts at the end |
| Middleware.MiddlewareChain.Prepend | middleware.go:42-44 | Inserts at the beginning |
| Middleware.MiddlewareChain.InsertBefore | middleware.go:47-56 | Inserts directly before the first of the name, else at the end |
| Middleware.MiddlewareChain.InsertAfter | middleware.go:59-67 | Inserts directly after the first of the name, else at the end |
| Middleware.InsertedNextTo | middleware.go:47-67 | The inserted middleware stands directly before, or after, the first of the name, or last if there is none, and the others stay as they are |
| Middleware.MiddlewareChain.Remove | middleware.go:70-77 | Removes the first of the name, if any, and nothing else |
| Middleware.MiddlewareChain.Then | middleware.go:80-91 | The backward loop builds the right fold of the list, a value no later edit can reach |
| Middleware.InsertionNests | middleware.go:47-91 | An inserted middleware wraps what the later ones build and is wrapped by the earlier ones |
| Middleware.RemovalUnwraps | middleware.go:70-91 | Without the removed one, the earlier ones wrap what the later ones build |
| Middleware.RemoveUndoesInsert | middleware.go:37-77 | Removal undoes an insertion of the name unless an earlier middleware has it, which then goes instead |
| Middleware.Onion | middleware.go:80-91 | Middlewares that call next once are entered in order and left in reverse order around the handler, contexts passed inwards and results outwards |

## Left out

- The HTTP and JSON plumbing: JSON is a codec of which only "decoding undoes encoding" is asked; encoding a time or a
  text never fails, and neither does encoding the checkpoint state.
- Floating point: the jitter of a backoff is any function that scales by at least a half and less than one and
  truncates; durations and weights do not overflow.
- Timers: the server's responses and the moments of cancellation are parameters, waits are numbers.
- The load and the store in `handleServerState` are one step, as are the atomic stores inside the recording of a
  failure and inside the end of a probe; the client of `Federation` takes a whole enqueue and a whole check as one step.
- The `stopped` channel of the worker: it is closed only after cancellation, and a loop that sees it does what a
  cancelled one does.
- Delivery during a graceful drain: `processJob` reports with the context that was cancelled (worker.go:331, 417), so
  nothing is claimed about jobs that finish in the grace period; `nackActiveJobs` and the heartbeat's request are not
  modelled.
- Requests that take effect late: a checkpoint request is applied when it is made or never, so one that the client gave
  up on cannot overwrite a later one.
- RoundRobinFair: is not an equivalence for an arbitrary number of calls; which numbers stay fair across a wrap depends
  on both windows, before and after it.
- More than one `Start` of a worker; a panic in `nackJob` or outside the handler.
- What happens after `Complete` took effect: a later attempt starts over.
- `DurableContext` used by several goroutines: its mutex makes the calls atomic, and a call sequence is any order.
- `FetchFromAnyRegion`, `GetJob` and the accessors of the federated client, which read the healthy regions and change
  nothing.
- Custom routing strategies: any function of the regions shown; one that also depends on hidden state is not captured.
- The slices behind the middleware list and behind `DependsOn`: both are sequences, so aliasing of backing arrays is
  not captured.
- The server's side of workflows: when `on_success` and `on_failure` callbacks are run is not decided by this code.
- The resolution of enqueue options and their wire form: `Workflow.Options` is the resolved queue and timeout.
- `client.go`, `queue.go`, `schema.go`, `progress.go`, `agent/` and `grpc/`, which put arguments into requests;
  `job.go`, `retry.go`, `options.go`, `events.go`, `error_codes.go` and `ml.go`, which convert and tabulate values; and
  the encryption, attestation, logging, tracing and metrics adapters.
