# Circuit breaker model

A Dafny model of a Go circuit breaker: three states that concurrent callers move through, snapshots of
every transition that are validated, saved with retries and restored after a crash, and the small
algorithms of its event bus. Everything is stated for all inputs, all interleavings and all runs.

## How the model is laid out

- `Basics`, `Snapshots`, `Breakers`: 64-bit arithmetic and instants, the snapshot and its validators, and
  the breaker as a value with one function per critical section, construction and restoring.
- `CircuitBreakers`: the breaker object. Its methods update fields in place and are proved to do what the
  functions of `Breakers` and `Sequential` say.
- `Concurrency`: n callers, each idle, holding Open, or running an action under the state object it fetched,
  and a clock that never goes back. A step is one critical section. `Run` takes any sequence of steps;
  callers come back to a breaker that may have moved on. The trace records what each step shows.
- `Invariants`, `Histories`, `OpenWindow`, `FailureLeak`, `Extremes`, `StateDiagrams`: what all runs satisfy,
  the breaker as a function of what it has shown, runs that reach the bounds, and the transitions that only
  overlapping calls can make.
- `Sequential`, `NonOverlapping`: the breaker used by one caller at a time, the three-phase breaker that it
  refines, and the proof that its runs are exactly the non-overlapping concurrent ones.
- `ListenerBreakers`: the lighter breaker around an event listener, compared with the full one, and used by
  overlapping calls.
- `FileRepositories`, `CrashRecovery`: the file protocol, and the concurrent breaker in a process that may
  crash between any two system calls.
- `Repositories`, `SynchronousStore`: the in-memory repository, with what its cloning shares, and what it
  holds while the concurrent breaker saves to it.
- `SaveRetry`, `Retries`, `RateLimiters`, `OrderedDelivery`, `Registries`: backoff under a deadline, nested
  retry wrappers, the rate limiter, the ordered delivery queue and the subscription registry.

## Where the code and its documentation disagree

The model follows the code. Each disagreement has a lemma that says exactly when the documentation is right.

- "A single request" in Half-Open (`breaker.go:12`): true exactly for at most one caller (`Extremes.SingleProbeIff`).
- "At most `rate` times per second" (`events/decorators.go:118`): true exactly for rates that divide 10^9
  (`RateLimiters.PromiseKeptIff`).
- The listener breaker is said to open when the listener "fails consecutively more than maxFailures times"
  (`events/decorators.go:187`); it opens at the `maxFailures`-th failure already
  (`ListenerBreakers.OpensTooEarly`), and the sentence is true exactly when `maxFailures` is not positive
  (`ListenerBreakers.OpensAfterMoreIff`).
- A full delivery queue is said to block `Deliver` (`events/strategy.go:153`); the code rejects exactly when
  the queue is open and as many deliveries wait as it holds (`OrderedDelivery.OfferMeaning`).
- `Clone` is called a deep copy that keeps the repository from "external modifications"
  (`snapshot.go:145`, `repository.go:56`), but it copies references among the metadata values as they are. The
  repository is out of the caller's reach exactly when no metadata value is a reference
  (`Repositories.IsolatedIff`); otherwise one write is enough to change it (`Repositories.ReferenceLeaks`).
- The two restore strategies are not interchangeable for every snapshot: the conservative one skips the
  configuration check when it turns an expired Open into HalfOpen (`Sequential.RestoreStrategiesAgreeIff`).
- A generated subscription ID is not always unique: an explicit ID may be one still to be generated
  (`Registries.FreshForeverIff`), and then a live listener is replaced (`Registries.GeneratedIDCanReplace`).

## Model

| member | source | states |
|---|---|---|
| Snapshots.CompositeReportsFirstFault | validators.go:27-34 | A composite validator accepts exactly what all its parts accept, and otherwise reports the fault of the first part that rejects |
| Snapshots.DefaultValidatorMeaning | validators.go:51-174 | The default validator accepts exactly the snapshots of the current version with a known state, positive configuration, non-negative count that is 0 when Closed, a last failure when Open, and a creation time that is set and at most a minute ahead |
| Snapshots.StrictValidatorMeaning | validators.go:156-185 | The strict validator accepts exactly what the default one accepts and is no older than the age limit |
| Snapshots.DefaultFaultIff | validators.go:27-141 | The fault reported is one the snapshot has, and the first of those in the order of the rules |
| Breakers.ConfigureIsPositive | options.go:27-292 | Construction fails exactly when some option is out of range, reporting the first such, and an accepted configuration always has positive threshold and timeout |
| Breakers.OptionsTakeEffect | options.go:27-134 | Accepted options take effect: threshold, timeout, strategy, validator, retries, restoring and the other persistence settings are the last ones given, and the defaults where none is |
| Breakers.LastGivenMeaning | options.go:330-335 | The last value given is that of the last option in the list that gives one |
| Breakers.RestoreAllMeaning | persistence_manager.go:300-328 | Restoring everything succeeds exactly with a matching configuration and a known state, and copies state, count and last failure; with an unknown state it fails after copying the latter two |
| Breakers.ConservativeMeaning | persistence_manager.go:343-360 | What is too old is refused; an Open snapshot whose timeout has passed becomes HalfOpen with count 0 and its last failure, whatever the configuration; every other snapshot is restored as by the default strategy |
| Breakers.CreatedMeaning | options.go:358-378 | The state, count and last failure of a new breaker, from the fields of the snapshot that it loads |
| Breakers.NothingToRestore | options.go:358-378 | With persistence or restoring off, nothing found or the snapshot rejected, the new breaker is Closed without failures |
| Breakers.ExpiredMeansElapsed | state.go:64-64 | The saturating clock difference reaches the timeout exactly when the exact difference does |
| CircuitBreakers.CircuitBreaker.New | options.go:318-379 | The error of the first wrong option, or a new breaker with the threshold and timeout last given and the state that the snapshot found gives; Closed and empty if restoring was last switched off, whatever the repository holds |
| CircuitBreakers.CircuitBreaker.Restore | persistence_manager.go:300-360 | Both strategies, including the fields changed by a restore that fails |
| CircuitBreakers.CircuitBreaker.TransitionTo | breaker.go:206-253 | New state, entry action, then a snapshot and an event that both show the state after the entry action |
| CircuitBreakers.CircuitBreaker.CompleteClosed | state.go:27-43 | The critical section after an action that ran as Closed, on whatever state the breaker has by then |
| CircuitBreakers.CircuitBreaker.CheckOpen | state.go:60-76 | The critical section of a caller that fetched Open: admitted exactly if the timeout has passed, and then the breaker becomes HalfOpen |
| CircuitBreakers.CircuitBreaker.CompleteHalfOpen | state.go:93-108 | The critical section after a probe |
| CircuitBreakers.CircuitBreaker.Execute | breaker.go:137-167 | A whole call with nobody in between performs the sequential specification, result included |
| CircuitBreakers.CircuitBreaker.State | breaker.go:192-202 | The answer, and the transition it may make |
| CircuitBreakers.CircuitBreaker.Reset | breaker.go:255-274 | Count and last failure are cleared before the entry into Closed |
| Invariants.CounterBound | state.go:33-47 | Under any interleaving of n callers: the count is below the threshold while Closed, and count plus callers still running as Closed never exceed threshold - 1 + n |
| Invariants.CounterNeverWraps | state.go:33-37 | Hence, if threshold - 1 + n fits 64 bits, neither the count nor its next increment wraps |
| Invariants.CounterIsHistory | state.go:27-47 | Under any interleaving the count is the number of failures of calls that fetched Closed since the last success of such a call and the last entry into Closed, also while Open or HalfOpen |
| Histories.LastFailureIsHistory | state.go:78-80 | Under any interleaving the last failure is the instant of the last entry into Open since the last reset, and the zero time if there is none |
| Histories.TraceTellsAll | state.go:27-108 | Under any interleaving state, count, last failure and what every caller is doing follow from what has been seen |
| Histories.EveryStepIsExplained | state.go:27-108 | What every step of every run shows, and which state it enters, follows from what had been seen before it: who is admitted, held or rejected, which completion moves the breaker, what a query answers |
| Histories.ResetLetsHoldersIn | breaker.go:255-274 | After a reset a caller that holds Open is admitted as a probe when it checks the clock, unless the breaker has opened again by then |
| Invariants.StepEmits | breaker.go:206-253 | A step emits one event and one snapshot that match each other and the new state, or nothing and then neither state nor last failure moves |
| Invariants.TransitionsFormAPath | breaker.go:206-253 | Under any interleaving each event starts where the one before ended, the last ends in the current state, the i-th snapshot belongs to the i-th event, and times ascend |
| Invariants.NewIsSound | options.go:358-378 | With the default or strict validator, whatever the repository holds, the new breaker's count is not negative and nothing has been emitted |
| Invariants.SnapshotsAreValid | breaker.go:227-236 | In every state reachable from such a breaker every snapshot taken passes the default validator, then and at any later instant |
| OpenWindow.StaysShut | state.go:60-108 | Until the timeout has passed since an entry into Open, without a reset or a probe's success, the breaker is Open, its last failure has only moved forward, and nobody was admitted |
| OpenWindow.OpenWindow | state.go:60-108 | If somebody is admitted within the timeout after an entry into Open, a reset or a probe's success came in between, with nobody admitted before that |
| OpenWindow.EscapingProbeWasInFlight | state.go:93-108 | And such a probe was already running when the breaker opened |
| FailureLeak.LeakBound | state.go:27-108 | With all actions failing and no reset, at most threshold - 1 + n actions start before the first opening T0 and at most threshold - 1 + n * (1 + floor((t - T0) / resetTimeout)) by time t, state queries included |
| FailureLeak.LeakCapClosedForm | state.go:27-108 | The cap that LeakBound uses after the first opening is threshold - 1 + n * (1 + floor(elapsed / resetTimeout)) |
| FailureLeak.FirstOpeningMeaning | state.go:35-37 | The T0 of the bound is the time of the first entry into Open in the trace |
| Extremes.LeakBoundIsReached | state.go:27-43 | threshold - 1 + n failing actions can be started before the first opening |
| Extremes.LeakCapIsReached | state.go:27-108 | And for every elapsed time after the first opening a failing run starts exactly as many actions as the cap of LeakBound allows |
| StateDiagrams.EveryEdge | state.go:27-108 | With two callers or more one run, without query or reset, makes each of the nine transitions exactly once |
| StateDiagrams.DiagramIff | state.go:60-72 | In all runs without a reset every transition is one of the four edges of the diagram exactly when there is no caller, or one and nobody queries the state |
| StateDiagrams.StepLeavesDiagramIff | breaker.go:206-253 | A transition leaves the diagram exactly if an admitted check finds the breaker no longer Open, a failure finds it Open already, or a probe's success or a reset finds it not HalfOpen |
| Extremes.AllCanProbeAtOnce | state.go:60-108 | All n callers can be running as half-open probes at once |
| Extremes.SingleProbeIff | breaker.go:12-12 | At most one probe runs at a time, in all runs, exactly when there is at most one caller |
| Sequential.RefinesPhases | state.go:27-108 | Sequential runs show exactly what a three-phase breaker shows (counting, shut since an instant, probing) in which queries change nothing |
| Sequential.StateIsTransparent | breaker.go:192-202 | Deleting any set of state queries from a sequential run changes no call's result and no other query's answer |
| Sequential.RestoreStrategiesAgreeIff | persistence_manager.go:300-360 | For a validated snapshot the breakers restored by the two strategies are indistinguishable on all later sequential runs exactly if: configuration matches and the snapshot is recent or Closed, or it does not match and the snapshot is not a recent expired Open |
| Sequential.SequentialEdges | breaker.go:206-253 | In sequential runs every event is one of the four edges of the diagram or a reset's entry into Closed |
| NonOverlapping.SequentialRunsAreRuns | breaker.go:137-167 | Every sequential run is a concurrent run with the same breaker and results |
| NonOverlapping.SerialRunsAreSequential | breaker.go:137-167 | Every concurrent run whose calls do not overlap and are over is a sequential run with the same breaker and results |
| ListenerBreakers.ListenerBreaker.CheckIn | events/decorators.go:217-233 | The critical section on entry |
| ListenerBreakers.ListenerBreaker.CheckOut | events/decorators.go:238-252 | The critical section when the listener comes back, on whatever state the breaker has by then |
| ListenerBreakers.ListenerBreaker.OnEvent | events/decorators.go:217-253 | A whole call with nobody in between is the two sections one after the other |
| ListenerBreakers.CallIsTwoSections | events/decorators.go:217-253 | In the overlapping machine a call that nobody overlaps is a call of the sequential breaker |
| ListenerBreakers.LightIsHistory | events/decorators.go:217-253 | After every sequential run the count is the failures in a row since the last success or re-closing, open means enough of them, and the last failure is that of the last call that failed |
| ListenerBreakers.TurnedAwayIff | events/decorators.go:217-233 | A call is turned away exactly if enough calls have failed in a row and the timeout has not passed since the last failure |
| ListenerBreakers.NoWayOutButTime | events/decorators.go:217-253 | Under any interleaving of calls an open lighter breaker stays open and lets nobody in until the timeout has passed since its last failure |
| ListenerBreakers.OpensAtTheLimit | events/decorators.go:238-252 | After every sequential run it is open exactly if it has counted a failure and at least the limit of them |
| ListenerBreakers.OpensTooEarly | events/decorators.go:187-187 | The limit of failures in a row, and not more, open it |
| ListenerBreakers.OpensAfterMoreIff | events/decorators.go:187-187 | After every sequential run it is open exactly if more than maxFailures failures have been counted, if and only if maxFailures is 0; leaving aside a breaker without failures, if and only if maxFailures is not positive |
| ListenerBreakers.CoincideIff | events/decorators.go:217-253 | The lighter breaker turns away exactly the calls the full one with the same timeout turns away, on all sequential runs, exactly when the full threshold is 1 and the limit at most 1 |
| ListenerBreakers.CoincideDespiteQueries | events/decorators.go:217-253 | That agreement survives any state queries made on the full breaker in between |
| FileRepositories.FileRepository.Save | file_repository.go:92-127 | The disk goes through exactly the disks of the save protocol, in order; the error tells what went wrong; a reader finds the new snapshot after a success and the old content after a failure |
| FileRepositories.SaveIsAtomic | file_repository.go:113-124 | After every system call of a save a reader finds the old content, or after the last of a successful one the whole new snapshot, and no other file is touched |
| FileRepositories.FileRepository.Load | file_repository.go:130-159 | Cancelled, not found, unreadable, undecodable, or the snapshot of the target file |
| CrashRecovery.CrashesLoseNothingDurable | file_repository.go:92-127 | Over any number of crashes at any steps the file is absent or whole, and a restarted breaker has exactly the state, count and last failure of the last transition whose rename completed, or is fresh |
| CrashRecovery.CrashRestarts | options.go:358-378 | A crash at the end of any run leaves a process with idle callers, nothing emitted and a breaker with exactly the last durable transition, or a fresh one |
| CrashRecovery.LastDurableMeaning | file_repository.go:119-126 | That transition is the one before the last rename in the history, and there is none exactly if no rename follows a transition |
| CrashRecovery.SavesAreHistories | file_repository.go:113-124 | The disks that a save of the file repository goes through, whatever goes wrong, are those of a history of the crashing process, where it is over if it succeeded and due again if not |
| CrashRecovery.RestartKeepsState | options.go:358-378 | If no save is given up or interrupted, a crash between critical sections keeps the breaker's state and last failure |
| CrashRecovery.EveryTransitionIsSaved | breaker.go:206-236 | If no save is given up or interrupted, every transition gets its own completed rename before the next critical section |
| CrashRecovery.SaveCanEnd | persistence_manager.go:117-176 | Wherever a save stands it can come to rest, which releases the breaker |
| Repositories.SnapshotObject.Clone | snapshot.go:145-157 | An equal snapshot with a map of its own, whose entries refer to the same cells |
| Repositories.InMemoryRepository.Save | repository.go:41-59 | Stores the snapshot's value in fresh objects, or reports nil or a cancelled context and changes nothing |
| Repositories.InMemoryRepository.Load | repository.go:62-79 | Returns fresh objects with the stored value, or the error |
| Repositories.InMemoryRepository.Delete | repository.go:97-110 | Empties the repository unless the context is cancelled |
| Repositories.SaveThenWrite | repository.go:56-78 | Whatever is written to a snapshot passed to Save and to one returned by Load, the repository holds and loads the saved value, except that references show what they refer to by then |
| Repositories.ReferenceLeaks | snapshot.go:151-153 | If a metadata value is a reference, one write changes what is stored |
| Repositories.IsolatedIff | repository.go:56-78 | No sequence of writes by the caller changes what is stored exactly if no metadata value is a reference |
| SynchronousStore.StoreAgrees | breaker.go:227-236 | After every critical section the last snapshot taken, if any, has the breaker's exact state and last failure, and without one the breaker is Closed |
| SynchronousStore.RunWithRepository | persistence_manager.go:83-115 | An in-memory repository to which every snapshot is validated and saved is, after every critical section of every run, empty with the breaker Closed, or holds the breaker's exact state and last failure |
| SynchronousStore.RestartForgetsOnlyTheCount | options.go:358-378 | A breaker restored from it is indistinguishable from the one that goes on exactly if that one is not Closed with failures counted |
| SaveRetry.SaveSync | persistence_manager.go:117-176 | Nil exactly when a call succeeded; at least one and at most RetryAttempts + 1 calls, and none if RetryAttempts is negative or adding one to it wraps; the error handler told exactly when all were made in vain; giving up early only when the timer loses to the deadline; calls at exactly the instants their timers and callers allow, spaced by exact doubling delays that fit under the deadline |
| SaveRetry.DelayIsExact | persistence_manager.go:127-127 | A delay whose predecessors fitted under the deadline is the exact power-of-two multiple, at most Timeout + RetryDelay, in wrapping 64-bit arithmetic |
| SaveRetry.FewCallsFit | persistence_manager.go:127-127 | With a positive delay fewer than 64 calls are possible, so the shift never reaches the sign bit |
| SaveRetry.ShiftMeaning | persistence_manager.go:127-127 | The shift is the power of two modulo 2^64, for every count |
| SaveRetry.ClosedForms | persistence_manager.go:125-143 | The k-th delay is D * 2^k and the delays before call k add up to D * (2^k - 1) |
| Retries.RetryLoop | events/middleware.go:259-279 | The retry loop makes the attempts of the specification; a negative limit makes none and fails |
| Retries.Chain | events/middleware.go:36-44 | Chaining puts the first wrapper outermost |
| Retries.Compose | events/decorators.go:347-353 | Composing puts the first wrapper innermost |
| Retries.EntryOrder | events/middleware.go:36-44 | Chained wrappers are entered in the order given, composed ones in the opposite order, and the handler after all of them |
| Retries.NestedRetriesMultiply | events/bus.go:160-173 | Retry wrappers with limits r_1..r_n, stacked in either order, act as one wrapper with product(r_i + 1) - 1 retries |
| Retries.StackMeaning | events/decorators.go:78-96 | A stack calls the listener up to its first success or exactly product(r_i + 1) times, and returns nil exactly when one of those calls succeeded |
| RateLimiters.RateLimiter.Allow | events/decorators.go:150-160 | Admits exactly when an interval has passed since the last admitted call, and remembers the call only then |
| RateLimiters.AdmittedIff | events/decorators.go:124-160 | From a new limiter exactly those arrivals are let through that come at least an interval after all let through before, the first one always |
| RateLimiters.SpanOf | events/decorators.go:150-160 | n + 1 admitted calls span at least n intervals |
| RateLimiters.WindowBound | events/decorators.go:124-160 | Whatever the arrivals, any half-open second admits at most ceil(10^9 / floor(10^9 / rate)) calls |
| RateLimiters.CapIsReached | events/decorators.go:124-160 | For every rate some arrivals fill a second with exactly that many |
| RateLimiters.CapValues | events/decorators.go:129-129 | That cap is at least the rate, equals it exactly when the rate divides 10^9, and is at most rate + 1 when rate * (rate - 1) <= 10^9 |
| RateLimiters.PromiseKeptIff | events/decorators.go:117-133 | "At most rate per second" holds on all runs exactly when the effective rate divides 10^9, rates that are not positive counting as 1 |
| OrderedDelivery.OrderedAsync.Deliver | events/strategy.go:186-198 | Copies the listeners and queues the delivery, rejects it when the queue is full, panics when closed |
| OrderedDelivery.OrderedAsync.ProcessQueue | events/strategy.go:174-183 | One action of the background worker |
| OrderedDelivery.OrderedAsync.Close | events/strategy.go:202-205 | Returns with everything accepted handled by every listener in order; a second close panics |
| OrderedDelivery.NothingLostOrReordered | events/strategy.go:154-198 | At every step of every run handled, in hand and queued together are the accepted deliveries in order, the queue is within its capacity, and listeners are walked in order |
| OrderedDelivery.StoppedMeansDone | events/strategy.go:202-205 | Once the worker has stopped all accepted deliveries have been handled, listener by listener |
| OrderedDelivery.WorkerDrains | events/strategy.go:174-183 | Open or closed, the worker handles everything accepted in the steps that takes, without waiting for Close |
| OrderedDelivery.OfferMeaning | events/strategy.go:186-198 | After every run a delivery panics exactly if the queue was closed, else it is rejected exactly if as many deliveries wait as the buffer holds and accepted exactly if fewer do; only acceptance changes anything, and then the delivery joins the end |
| Registries.DecimalInjective | events/registry.go:51-51 | Decimal printing is injective |
| Registries.ListenerRegistry.Subscribe | events/registry.go:45-66 | Explicit or generated ID, replacing a listener of the same ID |
| Registries.ListenerRegistry.Unsubscribe | events/registry.go:72-82 | Removes the ID, and tells whether it was there |
| Registries.ListenerRegistry.GetListeners | events/registry.go:110-124 | Every live subscription exactly once |
| Registries.LiveListeners | events/registry.go:45-90 | After every run an ID is live exactly if a subscription of it, given or generated, has been neither removed nor repeated since, and it has that one's listener |
| Registries.GeneratedIDsAreFresh | events/registry.go:49-55 | After any run in which no explicit ID is one still to be generated, subscribing with an empty ID replaces nobody |
| Registries.FreshForeverIff | events/registry.go:49-55 | From a given registry generated IDs stay fresh for ever exactly if no live ID is one still to be generated |
| Registries.GeneratedIDCanReplace | events/registry.go:49-55 | After one subscription with the explicit ID listener-1 a subscription without an ID replaces it |

## Left out

- Concurrency.Step: each critical section reads the clock once, where the code reads it up to four times for one section.
- Concurrency.Enabled: a context already cancelled before `ExecuteWithContext` fetches the state is not a step, because it touches nothing.
- Invariants.CounterBound: the count is an unbounded integer; `CounterNeverWraps` gives when that makes no difference.
- CircuitBreakers.CircuitBreaker.TransitionTo: saved snapshots and published events are recorded as calls; the event's context and the logging are not modelled.
- CrashRecovery.CrashesLoseNothingDurable: process crashes only, with the rename atomic, readable files, the same configuration after the restart and a clock that does not go back; power loss and directory creation are not modelled.
- CrashRecovery.Next: any number of failed write attempts may be retried before one is given up; how many the deadline allows is `SaveRetry.SaveSync`.
- FileRepositories.Read: encoding is abstract; a whole file decodes to the snapshot written and a torn one does not decode. Metadata values are strings here, so how others change in JSON is not modelled.
- SaveRetry.Await: a timer that would fire after the deadline loses to it; the Go runtime could let it win if the caller sleeps past both.
- Retries.RetryLoop: the pauses between attempts and the text of the error are not modelled, nor listeners that panic.
- Registries.ListenerRegistry.Subscribe: the ID counter is unbounded, and the returned subscription's own unsubscribe callback is not modelled.
- OrderedDelivery.OrderedAsync.ProcessQueue: listener results are ignored, as in the code; a listener that panics is not modelled.
- Asynchronous saves and `PublishAsync`: each runs in its own goroutine with no order between them, so there is no agreement or delivery order to state.
- `AsynchronousStrategy`, `ParallelStrategy`, timeout, panic recovery, metrics, logging and filter wrappers: one-branch wrappers or goroutine plumbing.
- `Exists`, fluent setters, and the options for callbacks and log levels: they would only add easy members.
- Breakers.Setting: the collaborator options (repository, event bus, listener, middleware, logger) matter only by being nil or not.
- SynchronousStore.RunWithRepository: the repository never fails; retries are `SaveRetry.SaveSync`.
- StateDiagrams.DiagramIff: about runs without a reset; a reset may enter Closed from anywhere.
- The packages `logging` and `examples`: formatting and output only.
