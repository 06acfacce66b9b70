# C# examples: data pipe, news publisher, service controller, lambdas

A Dafny model of the four pieces of logic in a set of C# teaching demos:

- **Simulated data pipe** (`DataPipeDemo/Program.cs`): `SimulatedDataPipe` pushes
  `DataPipeEvent`s to one `IDataPipeObserver` from an `async void` loop until its
  token source is cancelled, then sends one terminal call. `GenericObserver<T>`
  forwards the three observer calls to three stored handlers.
- **News publisher** (`ObserverDemo/Program.cs`): `NewsPublisher` keeps a list of
  observers, and setting `LatestNews` notifies each of them in list order.
- **Service controller** (`TopShelfDemo/Program.cs`): `ServiceController` keeps a
  running flag and a cancellation token, and runs a cleanup action on every `Stop`.
- **Lambdas** (`LambdaDemo/Program.cs`): `add`, `fizzBuzz`, and the `Age >= 30`
  filter over `Person`.

Everything is sequential and functional. State machines are immutable
datatypes with pure transition functions. Console output and handler calls
become entries appended to a log.

## Structure

| file | module | what |
|---|---|---|
| `wrappers.dfy` | `Wrappers` | `Option` (a nullable reference), `Result` (an operation that may throw) |
| `csharp_int.dfy` | `CSharpInt` | `int` as `Int32`, unchecked wrap-around, C#'s truncating `%` |
| `decimal.dfy` | `Decimal` | `int.ToString()` and a parser that reads it back |
| `data_pipe_events.dfy` | `DataPipeEvents` | `PipeAction`, `PipeValue`, `DataPipeEvent`, the event the loop builds for a counter |
| `generic_observer.dfy` | `GenericObservers` | `GenericObserver<T>` and its forwarding |
| `data_pipe.dfy` | `DataPipe` | `SimulatedDataPipe` as steps: `Subscribe`, `Tick`, `FaultStep`, `Stop` |
| `data_pipe_contract.dfy` | `DataPipeContract` | the observer contract as a log grammar; every reachable pipe keeps it |
| `data_pipe_properties.dfy` | `DataPipeProperties` | uninterrupted runs, cancellation, the observer slot, the finding below |
| `news_publisher.dfy` | `NewsPublisher` | `NewsPublisher` and `Subscriber.Update` |
| `service_controller.dfy` | `ServiceControllers` | `ServiceController` |
| `lambdas.dfy` | `Lambdas` | `add`, `fizzBuzz`, `Person` and the adults query |

### How the data pipe is modelled

`StartSimulation` is `async void`. It runs synchronously inside `Subscribe` until
its first `await`. So `Subscribe` on an idle, uncancelled pipe already sends
event 0. Each later resumption after the one-second delay is a `Tick`: it checks
the token at the loop head, then either sends the next event or completes.
An exception inside the `try` is a `FaultStep`: `OnError` is sent and
`_isRunning` is reset. `Stop` and `Subscribe` are steps that can come between
any two ticks. The delay itself is not modelled.

The pipe's log records two kinds of entry:

- `Started`: a call of `StartSimulation` that passed the re-entry guard.
- `Sent(target, note)`: one `_observer?.X(...)` call. A `None` target is a call
  that `?.` dropped because no observer was set.

The contract is the grammar `(Started OnNext* T)* (Started OnNext*)?`, where `T`
is one terminal call (`OnCompleted` or `OnError`). Within a run, the k-th event
must be the one built for counter k. `DataPipeContract.Scan` reads a log with a
small automaton. `Consistent` ties the automaton's phase to `_isRunning` and to
the loop's counter.

### Behaviour of the code worth noting

- A `Subscribe` while a loop runs always replaces the observer, and the running
  loop sends its next events to the new observer.
- The token source is created once and never replaced. After `Stop`, every later
  `Subscribe` on an idle pipe starts a loop that sends no event and completes at
  once. A `Subscribe` while the cancelled loop is still suspended starts nothing
  and only replaces the observer. No fresh stream can be started.
- `Subscribe(null)` is accepted. Events and terminal calls are then dropped, not
  rejected.
- `GenericObserver<T>.OnNext` casts `(T)e` without a check. The model makes the
  cast's success a precondition. It does not return a mismatch error.
- The re-entry guard is a plain `bool`, with no atomic compare-and-set. Steps in
  the model are atomic, so a `Stop` is seen at the very next loop head: no event
  is sent after a `Stop` step.

## Model

| member | source | states |
|---|---|---|
| `CSharpInt.Wrap32` | LambdaDemo/Program.cs:18 | An unchecked `int` result is congruent to the exact result modulo 2^32, and equals it when it fits |
| `CSharpInt.Inc32` | DataPipeDemo/Program.cs:109 | `counter++` on an `int` is the unchecked sum with one: `int.MaxValue` steps to `int.MinValue` |
| `CSharpInt.Rem` | LambdaDemo/Program.cs:40-42 | C#'s `%` has the dividend's sign, is smaller than the divisor in magnitude and differs from the dividend by a multiple of the divisor; it is zero exactly when the divisor divides the dividend |
| `CSharpInt.RemIsUnique` | LambdaDemo/Program.cs:40-42 | Those properties determine the remainder: any value with the dividend's sign, smaller than the divisor and congruent to the dividend is C#'s `%` |
| `CSharpInt.RemOfNegation` | LambdaDemo/Program.cs:40-42 | `%` truncates toward zero, so negating the dividend negates the remainder |
| `Decimal.IntToString` | LambdaDemo/Program.cs:43 | `n.ToString()` is non-empty and starts with `-` exactly for negative `n`; every other character is a digit, and the first digit is `0` only for `0` itself, so there is no leading zero |
| `Decimal.NatToDigits` | LambdaDemo/Program.cs:43 | The digits of a natural number are non-empty decimal digits and start with `0` only for zero |
| `Decimal.IntToStringRoundTrip` | LambdaDemo/Program.cs:43 | Parsing the decimal text of any integer gives back that integer |
| `DataPipeEvents.NewPipeValue` | DataPipeDemo/Program.cs:12-19 | A new `PipeValue` has a null value, status "Good", the current time and `IsGood` true |
| `DataPipeEvents.NewDataPipeEvent` | DataPipeDemo/Program.cs:23-28 | A new event has action `Add` (the enum's zero), a null value and point name "SimulatedPoint" |
| `DataPipeEvents.ActionFor` | DataPipeDemo/Program.cs:98 | The action for a counter is never `Remove`; it is `Add` exactly when the counter is even |
| `DataPipeEvents.EventFor` | DataPipeDemo/Program.cs:96-106 | The event for counter k is `Add` iff k is even and `Update` iff k is odd, and carries value 10k, status "Good", `IsGood` true and the current time. Its point name stays "SimulatedPoint" because the loop never sets it |
| `DataPipeEvents.ActionsAlternate` | DataPipeDemo/Program.cs:98-109 | Consecutive counters get different actions, also where `counter++` wraps from `int.MaxValue` to `int.MinValue` |
| `GenericObservers.ReceiveAll` | DataPipeDemo/Program.cs:53-64 | Each call runs exactly one handler, the one matching its kind, once and in call order; `OnNext` hands its handler the cast event |
| `GenericObservers.Receive` | DataPipeDemo/Program.cs:62-64 | One call runs the handler matching its kind: `OnNext` the event handler with the cast event, `OnError` the error handler with the exception, `OnCompleted` the completion handler |
| `GenericObservers.RecorderLogsEveryCall` | DataPipeDemo/Program.cs:62-64 | Forwarding to recording handlers reproduces the received calls exactly, with every event passed on unchanged |
| `DataPipe.CounterAfterIsExact` | DataPipeDemo/Program.cs:92-109 | After k increments from 0, with k at most `int.MaxValue`, the counter is exactly k |
| `DataPipe.CounterAfterWraps` | DataPipeDemo/Program.cs:92-109 | After any number k of increments from 0, the counter is k wrapped into `int`, so the loop's counter is always the count modulo 2^32 |
| `DataPipe.NewPipe` | DataPipeDemo/Program.cs:71-73 | A new pipe has no observer, a token source that is not cancelled, no loop running, and has made no call |
| `DataPipe.Subscribe` | DataPipeDemo/Program.cs:77-111 | The observer is always overwritten. While a loop runs nothing else happens (re-entry guard, counter untouched). Otherwise a run starts at counter 0: after a `Stop` it sends only `OnCompleted`; without one it sends event 0 and waits with counter 1 |
| `DataPipe.Tick` | DataPipeDemo/Program.cs:93-114 | A resumption checks cancellation first: if cancelled it sends `OnCompleted` and clears `_isRunning`, otherwise it sends the event for the current counter and increments the counter with wrap-around |
| `DataPipe.FaultStep` | DataPipeDemo/Program.cs:116-123 | An exception in a running loop sends exactly one `OnError` and clears `_isRunning`; with no loop running it changes nothing |
| `DataPipe.Stop` | DataPipeDemo/Program.cs:127-130 | `Stop` cancels the token and changes nothing else |
| `DataPipe.TickAsWritten` | DataPipeDemo/Program.cs:93-123 | The resumption as written equals `Tick` whenever the completion handler is not reached or does not throw: no fault, no observer, or a loop that is not cancelled. When a cancelled loop's observer throws from `OnCompleted`, `OnError` follows `OnCompleted`, the loop stops, and the observer and the cancelled token are kept |
| `DataPipe.LoopHeadAsWritten` | DataPipeDemo/Program.cs:93-123 | One pass from the loop head as written: the corrected pass unless the loop is cancelled, has an observer and that observer's `OnCompleted` throws, in which case `OnCompleted` then `OnError` are sent |
| `DataPipe.SubscribeAsWritten` | DataPipeDemo/Program.cs:77-123 | `Subscribe` as written equals `Subscribe` whenever the completion handler is not reached or does not throw: no fault, a null observer, a loop already running, or an uncancelled token. On a stopped idle pipe with a throwing `OnCompleted`, the new run sends `OnCompleted` then `OnError`, stores the observer and stays idle |
| `DataPipeContract.SubscribeKeepsConsistent` | DataPipeDemo/Program.cs:77-114 | A `Subscribe` keeps the log within the contract: on an idle pipe it opens a run that sends event 0 and waits with counter 1, or completes at once when cancelled; during a run it adds nothing |
| `DataPipeContract.TickKeepsConsistent` | DataPipeDemo/Program.cs:93-114 | A resumption keeps the log within the contract: the next event is the one for the run's event count and the counter advances with it, or a cancelled run ends with one `OnCompleted` and `_isRunning` cleared |
| `DataPipeContract.ThrowKeepsConsistent` | DataPipeDemo/Program.cs:116-123 | An exception in a running loop closes the run with one `OnError` and clears `_isRunning`, keeping the contract |
| `DataPipeContract.StepKeepsConsistent` | DataPipeDemo/Program.cs:77-130 | Every step (subscribe, stop, resumption, exception) keeps the log within the observer contract, with `_isRunning` true exactly inside a run and the counter equal to the run's event count |
| `DataPipeContract.ReachableIsConsistent` | DataPipeDemo/Program.cs:69-130 | Every pipe reachable from a new one keeps the contract: each run is `Started OnNext* T` with one terminal call, and its k-th event is the one for counter k |
| `DataPipeContract.TerminalEndsRun` | DataPipeDemo/Program.cs:93-123 | In a log within the contract, a terminal call is the last entry or is followed by the start of a new run |
| `DataPipeContract.NotificationInsideRun` | DataPipeDemo/Program.cs:87-118 | In a log within the contract, every call follows a run's start or one of that run's events, never a terminal call |
| `DataPipeProperties.UninterruptedRun` | DataPipeDemo/Program.cs:92-111 | Subscribe plus n-1 resumptions with no `Stop` send n events to the observer, the k-th built for counter k, and leave the loop waiting with counter n |
| `DataPipeProperties.EmissionsCountByTen` | DataPipeDemo/Program.cs:92-109 | Within the first 2^31 events, the k-th event of a run has value 10k and action `Add` for even k and `Update` for odd k: values 0, 10, 20, ... with no gaps |
| `DataPipeProperties.ThreeEventsThenStop` | DataPipeDemo/Program.cs:93-130 | Subscribe, two resumptions, `Stop`, one more resumption: events for counters 0, 1, 2, then `OnCompleted`, and the loop is idle |
| `DataPipeProperties.StoppedPipeSendsNoEvent` | DataPipeDemo/Program.cs:93-130 | After `Stop`, the token stays cancelled whatever follows, earlier entries are kept, and no later step sends an event; only terminal calls follow |
| `DataPipeProperties.StopTwiceIsStopOnce` | DataPipeDemo/Program.cs:127-130 | Calling `Stop` twice in a row leads to the same pipe as calling it once, whatever comes before and after |
| `DataPipeProperties.ResubscribeRedirectsRunningLoop` | DataPipeDemo/Program.cs:77-88 | A `Subscribe` during a run starts nothing new; the next event goes to the new observer and the counter continues |
| `DataPipeProperties.NullObserverReceivesNothing` | DataPipeDemo/Program.cs:108-118 | While no observer is set, every event and terminal call is dropped: no call has a target |
| `DataPipeProperties.CompletionFaultSendsSecondTerminal` | DataPipeDemo/Program.cs:114-119 | As written, when a cancelled loop resumes and its observer's `OnCompleted` throws, the observer receives `OnError` right after `OnCompleted`, and a log that kept the contract no longer does |
| `DataPipeProperties.CompletionFaultAfterFirstEvent` | DataPipeDemo/Program.cs:77-130 | Subscribe, `Stop`, and one resumption with a throwing `OnCompleted` already break the contract |
| `DataPipeProperties.CancelledTickSendsOneTerminal` | DataPipeDemo/Program.cs:93-114 | The resumption the model uses ends a cancelled run with exactly one `OnCompleted` and keeps the log within the contract |
| `DataPipeProperties.StoppedSubscribeSendsSecondTerminal` | DataPipeDemo/Program.cs:77-119 | As written, `Subscribe` on a stopped idle pipe with an observer whose `OnCompleted` throws logs `Started`, `OnCompleted`, `OnError`, and the log leaves the contract |
| `DataPipeProperties.StopThenSubscribeBreaksContract` | DataPipeDemo/Program.cs:77-130 | Two calls on a new pipe, `Stop` then `Subscribe` with a throwing `OnCompleted`, already break the contract |
| `DataPipeProperties.StoppedSubscribeSendsOneTerminal` | DataPipeDemo/Program.cs:77-119 | The `Subscribe` the model uses: on a stopped idle pipe, the new run sends exactly one `OnCompleted` and the log keeps the contract |
| `NewsPublisher.NewPublisher` | ObserverDemo/Program.cs:21-22 | A new publisher has an empty observer list, no news (null) and has delivered nothing |
| `NewsPublisher.LatestNews` | ObserverDemo/Program.cs:24-26 | The getter returns the stored news, null until the setter has run; `GetterReturnsLastSet` states which value that is |
| `NewsPublisher.Attach` | ObserverDemo/Program.cs:34-37 | `Attach` appends the observer at the end, duplicates included, and changes neither the news nor the log |
| `NewsPublisher.IndexOf` | ObserverDemo/Program.cs:39-42 | The index found holds the observer, and no earlier entry does |
| `NewsPublisher.RemoveFirst` | ObserverDemo/Program.cs:39-42 | Removing an observer that is not in the list leaves the list unchanged |
| `NewsPublisher.RemoveFirstDropsFirstOccurrence` | ObserverDemo/Program.cs:39-42 | Removing an observer that is in the list cuts out the entry at its first occurrence and keeps the order of everything else |
| `NewsPublisher.RemoveFirstCounts` | ObserverDemo/Program.cs:39-42 | Removal takes one occurrence of the observer out of the list's multiset and nothing else |
| `NewsPublisher.Detach` | ObserverDemo/Program.cs:39-42 | `Detach` removes one occurrence, is a no-op for an absent observer, and changes neither the news nor the log |
| `NewsPublisher.Broadcast` | ObserverDemo/Program.cs:44-50 | A notification makes one `Update` per list entry, in list order, each with the same message |
| `NewsPublisher.Notify` | ObserverDemo/Program.cs:44-50 | `Notify` appends one delivery per list entry in list order and changes neither the list nor the latest news |
| `NewsPublisher.SetLatestNews` | ObserverDemo/Program.cs:24-32 | The setter stores the value, then notifies every observer with that value |
| `NewsPublisher.BroadcastReachesEachEntry` | ObserverDemo/Program.cs:44-50 | A notification reaches each observer once per entry it has in the list |
| `NewsPublisher.DetachedObserverMissesLaterNews` | ObserverDemo/Program.cs:81-91 | After detaching an observer attached once, later news does not reach it, and every other observer still receives it once per entry |
| `NewsPublisher.GetterReturnsLastSet` | ObserverDemo/Program.cs:24-50 | Over any sequence of calls the getter returns the last value set; attach, detach and notify never change it |
| `NewsPublisher.DemoDeliveries` | ObserverDemo/Program.cs:74-91 | The demo's calls produce: first headline to both subscribers, second headline to the first only |
| `ServiceControllers.ShouldRun` | TopShelfDemo/Program.cs:33-36 | `ShouldRun()` holds exactly when the running flag is set and the token source has not been cancelled |
| `ServiceControllers.Token` | TopShelfDemo/Program.cs:38 | The `CancellationToken` property reports cancellation exactly when the one token source has been cancelled |
| `ServiceControllers.NewController` | TopShelfDemo/Program.cs:14-18 | The constructor throws `ArgumentNullException("cleanupAction")` exactly for a null action; otherwise the controller is not running, `ShouldRun()` is false and the token is not cancelled |
| `ServiceControllers.Start` | TopShelfDemo/Program.cs:20-24 | `Start` sets the running flag and changes nothing else (cancellation, cleanup action, cleanup count), so `ShouldRun()` holds exactly when the controller was never cancelled |
| `ServiceControllers.Stop` | TopShelfDemo/Program.cs:26-31 | `Stop` clears running, cancels the token and runs the cleanup action once more |
| `ServiceControllers.Lifecycle` | TopShelfDemo/Program.cs:10-38 | Over any calls: cancelled iff a `Stop` occurred (or it already was), cleanup count grows by the number of `Stop`s, and `ShouldRun()` iff never cancelled and started |
| `ServiceControllers.FreshController` | TopShelfDemo/Program.cs:14-38 | From construction: `ShouldRun()` iff `Start` was called and `Stop` never was; the token reports cancellation iff `Stop` was called; cleanup ran once per `Stop` |
| `ServiceControllers.StopTwiceCleansTwice` | TopShelfDemo/Program.cs:26-31 | A second `Stop` runs the cleanup again, so cleanup is not idempotent, while the flags stay as after the first |
| `ServiceControllers.RestartAfterStopStaysCancelled` | TopShelfDemo/Program.cs:20-36 | `Start` after `Stop` sets the flag but `ShouldRun()` stays false |
| `Lambdas.Add` | LambdaDemo/Program.cs:18 | `add(x, y)` is `x + y` when the sum fits in `int`, and wraps around modulo 2^32 otherwise |
| `Lambdas.AddFiveThree` | LambdaDemo/Program.cs:19 | `add(5, 3) = 8` |
| `Lambdas.FizzBuzz` | LambdaDemo/Program.cs:38-44 | "FizzBuzz" iff divisible by 3 and 5, "Fizz" iff by 3 only, "Buzz" iff by 5 only, the decimal text of n iff by neither: exactly one of four outcomes |
| `Lambdas.FizzBuzzOfFifteen` | LambdaDemo/Program.cs:45 | `fizzBuzz(15)` is "FizzBuzz" |
| `Lambdas.FizzBuzzNumberReadsBack` | LambdaDemo/Program.cs:43 | A numeric answer parses back to n |
| `Lambdas.Adults` | LambdaDemo/Program.cs:30 | The query keeps only adults taken from the input and is no longer than it |
| `Lambdas.AdultsKeepsExactlyTheAdults` | LambdaDemo/Program.cs:30 | Each person with `Age >= 30` is kept as often as it occurs in the input; everyone else is dropped |
| `Lambdas.AdultsOfConcat` | LambdaDemo/Program.cs:30-35 | The query keeps input order: filtering a concatenation concatenates the filtered parts |
| `Lambdas.AdultsOfOne` | LambdaDemo/Program.cs:30 | A single person is kept iff `Age >= 30` |
| `Lambdas.SampleAdults` | LambdaDemo/Program.cs:22-35 | On the demo's list the result is Alice, Charlie |

## Left out

- Timing and concurrency in the data pipe: `async void`, `Task.Delay(1000)`, and
  cross-thread visibility of `_observer`, `_cts` and `_isRunning`. Each is a
  discrete step; the delay is the gap between steps.
- Clock readings: `DateTime.UtcNow` is a parameter (`Instant`) of every step
  that reads it.
- The boxed `double` in `PipeValue.Value` is an integer. `counter * 10.0` is exact
  in a double for every `int` counter, so no value is lost.
- An `OnError` handler that throws: the exception escapes the `catch` of an
  `async void` method and ends the process, which the model does not represent.
- `GenericObserver`: a failing `(T)e` cast is excluded by precondition rather
  than modelled as an `InvalidCastException`.
- GenericObservers.Receive: null handlers are not modelled. The constructor
  accepts a null delegate for any of the three, and the forwarding call then
  throws `NullReferenceException`; in the model the three handlers are total
  functions, so every call runs its handler.
- DataPipe.Subscribe: a `Subscribe` made from inside the observer's `OnError` or
  `OnCompleted` handler is not modelled. At that point `_isRunning` is still
  true, because the `finally` has not yet run, so the guard returns: the
  observer is replaced and no run starts. In the model a `Subscribe` can only
  come after the step that sent the terminal call has finished, when the loop
  is idle, so it starts a new run. A `Subscribe` from inside `OnNext` is
  covered: the loop is still `Running`, and the guard returns as in the code.
- ServiceControllers.Stop: failing cleanup and failing cancellation callbacks
  are not modelled. A throwing cleanup action propagates out of `Stop` after the
  flag is cleared and the token cancelled. `_cts.Cancel()` also runs the
  callbacks registered on the exposed `CancellationToken`; if one of them
  throws, `Cancel` throws and the cleanup action never runs. The model's `Stop`
  always completes and always counts one more cleanup run.
- NewsPublisher.Notify: a null observer and null news are not modelled. `Attach(null)`
  is accepted by `List.Add`, and a later `Notify` then throws
  `NullReferenceException` at that entry, after the earlier entries have been
  notified and after the setter has stored the value. Setting `LatestNews` to
  null is also not modelled: `SetLatestNews` takes a string, and `Notify` always
  passes a message.
- `NewsPublisher`: observers that attach or detach during `Notify`, where a .NET
  `List` enumeration would throw. In the model `Update` only appends to the log,
  so it cannot change the list.
- `Subscriber.Update` and all console output are log entries; the subscriber's
  name is the observer's identity.
- `MyBasicService`, `Thread.Sleep`, `Join` and the TopShelf host configuration:
  threads and service registration only.
- `ServiceController.CancellationToken` is reduced to what it reports,
  `IsCancellationRequested`.
- `int.ToString()` is modelled with the invariant culture's `-` sign; other
  cultures are not modelled.
- The `greet` lambda, `NamespaceDemo`, and the async, callback and HTTP demos:
  console output, thread-pool and `Task` demonstrations with no logic to state.
- Lambdas.Adults: a null entry in the people list is not modelled. `Person` is
  a class, so `List<Person>` can hold null, and `p.Age` in the `Where` then
  throws `NullReferenceException` when the `foreach` reaches that entry, after
  the adults before it have been printed. The model's `Person` is a value that
  cannot be null, so the query always completes.
- `Where` is lazy in C#. The model evaluates the whole query at once, as the
  `foreach` that enumerates it does.

## Findings

| source | as written | input that shows it | evidently intended | confidence | as-written member | corrected member |
|---|---|---|---|---|---|---|
| DataPipeDemo/Program.cs:114-119 | `_observer?.OnCompleted()` is inside the `try`. If the handler throws, the `catch` calls `OnError` on the same observer. | Subscribe an observer whose `OnCompleted` throws, call `Stop`, let the loop resume: the observer gets `OnCompleted` and then `OnError`. | Exactly one terminal call per run: the observer interface (DataPipeDemo/Program.cs:30-37, modelled on `IObserver<T>`) has `OnCompleted` end the stream and `OnError` report a failure, so a stream that has ended should not then report an error. | medium, not executed | `DataPipeProperties.CompletionFaultSendsSecondTerminal` (on `DataPipe.TickAsWritten`) | `DataPipeProperties.CancelledTickSendsOneTerminal` (on `DataPipe.Tick`, used by every step) |
| DataPipeDemo/Program.cs:77-119 | The same `try` covers the first pass of a loop that `Subscribe` starts. After `Stop`, that pass goes straight to `OnCompleted`, and a throw from it reaches the `catch`. | Call `Stop`, then `Subscribe` an observer whose `OnCompleted` throws: the observer gets `OnCompleted` and then `OnError`, within the `Subscribe` call. | Exactly one terminal call per run. | medium, not executed | `DataPipeProperties.StoppedSubscribeSendsSecondTerminal` (on `DataPipe.SubscribeAsWritten`) | `DataPipeProperties.StoppedSubscribeSendsOneTerminal` (on `DataPipe.Subscribe`, used by every step) |

Both rows are one defect, reached by the two ways a loop can arrive at its
completion: a resumption (`Tick`) and the synchronous first pass inside
`Subscribe`. In the corrected `Tick` and `Subscribe`, an exception from the
completion handler is not reported back to the observer that has just
completed. Apart from that, both are the code as written: `TickAsWritten`
equals `Tick` and `SubscribeAsWritten` equals `Subscribe` whenever the handler
is not reached or does not throw. The two share the as-written loop head, `LoopHeadAsWritten`.
