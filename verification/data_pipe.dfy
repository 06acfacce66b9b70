/** `SimulatedDataPipe` as a sequential step machine. The source runs its
    generation loop in an `async void` method: the part up to the first `await`
    runs inside `Subscribe`, and each later resumption after the one-second delay
    is a `Tick`. `Stop` and `Subscribe` are steps that interleave with ticks; an
    exception thrown inside the loop's `try` is the `FaultStep`. The observer is
    a recorder: every call the pipe makes on its observer is appended to `log`. */
module DataPipe {
  import opened Wrappers
  import opened CSharpInt
  import opened DataPipeEvents

  /** The identity of an observer object. */
  type ObserverId = nat

  /** One entry of the pipe's log. `Started` marks a call of `StartSimulation`
      that passed the re-entry guard. `Sent(target, note)` is one
      `_observer?.X(...)`; a `None` target is a call that `?.` dropped because
      no observer was set. */
  datatype Entry = Started | Sent(target: Option<ObserverId>, note: Notification)

  /** The generation loop: `Idle` when `_isRunning` is false, otherwise the
      suspended loop with the value its local `counter` will have at the next
      iteration. */
  datatype Loop = Idle | Running(counter: Int32)

  /** The loop's `counter` after `k` executions of `counter++` from 0. */
  function CounterAfter(k: nat): Int32
    decreases k
  {
    if k == 0 then 0 else Inc32(CounterAfter(k - 1))
  }

  /** The counter counts without wrapping for the first 2^31 events. */
  lemma {:induction false} CounterAfterIsExact(k: nat)
    requires k <= IntMax
    ensures CounterAfter(k) == k
    decreases k
  {
    if k > 0 {
      CounterAfterIsExact(k - 1);
    }
  }

  /** In general the counter is `k` wrapped to `int`. */
  lemma {:induction false} CounterAfterWraps(k: nat)
    ensures CounterAfter(k) == Wrap32(k)
    decreases k
  {
    if k > 0 {
      CounterAfterWraps(k - 1);
      var prev := CounterAfter(k - 1);
      assert CounterAfter(k) == Inc32(prev);
      assert Inc32(prev) == Wrap32(prev as int + 1);
      WrapThenIncrement(k - 1);
    }
  }

  /** `_observer`, whether `_cts` has been cancelled, the loop, and the log. */
  datatype Pipe = Pipe(observer: Option<ObserverId>, cancelled: bool, loop: Loop, log: seq<Entry>)

  /** `new SimulatedDataPipe()`: no observer, a fresh token source, not running,
      and nothing sent yet. */
  function NewPipe(): (p: Pipe)
    ensures p.observer.None? && !IsCancellationRequested(p)
    ensures p.loop.Idle? && p.log == []
  {
    Pipe(None, false, Idle, [])
  }

  /** `_observer?.X(...)` for the notification `n`. */
  function Send(p: Pipe, n: Notification): (q: Pipe)
    ensures q.log == p.log + [Sent(p.observer, n)]
    ensures q.observer == p.observer && q.cancelled == p.cancelled && q.loop == p.loop
  {
    p.(log := p.log + [Sent(p.observer, n)])
  }

  /** One pass through the loop from its head: the cancellation check, then
      either the completion path (the `finally` resets `_isRunning`) or one
      event for the current counter followed by `counter++` and the suspension
      at `await Task.Delay`. */
  function LoopHead(p: Pipe, now: Instant): (q: Pipe)
    requires p.loop.Running?
  {
    if IsCancellationRequested(p) then
      Send(p, OnCompleted).(loop := Idle)
    else
      var c := p.loop.counter;
      Send(p, OnNext(EventFor(c, now))).(loop := Running(Inc32(c)))
  }

  /** `Subscribe(observer)`: store the observer, then call `StartSimulation`.
      When a loop is already running the guard returns at once; otherwise a
      new loop starts with `counter = 0` and runs synchronously up to its first
      suspension. */
  function Subscribe(p: Pipe, o: Option<ObserverId>, now: Instant): (q: Pipe)
    ensures q.observer == o && q.cancelled == p.cancelled
    ensures p.loop.Running? ==> q.loop == p.loop && q.log == p.log
    ensures p.loop.Idle? && p.cancelled ==>
      q.loop.Idle? && q.log == p.log + [Started, Sent(o, OnCompleted)]
    ensures p.loop.Idle? && !p.cancelled ==>
      q.loop == Running(1) && q.log == p.log + [Started, Sent(o, OnNext(EventFor(0, now)))]
  {
    var p' := p.(observer := o);
    if p'.loop.Running? then p'
    else LoopHead(p'.(loop := Running(0), log := p'.log + [Started]), now)
  }

  /** The suspended loop resumes after its delay. Without a loop nothing is
      pending and nothing happens. */
  function Tick(p: Pipe, now: Instant): (q: Pipe)
    ensures q.observer == p.observer && q.cancelled == p.cancelled
    ensures p.loop.Idle? ==> q == p
    ensures p.loop.Running? && p.cancelled ==>
      q.loop.Idle? && q.log == p.log + [Sent(p.observer, OnCompleted)]
    ensures p.loop.Running? && !p.cancelled ==>
      q.loop == Running(Inc32(p.loop.counter)) &&
      q.log == p.log + [Sent(p.observer, OnNext(EventFor(p.loop.counter, now)))]
  {
    if p.loop.Idle? then p else LoopHead(p, now)
  }

  /** An exception raised inside the loop's `try` while it runs (building the
      event, the observer's `OnNext` handler, the delay): the `catch` reports it
      to the current observer and the `finally` resets `_isRunning`. With no
      loop running there is no `try` to catch anything. */
  function FaultStep(p: Pipe, ex: Fault): (q: Pipe)
    ensures q.observer == p.observer && q.cancelled == p.cancelled
    ensures q.loop.Idle?
    ensures p.loop.Idle? ==> q == p
    ensures p.loop.Running? ==> q.log == p.log + [Sent(p.observer, OnError(ex))]
  {
    if p.loop.Idle? then p else Send(p, OnError(ex)).(loop := Idle)
  }

  /** `Stop()`: cancel the one token source the pipe ever has. */
  function Stop(p: Pipe): (q: Pipe)
    ensures q.cancelled
    ensures q.observer == p.observer && q.loop == p.loop && q.log == p.log
  {
    p.(cancelled := true)
  }

  /** `_cts.Token.IsCancellationRequested`. */
  predicate IsCancellationRequested(p: Pipe) {
    p.cancelled
  }

  /** One pass from the loop head as the source writes it, where the
      observer's `OnCompleted` handler may throw `completionFault`. That call
      sits inside the `try`, so its exception reaches the `catch`, which calls
      `OnError` on the same observer after `OnCompleted`. */
  function LoopHeadAsWritten(p: Pipe, now: Instant, completionFault: Option<Fault>): (q: Pipe)
    requires p.loop.Running?
    ensures completionFault.None? || p.observer.None? || !p.cancelled ==> q == LoopHead(p, now)
    ensures completionFault.Some? && p.observer.Some? && p.cancelled ==>
      q.observer == p.observer && q.cancelled && q.loop.Idle? && q.log == p.log + [Sent(p.observer, OnCompleted), Sent(p.observer, OnError(completionFault.value))]
  {
    if IsCancellationRequested(p) && p.observer.Some? && completionFault.Some? then
      Send(Send(p, OnCompleted), OnError(completionFault.value)).(loop := Idle)
    else
      LoopHead(p, now)
  }

  /** `Subscribe` as the source writes it: on an idle pipe whose token is
      already cancelled, the new loop completes at once, inside the `try`. */
  function SubscribeAsWritten(p: Pipe, o: Option<ObserverId>, now: Instant, completionFault: Option<Fault>): (q: Pipe)
    ensures completionFault.None? || o.None? || p.loop.Running? || !p.cancelled ==> q == Subscribe(p, o, now)
    ensures p.loop.Idle? && p.cancelled && o.Some? && completionFault.Some? ==>
      q.observer == o && q.cancelled && q.loop.Idle? && q.log == p.log + [Started, Sent(o, OnCompleted), Sent(o, OnError(completionFault.value))]
  {
    var p' := p.(observer := o);
    if p'.loop.Running? then p'
    else LoopHeadAsWritten(p'.(loop := Running(0), log := p'.log + [Started]), now, completionFault)
  }

  /** A resumption of the loop as the source writes it. */
  function TickAsWritten(p: Pipe, now: Instant, completionFault: Option<Fault>): (q: Pipe)
    ensures completionFault.None? || p.observer.None? || !p.cancelled ==> q == Tick(p, now)
    ensures p.loop.Running? && p.cancelled && p.observer.Some? && completionFault.Some? ==>
      q.observer == p.observer && q.cancelled && q.loop.Idle? && q.log == p.log + [Sent(p.observer, OnCompleted), Sent(p.observer, OnError(completionFault.value))]
  {
    if p.loop.Idle? then p else LoopHeadAsWritten(p, now, completionFault)
  }
}
