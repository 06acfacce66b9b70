/** The data carried by the simulated data pipe: the action tag, the value
    record with its defaults, the event, and the three notifications an
    observer can receive. */
module DataPipeEvents {
  import opened Wrappers
  import opened CSharpInt

  datatype PipeAction = Add | Update | Remove

  /** A reading of `DateTime.UtcNow`. The clock is not modelled: every operation
      that reads it takes the reading as a parameter. */
  type Instant = int

  const GoodStatus: string := "Good"
  const SimulatedPointName: string := "SimulatedPoint"

  /** `PipeValue`. `value` is the boxed `object`: `None` is null and `Some(v)` a
      number. The loop boxes `counter * 10.0`, a double that is an exact integer
      for every `int` counter, so the number is kept as an integer. */
  datatype PipeValue = PipeValue(value: Option<int>, status: string, timestamp: Instant, isGood: bool)

  /** `new PipeValue()` at time `now`, with its property initializers applied. */
  function NewPipeValue(now: Instant): (v: PipeValue)
    ensures v.value.None? && v.isGood
    ensures v.status == GoodStatus && v.timestamp == now
  {
    PipeValue(None, GoodStatus, now, true)
  }

  /** `DataPipeEvent`. `value` is a reference, so it may be null. */
  datatype DataPipeEvent = DataPipeEvent(action: PipeAction, value: Option<PipeValue>, pointName: string)

  /** `new DataPipeEvent()`: the action takes the enum's zero value and the
      value reference is null. */
  function NewDataPipeEvent(): (e: DataPipeEvent)
    ensures e.action == Add && e.value.None?
    ensures e.pointName == SimulatedPointName
  {
    DataPipeEvent(Add, None, SimulatedPointName)
  }

  /** The loop's `(counter % 2 == 0) ? Add : Update`, with C#'s `%`. */
  function ActionFor(counter: Int32): (a: PipeAction)
    ensures a != Remove
    ensures a == Add <==> counter % 2 == 0
  {
    if Rem(counter, 2) == 0 then Add else Update
  }

  /** The event the loop builds for `counter` at time `now`: an object
      initializer over the two default constructors that sets the action and
      every field of the value but leaves the point name at its default. */
  function EventFor(counter: Int32, now: Instant): (e: DataPipeEvent)
    ensures e.action == Add <==> counter % 2 == 0
    ensures e.action == Update <==> counter % 2 != 0
    ensures e.value.Some?
    ensures e.value.value.value == Some(10 * counter)
    ensures e.value.value.status == "Good" && e.value.value.isGood
    ensures e.value.value.timestamp == now
    ensures e.pointName == "SimulatedPoint"
  {
    NewDataPipeEvent().(
      action := ActionFor(counter),
      value := Some(NewPipeValue(now).(value := Some(counter * 10), status := GoodStatus, timestamp := now, isGood := true)))
  }

  /** Consecutive counters get different actions, also where `counter++` wraps
      from `int.MaxValue` (odd) to `int.MinValue` (even). */
  lemma ActionsAlternate(counter: Int32)
    ensures ActionFor(Inc32(counter)) != ActionFor(counter)
  {
  }

  /** The exception a notification carries. */
  datatype Fault = Fault(message: string)

  /** The three calls of `IDataPipeObserver`. */
  datatype Notification = OnNext(event: DataPipeEvent) | OnError(fault: Fault) | OnCompleted
  {
    predicate IsTerminal() {
      !OnNext?
    }
  }
}
