/** Properties of whole runs of the simulated data pipe: the values an
    uninterrupted run delivers, what cancellation does to later steps, the
    observer slot, and the terminal call when a completion handler throws. */
module DataPipeProperties {
  import opened Wrappers
  import opened CSharpInt
  import opened DataPipeEvents
  import opened DataPipe
  import opened DataPipeContract

  /** `Subscribe(o)` stamped `nows[0]`, then one resumption per further reading
      of the clock. */
  function RunSteps(o: ObserverId, nows: seq<Instant>): (steps: seq<Step>)
    requires |nows| >= 1
    ensures |steps| == |nows|
    decreases |nows|
  {
    if |nows| == 1 then [SubscribeStep(Some(o), nows[0])]
    else RunSteps(o, nows[..|nows| - 1]) + [TickStep(nows[|nows| - 1])]
  }

  /** The events an uninterrupted run delivers to `o`, one per clock reading:
      the k-th is the one the loop builds for counter k (wrapped to `int`). */
  function Emissions(o: ObserverId, nows: seq<Instant>): (es: seq<Entry>)
    ensures |es| == |nows|
    decreases |nows|
  {
    if nows == [] then []
    else
      var k := |nows| - 1;
      Emissions(o, nows[..k]) + [Sent(Some(o), OnNext(EventFor(CounterAfter(k), nows[k])))]
  }

  /** A run that nobody stops delivers one event per step to its observer, in
      counter order, and its suspended loop waits with the next counter. */
  lemma {:induction false} UninterruptedRun(p: Pipe, o: ObserverId, nows: seq<Instant>)
    requires p.loop.Idle? && !p.cancelled && |nows| >= 1
    ensures Run(p, RunSteps(o, nows)).observer == Some(o)
    ensures !Run(p, RunSteps(o, nows)).cancelled
    ensures Run(p, RunSteps(o, nows)).loop == Running(CounterAfter(|nows|))
    ensures Run(p, RunSteps(o, nows)).log == p.log + [Started] + Emissions(o, nows)
    decreases |nows|
  {
    var steps := RunSteps(o, nows);
    if |nows| == 1 {
      assert steps == [] + [SubscribeStep(Some(o), nows[0])];
      RunSnoc(p, [], SubscribeStep(Some(o), nows[0]));
      assert nows[..0] == [];
      assert CounterAfter(1) == 1;
    } else {
      var k := |nows| - 1;
      var init, t := nows[..k], nows[k];
      UninterruptedRun(p, o, init);
      assert steps == RunSteps(o, init) + [TickStep(t)];
      RunSnoc(p, RunSteps(o, init), TickStep(t));
      TickContinuesRun(p, Run(p, RunSteps(o, init)), o, nows);
    }
  }

  /** One more resumption of an unstopped run adds the next emission. */
  lemma TickContinuesRun(p: Pipe, before: Pipe, o: ObserverId, nows: seq<Instant>)
    requires |nows| >= 2
    requires before.observer == Some(o) && !before.cancelled
    requires before.loop == Running(CounterAfter(|nows| - 1))
    requires before.log == p.log + [Started] + Emissions(o, nows[..|nows| - 1])
    ensures Tick(before, nows[|nows| - 1]).observer == Some(o)
    ensures !Tick(before, nows[|nows| - 1]).cancelled
    ensures Tick(before, nows[|nows| - 1]).loop == Running(CounterAfter(|nows|))
    ensures Tick(before, nows[|nows| - 1]).log == p.log + [Started] + Emissions(o, nows)
  {
    var k := |nows| - 1;
    var x := Sent(Some(o), OnNext(EventFor(CounterAfter(k), nows[k])));
    EmissionsSnoc(o, nows);
    AppendAssociates(p.log + [Started], Emissions(o, nows[..k]), x);
  }

  lemma EmissionsSnoc(o: ObserverId, nows: seq<Instant>)
    requires |nows| >= 1
    ensures Emissions(o, nows)
      == Emissions(o, nows[..|nows| - 1]) + [Sent(Some(o), OnNext(EventFor(CounterAfter(|nows| - 1), nows[|nows| - 1])))]
  {
  }

  lemma AppendAssociates<X>(a: seq<X>, b: seq<X>, x: X)
    ensures (a + b) + [x] == a + (b + [x])
  {
  }

  /** Within the first 2^31 events nothing wraps: the k-th event of a run has
      value 10k, so the values are 0, 10, 20, ... with no gaps, and its action
      is Add for even k and Update for odd k. */
  lemma {:induction false} EmissionsCountByTen(o: ObserverId, nows: seq<Instant>, k: nat)
    requires k < |nows| && k <= IntMax
    ensures Emissions(o, nows)[k] == Sent(Some(o), OnNext(DataPipeEvent(
      if k % 2 == 0 then Add else Update,
      Some(PipeValue(Some(10 * k), "Good", nows[k], true)),
      "SimulatedPoint")))
    decreases |nows|
  {
    var n := |nows| - 1;
    if k < n {
      EmissionsCountByTen(o, nows[..n], k);
      assert Emissions(o, nows)[k] == Emissions(o, nows[..n])[k];
      assert nows[..n][k] == nows[k];
    } else {
      CounterAfterIsExact(k);
    }
  }

  /** The scenario: subscribe, let three events through, stop; the next
      resumption completes and nothing follows. */
  lemma ThreeEventsThenStop(o: ObserverId, t0: Instant, t1: Instant, t2: Instant, t3: Instant)
    ensures Run(NewPipe(), [SubscribeStep(Some(o), t0), TickStep(t1), TickStep(t2), StopStep, TickStep(t3)]).log
      == [Started,
          Sent(Some(o), OnNext(EventFor(0, t0))),
          Sent(Some(o), OnNext(EventFor(1, t1))),
          Sent(Some(o), OnNext(EventFor(2, t2))),
          Sent(Some(o), OnCompleted)]
    ensures Run(NewPipe(), [SubscribeStep(Some(o), t0), TickStep(t1), TickStep(t2), StopStep, TickStep(t3)]).loop.Idle?
  {
    var steps := [SubscribeStep(Some(o), t0), TickStep(t1), TickStep(t2), StopStep, TickStep(t3)];
    assert CounterAfter(1) == 1 && CounterAfter(2) == 2 && CounterAfter(3) == 3;
    RunSnoc(NewPipe(), [], steps[0]);
    assert steps[..1] == [] + [steps[0]];
    RunSnoc(NewPipe(), steps[..1], steps[1]);
    assert steps[..2] == steps[..1] + [steps[1]];
    RunSnoc(NewPipe(), steps[..2], steps[2]);
    assert steps[..3] == steps[..2] + [steps[2]];
    RunSnoc(NewPipe(), steps[..3], steps[3]);
    assert steps[..4] == steps[..3] + [steps[3]];
    RunSnoc(NewPipe(), steps[..4], steps[4]);
    assert steps == steps[..4] + [steps[4]];
  }

  /** Cancellation is permanent and ends all data: once `Stop` has been called,
      the token stays cancelled whatever follows, and no later step delivers an
      event; only terminal calls are sent. */
  lemma {:induction false} StoppedPipeSendsNoEvent(p: Pipe, steps: seq<Step>)
    requires p.cancelled
    ensures Run(p, steps).cancelled
    ensures |Run(p, steps).log| >= |p.log|
    ensures Run(p, steps).log[..|p.log|] == p.log
    ensures forall i :: |p.log| <= i < |Run(p, steps).log| && Run(p, steps).log[i].Sent? ==>
      Run(p, steps).log[i].note.IsTerminal()
    decreases |steps|
  {
    if steps != [] {
      var init, s := steps[..|steps| - 1], steps[|steps| - 1];
      StoppedPipeSendsNoEvent(p, init);
      var mid := Run(p, init);
      StepExtendsLog(mid, s);
      assert Run(p, steps) == Apply(mid, s);
      var q := Apply(mid, s);
      forall i | |p.log| <= i < |q.log| && q.log[i].Sent?
        ensures q.log[i].note.IsTerminal()
      {
        if i < |mid.log| {
          assert q.log[i] == q.log[..|mid.log|][i];
        }
      }
    }
  }

  /** `Stop` is idempotent: a second call in a row changes nothing. */
  lemma StopTwiceIsStopOnce(p: Pipe, before: seq<Step>, after: seq<Step>)
    ensures Run(p, before + [StopStep, StopStep] + after) == Run(p, before + [StopStep] + after)
  {
    RunConcat(p, before + [StopStep, StopStep], after);
    RunConcat(p, before + [StopStep], after);
    RunSnoc(p, before + [StopStep], StopStep);
    assert before + [StopStep, StopStep] == (before + [StopStep]) + [StopStep];
    RunSnoc(p, before, StopStep);
  }

  /** Last writer wins: a `Subscribe` while a loop runs starts nothing, and the
      next event goes to the new observer with the counter continuing. */
  lemma ResubscribeRedirectsRunningLoop(p: Pipe, o: ObserverId, t1: Instant, t2: Instant)
    requires p.loop.Running? && !p.cancelled
    ensures Tick(Subscribe(p, Some(o), t1), t2).log == p.log + [Sent(Some(o), OnNext(EventFor(p.loop.counter, t2)))]
    ensures Tick(Subscribe(p, Some(o), t1), t2).loop == Running(Inc32(p.loop.counter))
  {
  }

  /** While no observer is set every call is dropped by `?.`: nobody receives
      anything, whatever the loop does. */
  lemma {:induction false} NullObserverReceivesNothing(p: Pipe, steps: seq<Step>)
    requires p.observer.None?
    requires forall i :: 0 <= i < |steps| ==> !(steps[i].SubscribeStep? && steps[i].o.Some?)
    ensures Run(p, steps).observer.None?
    ensures |Run(p, steps).log| >= |p.log|
    ensures Run(p, steps).log[..|p.log|] == p.log
    ensures forall i :: |p.log| <= i < |Run(p, steps).log| && Run(p, steps).log[i].Sent? ==>
      Run(p, steps).log[i].target.None?
    decreases |steps|
  {
    if steps != [] {
      var init, s := steps[..|steps| - 1], steps[|steps| - 1];
      NullObserverReceivesNothing(p, init);
      var mid := Run(p, init);
      StepExtendsLog(mid, s);
      var q := Apply(mid, s);
      forall i | |p.log| <= i < |q.log| && q.log[i].Sent?
        ensures q.log[i].target.None?
      {
        if i < |mid.log| {
          assert q.log[i] == q.log[..|mid.log|][i];
        }
      }
    }
  }

  /** As written, an observer whose `OnCompleted` handler throws receives
      `OnError` after `OnCompleted`: two terminal calls in one run, which takes
      a log that kept the contract out of it. */
  lemma CompletionFaultSendsSecondTerminal(p: Pipe, o: ObserverId, now: Instant, ex: Fault)
    requires Consistent(p) && p.loop.Running? && p.cancelled && p.observer == Some(o)
    ensures TickAsWritten(p, now, Some(ex)).log == p.log + [Sent(Some(o), OnCompleted), Sent(Some(o), OnError(ex))]
    ensures Scan(TickAsWritten(p, now, Some(ex)).log).None?
  {
    var done := p.log + [Sent(Some(o), OnCompleted)];
    ScanSnoc(p.log, Sent(Some(o), OnCompleted));
    ScanSnoc(done, Sent(Some(o), OnError(ex)));
    assert done + [Sent(Some(o), OnError(ex))] == p.log + [Sent(Some(o), OnCompleted), Sent(Some(o), OnError(ex))];
  }

  /** Subscribe, stop, and one resumption whose `OnCompleted` throws. */
  lemma CompletionFaultAfterFirstEvent(o: ObserverId, t0: Instant, t1: Instant, ex: Fault)
    ensures Scan(TickAsWritten(Stop(Subscribe(NewPipe(), Some(o), t0)), t1, Some(ex)).log).None?
  {
    var p := Stop(Subscribe(NewPipe(), Some(o), t0));
    StepKeepsConsistent(NewPipe(), SubscribeStep(Some(o), t0));
    StepKeepsConsistent(Subscribe(NewPipe(), Some(o), t0), StopStep);
    CompletionFaultSendsSecondTerminal(p, o, t1, ex);
  }

  /** The resumption the rest of the model uses ends a cancelled run with
      exactly one terminal call and leaves the log within the contract. */
  lemma {:induction false} CancelledTickSendsOneTerminal(p: Pipe, now: Instant)
    requires Consistent(p) && p.loop.Running? && p.cancelled
    ensures Tick(p, now).log == p.log + [Sent(p.observer, OnCompleted)]
    ensures Tick(p, now).loop.Idle?
    ensures Consistent(Tick(p, now))
  {
    StepKeepsConsistent(p, TickStep(now));
  }

  /** The same path through `Subscribe`: on a stopped, idle pipe the new loop
      completes at once, and as written a throwing `OnCompleted` handler is
      followed by `OnError`, so that run ends with two terminal calls. */
  lemma StoppedSubscribeSendsSecondTerminal(p: Pipe, o: ObserverId, now: Instant, ex: Fault)
    requires Consistent(p) && p.loop.Idle? && p.cancelled
    ensures SubscribeAsWritten(p, Some(o), now, Some(ex)).log
      == p.log + [Started, Sent(Some(o), OnCompleted), Sent(Some(o), OnError(ex))]
    ensures Scan(SubscribeAsWritten(p, Some(o), now, Some(ex)).log).None?
  {
    assert Scan(p.log) == Some(Between);
    var started := p.log + [Started];
    var done := started + [Sent(Some(o), OnCompleted)];
    var log := done + [Sent(Some(o), OnError(ex))];
    assert log == p.log + [Started, Sent(Some(o), OnCompleted), Sent(Some(o), OnError(ex))];
    ScanSnoc(p.log, Started);
    assert Scan(started) == Some(InRun(0));
    ScanSnoc(started, Sent(Some(o), OnCompleted));
    assert Scan(done) == Some(Between);
    ScanSnoc(done, Sent(Some(o), OnError(ex)));
    assert Scan(log).None?;
  }

  /** Two calls suffice: `Stop`, then `Subscribe` with a throwing `OnCompleted`. */
  lemma StopThenSubscribeBreaksContract(o: ObserverId, now: Instant, ex: Fault)
    ensures Scan(SubscribeAsWritten(Stop(NewPipe()), Some(o), now, Some(ex)).log).None?
  {
    StepKeepsConsistent(NewPipe(), StopStep);
    StoppedSubscribeSendsSecondTerminal(Stop(NewPipe()), o, now, ex);
  }

  /** The `Subscribe` the rest of the model uses: on a stopped, idle pipe it
      starts a run that ends with exactly one terminal call, within the
      contract. */
  lemma {:induction false} StoppedSubscribeSendsOneTerminal(p: Pipe, o: Option<ObserverId>, now: Instant)
    requires Consistent(p) && p.loop.Idle? && p.cancelled
    ensures Subscribe(p, o, now).log == p.log + [Started, Sent(o, OnCompleted)]
    ensures Subscribe(p, o, now).loop.Idle?
    ensures Consistent(Subscribe(p, o, now))
  {
    StepKeepsConsistent(p, SubscribeStep(o, now));
  }
}
