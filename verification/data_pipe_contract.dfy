/** The observer contract of the simulated data pipe, stated over its log, and
    the lemmas that every reachable pipe keeps it. A run of the loop is written
    `Started OnNext* T` where `T` is one terminal call (`OnCompleted` or
    `OnError`); the log is a sequence of finished runs, possibly followed by the
    one unfinished run of the loop that is still running. Within a run the
    k-th event (from 0) is the one the loop builds for counter k. */
module DataPipeContract {
  import opened Wrappers
  import opened CSharpInt
  import opened DataPipeEvents
  import opened DataPipe

  /** Where a reader of the log stands: between runs, or inside a run that has
      delivered `emitted` events so far. */
  datatype Phase = Between | InRun(emitted: nat)

  /** `e` is the event the loop builds for the `k`-th iteration of a run,
      whatever its timestamp. */
  predicate IsEventFor(e: DataPipeEvent, k: nat) {
    e.value.Some? && e == EventFor(CounterAfter(k), e.value.value.timestamp)
  }

  /** One entry read in phase `ph`; `None` when the entry breaks the contract. */
  function Advance(ph: Phase, x: Entry): Option<Phase> {
    match x
    case Started => if ph.Between? then Some(InRun(0)) else None
    case Sent(_, OnNext(e)) =>
      if ph.InRun? && IsEventFor(e, ph.emitted) then Some(InRun(ph.emitted + 1)) else None
    case Sent(_, _) => if ph.InRun? then Some(Between) else None
  }

  /** Reads a whole log; `None` when it breaks the contract. */
  function Scan(log: seq<Entry>): Option<Phase>
    decreases |log|
  {
    if log == [] then Some(Between)
    else
      match Scan(log[..|log| - 1])
      case None => None
      case Some(ph) => Advance(ph, log[|log| - 1])
  }

  lemma ScanSnoc(log: seq<Entry>, x: Entry)
    ensures Scan(log + [x]) == if Scan(log).None? then None else Advance(Scan(log).value, x)
  {
    assert (log + [x])[..|log|] == log;
  }

  /** The pipe agrees with its log: the log keeps the contract, a loop is
      running exactly when the log ends inside a run, and the loop's counter is
      the number of events that run has delivered, counted in `int`. */
  predicate Consistent(p: Pipe) {
    match Scan(p.log)
    case None => false
    case Some(Between) => p.loop.Idle?
    case Some(InRun(k)) => p.loop == Running(CounterAfter(k))
  }

  /** The steps that interleave: a `Subscribe` call (with the time its first
      event would be stamped), a `Stop` call, a resumption of the loop, and an
      exception inside the loop. */
  datatype Step =
    | SubscribeStep(o: Option<ObserverId>, now: Instant)
    | StopStep
    | TickStep(now: Instant)
    | ThrowStep(ex: Fault)

  function Apply(p: Pipe, s: Step): Pipe {
    match s
    case SubscribeStep(o, now) => Subscribe(p, o, now)
    case StopStep => Stop(p)
    case TickStep(now) => Tick(p, now)
    case ThrowStep(ex) => FaultStep(p, ex)
  }

  function Run(p: Pipe, steps: seq<Step>): Pipe
    decreases |steps|
  {
    if steps == [] then p else Apply(Run(p, steps[..|steps| - 1]), steps[|steps| - 1])
  }

  lemma RunSnoc(p: Pipe, steps: seq<Step>, s: Step)
    ensures Run(p, steps + [s]) == Apply(Run(p, steps), s)
  {
    assert (steps + [s])[..|steps|] == steps;
  }

  lemma {:induction false} RunConcat(p: Pipe, a: seq<Step>, b: seq<Step>)
    ensures Run(p, a + b) == Run(Run(p, a), b)
    decreases |b|
  {
    if b == [] {
      assert a + b == a;
    } else {
      var init, last := b[..|b| - 1], b[|b| - 1];
      assert a + b == (a + init) + [last];
      RunSnoc(p, a + init, last);
      RunConcat(p, a, init);
      assert b == init + [last];
      RunSnoc(Run(p, a), init, last);
    }
  }

  /** A step never rewrites history: the log only grows. */
  lemma StepExtendsLog(p: Pipe, s: Step)
    ensures |Apply(p, s).log| >= |p.log|
    ensures Apply(p, s).log[..|p.log|] == p.log
  {
  }

  /** A `Subscribe` keeps the pipe consistent: on an idle pipe it opens a run
      and either sends event 0 or completes at once. */
  lemma SubscribeKeepsConsistent(p: Pipe, o: Option<ObserverId>, now: Instant)
    requires Consistent(p)
    ensures Consistent(Subscribe(p, o, now))
  {
    if p.loop.Idle? {
      var q := Subscribe(p, o, now);
      assert Scan(p.log) == Some(Between);
      var started := p.log + [Started];
      ScanSnoc(p.log, Started);
      assert Scan(started) == Some(InRun(0));
      if p.cancelled {
        var x := Sent(o, OnCompleted);
        ScanSnoc(started, x);
        assert q.log == started + [x];
        assert Scan(q.log) == Some(Between);
      } else {
        var x := Sent(o, OnNext(EventFor(0, now)));
        assert IsEventFor(EventFor(0, now), 0);
        ScanSnoc(started, x);
        assert q.log == started + [x];
        assert Scan(q.log) == Some(InRun(1));
        assert CounterAfter(1) == 1;
      }
    }
  }

  /** A resumption keeps the pipe consistent: it sends the run's next event or
      closes the run with `OnCompleted`. */
  lemma TickKeepsConsistent(p: Pipe, now: Instant)
    requires Consistent(p)
    ensures Consistent(Tick(p, now))
  {
    if p.loop.Running? {
      var q := Tick(p, now);
      var k := Scan(p.log).value.emitted;
      assert Scan(p.log) == Some(InRun(k));
      assert p.loop.counter == CounterAfter(k);
      if p.cancelled {
        var x := Sent(p.observer, OnCompleted);
        ScanSnoc(p.log, x);
        assert q.log == p.log + [x];
        assert Scan(q.log) == Some(Between);
      } else {
        var x := Sent(p.observer, OnNext(EventFor(CounterAfter(k), now)));
        assert IsEventFor(EventFor(CounterAfter(k), now), k);
        ScanSnoc(p.log, x);
        assert q.log == p.log + [x];
        assert Scan(q.log) == Some(InRun(k + 1));
        assert CounterAfter(k + 1) == Inc32(CounterAfter(k));
      }
    }
  }

  /** An exception inside a running loop closes the run with `OnError`. */
  lemma ThrowKeepsConsistent(p: Pipe, ex: Fault)
    requires Consistent(p)
    ensures Consistent(FaultStep(p, ex))
  {
    if p.loop.Running? {
      ScanSnoc(p.log, Sent(p.observer, OnError(ex)));
    }
  }

  /** Every step keeps the pipe consistent with its log. */
  lemma StepKeepsConsistent(p: Pipe, s: Step)
    requires Consistent(p)
    ensures Consistent(Apply(p, s))
  {
    match s
    case StopStep =>
    case SubscribeStep(o, now) => SubscribeKeepsConsistent(p, o, now);
    case TickStep(now) => TickKeepsConsistent(p, now);
    case ThrowStep(ex) => ThrowKeepsConsistent(p, ex);
  }

  /** Every pipe reachable from `new SimulatedDataPipe()` keeps the observer
      contract: each run is `Started OnNext* T` with exactly one terminal call
      and nothing after it but the next run, its events carry the values the
      counter dictates, and `_isRunning` is true exactly inside a run. */
  lemma {:induction false} ReachableIsConsistent(steps: seq<Step>)
    ensures Consistent(Run(NewPipe(), steps))
    decreases |steps|
  {
    if steps != [] {
      ReachableIsConsistent(steps[..|steps| - 1]);
      StepKeepsConsistent(Run(NewPipe(), steps[..|steps| - 1]), steps[|steps| - 1]);
    }
  }

  lemma {:induction false} ScanPrefix(log: seq<Entry>, j: nat)
    requires Scan(log).Some?
    requires j <= |log|
    ensures Scan(log[..j]).Some?
    decreases |log| - j
  {
    if j < |log| {
      var init := log[..|log| - 1];
      assert log[..j] == init[..j];
      ScanPrefix(init, j);
    } else {
      assert log[..j] == log;
    }
  }

  /** Nothing follows a terminal call but the start of a new run. */
  lemma {:induction false} TerminalEndsRun(log: seq<Entry>, i: nat)
    requires Scan(log).Some?
    requires i < |log| && log[i].Sent? && log[i].note.IsTerminal()
    ensures i + 1 == |log| || log[i + 1] == Started
  {
    if i + 1 < |log| {
      ScanPrefix(log, i + 2);
      var pre := log[..i + 2];
      assert pre[..i + 1] == log[..i + 1];
      assert log[..i + 1][..i] == log[..i];
      assert Scan(log[..i + 1]) == Some(Between);
    }
  }

  /** A notification is only ever sent inside a run: it follows the run's
      start or one of the run's events, never a terminal call. */
  lemma {:induction false} NotificationInsideRun(log: seq<Entry>, i: nat)
    requires Scan(log).Some?
    requires i < |log| && log[i].Sent?
    ensures i > 0
    ensures log[i - 1] == Started || (log[i - 1].Sent? && log[i - 1].note.OnNext?)
  {
    ScanPrefix(log, i + 1);
    var pre := log[..i + 1];
    assert pre[..i] == log[..i];
    if i > 0 {
      var pre' := log[..i];
      assert pre'[..i - 1] == log[..i - 1];
      ScanPrefix(log, i - 1);
      match Scan(log[..i - 1]).value
      case Between =>
      case InRun(_) =>
    }
  }
}
