/** The TopShelf demo's `ServiceController`: a running flag, a cancellation
    token source that is never replaced, and a cleanup action run on every
    `Stop`. Running the action is recorded by counting its invocations. */
module ServiceControllers {
  import opened Wrappers

  /** The exception the constructor throws, naming the offending parameter. */
  datatype ArgumentNullException = ArgumentNullException(paramName: string)

  /** `_cleanupAction`, `_isRunning`, whether `_cts` is cancelled, and how many
      times the cleanup action has been invoked. */
  datatype Controller<A> = Controller(cleanupAction: A, running: bool, cancelled: bool, cleanupRuns: nat)

  /** `CancellationToken`, reduced to what it reports. */
  datatype CancellationToken = CancellationToken(isCancellationRequested: bool)

  /** `ShouldRun()`: running and not cancelled. */
  predicate ShouldRun<A>(c: Controller<A>) {
    c.running && !c.cancelled
  }

  /** The `CancellationToken` property: the token of the one token source. */
  function Token<A>(c: Controller<A>): CancellationToken {
    CancellationToken(c.cancelled)
  }

  /** `new ServiceController(cleanupAction)`: a null action throws; otherwise
      the controller starts stopped, uncancelled, and with no cleanup run. */
  function NewController<A>(cleanupAction: Option<A>): (r: Result<Controller<A>, ArgumentNullException>)
    ensures r.Err? <==> cleanupAction.None?
    ensures r.Err? ==> r.error.paramName == "cleanupAction"
    ensures r.Ok? ==> r.value.cleanupAction == cleanupAction.value && r.value.cleanupRuns == 0
    ensures r.Ok? ==> !ShouldRun(r.value) && !Token(r.value).isCancellationRequested
  {
    match cleanupAction
    case None => Err(ArgumentNullException("cleanupAction"))
    case Some(a) => Ok(Controller(a, false, false, 0))
  }

  /** `Start()`: set the running flag; cancellation is left as it is. */
  function Start<A>(c: Controller<A>): (d: Controller<A>)
    ensures d.running
    ensures ShouldRun(d) <==> !c.cancelled
    ensures d.cancelled == c.cancelled && d.cleanupRuns == c.cleanupRuns
    ensures d.cleanupAction == c.cleanupAction
  {
    c.(running := true)
  }

  /** `Stop()`: clear the running flag, cancel, and invoke the cleanup action
      once more. */
  function Stop<A>(c: Controller<A>): (d: Controller<A>)
    ensures !d.running && d.cancelled
    ensures !ShouldRun(d) && Token(d).isCancellationRequested
    ensures d.cleanupRuns == c.cleanupRuns + 1
    ensures d.cleanupAction == c.cleanupAction
  {
    c.(running := false, cancelled := true, cleanupRuns := c.cleanupRuns + 1)
  }

  /** The lifecycle calls a host makes. */
  datatype Op = StartOp | StopOp

  function Apply<A>(c: Controller<A>, op: Op): Controller<A> {
    match op
    case StartOp => Start(c)
    case StopOp => Stop(c)
  }

  function ApplyAll<A>(c: Controller<A>, ops: seq<Op>): Controller<A>
    decreases |ops|
  {
    if ops == [] then c else Apply(ApplyAll(c, ops[..|ops| - 1]), ops[|ops| - 1])
  }

  /** Over any sequence of calls: cancellation is permanent, the cleanup action
      runs once per `Stop` (so it is not idempotent), and the controller should
      run exactly when it was started (now or earlier) and never stopped. */
  lemma {:induction false} Lifecycle<A>(c: Controller<A>, ops: seq<Op>)
    ensures ApplyAll(c, ops).cancelled <==> c.cancelled || StopOp in ops
    ensures ApplyAll(c, ops).cleanupRuns == c.cleanupRuns + multiset(ops)[StopOp]
    ensures ShouldRun(ApplyAll(c, ops)) <==> !c.cancelled && StopOp !in ops && (c.running || StartOp in ops)
    decreases |ops|
  {
    if ops != [] {
      var init, last := ops[..|ops| - 1], ops[|ops| - 1];
      assert ops == init + [last];
      Lifecycle(c, init);
    }
  }

  /** From construction: `ShouldRun()` holds exactly when `Start` has been called
      and `Stop` never has; the token reports cancellation exactly when `Stop`
      has been called at least once. */
  lemma FreshController<A>(a: A, ops: seq<Op>)
    requires NewController(Some(a)).Ok?
    ensures ShouldRun(ApplyAll(NewController(Some(a)).value, ops)) <==> StartOp in ops && StopOp !in ops
    ensures Token(ApplyAll(NewController(Some(a)).value, ops)).isCancellationRequested <==> StopOp in ops
    ensures ApplyAll(NewController(Some(a)).value, ops).cleanupRuns == multiset(ops)[StopOp]
  {
    Lifecycle(NewController(Some(a)).value, ops);
  }

  /** A second `Stop` runs the cleanup action again. */
  lemma StopTwiceCleansTwice<A>(c: Controller<A>)
    ensures Stop(Stop(c)).cleanupRuns == c.cleanupRuns + 2
    ensures Stop(Stop(c)).running == Stop(c).running && Stop(Stop(c)).cancelled == Stop(c).cancelled
  {
  }

  /** `Start` after `Stop` sets the flag but cannot make the controller run. */
  lemma RestartAfterStopStaysCancelled<A>(c: Controller<A>)
    ensures Start(Stop(c)).running && !ShouldRun(Start(Stop(c)))
  {
  }
}
