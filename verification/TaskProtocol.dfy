/** The task protocol of one worker (src/worker-instance.ts) as a transition
    system, cut where the source awaits. Each step runs without interruption;
    any number of invocations may be between steps at a time. What the
    environment decides is part of the step: clock readings, whether each emit
    returned or threw, and how an execution ends. */
module TaskProtocol {
  import opened Prelude
  import opened Clock
  import opened TaskEvents
  import opened Lifecycle
  import EventStore

  /** An invocation of executeTaskWithEvents, numbered in order of acceptance. */
  type RunId = nat

  /** Executing until its terminal event is out, then Settling until released. */
  datatype Phase = Executing | Settling

  /** `aborted`: its drain timer has aborted the execution's signal. */
  datatype Run = Run(taskId: TaskId, phase: Phase, timerArmed: bool, aborted: bool)

  /** One event some invocation's `emit` delivered. */
  datatype Delivery = Delivery(run: RunId, event: OutboundEvent)

  /** One call of `emit`: the clock reading before it, and whether it returned. */
  datatype Emission = Emission(reading: int, delivered: bool)

  datatype World = World(
    state: WorkerState,
    configLimit: int,
    slotLimit: int,
    slots: set<TaskId>,
    clock: int,
    logs: map<TaskId, seq<OutboundEvent>>,
    runs: map<RunId, Run>,
    nextRun: RunId,
    stream: seq<Delivery>)

  /** The configuration a worker is created with. */
  datatype Setup = Setup(maxConcurrency: int, functionTimeoutMs: int, drainBufferMs: int)

  predicate ArmsDrainTimer(setup: Setup) {
    setup.functionTimeoutMs > 0 && setup.functionTimeoutMs > setup.drainBufferMs
  }

  /** `gated`: submitted through the handler that first checks isAccepting and
      the slots. */
  datatype Op =
    | Submit(taskId: TaskId, gated: bool, payloadValid: bool, accept: Emission, failureClass: FailureClass, fail: Emission)
    | Milestone(run: RunId, stage: Stage, emission: Emission)
    | Finish(run: RunId, outputHash: string, complete: Emission, failureClass: FailureClass, fail: Emission)
    | Abandon(run: RunId, failureClass: FailureClass, fail: Emission)
    | Release(run: RunId)
    | TimerFires(run: RunId, emission: Emission)
    | Reconfigure(update: ConfigUpdate)

  function Initial(setup: Setup): World {
    World(READY, setup.maxConcurrency, setup.maxConcurrency, {}, 0, map[], map[], 0, [])
  }

  /** Stamp, emit, and if the emit returned, record. */
  function Announce(w: World, run: RunId, id: TaskId, fact: Fact, e: Emission): World {
    var ts := Clock.Advance(w.clock, e.reading);
    var event := TaskEvent(id, fact, ts);
    if e.delivered then
      w.(clock := ts, stream := w.stream + [Delivery(run, event)],
         logs := w.logs[id := EventStore.LogOf(w.logs, id) + [event]])
    else w.(clock := ts)
  }

  function Settle(w: World, run: RunId): World
    requires run in w.runs
  {
    w.(runs := w.runs[run := w.runs[run].(phase := Settling)])
  }

  /** The `finally` block: the timer goes with the run, and the slot is freed. */
  function Leave(w: World, run: RunId): World
    requires run in w.runs
  {
    w.(slots := w.slots - {w.runs[run].taskId}, runs := w.runs - {run})
  }

  /** The `catch` block, with `finally` right after it if its emit throws. */
  function FailRun(w: World, run: RunId, failureClass: FailureClass, e: Emission): World
    requires run in w.runs
  {
    var w' := Announce(w, run, w.runs[run].taskId, Failed(failureClass), e);
    if e.delivered then Settle(w', run) else Leave(w', run)
  }

  function Admit(setup: Setup, w: World, id: TaskId): World {
    w.(slots := w.slots + {id},
       state := if w.state == READY then ACCEPTING else w.state,
       runs := w.runs[w.nextRun := Run(id, Executing, ArmsDrainTimer(setup), false)],
       nextRun := w.nextRun + 1)
  }

  predicate PassesGate(w: World, gated: bool) {
    gated ==> Accepts(w.state) && |w.slots| < w.slotLimit
  }

  predicate Admits(w: World, op: Op)
    requires op.Submit?
  {
    && PassesGate(w, op.gated)
    && op.payloadValid
    && op.taskId !in w.slots
    && |w.slots| < w.slotLimit
  }

  /** The timer callback gets past its announcement to the abort. */
  predicate TimerAborts(state: WorkerState, emission: Emission) {
    state == DRAINING || emission.delivered
  }

  /** The drain timer's callback: announce draining once, then abort the run. */
  function FireTimer(w: World, run: RunId, emission: Emission): World
    requires run in w.runs
  {
    var fired := w.runs[run].(timerArmed := false, aborted := w.runs[run].aborted || TimerAborts(w.state, emission));
    var w' := w.(runs := w.runs[run := fired]);
    if w.state == DRAINING then w'
    else
      var ts := Clock.Advance(w.clock, emission.reading);
      w'.(state := DRAINING, clock := ts,
          stream := if emission.delivered then w.stream + [Delivery(run, WorkerDraining(ts))] else w.stream)
  }

  function Step(setup: Setup, w: World, op: Op): World
    requires Enabled(w, op)
  {
    match op
    case Submit(id, gated, payloadValid, accept, failureClass, fail) =>
      if !Admits(w, op) then w
      else
        var run := w.nextRun;
        var w' := Announce(Admit(setup, w, id), run, id, Accepted, accept);
        if accept.delivered then w' else FailRun(w', run, failureClass, fail)
    case Milestone(run, stage, emission) =>
      Announce(w, run, w.runs[run].taskId, Progress(stage), emission)
    case Finish(run, outputHash, complete, failureClass, fail) =>
      var w' := Announce(w, run, w.runs[run].taskId, Completed(outputHash), complete);
      if complete.delivered then Settle(w', run) else FailRun(w', run, failureClass, fail)
    case Abandon(run, failureClass, fail) =>
      FailRun(w, run, failureClass, fail)
    case Release(run) =>
      Leave(w, run)
    case TimerFires(run, emission) =>
      FireTimer(w, run, emission)
    case Reconfigure(update) =>
      if Rejected(update) || update.maxConcurrency.None? then w
      else w.(configLimit := update.maxConcurrency.value, slotLimit := update.maxConcurrency.value)
  }

  /** Which steps an invocation can take next. Submissions and configuration
      updates can come at any time. */
  predicate Enabled(w: World, op: Op) {
    match op
    case Milestone(run, _, _) => run in w.runs && w.runs[run].phase == Executing
    case Finish(run, _, _, _, _) => run in w.runs && w.runs[run].phase == Executing
    case Abandon(run, _, _) => run in w.runs && w.runs[run].phase == Executing
    case Release(run) => run in w.runs && w.runs[run].phase == Settling
    case TimerFires(run, _) => run in w.runs && w.runs[run].timerArmed
    case _ => true
  }

  /** The lifecycle state the step asks the machine for, if any. */
  function Requested(w: World, op: Op): Option<WorkerState> {
    match op
    case Submit(_, _, _, _, _, _) => if Admits(w, op) && w.state == READY then Some(ACCEPTING) else None
    case TimerFires(_, _) => if w.state != DRAINING then Some(DRAINING) else None
    case _ => None
  }

  /** The world after a history of steps; a step not enabled changes nothing. */
  function After(setup: Setup, ops: seq<Op>): World {
    if ops == [] then Initial(setup)
    else
      var w := After(setup, Front(ops));
      if Enabled(w, Last(ops)) then Step(setup, w, Last(ops)) else w
  }

  lemma HistorySnoc(setup: Setup, ops: seq<Op>, op: Op)
    requires Enabled(After(setup, ops), op)
    ensures After(setup, ops + [op]) == Step(setup, After(setup, ops), op)
  {
    SnocShape(ops, op);
  }
}
