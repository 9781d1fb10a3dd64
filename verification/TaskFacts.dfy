/** What a task's log says, event by event, in terms of the steps that said it:
    the stages of its callbacks, the hashes of its results, the classes of its
    failures, and the stamp of each. */
module TaskFacts {
  import opened Prelude
  import Clock
  import opened TaskEvents
  import opened Lifecycle
  import opened TaskProtocol
  import opened TaskHistory
  import EventStore

  /** What a step puts on record for a task, after these clock readings: at most
      one event, of the emit that returned. */
  function Said(w: World, op: Op, readings: seq<int>, id: TaskId): Option<OutboundEvent> {
    if !Enabled(w, op) || TaskOf(w, op) != Some(id) then None
    else
      match op
      case Submit(_, _, _, accept, failureClass, fail) =>
        if accept.delivered then Some(TaskEvent(id, Accepted, Clock.ValueAfter(readings + [accept.reading])))
        else ReportOf(id, failureClass, fail, readings + [accept.reading])
      case Milestone(_, stage, emission) =>
        if emission.delivered then Some(TaskEvent(id, Progress(stage), Clock.ValueAfter(readings + [emission.reading])))
        else None
      case Finish(_, outputHash, complete, failureClass, fail) =>
        if complete.delivered then Some(TaskEvent(id, Completed(outputHash), Clock.ValueAfter(readings + [complete.reading])))
        else ReportOf(id, failureClass, fail, readings + [complete.reading])
      case Abandon(_, failureClass, fail) => ReportOf(id, failureClass, fail, readings)
      case _ => None
  }

  function ReportOf(id: TaskId, failureClass: FailureClass, fail: Emission, readings: seq<int>): Option<OutboundEvent> {
    if fail.delivered then Some(TaskEvent(id, Failed(failureClass), Clock.ValueAfter(readings + [fail.reading]))) else None
  }

  /** The task an enabled step is about, if it is about one. */
  function TaskOf(w: World, op: Op): Option<TaskId>
    requires Enabled(w, op)
  {
    match op
    case Submit(id, _, _, _, _, _) => if Admits(w, op) then Some(id) else None
    case Reconfigure(_) => None
    case _ => Some(w.runs[op.run].taskId)
  }

  function Listed<T>(o: Option<T>): seq<T> {
    if o.Some? then [o.value] else []
  }

  function AllSaid(setup: Setup, ops: seq<Op>, id: TaskId): seq<OutboundEvent> {
    if ops == [] then []
    else AllSaid(setup, Front(ops), id)
         + Listed(Said(After(setup, Front(ops)), Last(ops), Readings(setup, Front(ops)), id))
  }

  lemma AnnounceLog(w: World, run: RunId, id: TaskId, fact: Fact, e: Emission, readings: seq<int>, other: TaskId)
    requires w.clock == Clock.ValueAfter(readings)
    ensures var w' := Announce(w, run, id, fact, e);
            && w'.clock == Clock.ValueAfter(readings + [e.reading])
            && EventStore.LogOf(w'.logs, other) == EventStore.LogOf(w.logs, other)
                 + if e.delivered && id == other then [TaskEvent(id, fact, w'.clock)] else []
  {
    SnocShape(readings, e.reading);
  }

  lemma FailLog(w: World, run: RunId, failureClass: FailureClass, e: Emission, readings: seq<int>, id: TaskId)
    requires run in w.runs && w.clock == Clock.ValueAfter(readings)
    ensures EventStore.LogOf(FailRun(w, run, failureClass, e).logs, id) == EventStore.LogOf(w.logs, id)
            + if w.runs[run].taskId == id then Listed(ReportOf(id, failureClass, e, readings)) else []
  {
    AnnounceLog(w, run, w.runs[run].taskId, Failed(failureClass), e, readings, id);
  }

  lemma StepSays(setup: Setup, w: World, op: Op, readings: seq<int>, id: TaskId)
    requires Enabled(w, op) && w.clock == Clock.ValueAfter(readings)
    ensures EventStore.LogOf(Step(setup, w, op).logs, id)
            == EventStore.LogOf(w.logs, id) + Listed(Said(w, op, readings, id))
  {
    match op
    case Submit(taskId, gated, payloadValid, accept, failureClass, fail) =>
      if Admits(w, op) {
        var w0, run := Admit(setup, w, taskId), w.nextRun;
        AnnounceLog(w0, run, taskId, Accepted, accept, readings, id);
        if !accept.delivered {
          FailLog(Announce(w0, run, taskId, Accepted, accept), run, failureClass, fail, readings + [accept.reading], id);
        }
      }
    case Milestone(run, stage, emission) =>
      AnnounceLog(w, run, w.runs[run].taskId, Progress(stage), emission, readings, id);
    case Finish(run, outputHash, complete, failureClass, fail) =>
      var taskId := w.runs[run].taskId;
      AnnounceLog(w, run, taskId, Completed(outputHash), complete, readings, id);
      if !complete.delivered {
        FailLog(Announce(w, run, taskId, Completed(outputHash), complete), run, failureClass, fail,
                readings + [complete.reading], id);
      }
    case Abandon(run, failureClass, fail) =>
      FailLog(w, run, failureClass, fail, readings, id);
    case Release(run) =>
    case TimerFires(run, emission) =>
    case Reconfigure(update) =>
  }

  /** Over every history a task's log is, in order and stamp by stamp, what the
      steps about the task said of it. */
  lemma {:induction false} LogIsAllSaid(setup: Setup, ops: seq<Op>, id: TaskId)
    ensures EventStore.LogOf(After(setup, ops).logs, id) == AllSaid(setup, ops, id)
    decreases |ops|
  {
    if ops != [] {
      var w := After(setup, Front(ops));
      LogIsAllSaid(setup, Front(ops), id);
      StampsOf(setup, Front(ops));
      if Enabled(w, Last(ops)) {
        StepSays(setup, w, Last(ops), Readings(setup, Front(ops)), id);
      }
    }
  }

  // ---- stages ----

  function StagesIn(log: seq<OutboundEvent>): seq<Stage> {
    if log == [] then []
    else
      var e := Last(log);
      StagesIn(Front(log)) + if e.TaskEvent? && e.fact.Progress? then [e.fact.stage] else []
  }

  /** A callback of one of the task's runs, and its emit returned. */
  predicate Reaches(w: World, op: Op, id: TaskId) {
    op.Milestone? && Enabled(w, op) && op.emission.delivered && w.runs[op.run].taskId == id
  }

  /** The stages of the callbacks that got through, in order. */
  function ReachedStages(setup: Setup, ops: seq<Op>, id: TaskId): seq<Stage> {
    if ops == [] then []
    else ReachedStages(setup, Front(ops), id)
         + if Reaches(After(setup, Front(ops)), Last(ops), id) then [Last(ops).stage] else []
  }

  /** The progress on a task's record is that of its callbacks, stage by stage. */
  lemma {:induction false} StagesAreThoseReached(setup: Setup, ops: seq<Op>, id: TaskId)
    ensures StagesIn(EventStore.LogOf(After(setup, ops).logs, id)) == ReachedStages(setup, ops, id)
    decreases |ops|
  {
    if ops != [] {
      StagesAreThoseReached(setup, Front(ops), id);
      LogGrows(setup, ops, id);
    }
  }

  // ---- failures ----

  function FailuresIn(log: seq<OutboundEvent>): seq<FailureClass> {
    if log == [] then []
    else
      var e := Last(log);
      FailuresIn(Front(log)) + if e.TaskEvent? && e.fact.Failed? then [e.fact.failureClass] else []
  }

  /** The step ends one of the task's runs with a failure report that gets
      through: an exception, or an acceptance or completion that did not. */
  predicate Fails(w: World, op: Op, id: TaskId) {
    && Enabled(w, op)
    && match op
       case Submit(taskId, _, _, accept, _, fail) => Admits(w, op) && taskId == id && !accept.delivered && fail.delivered
       case Finish(run, _, complete, _, fail) => w.runs[run].taskId == id && !complete.delivered && fail.delivered
       case Abandon(run, _, fail) => w.runs[run].taskId == id && fail.delivered
       case _ => false
  }

  /** The classes of the failures reported, in order. */
  function ReportedFailures(setup: Setup, ops: seq<Op>, id: TaskId): seq<FailureClass> {
    if ops == [] then []
    else ReportedFailures(setup, Front(ops), id)
         + if Fails(After(setup, Front(ops)), Last(ops), id) then [Last(ops).failureClass] else []
  }

  lemma SaidFailure(w: World, op: Op, readings: seq<int>, id: TaskId)
    ensures var said := Said(w, op, readings, id);
            if Fails(w, op, id) then said.Some? && said.value.TaskEvent? && said.value.fact == Failed(op.failureClass)
            else said.Some? ==> said.value.TaskEvent? && !said.value.fact.Failed?
  {
  }

  /** The failures on a task's record are those reported, class by class. */
  lemma {:induction false} FailuresAreThoseReported(setup: Setup, ops: seq<Op>, id: TaskId)
    ensures FailuresIn(EventStore.LogOf(After(setup, ops).logs, id)) == ReportedFailures(setup, ops, id)
    decreases |ops|
  {
    if ops != [] {
      FailuresAreThoseReported(setup, Front(ops), id);
      LogGrows(setup, ops, id);
      SaidFailure(After(setup, Front(ops)), Last(ops), Readings(setup, Front(ops)), id);
    }
  }

  // ---- hashes ----

  /** The step completes a run of the task and its report gets through. */
  predicate Completes(w: World, op: Op, id: TaskId) {
    op.Finish? && Enabled(w, op) && op.complete.delivered && w.runs[op.run].taskId == id
  }

  /** The output hashes of the task's reported completions, in order. */
  function FinishedHashes(setup: Setup, ops: seq<Op>, id: TaskId): seq<string> {
    if ops == [] then []
    else FinishedHashes(setup, Front(ops), id)
         + if Completes(After(setup, Front(ops)), Last(ops), id) then [Last(ops).outputHash] else []
  }

  /** The completions on a task's record are those of its finished runs. */
  lemma {:induction false} HashesAreThoseFinished(setup: Setup, ops: seq<Op>, id: TaskId)
    ensures EventStore.HashesIn(EventStore.LogOf(After(setup, ops).logs, id)) == FinishedHashes(setup, ops, id)
    decreases |ops|
  {
    if ops != [] {
      HashesAreThoseFinished(setup, Front(ops), id);
      LogGrows(setup, ops, id);
    }
  }

  /** One more step adds at most one event to a log. */
  lemma LogGrows(setup: Setup, ops: seq<Op>, id: TaskId)
    requires ops != []
    ensures var log, log' := EventStore.LogOf(After(setup, Front(ops)).logs, id), EventStore.LogOf(After(setup, ops).logs, id);
            match Said(After(setup, Front(ops)), Last(ops), Readings(setup, Front(ops)), id)
            case None => log' == log
            case Some(e) => log' != [] && Front(log') == log && Last(log') == e
  {
    LogIsAllSaid(setup, ops, id);
    LogIsAllSaid(setup, Front(ops), id);
    var said := Said(After(setup, Front(ops)), Last(ops), Readings(setup, Front(ops)), id);
    if said.Some? {
      SnocShape(AllSaid(setup, Front(ops), id), said.value);
    }
  }
}
