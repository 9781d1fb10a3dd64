/** What is delivered, what is recorded and in which order, over every history
    of a worker and every interleaving of its tasks. */
module TaskHistory {
  import opened Prelude
  import Clock
  import opened TaskEvents
  import opened Lifecycle
  import opened TaskProtocol
  import opened TaskWiring
  import EventStore

  predicate Concerns(d: Delivery, id: TaskId) {
    d.event.TaskEvent? && d.event.taskId == id
  }

  /** The deliveries about one task, in order. */
  function DeliveriesFor(stream: seq<Delivery>, id: TaskId): seq<Delivery> {
    if stream == [] then []
    else
      var before := DeliveriesFor(Front(stream), id);
      if Concerns(Last(stream), id) then before + [Last(stream)] else before
  }

  function EventsOf(ds: seq<Delivery>): seq<OutboundEvent> {
    seq(|ds|, i requires 0 <= i < |ds| => ds[i].event)
  }

  lemma DeliveriesSnoc(stream: seq<Delivery>, d: Delivery, id: TaskId)
    ensures DeliveriesFor(stream + [d], id) ==
            if Concerns(d, id) then DeliveriesFor(stream, id) + [d] else DeliveriesFor(stream, id)
  {
    SnocShape(stream, d);
  }

  // ---- recorded equals delivered ----

  ghost predicate Records(logs: map<TaskId, seq<OutboundEvent>>, stream: seq<Delivery>) {
    forall id :: EventStore.LogOf(logs, id) == EventsOf(DeliveriesFor(stream, id))
                 && (id in logs <==> DeliveriesFor(stream, id) != [])
  }

  ghost predicate RecordsDeliveries(w: World) {
    Records(w.logs, w.stream)
  }

  lemma AnnounceRecords(w: World, run: RunId, id: TaskId, fact: Fact, e: Emission)
    requires RecordsDeliveries(w)
    ensures RecordsDeliveries(Announce(w, run, id, fact, e))
  {
    var w' := Announce(w, run, id, fact, e);
    if e.delivered {
      var d := Last(w'.stream);
      forall other
        ensures EventStore.LogOf(w'.logs, other) == EventsOf(DeliveriesFor(w'.stream, other))
        ensures other in w'.logs <==> DeliveriesFor(w'.stream, other) != []
      {
        DeliveriesSnoc(w.stream, d, other);
        assert EventStore.LogOf(w.logs, other) == EventsOf(DeliveriesFor(w.stream, other));
      }
    }
  }

  lemma StepRecords(setup: Setup, w: World, op: Op)
    requires RecordsDeliveries(w) && Enabled(w, op)
    ensures RecordsDeliveries(Step(setup, w, op))
  {
    match op
    case Submit(id, gated, payloadValid, accept, failureClass, fail) =>
      if Admits(w, op) {
        var w0 := Admit(setup, w, id);
        AnnounceRecords(w0, w.nextRun, id, Accepted, accept);
        AnnounceRecords(Announce(w0, w.nextRun, id, Accepted, accept), w.nextRun, id, Failed(failureClass), fail);
      }
    case Milestone(run, stage, emission) =>
      AnnounceRecords(w, run, w.runs[run].taskId, Progress(stage), emission);
    case Finish(run, outputHash, complete, failureClass, fail) =>
      var id := w.runs[run].taskId;
      AnnounceRecords(w, run, id, Completed(outputHash), complete);
      AnnounceRecords(Announce(w, run, id, Completed(outputHash), complete), run, id, Failed(failureClass), fail);
    case Abandon(run, failureClass, fail) =>
      AnnounceRecords(w, run, w.runs[run].taskId, Failed(failureClass), fail);
    case Release(run) =>
    case TimerFires(run, emission) =>
      TimerRecords(setup, w, op);
    case Reconfigure(update) =>
  }

  lemma TimerRecords(setup: Setup, w: World, op: Op)
    requires op.TimerFires? && RecordsDeliveries(w) && Enabled(w, op)
    ensures RecordsDeliveries(Step(setup, w, op))
  {
    var w' := Step(setup, w, op);
    if w'.stream != w.stream {
      forall other
        ensures DeliveriesFor(w'.stream, other) == DeliveriesFor(w.stream, other)
      {
        DeliveriesSnoc(w.stream, Last(w'.stream), other);
      }
    }
  }

  /** Whatever throws, the stored log of every task is exactly the events of it
      whose emit returned, in order; a task without any has no log. */
  lemma {:induction false} RecordedEqualsDelivered(setup: Setup, ops: seq<Op>)
    ensures RecordsDeliveries(After(setup, ops))
    decreases |ops|
  {
    if ops != [] {
      RecordedEqualsDelivered(setup, Front(ops));
      if Enabled(After(setup, Front(ops)), Last(ops)) {
        StepRecords(setup, After(setup, Front(ops)), Last(ops));
      }
    }
  }

  // ---- global order of timestamps ----

  ghost predicate Stamped(stream: seq<Delivery>, clock: int) {
    && (forall i :: 0 <= i < |stream| ==> stream[i].event.ts <= clock)
    && (forall i, j :: 0 <= i < j < |stream| ==> stream[i].event.ts < stream[j].event.ts)
  }

  lemma AnnounceStamps(w: World, run: RunId, id: TaskId, fact: Fact, e: Emission)
    requires Stamped(w.stream, w.clock)
    ensures var w' := Announce(w, run, id, fact, e);
            Stamped(w'.stream, w'.clock)
  {
  }

  /** The readings a step consumes. */
  function ReadingsOf(w: World, op: Op): seq<int> {
    if !Enabled(w, op) then []
    else
      match op
      case Submit(_, _, _, accept, _, fail) =>
        if !Admits(w, op) then [] else if accept.delivered then [accept.reading] else [accept.reading, fail.reading]
      case Milestone(_, _, emission) => [emission.reading]
      case Finish(_, _, complete, _, fail) =>
        if complete.delivered then [complete.reading] else [complete.reading, fail.reading]
      case Abandon(_, _, fail) => [fail.reading]
      case TimerFires(_, emission) => if w.state == DRAINING then [] else [emission.reading]
      case _ => []
  }

  function Readings(setup: Setup, ops: seq<Op>): seq<int> {
    if ops == [] then [] else Readings(setup, Front(ops)) + ReadingsOf(After(setup, Front(ops)), Last(ops))
  }

  lemma ClockOverReadings(before: seq<int>, more: seq<int>)
    requires |more| <= 2
    ensures Clock.ValueAfter(before + more) ==
            if |more| == 0 then Clock.ValueAfter(before)
            else if |more| == 1 then Clock.Advance(Clock.ValueAfter(before), more[0])
            else Clock.Advance(Clock.Advance(Clock.ValueAfter(before), more[0]), more[1])
  {
    if |more| == 0 {
      assert before + more == before;
    } else if |more| == 1 {
      SnocShape(before, more[0]);
      assert before + more == before + [more[0]];
    } else {
      SnocShape(before, more[0]);
      SnocShape(before + [more[0]], more[1]);
      assert before + more == before + [more[0]] + [more[1]];
    }
  }

  lemma StepReadsClock(setup: Setup, w: World, op: Op, readings: seq<int>)
    requires Enabled(w, op) && w.clock == Clock.ValueAfter(readings)
    ensures Step(setup, w, op).clock == Clock.ValueAfter(readings + ReadingsOf(w, op))
  {
    ClockOverReadings(readings, ReadingsOf(w, op));
  }

  lemma StepStamps(setup: Setup, w: World, op: Op)
    requires Stamped(w.stream, w.clock) && Enabled(w, op)
    ensures var w' := Step(setup, w, op);
            Stamped(w'.stream, w'.clock)
  {
    match op
    case Submit(id, gated, payloadValid, accept, failureClass, fail) =>
      if Admits(w, op) {
        var w0 := Admit(setup, w, id);
        AnnounceStamps(w0, w.nextRun, id, Accepted, accept);
        AnnounceStamps(Announce(w0, w.nextRun, id, Accepted, accept), w.nextRun, id, Failed(failureClass), fail);
      }
    case Milestone(run, stage, emission) =>
      AnnounceStamps(w, run, w.runs[run].taskId, Progress(stage), emission);
    case Finish(run, outputHash, complete, failureClass, fail) =>
      var id := w.runs[run].taskId;
      AnnounceStamps(w, run, id, Completed(outputHash), complete);
      AnnounceStamps(Announce(w, run, id, Completed(outputHash), complete), run, id, Failed(failureClass), fail);
    case Abandon(run, failureClass, fail) =>
      AnnounceStamps(w, run, w.runs[run].taskId, Failed(failureClass), fail);
    case _ =>
  }

  /** Across all tasks and streams, timestamps strictly increase in emission
      order, whatever the system clock reads; the clock itself is the closed
      form of the readings consumed. */
  lemma {:induction false} TimestampsStrictlyIncrease(setup: Setup, ops: seq<Op>)
    ensures Stamped(After(setup, ops).stream, After(setup, ops).clock)
    ensures Clock.IsLatest(Readings(setup, ops), After(setup, ops).clock)
    decreases |ops|
  {
    StampsOf(setup, ops);
    Clock.ValueIsLatest(Readings(setup, ops));
  }

  lemma {:induction false} StampsOf(setup: Setup, ops: seq<Op>)
    ensures Stamped(After(setup, ops).stream, After(setup, ops).clock)
    ensures After(setup, ops).clock == Clock.ValueAfter(Readings(setup, ops))
    decreases |ops|
  {
    if ops != [] {
      var w := After(setup, Front(ops));
      StampsOf(setup, Front(ops));
      if Enabled(w, Last(ops)) {
        StepStamps(setup, w, Last(ops));
        StepReadsClock(setup, w, Last(ops), Readings(setup, Front(ops)));
      }
      ClockOverReadings(Readings(setup, Front(ops)), []);
    }
  }

  // ---- resubmissions never interleave ----

  /** Runs of a task speak one after the other: run numbers never decrease. */
  ghost predicate RunsInOrder(ds: seq<Delivery>) {
    forall i, j :: 0 <= i < j < |ds| ==> ds[i].run <= ds[j].run
  }

  /** One task's deliveries come from numbered runs in order, and none from a
      run later than the live one. */
  ghost predicate SequentialFor(ds: seq<Delivery>, nextRun: RunId, runs: map<RunId, Run>, id: TaskId) {
    && RunsInOrder(ds)
    && (forall i :: 0 <= i < |ds| ==> ds[i].run < nextRun)
    && (forall r, i :: r in runs && runs[r].taskId == id && 0 <= i < |ds| ==> ds[i].run <= r)
  }

  ghost predicate Sequential(w: World) {
    forall id :: SequentialFor(DeliveriesFor(w.stream, id), w.nextRun, w.runs, id)
  }

  lemma AnnounceSequential(w: World, run: RunId, fact: Fact, e: Emission)
    requires Sequential(w) && run in w.runs && run < w.nextRun
    requires forall r :: r in w.runs && r != run ==> w.runs[r].taskId != w.runs[run].taskId
    ensures Sequential(Announce(w, run, w.runs[run].taskId, fact, e))
  {
    var id := w.runs[run].taskId;
    var w' := Announce(w, run, id, fact, e);
    forall other ensures SequentialFor(DeliveriesFor(w'.stream, other), w.nextRun, w.runs, other) {
      var ds := DeliveriesFor(w.stream, other);
      assert SequentialFor(ds, w.nextRun, w.runs, other);
      if e.delivered {
        DeliveriesSnoc(w.stream, Last(w'.stream), other);
        if other == id {
          SpeakerSequential(ds, Last(w'.stream), w.nextRun, w.runs, id);
        }
      }
    }
  }

  lemma SpeakerSequential(ds: seq<Delivery>, d: Delivery, nextRun: RunId, runs: map<RunId, Run>, id: TaskId)
    requires SequentialFor(ds, nextRun, runs, id)
    requires d.run in runs && d.run < nextRun && runs[d.run].taskId == id
    requires forall r :: r in runs && r != d.run ==> runs[r].taskId != id
    ensures SequentialFor(ds + [d], nextRun, runs, id)
  {
  }

  lemma FewerRunsSequential(w: World, w': World)
    requires Sequential(w) && w'.stream == w.stream && w'.nextRun >= w.nextRun
    requires forall r :: r in w'.runs ==>
               (r in w.runs && w'.runs[r].taskId == w.runs[r].taskId) || r >= w.nextRun
    ensures Sequential(w')
  {
    forall id ensures SequentialFor(DeliveriesFor(w'.stream, id), w'.nextRun, w'.runs, id) {
      assert SequentialFor(DeliveriesFor(w.stream, id), w.nextRun, w.runs, id);
    }
  }

  lemma FailSequential(w: World, run: RunId, failureClass: FailureClass, e: Emission)
    requires Wired(w) && Sequential(w) && run in w.runs
    ensures Sequential(FailRun(w, run, failureClass, e))
  {
    AnnounceSequential(w, run, Failed(failureClass), e);
    FewerRunsSequential(Announce(w, run, w.runs[run].taskId, Failed(failureClass), e), FailRun(w, run, failureClass, e));
  }

  lemma StepSequential(setup: Setup, w: World, op: Op)
    requires Wired(w) && Sequential(w) && Enabled(w, op)
    ensures Sequential(Step(setup, w, op))
  {
    match op
    case Submit(id, gated, payloadValid, accept, failureClass, fail) =>
      if Admits(w, op) {
        SubmitSequential(setup, w, op);
      }
    case Milestone(run, stage, emission) =>
      AnnounceSequential(w, run, Progress(stage), emission);
    case Finish(run, outputHash, complete, failureClass, fail) =>
      AnnounceSequential(w, run, Completed(outputHash), complete);
      var w' := Announce(w, run, w.runs[run].taskId, Completed(outputHash), complete);
      if complete.delivered {
        FewerRunsSequential(w', Settle(w', run));
      } else {
        FailSequential(w', run, failureClass, fail);
      }
    case Abandon(run, failureClass, fail) =>
      FailSequential(w, run, failureClass, fail);
    case Release(run) =>
      FewerRunsSequential(w, Leave(w, run));
    case TimerFires(run, emission) =>
      TimerSequential(setup, w, op);
    case Reconfigure(update) =>
      FewerRunsSequential(w, Step(setup, w, op));
  }

  lemma SubmitSequential(setup: Setup, w: World, op: Op)
    requires Wired(w) && Sequential(w) && op.Submit? && Admits(w, op)
    ensures Sequential(Step(setup, w, op))
  {
    var w0 := Admit(setup, w, op.taskId);
    AdmitKeepsWiring(setup, w, op.taskId);
    FewerRunsSequential(w, w0);
    AnnounceSequential(w0, w.nextRun, Accepted, op.accept);
    if !op.accept.delivered {
      FailSequential(Announce(w0, w.nextRun, op.taskId, Accepted, op.accept), w.nextRun, op.failureClass, op.fail);
    }
  }

  lemma TimerSequential(setup: Setup, w: World, op: Op)
    requires op.TimerFires? && Sequential(w) && Enabled(w, op)
    ensures Sequential(Step(setup, w, op))
  {
    var w' := Step(setup, w, op);
    if w'.stream == w.stream {
      FewerRunsSequential(w, w');
    } else {
      forall other
        ensures DeliveriesFor(w'.stream, other) == DeliveriesFor(w.stream, other)
      {
        DeliveriesSnoc(w.stream, Last(w'.stream), other);
      }
    }
  }

  lemma {:induction false} AlwaysSequential(setup: Setup, ops: seq<Op>)
    requires setup.maxConcurrency >= 1
    ensures Sequential(After(setup, ops))
    decreases |ops|
  {
    if ops != [] {
      AlwaysSequential(setup, Front(ops));
      AlwaysWired(setup, Front(ops));
      if Enabled(After(setup, Front(ops)), Last(ops)) {
        StepSequential(setup, After(setup, Front(ops)), Last(ops));
      }
    }
  }

  /** Resubmissions of a task never interleave, even when emits throw: what one
      run says about its task is a contiguous part of the task's history. */
  lemma ResubmissionsNeverInterleave(setup: Setup, ops: seq<Op>, id: TaskId, i: nat, j: nat, k: nat)
    requires setup.maxConcurrency >= 1
    requires var ds := DeliveriesFor(After(setup, ops).stream, id);
             i < j < k < |ds| && ds[i].run == ds[k].run
    ensures var ds := DeliveriesFor(After(setup, ops).stream, id);
            ds[j].run == ds[i].run
  {
    AlwaysSequential(setup, ops);
    var w := After(setup, ops);
    assert SequentialFor(DeliveriesFor(w.stream, id), w.nextRun, w.runs, id);
  }
}
