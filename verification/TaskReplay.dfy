/** Completed and resubmitted tasks: what a worker's history leaves for
    getOutputHash and for replay. */
module TaskReplay {
  import opened Prelude
  import Clock
  import opened TaskEvents
  import opened Lifecycle
  import opened TaskProtocol
  import opened TaskWiring
  import opened TaskHistory
  import opened TaskFacts
  import EventStore

  const SENT: Emission := Emission(0, true)

  /** A gated submission that completes with the given hash and is released,
      every emit getting through. */
  function CompletedRun(run: RunId, id: TaskId, hash: string): seq<Op> {
    [Submit(id, true, true, SENT, Unknown, SENT), Finish(run, hash, SENT, Unknown, SENT), Release(run)]
  }

  /** The worker can take the task now. */
  predicate CanTake(w: World, id: TaskId) {
    Accepts(w.state) && id !in w.slots && |w.slots| < w.slotLimit
  }

  /** The three steps of such a run. */
  lemma CompletedRunSteps(setup: Setup, w: World, id: TaskId, hash: string)
    requires CanTake(w, id)
    ensures var round := CompletedRun(w.nextRun, id, hash);
            && Enabled(Step(setup, w, round[0]), round[1])
            && Enabled(Step(setup, Step(setup, w, round[0]), round[1]), round[2])
            && AfterCompletedRun(w, Step(setup, Step(setup, Step(setup, w, round[0]), round[1]), round[2]), id, hash)
  {
    var round := CompletedRun(w.nextRun, id, hash);
    var w1 := Step(setup, w, round[0]);
    assert w1 == Announce(Admit(setup, w, id), w.nextRun, id, Accepted, SENT);
    var w2 := Step(setup, w1, round[1]);
    assert w2 == Settle(Announce(w1, w.nextRun, id, Completed(hash), SENT), w.nextRun);
    assert w.slots + {id} - {id} == w.slots;
  }

  /** The worker is as free as before, and the task's log has one acceptance
      and one completion more. */
  predicate AfterCompletedRun(w: World, w': World, id: TaskId, hash: string) {
    && CanTake(w', id) && w'.nextRun == w.nextRun + 1
    && w'.clock == Clock.Advance(Clock.Advance(w.clock, 0), 0)
    && EventStore.LogOf(w'.logs, id) == EventStore.LogOf(w.logs, id)
         + [TaskEvent(id, Accepted, Clock.Advance(w.clock, 0)), TaskEvent(id, Completed(hash), w'.clock)]
  }

  /** From any history after which the worker can take a task, such a run adds
      an acceptance and a completion to its log and leaves it free again. */
  lemma CompletedRunLogs(setup: Setup, ops: seq<Op>, id: TaskId, hash: string)
    requires CanTake(After(setup, ops), id)
    ensures AfterCompletedRun(After(setup, ops),
                              After(setup, ops + CompletedRun(After(setup, ops).nextRun, id, hash)), id, hash)
  {
    var w := After(setup, ops);
    var round := CompletedRun(w.nextRun, id, hash);
    CompletedRunSteps(setup, w, id, hash);
    HistorySnoc(setup, ops, round[0]);
    HistorySnoc(setup, ops + [round[0]], round[1]);
    HistorySnoc(setup, ops + [round[0]] + [round[1]], round[2]);
    assert ops + round == ops + [round[0]] + [round[1]] + [round[2]];
  }

  /** A worker given one task twice, which completes with hash `a` and then with
      `b`, reports `a` from getOutputHash and validates `b` on replay. */
  lemma ResubmissionHashes(setup: Setup, id: TaskId, a: string, b: string)
    requires setup.maxConcurrency >= 1
    ensures var log := EventStore.LogOf(After(setup, CompletedRun(0, id, a) + CompletedRun(1, id, b)).logs, id);
            && log == [TaskEvent(id, Accepted, 1), TaskEvent(id, Completed(a), 2),
                       TaskEvent(id, Accepted, 3), TaskEvent(id, Completed(b), 4)]
            && EventStore.FirstHash(log) == Some(a) && EventStore.LastHash(log) == Some(b)
  {
    var first := CompletedRun(0, id, a);
    assert [] + first == first;
    CompletedRunLogs(setup, [], id, a);
    CompletedRunLogs(setup, first, id, b);
    var log := [TaskEvent(id, Accepted, 1), TaskEvent(id, Completed(a), 2),
                TaskEvent(id, Accepted, 3), TaskEvent(id, Completed(b), 4)];
    assert EventStore.LogOf(After(setup, first + CompletedRun(1, id, b)).logs, id) == log;
    assert log[1..][0] == log[1];
  }

  // ---- which runs the hashes come from ----

  /** Over every history, the hash getOutputHash reports for a task is that of
      the first run reported completed, and the one replay validates that of the
      last. They agree exactly when those two have one hash. */
  lemma HashesAgreeIff(setup: Setup, ops: seq<Op>, id: TaskId)
    ensures var log := EventStore.LogOf(After(setup, ops).logs, id);
            var hashes := FinishedHashes(setup, ops, id);
            && EventStore.FirstHash(log) == (if hashes == [] then None else Some(hashes[0]))
            && EventStore.LastHash(log) == (if hashes == [] then None else Some(Last(hashes)))
            && (EventStore.FirstHash(log) == EventStore.LastHash(log) <==> hashes == [] || hashes[0] == Last(hashes))
  {
    HashesAreThoseFinished(setup, ops, id);
    EventStore.HashEnds(EventStore.LogOf(After(setup, ops).logs, id));
  }

  // ---- what of a run replay can re-emit ----

  /** What one run delivered, in order. */
  function DeliveredBy(stream: seq<Delivery>, run: RunId): seq<Delivery> {
    if stream == [] then []
    else DeliveredBy(Front(stream), run) + if Last(stream).run == run then [Last(stream)] else []
  }

  ghost predicate SpeaksOnlyOf(stream: seq<Delivery>, run: RunId, id: TaskId) {
    forall d :: d in stream && d.run == run ==> Concerns(d, id)
  }

  /** A run's deliveries are all among those about its task exactly if it
      delivered nothing else. */
  lemma {:induction false} DeliveriesKeptIff(stream: seq<Delivery>, run: RunId, id: TaskId)
    ensures |DeliveredBy(DeliveriesFor(stream, id), run)| <= |DeliveredBy(stream, run)|
    ensures DeliveredBy(DeliveriesFor(stream, id), run) == DeliveredBy(stream, run)
            <==> SpeaksOnlyOf(stream, run, id)
    ensures |DeliveredBy(DeliveriesFor(stream, id), run)| == |DeliveredBy(stream, run)|
            <==> SpeaksOnlyOf(stream, run, id)
    decreases |stream|
  {
    if stream != [] {
      var before, d := Front(stream), Last(stream);
      DeliveriesKeptIff(before, run, id);
      SnocShape(DeliveriesFor(before, id), d);
      assert stream == before + [d];
      assert SpeaksOnlyOf(stream, run, id) <==> SpeaksOnlyOf(before, run, id) && (d.run == run ==> Concerns(d, id));
    }
  }

  /** The task a run was accepted for. */
  function AdmittedTask(setup: Setup, ops: seq<Op>, run: RunId): Option<TaskId> {
    if ops == [] then None
    else
      var w, op := After(setup, Front(ops)), Last(ops);
      if op.Submit? && Admits(w, op) && w.nextRun == run then Some(op.taskId)
      else AdmittedTask(setup, Front(ops), run)
  }

  /** The step delivers WORKER_DRAINING on the stream of the run's task. */
  predicate AnnouncesDraining(w: World, op: Op, run: RunId) {
    op.TimerFires? && op.run == run && Enabled(w, op) && w.state != DRAINING && op.emission.delivered
  }

  lemma AnnounceSpeaks(w: World, run: RunId, id: TaskId, fact: Fact, e: Emission, r: RunId, other: TaskId)
    ensures SpeaksOnlyOf(Announce(w, run, id, fact, e).stream, r, other) <==>
            SpeaksOnlyOf(w.stream, r, other) && (e.delivered && run == r ==> id == other)
  {
    var w' := Announce(w, run, id, fact, e);
    if e.delivered {
      assert forall d :: d in w'.stream <==> d in w.stream || d == Last(w'.stream);
    }
  }

  lemma StepSpeaks(setup: Setup, w: World, op: Op, r: RunId, id: TaskId)
    requires Enabled(w, op)
    requires r in w.runs ==> w.runs[r].taskId == id
    requires op.Submit? && Admits(w, op) && w.nextRun == r ==> op.taskId == id
    ensures SpeaksOnlyOf(Step(setup, w, op).stream, r, id) <==>
            SpeaksOnlyOf(w.stream, r, id) && !AnnouncesDraining(w, op, r)
  {
    match op
    case Submit(taskId, gated, payloadValid, accept, failureClass, fail) =>
      if Admits(w, op) {
        var w0 := Admit(setup, w, taskId);
        AnnounceSpeaks(w0, w.nextRun, taskId, Accepted, accept, r, id);
        AnnounceSpeaks(Announce(w0, w.nextRun, taskId, Accepted, accept), w.nextRun, taskId, Failed(failureClass), fail, r, id);
      }
    case Milestone(run, stage, emission) =>
      AnnounceSpeaks(w, run, w.runs[run].taskId, Progress(stage), emission, r, id);
    case Finish(run, outputHash, complete, failureClass, fail) =>
      var taskId := w.runs[run].taskId;
      AnnounceSpeaks(w, run, taskId, Completed(outputHash), complete, r, id);
      AnnounceSpeaks(Announce(w, run, taskId, Completed(outputHash), complete), run, taskId, Failed(failureClass), fail, r, id);
    case Abandon(run, failureClass, fail) =>
      AnnounceSpeaks(w, run, w.runs[run].taskId, Failed(failureClass), fail, r, id);
    case Release(run) =>
    case TimerFires(run, emission) =>
      var w' := Step(setup, w, op);
      if w'.stream != w.stream {
        var d := Last(w'.stream);
        assert w'.stream == w.stream + [d] && d in w'.stream;
      }
    case Reconfigure(update) =>
  }

  /** Live runs are of the task they were accepted for, and only numbers given
      out already have one. */
  lemma {:induction false} RunsKeepTheirTask(setup: Setup, ops: seq<Op>, run: RunId)
    ensures var w := After(setup, ops);
            && (run in w.runs ==> AdmittedTask(setup, ops, run) == Some(w.runs[run].taskId))
            && (AdmittedTask(setup, ops, run).Some? <==> run < w.nextRun)
    decreases |ops|
  {
    if ops != [] {
      RunsKeepTheirTask(setup, Front(ops), run);
      if Enabled(After(setup, Front(ops)), Last(ops)) {
        StepKeepsTask(setup, After(setup, Front(ops)), Last(ops), run);
      }
    }
  }

  lemma StepKeepsTask(setup: Setup, w: World, op: Op, run: RunId)
    requires Enabled(w, op)
    ensures var w' := Step(setup, w, op);
            && (run in w'.runs ==>
                  (run in w.runs && w'.runs[run].taskId == w.runs[run].taskId)
                  || (op.Submit? && Admits(w, op) && run == w.nextRun && w'.runs[run].taskId == op.taskId))
            && w'.nextRun == (if op.Submit? && Admits(w, op) then w.nextRun + 1 else w.nextRun)
            && (op.Submit? && Admits(w, op) && run == w.nextRun && run in w'.runs ==> w'.runs[run].taskId == op.taskId)
  {
  }

  /** No step of the history so far announced draining for the run. */
  ghost predicate NeverAnnounced(setup: Setup, ops: seq<Op>, run: RunId) {
    forall k :: 0 <= k < |ops| ==> !AnnouncesDraining(After(setup, ops[..k]), ops[k], run)
  }

  lemma NeverAnnouncedSnoc(setup: Setup, ops: seq<Op>, run: RunId)
    requires ops != []
    ensures NeverAnnounced(setup, ops, run) <==>
            NeverAnnounced(setup, Front(ops), run) && !AnnouncesDraining(After(setup, Front(ops)), Last(ops), run)
  {
    var before := Front(ops);
    assert ops[..|before|] == before;
    if NeverAnnounced(setup, ops, run) {
      assert !AnnouncesDraining(After(setup, ops[..|before|]), ops[|before|], run);
      forall k | 0 <= k < |before| ensures !AnnouncesDraining(After(setup, before[..k]), before[k], run) {
        assert before[..k] == ops[..k] && !AnnouncesDraining(After(setup, ops[..k]), ops[k], run);
      }
    }
    if NeverAnnounced(setup, before, run) && !AnnouncesDraining(After(setup, before), Last(ops), run) {
      forall k | 0 <= k < |ops| ensures !AnnouncesDraining(After(setup, ops[..k]), ops[k], run) {
        if k < |before| {
          assert before[..k] == ops[..k] && !AnnouncesDraining(After(setup, before[..k]), before[k], run);
        }
      }
    }
  }

  lemma {:induction false} SpeaksOnlyOfIff(setup: Setup, ops: seq<Op>, run: RunId, id: TaskId)
    requires AdmittedTask(setup, ops, run).Some? ==> AdmittedTask(setup, ops, run) == Some(id)
    ensures SpeaksOnlyOf(After(setup, ops).stream, run, id) <==> NeverAnnounced(setup, ops, run)
    decreases |ops|
  {
    if ops != [] {
      var w, op := After(setup, Front(ops)), Last(ops);
      RunsKeepTheirTask(setup, Front(ops), run);
      SpeaksOnlyOfIff(setup, Front(ops), run, id);
      NeverAnnouncedSnoc(setup, ops, run);
      if Enabled(w, op) {
        StepSpeaks(setup, w, op, run, id);
      }
    }
  }

  /** A replay of a task re-emits of each run of it exactly what that run
      delivered, if and only if no drain timer of the run announced
      WORKER_DRAINING: that is delivered, but not recorded. */
  lemma ReplayIsCompleteIff(setup: Setup, ops: seq<Op>, run: RunId, id: TaskId)
    requires AdmittedTask(setup, ops, run) == Some(id)
    ensures var stream := After(setup, ops).stream;
            && EventStore.LogOf(After(setup, ops).logs, id) == EventsOf(DeliveriesFor(stream, id))
            && (DeliveredBy(DeliveriesFor(stream, id), run) == DeliveredBy(stream, run)
                <==> NeverAnnounced(setup, ops, run))
  {
    var w := After(setup, ops);
    RecordedEqualsDelivered(setup, ops);
    assert Records(w.logs, w.stream);
    DeliveriesKeptIff(w.stream, run, id);
    SpeaksOnlyOfIff(setup, ops, run, id);
  }

  /** The condition is needed: with a drain timer armed, its announcement is on
      the stream of a running task but not in the log that replay re-emits. */
  lemma DrainingIsNotReplayed(setup: Setup)
    requires setup.maxConcurrency >= 1 && ArmsDrainTimer(setup)
    ensures var w := After(setup, [Submit("t", true, true, SENT, Unknown, SENT), TimerFires(0, SENT)]);
            && DeliveredBy(w.stream, 0) == [Delivery(0, TaskEvent("t", Accepted, 1)), Delivery(0, WorkerDraining(2))]
            && EventStore.LogOf(w.logs, "t") == [TaskEvent("t", Accepted, 1)]
  {
    var submit, fires := Submit("t", true, true, SENT, Unknown, SENT), TimerFires(0, SENT);
    var accepted, draining := Delivery(0, TaskEvent("t", Accepted, 1)), Delivery(0, WorkerDraining(2));
    AcceptedThenDraining(setup, Initial(setup), submit, fires);
    HistorySnoc(setup, [], submit);
    HistorySnoc(setup, [submit], fires);
    assert [] + [submit] == [submit] && [submit] + [fires] == [submit, fires];
    TwoDeliveredBy(accepted, draining);
  }

  lemma AcceptedThenDraining(setup: Setup, w: World, submit: Op, fires: Op)
    requires setup.maxConcurrency >= 1 && ArmsDrainTimer(setup) && w == Initial(setup)
    requires submit == Submit("t", true, true, SENT, Unknown, SENT) && fires == TimerFires(0, SENT)
    ensures Enabled(Step(setup, w, submit), fires)
    ensures var w' := Step(setup, Step(setup, w, submit), fires);
            && w'.stream == [Delivery(0, TaskEvent("t", Accepted, 1)), Delivery(0, WorkerDraining(2))]
            && EventStore.LogOf(w'.logs, "t") == [TaskEvent("t", Accepted, 1)]
  {
    assert Admits(w, submit);
    assert Step(setup, w, submit) == Announce(Admit(setup, w, "t"), 0, "t", Accepted, SENT);
  }

  lemma TwoDeliveredBy(d: Delivery, e: Delivery)
    requires d.run == e.run
    ensures DeliveredBy([d, e], d.run) == [d, e]
  {
    assert Front([d, e]) == [d] && Front([d]) == [] && DeliveredBy([], d.run) == [];
  }
}
