/** Slots, runs, lifecycle and limits, over every history of a worker. */
module TaskWiring {
  import opened Prelude
  import opened TaskEvents
  import opened Lifecycle
  import opened TaskProtocol

  /** Slots and live runs match one to one, the slot limit follows the
      configuration, and READY means nothing was ever accepted. */
  ghost predicate Wired(w: World) {
    && (forall r :: r in w.runs ==> r < w.nextRun && w.runs[r].taskId in w.slots)
    && (forall id :: id in w.slots ==> exists r :: r in w.runs && w.runs[r].taskId == id)
    && (forall r, q :: r in w.runs && q in w.runs && r != q ==> w.runs[r].taskId != w.runs[q].taskId)
    && w.slotLimit == w.configLimit >= 1
    && (w.state == READY || w.state == ACCEPTING || w.state == DRAINING)
    && (w.state == READY <==> w.nextRun == 0)
  }

  lemma AdmitKeepsWiring(setup: Setup, w: World, id: TaskId)
    requires Wired(w) && id !in w.slots
    ensures Wired(Admit(setup, w, id))
  {
    var w' := Admit(setup, w, id);
    assert w'.runs[w.nextRun].taskId == id;
    forall other | other in w'.slots
      ensures exists r :: r in w'.runs && w'.runs[r].taskId == other
    {
      if other != id {
        var r :| r in w.runs && w.runs[r].taskId == other;
        assert r in w'.runs && w'.runs[r].taskId == other;
      }
    }
  }

  lemma LeaveKeepsWiring(w: World, run: RunId)
    requires Wired(w) && run in w.runs
    ensures Wired(Leave(w, run))
  {
    var w' := Leave(w, run);
    forall id | id in w'.slots
      ensures exists r :: r in w'.runs && w'.runs[r].taskId == id
    {
      var r :| r in w.runs && w.runs[r].taskId == id;
      assert r in w'.runs && w'.runs[r].taskId == id;
    }
  }

  lemma TouchKeepsWiring(w: World, run: RunId, r': Run)
    requires Wired(w) && run in w.runs && r'.taskId == w.runs[run].taskId
    ensures Wired(w.(runs := w.runs[run := r']))
  {
    var w' := w.(runs := w.runs[run := r']);
    forall id | id in w'.slots
      ensures exists r :: r in w'.runs && w'.runs[r].taskId == id
    {
      var r :| r in w.runs && w.runs[r].taskId == id;
      assert r in w'.runs && w'.runs[r].taskId == id;
    }
  }

  lemma FailKeepsWiring(w: World, run: RunId, failureClass: FailureClass, e: Emission)
    requires Wired(w) && run in w.runs
    ensures Wired(FailRun(w, run, failureClass, e))
  {
    var w' := Announce(w, run, w.runs[run].taskId, Failed(failureClass), e);
    if e.delivered {
      TouchKeepsWiring(w', run, w'.runs[run].(phase := Settling));
    } else {
      LeaveKeepsWiring(w', run);
    }
  }

  lemma SubmitKeepsWiring(setup: Setup, w: World, op: Op)
    requires op.Submit? && Wired(w) && Admits(w, op)
    ensures Wired(Step(setup, w, op))
  {
    AdmitKeepsWiring(setup, w, op.taskId);
    var w' := Announce(Admit(setup, w, op.taskId), w.nextRun, op.taskId, Accepted, op.accept);
    if !op.accept.delivered {
      FailKeepsWiring(w', w.nextRun, op.failureClass, op.fail);
    }
  }

  lemma StepKeepsWiring(setup: Setup, w: World, op: Op)
    requires Wired(w) && Enabled(w, op)
    ensures Wired(Step(setup, w, op))
  {
    match op
    case Submit(id, gated, payloadValid, accept, failureClass, fail) =>
      if Admits(w, op) {
        SubmitKeepsWiring(setup, w, op);
      }
    case Milestone(run, stage, emission) =>
    case Finish(run, outputHash, complete, failureClass, fail) =>
      var w' := Announce(w, run, w.runs[run].taskId, Completed(outputHash), complete);
      if complete.delivered {
        TouchKeepsWiring(w', run, w'.runs[run].(phase := Settling));
      } else {
        FailKeepsWiring(w', run, failureClass, fail);
      }
    case Abandon(run, failureClass, fail) =>
      FailKeepsWiring(w, run, failureClass, fail);
    case Release(run) =>
      LeaveKeepsWiring(w, run);
    case TimerFires(run, emission) =>
      TouchKeepsWiring(w, run, Step(setup, w, op).runs[run]);
    case Reconfigure(update) =>
  }

  /** In every reachable world an id holds a slot exactly while one run of it is
      unfinished or unreleased, and only one run is. */
  lemma {:induction false} AlwaysWired(setup: Setup, ops: seq<Op>)
    requires setup.maxConcurrency >= 1
    ensures Wired(After(setup, ops))
    decreases |ops|
  {
    if ops != [] {
      AlwaysWired(setup, Front(ops));
      if Enabled(After(setup, Front(ops)), Last(ops)) {
        StepKeepsWiring(setup, After(setup, Front(ops)), Last(ops));
      }
    }
  }

  /** No lifecycle transition the worker asks for is ever rejected. */
  lemma TransitionsAreNeverRejected(setup: Setup, ops: seq<Op>, op: Op)
    requires setup.maxConcurrency >= 1
    requires Enabled(After(setup, ops), op)
    requires Requested(After(setup, ops), op).Some?
    ensures Requested(After(setup, ops), op).value in Transitions(After(setup, ops).state)
    ensures Step(setup, After(setup, ops), op).state == Requested(After(setup, ops), op).value
  {
    AlwaysWired(setup, ops);
  }

  // ---- inflight accounting ----

  function AdmittedCount(setup: Setup, ops: seq<Op>): nat {
    if ops == [] then 0
    else AdmittedCount(setup, Front(ops))
         + if Last(ops).Submit? && Admits(After(setup, Front(ops)), Last(ops)) then 1 else 0
  }

  /** The step ends in the `finally` block. */
  predicate Leaves(w: World, op: Op) {
    && Enabled(w, op)
    && match op
       case Submit(_, _, _, accept, _, fail) => Admits(w, op) && !accept.delivered && !fail.delivered
       case Finish(_, _, complete, _, fail) => !complete.delivered && !fail.delivered
       case Abandon(_, _, fail) => !fail.delivered
       case Release(_) => true
       case _ => false
  }

  function LeftCount(setup: Setup, ops: seq<Op>): nat {
    if ops == [] then 0
    else LeftCount(setup, Front(ops)) + if Leaves(After(setup, Front(ops)), Last(ops)) then 1 else 0
  }

  /** The slots after a step: one joins at an acceptance, one goes with `finally`. */
  lemma SlotsAfterStep(setup: Setup, w: World, op: Op)
    requires Enabled(w, op)
    ensures Step(setup, w, op).slots ==
            if op.Submit? then
              (if Admits(w, op) && !Leaves(w, op) then w.slots + {op.taskId} else w.slots)
            else if Leaves(w, op) then w.slots - {w.runs[op.run].taskId}
            else w.slots
  {
    if op.Submit? {
      if Admits(w, op) {
        assert w.slots + {op.taskId} - {op.taskId} == w.slots;
      }
    }
  }

  lemma StepMovesSlots(setup: Setup, w: World, op: Op)
    requires Wired(w) && Enabled(w, op)
    ensures |Step(setup, w, op).slots| + (if Leaves(w, op) then 1 else 0)
            == |w.slots| + (if op.Submit? && Admits(w, op) then 1 else 0)
    ensures |Step(setup, w, op).slots| > |w.slots| ==> |Step(setup, w, op).slots| <= w.slotLimit
  {
    SlotsAfterStep(setup, w, op);
    if op.Submit? {
      SizePlus(w.slots, op.taskId);
    } else if Leaves(w, op) {
      SizeMinus(w.slots, w.runs[op.run].taskId);
    }
  }

  lemma SizePlus(s: set<TaskId>, id: TaskId)
    ensures id !in s ==> |s + {id}| == |s| + 1
  {
  }

  lemma SizeMinus(s: set<TaskId>, id: TaskId)
    ensures id in s ==> |s - {id}| == |s| - 1
  {
  }

  /** Inflight equals acceptances minus releases. */
  lemma {:induction false} InflightIsConserved(setup: Setup, ops: seq<Op>)
    requires setup.maxConcurrency >= 1
    ensures |After(setup, ops).slots| + LeftCount(setup, ops) == AdmittedCount(setup, ops)
    decreases |ops|
  {
    if ops != [] {
      var w := After(setup, Front(ops));
      InflightIsConserved(setup, Front(ops));
      AlwaysWired(setup, Front(ops));
      if Enabled(w, Last(ops)) {
        StepMovesSlots(setup, w, Last(ops));
      }
    }
  }

  /** READY means exactly that no task was ever accepted. */
  lemma ReadyIffNothingAdmitted(setup: Setup, ops: seq<Op>)
    requires setup.maxConcurrency >= 1
    ensures After(setup, ops).state == READY <==> AdmittedCount(setup, ops) == 0
  {
    NextRunCountsAdmissions(setup, ops);
    AlwaysWired(setup, ops);
  }

  lemma {:induction false} NextRunCountsAdmissions(setup: Setup, ops: seq<Op>)
    ensures After(setup, ops).nextRun == AdmittedCount(setup, ops)
    decreases |ops|
  {
    if ops != [] {
      NextRunCountsAdmissions(setup, Front(ops));
      if Enabled(After(setup, Front(ops)), Last(ops)) {
        StepCountsAdmission(setup, After(setup, Front(ops)), Last(ops));
      }
    }
  }

  lemma StepCountsAdmission(setup: Setup, w: World, op: Op)
    requires Enabled(w, op)
    ensures Step(setup, w, op).nextRun == w.nextRun + if op.Submit? && Admits(w, op) then 1 else 0
  {
  }

  /** Under hot reconfiguration: the two limits agree, inflight only ever grows
      up to the limit of the moment, and so never grows while it is above. */
  lemma InflightGrowsWithinLimit(setup: Setup, ops: seq<Op>, op: Op)
    requires setup.maxConcurrency >= 1
    ensures var w, w' := After(setup, ops), After(setup, ops + [op]);
            && w'.slotLimit == w'.configLimit >= 1
            && |w'.slots| <= Max(|w.slots|, w.slotLimit)
            && (|w.slots| >= w.slotLimit ==> |w'.slots| <= |w.slots|)
  {
    SnocShape(ops, op);
    AlwaysWired(setup, ops);
    AlwaysWired(setup, ops + [op]);
    if Enabled(After(setup, ops), op) {
      StepMovesSlots(setup, After(setup, ops), op);
      OnlyReconfigureMovesLimit(setup, After(setup, ops), op);
    }
  }

  lemma OnlyReconfigureMovesLimit(setup: Setup, w: World, op: Op)
    requires Enabled(w, op)
    ensures !op.Reconfigure? ==> Step(setup, w, op).slotLimit == w.slotLimit
    ensures op.Reconfigure? ==> Step(setup, w, op).slots == w.slots
    ensures op.Reconfigure? && Rejected(op.update) ==> Step(setup, w, op) == w
  {
  }

  // ---- draining ----

  ghost predicate Draining(stream: seq<Delivery>) {
    exists i :: 0 <= i < |stream| && stream[i].event.WorkerDraining?
  }

  /** The stream has at most one WorkerDraining, and the state is then DRAINING. */
  ghost predicate DrainedOnce(stream: seq<Delivery>, state: WorkerState) {
    && (Draining(stream) ==> state == DRAINING)
    && (forall i, j :: 0 <= i < j < |stream| ==> !(stream[i].event.WorkerDraining? && stream[j].event.WorkerDraining?))
  }

  predicate IsAcceptance(d: Delivery) {
    d.event.TaskEvent? && d.event.fact.Accepted?
  }

  ghost predicate NoneAcceptedAfterDraining(stream: seq<Delivery>) {
    forall i, j :: 0 <= i < j < |stream| ==> !(stream[i].event.WorkerDraining? && IsAcceptance(stream[j]))
  }

  lemma AnnounceKeepsDrained(w: World, run: RunId, id: TaskId, fact: Fact, e: Emission)
    requires DrainedOnce(w.stream, w.state)
    ensures DrainedOnce(Announce(w, run, id, fact, e).stream, w.state)
    ensures NoneAcceptedAfterDraining(w.stream) && (fact.Accepted? ==> w.state != DRAINING)
            ==> NoneAcceptedAfterDraining(Announce(w, run, id, fact, e).stream)
  {
    var w' := Announce(w, run, id, fact, e);
    if i :| 0 <= i < |w'.stream| && w'.stream[i].event.WorkerDraining? {
      assert w.stream[i].event.WorkerDraining?;
    }
  }

  lemma StepKeepsDrained(setup: Setup, w: World, op: Op)
    requires DrainedOnce(w.stream, w.state) && Enabled(w, op)
    ensures DrainedOnce(Step(setup, w, op).stream, Step(setup, w, op).state)
    ensures NoneAcceptedAfterDraining(w.stream) && (op.Submit? ==> op.gated)
            ==> NoneAcceptedAfterDraining(Step(setup, w, op).stream)
  {
    match op
    case Submit(_, _, _, _, _, _) =>
      if Admits(w, op) {
        SubmitKeepsDrained(setup, w, op);
      }
    case Milestone(run, stage, emission) =>
      AnnounceKeepsDrained(w, run, w.runs[run].taskId, Progress(stage), emission);
    case Finish(run, outputHash, complete, failureClass, fail) =>
      var id := w.runs[run].taskId;
      AnnounceKeepsDrained(w, run, id, Completed(outputHash), complete);
      AnnounceKeepsDrained(Announce(w, run, id, Completed(outputHash), complete), run, id, Failed(failureClass), fail);
    case Abandon(run, failureClass, fail) =>
      AnnounceKeepsDrained(w, run, w.runs[run].taskId, Failed(failureClass), fail);
    case Release(run) =>
    case TimerFires(run, emission) =>
      TimerKeepsDrained(setup, w, op);
    case Reconfigure(update) =>
  }

  lemma SubmitKeepsDrained(setup: Setup, w: World, op: Op)
    requires op.Submit? && DrainedOnce(w.stream, w.state) && Admits(w, op)
    ensures DrainedOnce(Step(setup, w, op).stream, Step(setup, w, op).state)
    ensures NoneAcceptedAfterDraining(w.stream) && op.gated ==> NoneAcceptedAfterDraining(Step(setup, w, op).stream)
  {
    var w0 := Admit(setup, w, op.taskId);
    AnnounceKeepsDrained(w0, w.nextRun, op.taskId, Accepted, op.accept);
    var w1 := Announce(w0, w.nextRun, op.taskId, Accepted, op.accept);
    AnnounceKeepsDrained(w1, w.nextRun, op.taskId, Failed(op.failureClass), op.fail);
  }

  lemma TimerKeepsDrained(setup: Setup, w: World, op: Op)
    requires op.TimerFires? && DrainedOnce(w.stream, w.state) && Enabled(w, op)
    ensures DrainedOnce(Step(setup, w, op).stream, Step(setup, w, op).state)
    ensures NoneAcceptedAfterDraining(w.stream) ==> NoneAcceptedAfterDraining(Step(setup, w, op).stream)
  {
    if w.state != DRAINING {
      assert !Draining(w.stream);
      assert forall i :: 0 <= i < |w.stream| ==> !w.stream[i].event.WorkerDraining?;
    }
  }

  /** WORKER_DRAINING goes out at most once, over all runs and timers. */
  lemma {:induction false} DrainingIsAnnouncedOnce(setup: Setup, ops: seq<Op>)
    ensures DrainedOnce(After(setup, ops).stream, After(setup, ops).state)
    decreases |ops|
  {
    if ops != [] {
      DrainingIsAnnouncedOnce(setup, Front(ops));
      if Enabled(After(setup, Front(ops)), Last(ops)) {
        StepKeepsDrained(setup, After(setup, Front(ops)), Last(ops));
      }
    }
  }

  /** When every submission comes through the accepting gate, no TASK_ACCEPTED
      appears on any stream after WORKER_DRAINING. */
  lemma {:induction false} NothingAcceptedOnceDraining(setup: Setup, ops: seq<Op>)
    requires forall op :: op in ops && op.Submit? ==> op.gated
    ensures NoneAcceptedAfterDraining(After(setup, ops).stream)
    decreases |ops|
  {
    if ops != [] {
      assert Last(ops) in ops && forall op :: op in Front(ops) ==> op in ops;
      NothingAcceptedOnceDraining(setup, Front(ops));
      DrainingIsAnnouncedOnce(setup, Front(ops));
      if Enabled(After(setup, Front(ops)), Last(ops)) {
        StepKeepsDrained(setup, After(setup, Front(ops)), Last(ops));
      }
    }
  }

  /** Only a fired timer aborts an execution, and the worker is then DRAINING. */
  ghost predicate AbortedWhenDraining(w: World) {
    forall r :: r in w.runs && w.runs[r].aborted ==> w.state == DRAINING && !w.runs[r].timerArmed
  }

  lemma {:induction false} AbortsOnlyWhenDraining(setup: Setup, ops: seq<Op>)
    ensures AbortedWhenDraining(After(setup, ops))
    decreases |ops|
  {
    if ops != [] {
      AbortsOnlyWhenDraining(setup, Front(ops));
      if Enabled(After(setup, Front(ops)), Last(ops)) {
        StepKeepsAborts(setup, After(setup, Front(ops)), Last(ops));
      }
    }
  }

  lemma StepKeepsAborts(setup: Setup, w: World, op: Op)
    requires AbortedWhenDraining(w) && Enabled(w, op)
    ensures AbortedWhenDraining(Step(setup, w, op))
  {
  }

  // ---- the drain timer ----

  predicate Fires(w: World, op: Op, run: RunId) {
    op.TimerFires? && op.run == run && Enabled(w, op)
  }

  /** No step of the history was the run's timer. */
  ghost predicate NeverFired(setup: Setup, ops: seq<Op>, run: RunId) {
    forall k :: 0 <= k < |ops| ==> !Fires(After(setup, ops[..k]), ops[k], run)
  }

  lemma NeverFiredSnoc(setup: Setup, ops: seq<Op>, run: RunId)
    requires ops != []
    ensures NeverFired(setup, ops, run) <==>
            NeverFired(setup, Front(ops), run) && !Fires(After(setup, Front(ops)), Last(ops), run)
  {
    var before := Front(ops);
    assert ops[..|before|] == before;
    if NeverFired(setup, ops, run) {
      assert !Fires(After(setup, ops[..|before|]), ops[|before|], run);
      forall k | 0 <= k < |before| ensures !Fires(After(setup, before[..k]), before[k], run) {
        assert before[..k] == ops[..k] && !Fires(After(setup, ops[..k]), ops[k], run);
      }
    }
    if NeverFired(setup, before, run) && !Fires(After(setup, before), Last(ops), run) {
      forall k | 0 <= k < |ops| ensures !Fires(After(setup, ops[..k]), ops[k], run) {
        if k < |before| {
          assert before[..k] == ops[..k] && !Fires(After(setup, before[..k]), before[k], run);
        }
      }
    }
  }

  lemma StepArms(setup: Setup, w: World, op: Op, run: RunId)
    requires Enabled(w, op) && (run in w.runs ==> run < w.nextRun)
    ensures var w' := Step(setup, w, op);
            && w.nextRun <= w'.nextRun
            && (run in w'.runs && run in w.runs ==>
                  (w'.runs[run].timerArmed <==> w.runs[run].timerArmed && !Fires(w, op, run)))
            && (run in w'.runs && run !in w.runs ==>
                  run == w.nextRun && !Fires(w, op, run)
                  && (w'.runs[run].timerArmed <==>
                        0 < setup.functionTimeoutMs && setup.drainBufferMs < setup.functionTimeoutMs))
  {
  }

  /** Over every history, the drain timer of a live run is armed exactly if a
      timeout is configured, leaves room for the buffer, and the timer has not
      fired yet. */
  lemma {:induction false} ArmedUntilFired(setup: Setup, ops: seq<Op>, run: RunId)
    requires setup.maxConcurrency >= 1
    ensures var w := After(setup, ops);
            && (run in w.runs ==>
                  (w.runs[run].timerArmed <==>
                     && 0 < setup.functionTimeoutMs && setup.drainBufferMs < setup.functionTimeoutMs
                     && NeverFired(setup, ops, run)))
            && (run >= w.nextRun ==> NeverFired(setup, ops, run))
    decreases |ops|
  {
    if ops != [] {
      ArmedUntilFired(setup, Front(ops), run);
      AlwaysWired(setup, Front(ops));
      NeverFiredSnoc(setup, ops, run);
      if Enabled(After(setup, Front(ops)), Last(ops)) {
        StepArms(setup, After(setup, Front(ops)), Last(ops), run);
      }
    }
  }

  // ---- the limit ----

  /** The limit of the last update that named one of at least 1, or the one the
      worker was created with. */
  function LatestLimit(setup: Setup, ops: seq<Op>): int {
    if ops == [] then setup.maxConcurrency
    else
      match Last(ops)
      case Reconfigure(ConfigUpdate(Some(limit), _, _)) =>
        if limit >= 1 then limit else LatestLimit(setup, Front(ops))
      case _ => LatestLimit(setup, Front(ops))
  }

  lemma {:induction false} LimitIsLatest(setup: Setup, ops: seq<Op>)
    ensures After(setup, ops).slotLimit == After(setup, ops).configLimit == LatestLimit(setup, ops)
    decreases |ops|
  {
    if ops != [] {
      LimitIsLatest(setup, Front(ops));
      if Enabled(After(setup, Front(ops)), Last(ops)) {
        StepSetsLimit(setup, After(setup, Front(ops)), Last(ops));
      }
    }
  }

  lemma StepSetsLimit(setup: Setup, w: World, op: Op)
    requires Enabled(w, op)
    ensures var w' := Step(setup, w, op);
            if op.Reconfigure? && op.update.maxConcurrency.Some? && op.update.maxConcurrency.value >= 1
            then w'.slotLimit == w'.configLimit == op.update.maxConcurrency.value
            else w'.slotLimit == w.slotLimit && w'.configLimit == w.configLimit
  {
  }
}
