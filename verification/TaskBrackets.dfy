/** The shape of a task's history: accepted, progress, one terminal event. */
module TaskBrackets {
  import opened Prelude
  import opened TaskEvents
  import opened Lifecycle
  import opened TaskProtocol
  import opened TaskWiring
  import opened TaskHistory

  /** Where a task's deliveries stand in (ACCEPTED PROGRESS* (COMPLETED|FAILED))*,
      every bracket filled by a single run. */
  datatype Bracket = Closed | Open(run: RunId) | Broken

  function Next(b: Bracket, d: Delivery): Bracket {
    if !d.event.TaskEvent? then Broken
    else
      match d.event.fact
      case Accepted => if b == Closed then Open(d.run) else Broken
      case Progress(_) => if b == Open(d.run) then b else Broken
      case _ => if b == Open(d.run) then Closed else Broken
  }

  function BracketOf(ds: seq<Delivery>): Bracket {
    if ds == [] then Closed else Next(BracketOf(Front(ds)), Last(ds))
  }

  /** Closed up to `k`, then one ACCEPTED and only progress, all of one run. */
  ghost predicate OpensAt(ds: seq<Delivery>, k: int, run: RunId) {
    && 0 <= k < |ds| && BracketOf(ds[..k]) == Closed && IsAcceptance(ds[k]) && ds[k].run == run
    && forall i :: k < i < |ds| ==> ds[i].run == run && ds[i].event.TaskEvent? && ds[i].event.fact.Progress?
  }

  /** An open history ends in one ACCEPTED of its run, after a closed part,
      followed only by progress of that run. */
  lemma {:induction false} OpenShape(ds: seq<Delivery>)
    requires BracketOf(ds).Open?
    ensures exists k :: OpensAt(ds, k, BracketOf(ds).run)
    decreases |ds|
  {
    var before := Front(ds);
    if BracketOf(before).Open? {
      OpenShape(before);
      var k :| OpensAt(before, k, BracketOf(before).run);
      assert before[..k] == ds[..k];
      assert OpensAt(ds, k, BracketOf(ds).run);
    } else {
      assert ds[..|ds| - 1] == before;
      assert OpensAt(ds, |ds| - 1, BracketOf(ds).run);
    }
  }

  /** A closed history is empty or ends with the terminal event of an open one. */
  lemma ClosedShape(ds: seq<Delivery>)
    requires BracketOf(ds) == Closed && ds != []
    ensures BracketOf(Front(ds)) == Open(Last(ds).run)
    ensures Last(ds).event.TaskEvent? && (Last(ds).event.fact.Completed? || Last(ds).event.fact.Failed?)
  {
  }

  // ---- the histories of a worker ----

  predicate Executes(runs: map<RunId, Run>, r: RunId, id: TaskId) {
    r in runs && runs[r].taskId == id && runs[r].phase == Executing
  }

  /** Not broken, and open exactly for the run executing the task. */
  ghost predicate Fits(b: Bracket, runs: map<RunId, Run>, id: TaskId) {
    && b != Broken
    && (forall r :: Executes(runs, r, id) ==> b == Open(r))
    && (b.Open? ==> Executes(runs, b.run, id))
  }

  /** The task's history is bracketed, and open exactly for its executing run. */
  ghost predicate Matches(w: World, id: TaskId) {
    Fits(BracketOf(DeliveriesFor(w.stream, id)), w.runs, id)
  }

  /** The events that must get through: the acceptance, unless its failure
      report is lost with it, and a terminal event. Progress may be lost. */
  predicate KeepsFrame(op: Op) {
    match op
    case Submit(_, _, _, accept, _, fail) => accept.delivered || !fail.delivered
    case Finish(_, _, complete, _, fail) => complete.delivered || fail.delivered
    case Abandon(_, _, fail) => fail.delivered
    case _ => true
  }

  /** The task a step speaks about. */
  predicate About(w: World, op: Op, id: TaskId)
    requires Enabled(w, op)
  {
    match op
    case Submit(taskId, _, _, _, _, _) => Admits(w, op) && taskId == id
    case Reconfigure(_) => false
    case _ => w.runs[op.run].taskId == id
  }

  lemma AnnounceExtends(w: World, run: RunId, id: TaskId, fact: Fact, e: Emission, other: TaskId)
    ensures var ts := Announce(w, run, id, fact, e).clock;
            DeliveriesFor(Announce(w, run, id, fact, e).stream, other)
            == if e.delivered && id == other then DeliveriesFor(w.stream, other) + [Delivery(run, TaskEvent(id, fact, ts))]
               else DeliveriesFor(w.stream, other)
  {
    DeliveriesSnoc(w.stream, Delivery(run, TaskEvent(id, fact, Announce(w, run, id, fact, e).clock)), other);
  }

  lemma BracketSnoc(ds: seq<Delivery>, d: Delivery)
    ensures BracketOf(ds + [d]) == Next(BracketOf(ds), d)
  {
    SnocShape(ds, d);
  }

  /** The bracket of a task after its run announced something. */
  lemma AnnounceBracket(w: World, run: RunId, id: TaskId, fact: Fact, e: Emission)
    ensures var w' := Announce(w, run, id, fact, e);
            BracketOf(DeliveriesFor(w'.stream, id)) ==
            if e.delivered then Next(BracketOf(DeliveriesFor(w.stream, id)), Delivery(run, TaskEvent(id, fact, w'.clock)))
            else BracketOf(DeliveriesFor(w.stream, id))
  {
    AnnounceExtends(w, run, id, fact, e, id);
    BracketSnoc(DeliveriesFor(w.stream, id), Delivery(run, TaskEvent(id, fact, Announce(w, run, id, fact, e).clock)));
  }

  lemma OtherStepsKeepDeliveries(setup: Setup, w: World, op: Op, id: TaskId)
    requires Enabled(w, op) && (About(w, op, id) ==> op.TimerFires? || op.Release?)
    ensures DeliveriesFor(Step(setup, w, op).stream, id) == DeliveriesFor(w.stream, id)
  {
    match op
    case Submit(taskId, gated, payloadValid, accept, failureClass, fail) =>
      if Admits(w, op) {
        var w0 := Admit(setup, w, taskId);
        AnnounceExtends(w0, w.nextRun, taskId, Accepted, accept, id);
        AnnounceExtends(Announce(w0, w.nextRun, taskId, Accepted, accept), w.nextRun, taskId, Failed(failureClass), fail, id);
      }
    case Milestone(run, stage, emission) =>
      AnnounceExtends(w, run, w.runs[run].taskId, Progress(stage), emission, id);
    case Finish(run, outputHash, complete, failureClass, fail) =>
      var taskId := w.runs[run].taskId;
      AnnounceExtends(w, run, taskId, Completed(outputHash), complete, id);
      AnnounceExtends(Announce(w, run, taskId, Completed(outputHash), complete), run, taskId, Failed(failureClass), fail, id);
    case Abandon(run, failureClass, fail) =>
      AnnounceExtends(w, run, w.runs[run].taskId, Failed(failureClass), fail, id);
    case Release(run) =>
    case TimerFires(run, emission) =>
      var w' := Step(setup, w, op);
      if w'.stream != w.stream {
        DeliveriesSnoc(w.stream, Last(w'.stream), id);
      }
    case Reconfigure(update) =>
  }

  lemma OtherStepsKeepRun(setup: Setup, w: World, op: Op, id: TaskId, r: RunId)
    requires w.nextRun !in w.runs
    requires Enabled(w, op) && (About(w, op, id) ==> op.TimerFires? || op.Release?)
    ensures Executes(Step(setup, w, op).runs, r, id) <==> Executes(w.runs, r, id)
  {
  }

  /** Steps about other tasks leave a task's match alone. */
  lemma OtherStepsKeepMatch(setup: Setup, w: World, op: Op, id: TaskId)
    requires Wired(w) && Matches(w, id) && Enabled(w, op) && (About(w, op, id) ==> op.TimerFires? || op.Release?)
    ensures Matches(Step(setup, w, op), id)
  {
    OtherStepsKeepDeliveries(setup, w, op, id);
    forall r ensures Executes(Step(setup, w, op).runs, r, id) <==> Executes(w.runs, r, id) {
      OtherStepsKeepRun(setup, w, op, id, r);
    }
    SameFit(BracketOf(DeliveriesFor(w.stream, id)), w.runs, Step(setup, w, op).runs, id);
  }

  lemma SameFit(b: Bracket, runs: map<RunId, Run>, runs': map<RunId, Run>, id: TaskId)
    requires forall r :: Executes(runs', r, id) <==> Executes(runs, r, id)
    ensures Fits(b, runs', id) <==> Fits(b, runs, id)
  {
  }

  /** A step about a task keeps its history bracketed exactly when the events
      that frame it get through. */
  lemma StepKeepsMatchIff(setup: Setup, w: World, op: Op, id: TaskId)
    requires Wired(w) && Matches(w, id) && Enabled(w, op) && About(w, op, id)
    ensures Matches(Step(setup, w, op), id) <==> KeepsFrame(op)
  {
    match op
    case Submit(_, _, _, _, _, _) =>
      SubmitKeepsMatchIff(setup, w, op);
    case Milestone(run, stage, emission) =>
      AnnounceBracket(w, run, id, Progress(stage), emission);
      assert Executes(w.runs, run, id);
    case Finish(run, outputHash, complete, failureClass, fail) =>
      FinishKeepsMatchIff(setup, w, op, id);
    case Abandon(run, failureClass, fail) =>
      assert Executes(w.runs, run, id);
      FailMatchIff(w, run, id, failureClass, fail);
    case Release(run) =>
      OtherStepsKeepMatch(setup, w, op, id);
    case TimerFires(run, emission) =>
      OtherStepsKeepMatch(setup, w, op, id);
  }

  lemma SubmitKeepsMatchIff(setup: Setup, w: World, op: Op)
    requires op.Submit? && Wired(w) && Matches(w, op.taskId) && Admits(w, op)
    ensures Matches(Step(setup, w, op), op.taskId) <==> KeepsFrame(op)
  {
    NoRunWithoutSlot(w, op.taskId);
    FirstEvents(setup, w, op);
  }

  lemma FirstEvents(setup: Setup, w: World, op: Op)
    requires op.Submit? && Admits(w, op) && w.nextRun !in w.runs
    requires BracketOf(DeliveriesFor(w.stream, op.taskId)) == Closed
    requires forall r :: r in w.runs ==> w.runs[r].taskId != op.taskId
    ensures Matches(Step(setup, w, op), op.taskId) <==> KeepsFrame(op)
  {
    var id, run := op.taskId, w.nextRun;
    var w0 := Admit(setup, w, id);
    AdmittedAlone(setup, w, id);
    if op.accept.delivered {
      AcceptedFits(w0, run, id, op.accept);
      assert Step(setup, w, op) == Announce(w0, run, id, Accepted, op.accept);
    } else {
      var w1 := Announce(w0, run, id, Accepted, op.accept);
      assert Step(setup, w, op) == FailRun(w1, run, op.failureClass, op.fail);
      assert w1.stream == w.stream && w1.runs == w0.runs;
      UnacceptedFailure(w1, run, id, op.failureClass, op.fail);
    }
  }

  ghost predicate Alone(runs: map<RunId, Run>, run: RunId, id: TaskId) {
    Executes(runs, run, id) && forall r :: r in runs && r != run ==> runs[r].taskId != id
  }

  lemma AdmittedAlone(setup: Setup, w: World, id: TaskId)
    requires forall r :: r in w.runs ==> w.runs[r].taskId != id
    ensures Alone(Admit(setup, w, id).runs, w.nextRun, id)
  {
  }

  lemma AcceptedFits(w: World, run: RunId, id: TaskId, e: Emission)
    requires e.delivered && Alone(w.runs, run, id)
    requires BracketOf(DeliveriesFor(w.stream, id)) == Closed
    ensures Matches(Announce(w, run, id, Accepted, e), id)
  {
    AnnounceBracket(w, run, id, Accepted, e);
    assert forall r :: Executes(w.runs, r, id) <==> r == run;
  }

  /** A failure reported for a task that was never accepted breaks its history;
      a failure that got lost too leaves no trace. */
  lemma UnacceptedFailure(w: World, run: RunId, id: TaskId, failureClass: FailureClass, e: Emission)
    requires BracketOf(DeliveriesFor(w.stream, id)) == Closed
    requires Alone(w.runs, run, id)
    ensures Matches(FailRun(w, run, failureClass, e), id) <==> !e.delivered
  {
    AnnounceBracket(w, run, id, Failed(failureClass), e);
    LastRunLeft(w, run, id, failureClass, e);
  }

  lemma NoRunWithoutSlot(w: World, id: TaskId)
    requires Wired(w) && Matches(w, id) && id !in w.slots
    ensures BracketOf(DeliveriesFor(w.stream, id)) == Closed
    ensures forall r :: r in w.runs ==> w.runs[r].taskId != id
  {
  }

  /** After a failed run's `catch`, nothing executes its task. */
  lemma LastRunLeft(w: World, run: RunId, id: TaskId, failureClass: FailureClass, e: Emission)
    requires Executes(w.runs, run, id)
    requires forall r :: r in w.runs && r != run ==> w.runs[r].taskId != id
    ensures forall r :: !Executes(FailRun(w, run, failureClass, e).runs, r, id)
    ensures FailRun(w, run, failureClass, e).stream == Announce(w, run, id, Failed(failureClass), e).stream
  {
  }

  lemma FinishKeepsMatchIff(setup: Setup, w: World, op: Op, id: TaskId)
    requires op.Finish? && Wired(w) && Matches(w, id) && Enabled(w, op) && w.runs[op.run].taskId == id
    ensures Matches(Step(setup, w, op), id) <==> KeepsFrame(op)
  {
    assert Executes(w.runs, op.run, id);
    AnnounceBracket(w, op.run, id, Completed(op.outputHash), op.complete);
    var w' := Announce(w, op.run, id, Completed(op.outputHash), op.complete);
    if op.complete.delivered {
      assert forall r :: !Executes(Settle(w', op.run).runs, r, id);
    } else {
      FailMatchIff(w', op.run, id, op.failureClass, op.fail);
    }
  }

  lemma FailMatchIff(w: World, run: RunId, id: TaskId, failureClass: FailureClass, e: Emission)
    requires Executes(w.runs, run, id) && BracketOf(DeliveriesFor(w.stream, id)) == Open(run)
    requires forall r :: r in w.runs && r != run ==> w.runs[r].taskId != id
    ensures Matches(FailRun(w, run, failureClass, e), id) <==> e.delivered
  {
    AnnounceBracket(w, run, id, Failed(failureClass), e);
    LastRunLeft(w, run, id, failureClass, e);
  }

  // ---- a history once broken stays broken ----

  /** No run can bring the task's history back in step: it is broken, or open
      for a run that has gone. */
  predicate Lost(b: Bracket, runs: map<RunId, Run>, nextRun: RunId, id: TaskId) {
    b == Broken || (b.Open? && b.run < nextRun && !Executes(runs, b.run, id))
  }

  ghost predicate LostFor(w: World, id: TaskId) {
    Lost(BracketOf(DeliveriesFor(w.stream, id)), w.runs, w.nextRun, id)
  }

  lemma LostDoesNotMatch(w: World, id: TaskId)
    requires LostFor(w, id)
    ensures !Matches(w, id)
  {
  }

  /** Whatever another run says about a task whose history is lost breaks it. */
  lemma LostAnnounce(w: World, run: RunId, id: TaskId, fact: Fact, e: Emission)
    requires var b := BracketOf(DeliveriesFor(w.stream, id));
             b == Broken || (b.Open? && b.run != run)
    ensures BracketOf(DeliveriesFor(Announce(w, run, id, fact, e).stream, id))
            == if e.delivered then Broken else BracketOf(DeliveriesFor(w.stream, id))
  {
    AnnounceBracket(w, run, id, fact, e);
  }

  lemma LostFail(w: World, run: RunId, id: TaskId, failureClass: FailureClass, e: Emission)
    requires run in w.runs && w.runs[run].taskId == id
    requires var b := BracketOf(DeliveriesFor(w.stream, id));
             b == Broken || (b.Open? && b.run != run && b.run < w.nextRun && !Executes(w.runs, b.run, id))
    ensures LostFor(FailRun(w, run, failureClass, e), id)
  {
    LostAnnounce(w, run, id, Failed(failureClass), e);
  }

  lemma SubmitKeepsLost(setup: Setup, w: World, op: Op)
    requires op.Submit? && Admits(w, op) && LostFor(w, op.taskId)
    ensures LostFor(Step(setup, w, op), op.taskId)
  {
    var id, run := op.taskId, w.nextRun;
    var w0 := Admit(setup, w, id);
    LostAnnounce(w0, run, id, Accepted, op.accept);
    if !op.accept.delivered {
      LostFail(Announce(w0, run, id, Accepted, op.accept), run, id, op.failureClass, op.fail);
    }
  }

  lemma StepKeepsLost(setup: Setup, w: World, op: Op, id: TaskId)
    requires w.nextRun !in w.runs && Enabled(w, op) && LostFor(w, id)
    ensures LostFor(Step(setup, w, op), id)
  {
    if About(w, op, id) && !op.TimerFires? && !op.Release? {
      match op
      case Submit(_, _, _, _, _, _) =>
        SubmitKeepsLost(setup, w, op);
      case Milestone(run, stage, emission) =>
        LostAnnounce(w, run, id, Progress(stage), emission);
      case Finish(run, outputHash, complete, failureClass, fail) =>
        LostAnnounce(w, run, id, Completed(outputHash), complete);
        if !complete.delivered {
          LostFail(Announce(w, run, id, Completed(outputHash), complete), run, id, failureClass, fail);
        }
      case Abandon(run, failureClass, fail) =>
        LostFail(w, run, id, failureClass, fail);
    } else {
      OtherStepsKeepDeliveries(setup, w, op, id);
      var b := BracketOf(DeliveriesFor(w.stream, id));
      if b.Open? {
        OtherStepsKeepRun(setup, w, op, id, b.run);
      }
    }
  }

  lemma SilentEndIsLost(w: World, run: RunId, id: TaskId, failureClass: FailureClass, e: Emission)
    requires run in w.runs && w.runs[run].taskId == id && run < w.nextRun && !e.delivered
    requires BracketOf(DeliveriesFor(w.stream, id)) == Open(run)
    ensures LostFor(FailRun(w, run, failureClass, e), id)
  {
    AnnounceBracket(w, run, id, Failed(failureClass), e);
  }

  lemma UnacceptedFailureIsLost(setup: Setup, w: World, op: Op)
    requires op.Submit? && Admits(w, op) && !KeepsFrame(op)
    requires BracketOf(DeliveriesFor(w.stream, op.taskId)) == Closed
    ensures LostFor(Step(setup, w, op), op.taskId)
  {
    var id, run := op.taskId, w.nextRun;
    var w1 := Announce(Admit(setup, w, id), run, id, Accepted, op.accept);
    assert w1.stream == w.stream && w1.runs[run].taskId == id;
    assert Step(setup, w, op) == FailRun(w1, run, op.failureClass, op.fail);
    AnnounceBracket(w1, run, id, Failed(op.failureClass), op.fail);
  }

  /** A framing event that does not get through loses the history. */
  lemma UnframedIsLost(setup: Setup, w: World, op: Op, id: TaskId)
    requires Wired(w) && Matches(w, id) && Enabled(w, op) && About(w, op, id) && !KeepsFrame(op)
    ensures LostFor(Step(setup, w, op), id)
  {
    match op
    case Submit(_, _, _, _, _, _) =>
      NoRunWithoutSlot(w, id);
      UnacceptedFailureIsLost(setup, w, op);
    case Finish(run, outputHash, complete, failureClass, fail) =>
      assert Executes(w.runs, run, id);
      var w1 := Announce(w, run, id, Completed(outputHash), complete);
      assert w1.stream == w.stream;
      SilentEndIsLost(w1, run, id, failureClass, fail);
    case Abandon(run, failureClass, fail) =>
      assert Executes(w.runs, run, id);
      SilentEndIsLost(w, run, id, failureClass, fail);
  }

  // ---- whole histories ----

  /** If the step is one about the task, its framing events get through. */
  predicate StepFramed(w: World, op: Op, id: TaskId) {
    Enabled(w, op) && About(w, op, id) ==> KeepsFrame(op)
  }

  ghost predicate Framed(setup: Setup, ops: seq<Op>, id: TaskId) {
    forall k :: 0 <= k < |ops| ==> StepFramed(After(setup, ops[..k]), ops[k], id)
  }

  lemma FramedSnoc(setup: Setup, ops: seq<Op>, id: TaskId)
    requires ops != []
    ensures Framed(setup, ops, id) <==>
            Framed(setup, Front(ops), id) && StepFramed(After(setup, Front(ops)), Last(ops), id)
  {
    var before := Front(ops);
    assert ops[..|before|] == before;
    if Framed(setup, ops, id) {
      forall k | 0 <= k < |before| ensures StepFramed(After(setup, before[..k]), before[k], id) {
        assert before[..k] == ops[..k];
        assert StepFramed(After(setup, ops[..k]), ops[k], id);
      }
      assert StepFramed(After(setup, ops[..|before|]), ops[|before|], id);
    }
    if Framed(setup, before, id) && StepFramed(After(setup, before), Last(ops), id) {
      forall k | 0 <= k < |ops| ensures StepFramed(After(setup, ops[..k]), ops[k], id) {
        if k < |before| {
          assert before[..k] == ops[..k];
          assert StepFramed(After(setup, before[..k]), before[k], id);
        }
      }
    }
  }

  lemma StepMatchesOrLost(setup: Setup, w: World, op: Op, id: TaskId)
    requires Wired(w) && Enabled(w, op)
    requires Matches(w, id) || LostFor(w, id)
    ensures Matches(Step(setup, w, op), id) <==> Matches(w, id) && StepFramed(w, op, id)
    ensures Matches(Step(setup, w, op), id) || LostFor(Step(setup, w, op), id)
  {
    if LostFor(w, id) {
      LostDoesNotMatch(w, id);
      StepKeepsLost(setup, w, op, id);
      LostDoesNotMatch(Step(setup, w, op), id);
    } else if !About(w, op, id) {
      OtherStepsKeepMatch(setup, w, op, id);
    } else {
      StepKeepsMatchIff(setup, w, op, id);
      if !KeepsFrame(op) {
        UnframedIsLost(setup, w, op, id);
      }
    }
  }

  /** Under any interleaving, a task's stored history is
      (ACCEPTED PROGRESS* (COMPLETED|FAILED))* plus at most one unfinished run,
      open exactly for the run executing the task, if and only if every step
      about that task got its framing events through. */
  lemma {:induction false} HistoriesAreBracketedIff(setup: Setup, ops: seq<Op>, id: TaskId)
    requires setup.maxConcurrency >= 1
    ensures Matches(After(setup, ops), id) <==> Framed(setup, ops, id)
    ensures Matches(After(setup, ops), id) || LostFor(After(setup, ops), id)
    decreases |ops|
  {
    if ops != [] {
      var w, op := After(setup, Front(ops)), Last(ops);
      HistoriesAreBracketedIff(setup, Front(ops), id);
      AlwaysWired(setup, Front(ops));
      FramedSnoc(setup, ops, id);
      if Enabled(w, op) {
        StepMatchesOrLost(setup, w, op, id);
      }
    }
  }

  /** The condition is needed: losing only the acceptance leaves a failure of a
      task that was never accepted, as the whole recorded history of it. */
  lemma LostAcceptanceBreaksBracket(setup: Setup)
    requires setup.maxConcurrency >= 1
    ensures var ops := [Submit("t", true, true, Emission(1, false), Unknown, Emission(1, true))];
            var w := After(setup, ops);
            && EventStore.LogOf(w.logs, "t") == [TaskEvent("t", Failed(Unknown), 2)]
            && BracketOf(DeliveriesFor(w.stream, "t")) == Broken
  {
    var op := Submit("t", true, true, Emission(1, false), Unknown, Emission(1, true));
    var d := Delivery(0, TaskEvent("t", Failed(Unknown), 2));
    assert Front([op]) == [] && Last([op]) == op;
    assert Admits(Initial(setup), op);
    var w1 := Announce(Admit(setup, Initial(setup), "t"), 0, "t", Accepted, op.accept);
    assert w1.clock == 1 && w1.stream == [] && w1.runs[0].taskId == "t";
    assert After(setup, [op]) == FailRun(w1, 0, Unknown, op.fail);
    assert After(setup, [op]).stream == [] + [d];
    DeliveriesSnoc([], d, "t");
    BracketSnoc([], d);
    assert BracketOf([]) == Closed;
  }
}
