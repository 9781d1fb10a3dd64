/** The worker itself: `VercelWorker` of src/worker-instance.ts over its own
    slot table, lifecycle machine, configuration, clock and event store. Each
    method is one uninterrupted stretch of the source's async code, proved
    against the step of the task protocol it performs. */
module VercelWorker {
  import opened Prelude
  import opened TaskEvents
  import opened Lifecycle
  import opened TaskProtocol
  import opened TaskWiring
  import opened TaskHistory
  import EventStore
  import Clock

  datatype Submission =
    | NotAccepting
    | NoSlotsEarly
    | InvalidPayload
    | DuplicateTask
    | NoSlotsAvailable
    | Started(run: RunId)

  class VercelWorker {
    const setup: Setup
    const machine: WorkerStateMachine
    const configManager: ConfigManager
    const slots: SlotManager
    const clock: Clock.MonotonicClock
    const eventStore: EventStore.MemoryEventStore
    const replayer: EventStore.Replayer
    /** The suspended invocations of executeTaskWithEvents. */
    var runs: map<RunId, Run>
    var nextRun: RunId
    ghost var stream: seq<Delivery>
    ghost var ops: seq<Op>

    ghost function Snapshot(): World
      reads this, machine, configManager, slots, clock, eventStore
    {
      World(machine.state, configManager.runtime.maxConcurrency, slots.maxConcurrency, slots.slots.Keys,
            clock.lastTimestamp, eventStore.events, runs, nextRun, stream)
    }

    /** How the parts are connected; holds within methods, too. */
    ghost predicate Assembled()
      reads this, configManager, eventStore
    {
      && setup.maxConcurrency >= 1 && configManager.runtime.maxConcurrency >= 1
      && configManager.listeners == [slots]
      && eventStore.Valid() && eventStore.maxTasks == 0
      && replayer.eventStore == eventStore
    }

    ghost predicate Valid()
      reads this, machine, configManager, slots, clock, eventStore
    {
      Assembled() && Snapshot() == After(setup, ops)
    }

    /** What every valid worker's state therefore satisfies. */
    lemma Guarantees()
      requires Valid()
      ensures Wired(Snapshot())
      ensures RecordsDeliveries(Snapshot())
      ensures Stamped(stream, clock.lastTimestamp)
      ensures Sequential(Snapshot())
      ensures DrainedOnce(stream, machine.state)
      ensures AbortedWhenDraining(Snapshot())
    {
      AlwaysWired(setup, ops);
      RecordedEqualsDelivered(setup, ops);
      TimestampsStrictlyIncrease(setup, ops);
      AlwaysSequential(setup, ops);
      DrainingIsAnnouncedOnce(setup, ops);
      AbortsOnlyWhenDraining(setup, ops);
    }

    constructor (setup: Setup)
      requires setup.maxConcurrency >= 1
      ensures Valid() && this.setup == setup && ops == []
      ensures slots.maxConcurrency == configManager.runtime.maxConcurrency == setup.maxConcurrency
      ensures machine.state == READY && slots.slots == map[] && runs == map[] && stream == []
      ensures fresh(machine) && fresh(configManager) && fresh(slots) && fresh(clock) && fresh(eventStore)
    {
      this.setup := setup;
      machine := new WorkerStateMachine();
      configManager := new ConfigManager(setup.maxConcurrency);
      slots := new SlotManager(setup.maxConcurrency);
      clock := new Clock.MonotonicClock();
      var store := new EventStore.MemoryEventStore(0);
      eventStore := store;
      replayer := new EventStore.Replayer(store);
      runs, nextRun, stream, ops := map[], 0, [], [];
      new;
      var ready := machine.Transition(READY);
      configManager.OnUpdate(slots);
    }

    /** Stamps an event, emits it and, unless the emit throws, records it. */
    method EmitAndRecord(run: RunId, id: TaskId, fact: Fact, e: Emission) returns (ok: bool)
      requires Assembled()
      modifies this`stream, clock, eventStore
      ensures Assembled() && ok == e.delivered
      ensures Snapshot() == Announce(old(Snapshot()), run, id, fact, e)
    {
      var ts := clock.Now(e.reading);
      var event := TaskEvent(id, fact, ts);
      if !e.delivered {
        return false;
      }
      stream := stream + [Delivery(run, event)];
      eventStore.Record(id, event);
      return true;
    }

    /** The `finally` block. */
    method Finally(run: RunId)
      requires run in runs
      modifies this`runs, slots`slots
      ensures Snapshot() == Leave(old(Snapshot()), run)
    {
      var id := runs[run].taskId;
      runs := runs - {run};
      var held := slots.Release(id);
      assert slots.slots.Keys == old(slots.slots.Keys) - {id};
    }

    /** The `catch` block: after it the run awaits, or is over if emit throws. */
    method Catch(run: RunId, failureClass: FailureClass, e: Emission)
      requires Assembled() && run in runs
      modifies this`stream, this`runs, slots`slots, clock, eventStore
      ensures Assembled() && Snapshot() == FailRun(old(Snapshot()), run, failureClass, e)
    {
      var ok := EmitAndRecord(run, runs[run].taskId, Failed(failureClass), e);
      if ok {
        runs := runs[run := runs[run].(phase := Settling)];
      } else {
        Finally(run);
      }
    }

    /** A timer is armed if a timeout is configured and exceeds the buffer. */
    method ConfigureDrainTimer() returns (armed: bool)
      ensures armed <==> ArmsDrainTimer(setup)
    {
      armed := false;
      if setup.functionTimeoutMs > 0 {
        var drainTimeoutMs := setup.functionTimeoutMs - setup.drainBufferMs;
        if drainTimeoutMs > 0 {
          armed := true;
        }
      }
    }

    /** Takes a slot, leaves READY if need be, and arms the drain timer. */
    method Begin(id: TaskId, startedAt: int) returns (r: Acquisition)
      modifies this`runs, this`nextRun, machine, slots`slots
      ensures r == Acquired <==> id !in old(Snapshot()).slots && |old(Snapshot()).slots| < slots.maxConcurrency
      ensures r == Duplicate <==> id in old(Snapshot()).slots
      ensures Snapshot() == if r == Acquired then Admit(setup, old(Snapshot()), id) else old(Snapshot())
    {
      r := slots.Acquire(id, startedAt);
      assert |old(slots.slots)| == |old(slots.slots.Keys)|;
      if r == Acquired {
        assert slots.slots.Keys == old(slots.slots.Keys) + {id};
        OpenRun(id);
      }
    }

    /** The start of the try block, up to the acceptance. */
    method OpenRun(id: TaskId)
      modifies this`runs, this`nextRun, machine
      ensures machine.state == if old(machine.state) == READY then ACCEPTING else old(machine.state)
      ensures runs == old(runs)[old(nextRun) := Run(id, Executing, ArmsDrainTimer(setup), false)]
      ensures nextRun == old(nextRun) + 1
    {
      if machine.state == READY {
        var moved := machine.Transition(ACCEPTING);
      }
      var drainTimer := ConfigureDrainTimer();
      runs := runs[nextRun := Run(id, Executing, drainTimer, false)];
      nextRun := nextRun + 1;
    }

    /** A submission, with the handler's early checks if `gated`, up to the
        first await of executeTaskWithEvents. */
    method SubmitTask(id: TaskId, gated: bool, payloadValid: bool, startedAt: int,
                      accept: Emission, failureClass: FailureClass, fail: Emission)
      returns (r: Submission)
      requires Valid()
      modifies this`runs, this`nextRun, this`stream, this`ops, machine, slots`slots, clock, eventStore
      ensures Valid() && ops == old(ops) + [Submit(id, gated, payloadValid, accept, failureClass, fail)]
      ensures Snapshot() == Step(setup, old(Snapshot()), Submit(id, gated, payloadValid, accept, failureClass, fail))
      ensures r.Started? <==> Admits(old(Snapshot()), Submit(id, gated, payloadValid, accept, failureClass, fail))
      ensures !r.Started? ==> Snapshot() == old(Snapshot())
      ensures r == NotAccepting <==> gated && !Accepts(old(machine.state))
      ensures r == NoSlotsEarly <==> gated && Accepts(old(machine.state)) && !old(slots.HasAvailableSlot())
      ensures r == InvalidPayload <==> PassesGate(old(Snapshot()), gated) && !payloadValid
      ensures r == DuplicateTask <==> PassesGate(old(Snapshot()), gated) && payloadValid && id in old(slots.slots)
    {
      ghost var op := Submit(id, gated, payloadValid, accept, failureClass, fail);
      HistorySnoc(setup, ops, op);
      ops := ops + [op];
      if gated && !Accepts(machine.state) {
        return NotAccepting;
      }
      if gated && !slots.HasAvailableSlot() {
        return NoSlotsEarly;
      }
      if !payloadValid {
        return InvalidPayload;
      }
      var run := nextRun;
      var slotResult := Begin(id, startedAt);
      if slotResult == Duplicate {
        return DuplicateTask;
      }
      if slotResult == NoSlots {
        return NoSlotsAvailable;
      }
      var ok := EmitAndRecord(run, id, Accepted, accept);
      if !ok {
        Catch(run, failureClass, fail);
      }
      return Started(run);
    }

    /** A first-token or tool-call callback during execution. */
    method OnMilestone(run: RunId, stage: Stage, emission: Emission)
      requires Valid() && Enabled(Snapshot(), Milestone(run, stage, emission))
      modifies this`stream, this`ops, clock, eventStore
      ensures Valid() && ops == old(ops) + [Milestone(run, stage, emission)]
      ensures var said := if emission.delivered
                          then [TaskEvent(runs[run].taskId, Progress(stage), clock.lastTimestamp)] else [];
              && EventStore.LogOf(eventStore.events, runs[run].taskId)
                 == EventStore.LogOf(old(eventStore.events), runs[run].taskId) + said
              && stream == old(stream) + if emission.delivered then [Delivery(run, said[0])] else []
    {
      HistorySnoc(setup, ops, Milestone(run, stage, emission));
      ops := ops + [Milestone(run, stage, emission)];
      var ok := EmitAndRecord(run, runs[run].taskId, Progress(stage), emission);
    }

    /** executeOrder returned: from there to the next await. */
    method OnResult(run: RunId, outputHash: string, complete: Emission, failureClass: FailureClass, fail: Emission)
      requires Valid() && Enabled(Snapshot(), Finish(run, outputHash, complete, failureClass, fail))
      modifies this`runs, this`stream, this`ops, slots`slots, clock, eventStore
      ensures Valid() && ops == old(ops) + [Finish(run, outputHash, complete, failureClass, fail)]
      ensures var fact := if complete.delivered then Completed(outputHash) else Failed(failureClass);
              stream == old(stream)
                + if complete.delivered || fail.delivered
                  then [Delivery(run, TaskEvent(old(runs[run].taskId), fact, clock.lastTimestamp))] else []
    {
      ghost var op := Finish(run, outputHash, complete, failureClass, fail);
      HistorySnoc(setup, ops, op);
      ops := ops + [op];
      var ok := EmitAndRecord(run, runs[run].taskId, Completed(outputHash), complete);
      if ok {
        runs := runs[run := runs[run].(phase := Settling)];
      } else {
        Catch(run, failureClass, fail);
      }
    }

    /** executeOrder threw: from there to the next await. */
    method OnError(run: RunId, failureClass: FailureClass, fail: Emission)
      requires Valid() && Enabled(Snapshot(), Abandon(run, failureClass, fail))
      modifies this`runs, this`stream, this`ops, slots`slots, clock, eventStore
      ensures Valid() && ops == old(ops) + [Abandon(run, failureClass, fail)]
      ensures stream == old(stream)
                + if fail.delivered
                  then [Delivery(run, TaskEvent(old(runs[run].taskId), Failed(failureClass), clock.lastTimestamp))] else []
    {
      HistorySnoc(setup, ops, Abandon(run, failureClass, fail));
      ops := ops + [Abandon(run, failureClass, fail)];
      Catch(run, failureClass, fail);
    }

    /** The await after the terminal record resumed: the run is over. */
    method OnSettled(run: RunId)
      requires Valid() && Enabled(Snapshot(), Release(run))
      modifies this`runs, this`ops, slots`slots
      ensures Valid() && ops == old(ops) + [Release(run)]
      ensures run !in runs && old(runs[run].taskId) !in slots.slots
    {
      HistorySnoc(setup, ops, Release(run));
      ops := ops + [Release(run)];
      Finally(run);
    }

    /** The timer callback. False where the announcement throws out of it. */
    method FireDrainTimer(run: RunId, emission: Emission) returns (ok: bool)
      requires run in runs && DRAINING in Transitions(machine.state) + {machine.state}
      modifies this`runs, this`stream, machine, clock
      ensures ok <==> old(machine.state) == DRAINING || emission.delivered
      ensures Snapshot() == FireTimer(old(Snapshot()), run, emission)
    {
      runs := runs[run := runs[run].(timerArmed := false)];
      if machine.state != DRAINING {
        var moved := machine.Transition(DRAINING);
        var ts := clock.Now(emission.reading);
        if !emission.delivered {
          return false;
        }
        stream := stream + [Delivery(run, WorkerDraining(ts))];
      }
      runs := runs[run := runs[run].(aborted := true)];
      return true;
    }

    /** The drain timer of a run fired: the worker is DRAINING, and the run is
        aborted unless the announcement threw. */
    method OnDrainTimer(run: RunId, emission: Emission) returns (ok: bool)
      requires Valid() && Enabled(Snapshot(), TimerFires(run, emission))
      modifies this`runs, this`stream, this`ops, machine, clock
      ensures Valid() && ops == old(ops) + [TimerFires(run, emission)]
      ensures machine.state == DRAINING && run in runs && (runs[run].aborted <==> ok)
      ensures ok <==> old(machine.state) == DRAINING || emission.delivered
    {
      HistorySnoc(setup, ops, TimerFires(run, emission));
      AlwaysWired(setup, ops);
      AbortsOnlyWhenDraining(setup, ops);
      ok := FireDrainTimer(run, emission);
      ops := ops + [TimerFires(run, emission)];
    }

    /** False where the source throws; nothing changes then. */
    method UpdateConfig(update: ConfigUpdate) returns (ok: bool)
      requires Valid()
      modifies this`ops, configManager`runtime, slots`maxConcurrency
      ensures Valid() && ops == old(ops) + [Reconfigure(update)]
      ensures ok <==> update.maxConcurrency == None || update.maxConcurrency.value >= 1
      ensures !ok ==> Snapshot() == old(Snapshot()) && configManager.runtime == old(configManager.runtime)
      ensures slots.maxConcurrency == configManager.runtime.maxConcurrency
    {
      HistorySnoc(setup, ops, Reconfigure(update));
      AlwaysWired(setup, ops);
      ops := ops + [Reconfigure(update)];
      assert slots in configManager.listeners;
      ok := configManager.Update(update);
    }

    /** Replay re-emits exactly the delivered history of a task, reports its
        length, and checks the hash of its last completion. */
    method Replay(id: TaskId, expectedOutputHash: Option<string>, emitThrowsAt: Option<nat>)
      returns (result: EventStore.ReplayResult, emitted: seq<OutboundEvent>)
      requires Valid()
      ensures var history := EventsOf(DeliveriesFor(stream, id));
              && (result == EventStore.NoRecord <==> history == [])
              && emitted <= history
              && (result.Replayed? ==>
                    && emitted == history && result.eventsReplayed == |history|
                    && result.outputHashMatch ==
                         (if expectedOutputHash.None? || EventStore.LastHash(history).None? then None
                          else Some(EventStore.LastHash(history) == expectedOutputHash)))
      ensures emitThrowsAt.None? ==> result != EventStore.EmitThrew
    {
      RecordedEqualsDelivered(setup, ops);
      result, emitted := replayer.ReplayWithValidation(id, expectedOutputHash, emitThrowsAt);
    }
  }
}
