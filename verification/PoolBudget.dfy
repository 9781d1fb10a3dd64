/** Counting over all legal histories of the pool: failures charged, automatic
    restarts spent, and table entries. */
module PoolBudget {
  import opened Prelude
  import opened PoolProtocol

  predicate IsReady(op: Op, id: WorkerId) {
    op.Child? && op.event.Ready? && op.event.id == id
  }

  /** Table entries carry generated identifiers only. */
  lemma {:induction false} EntriesWereGenerated(cfg: PoolConfig, ops: seq<Op>)
    requires Legal(cfg, ops)
    ensures After(cfg, ops).Keys <= GeneratedIds(ops)
    decreases |ops|
  {
    if ops != [] {
      EntriesWereGenerated(cfg, Front(ops));
    }
  }

  // ---- the failure counter ----

  predicate ApiRestartFails(op: Op, id: WorkerId) {
    op.ApiRestart? && op.id == id && !op.spawned
  }

  /** The step charges worker `id`: it reports it unhealthy, or an API restart
      of it could not spawn the replacement. */
  predicate Charges(cfg: PoolConfig, t: Table, op: Op, id: WorkerId) {
    id in t && (WorkerUnhealthy(id) in Step(cfg, t, op).events || ApiRestartFails(op, id))
  }

  /** Charges against `id` since its last Ready. */
  function ChargeCount(cfg: PoolConfig, ops: seq<Op>, id: WorkerId): nat {
    if ops == [] || IsReady(Last(ops), id) then 0
    else ChargeCount(cfg, Front(ops), id)
         + if Charges(cfg, After(cfg, Front(ops)), Last(ops), id) then 1 else 0
  }

  lemma {:induction false} UnknownIdsAreUncharged(cfg: PoolConfig, ops: seq<Op>, id: WorkerId)
    requires Legal(cfg, ops) && id !in GeneratedIds(ops)
    ensures ChargeCount(cfg, ops, id) == 0 && RestartCount(ops, id) == 0
    decreases |ops|
  {
    if ops != [] {
      UnknownIdsAreUncharged(cfg, Front(ops), id);
      EntriesWereGenerated(cfg, Front(ops));
    }
  }

  lemma StepCounts(cfg: PoolConfig, used: set<WorkerId>, t: Table, op: Op, id: WorkerId, count: nat)
    requires Allowed(cfg, used, t, op) && t.Keys <= used
    requires id in t ==> t[id].failures == count
    requires id !in used ==> count == 0
    ensures var t' := Step(cfg, t, op).table;
            id in t' ==> t'[id].failures == if IsReady(op, id) then 0
                                            else count + if Charges(cfg, t, op, id) then 1 else 0
  {
  }

  /** The three charging paths, the API restart and every respawn keep one
      account: the stored counter is the number of charges since the last
      Ready, whatever health checks succeeded in between. */
  lemma {:induction false} FailureCounterIsExact(cfg: PoolConfig, ops: seq<Op>, id: WorkerId)
    requires Legal(cfg, ops) && id in After(cfg, ops)
    ensures After(cfg, ops)[id].failures == ChargeCount(cfg, ops, id)
    decreases |ops|
  {
    var before := Front(ops);
    EntriesWereGenerated(cfg, before);
    if id in After(cfg, before) {
      FailureCounterIsExact(cfg, before, id);
    }
    if id !in GeneratedIds(before) {
      UnknownIdsAreUncharged(cfg, before, id);
    }
    StepCounts(cfg, GeneratedIds(before), After(cfg, before), Last(ops), id, ChargeCount(cfg, before, id));
  }

  /** Whichever path charges a worker, the verdict it publishes is the same
      function of the account: a restart, numbered by the account, while it is
      within the budget, else giving up. */
  lemma ChargeVerdict(cfg: PoolConfig, ops: seq<Op>, k: nat, id: WorkerId)
    requires Legal(cfg, ops) && k < |ops|
    requires WorkerUnhealthy(id) in EventsAt(cfg, ops, k)
    ensures var count := ChargeCount(cfg, ops[..k + 1], id);
            && count >= 1
            && EventsAt(cfg, ops, k) ==
                 [WorkerUnhealthy(id), if count <= cfg.maxFailures then WorkerRestarting(id, count) else WorkerFailed(id)]
  {
    LegalPrefix(cfg, ops, k);
    ChargeStep(cfg, After(cfg, ops[..k]), ops[k], id);
    FailureCounterIsExact(cfg, ops[..k], id);
    assert Front(ops[..k + 1]) == ops[..k] && Last(ops[..k + 1]) == ops[k];
  }

  lemma ChargeStep(cfg: PoolConfig, t: Table, op: Op, id: WorkerId)
    requires WorkerUnhealthy(id) in Step(cfg, t, op).events
    ensures id in t && !IsReady(op, id) && Charges(cfg, t, op, id)
    ensures Step(cfg, t, op).events == ChargeEvents(cfg, id, t[id].failures + 1)
  {
  }

  // ---- the restart budget ----

  /** Automatic restarts of `id`, successful or not, since its last Ready. */
  function RestartCount(ops: seq<Op>, id: WorkerId): nat {
    if ops == [] || IsReady(Last(ops), id) then 0
    else RestartCount(Front(ops), id)
         + if Last(ops).AutoRestart? && Last(ops).id == id then 1 else 0
  }

  ghost predicate WithinBudget(cfg: PoolConfig, t: Table, id: WorkerId, spent: nat) {
    && spent <= cfg.maxFailures
    && (id in t ==>
      && spent <= t[id].failures
      && (t[id].state.Failed? ==> spent < t[id].failures)
      && (IsActive(t[id]) ==> t[id].failures <= cfg.maxFailures))
  }

  lemma StepKeepsBudget(cfg: PoolConfig, used: set<WorkerId>, t: Table, op: Op, id: WorkerId, spent: nat)
    requires Allowed(cfg, used, t, op) && t.Keys <= used
    requires WithinBudget(cfg, t, id, spent)
    requires id !in used ==> spent == 0
    ensures WithinBudget(cfg, Step(cfg, t, op).table, id,
                         if IsReady(op, id) then 0
                         else spent + if op.AutoRestart? && op.id == id then 1 else 0)
  {
  }

  /** Restarts spent never exceed the charges on the account, are strictly
      fewer while a restart is pending, and a worker in service is solvent. */
  lemma {:induction false} BudgetInvariant(cfg: PoolConfig, ops: seq<Op>, id: WorkerId)
    requires Legal(cfg, ops)
    ensures WithinBudget(cfg, After(cfg, ops), id, RestartCount(ops, id))
    decreases |ops|
  {
    if ops != [] {
      var before := Front(ops);
      BudgetInvariant(cfg, before, id);
      EntriesWereGenerated(cfg, before);
      if id !in GeneratedIds(before) {
        UnknownIdsAreUncharged(cfg, before, id);
      }
      StepKeepsBudget(cfg, GeneratedIds(before), After(cfg, before), Last(ops), id, RestartCount(before, id));
    }
  }

  /** Automatic restarts of `id` among the steps from `i` up to `j`. */
  function RestartsBetween(ops: seq<Op>, i: nat, j: nat, id: WorkerId): nat
    requires i <= j <= |ops|
    decreases j
  {
    if i == j then 0
    else RestartsBetween(ops, i, j - 1, id)
         + if ops[j - 1].AutoRestart? && ops[j - 1].id == id then 1 else 0
  }

  lemma {:induction false} StretchWithinAccount(ops: seq<Op>, i: nat, j: nat, id: WorkerId)
    requires i <= j <= |ops|
    requires forall k :: i <= k < j ==> !IsReady(ops[k], id)
    ensures RestartsBetween(ops, i, j, id) <= RestartCount(ops[..j], id)
    decreases j
  {
    if i < j {
      StretchWithinAccount(ops, i, j - 1, id);
      assert Front(ops[..j]) == ops[..j - 1];
    }
  }

  /** Restart budget: in any stretch of any legal history with no Ready for a
      worker, it is restarted automatically at most `maxFailures` times, even
      if health checks promote it to Healthy in between. */
  lemma RestartBudget(cfg: PoolConfig, ops: seq<Op>, i: nat, j: nat, id: WorkerId)
    requires Legal(cfg, ops) && i <= j <= |ops|
    requires forall k :: i <= k < j ==> !IsReady(ops[k], id)
    ensures RestartsBetween(ops, i, j, id) <= cfg.maxFailures
  {
    StretchWithinAccount(ops, i, j, id);
    LegalPrefix(cfg, ops, j);
    BudgetInvariant(cfg, ops[..j], id);
  }

  // ---- the width of the counter ----

  /** Failed API restarts of `id` since its last Ready. */
  function FailedApiRestarts(ops: seq<Op>, id: WorkerId): nat {
    if ops == [] || IsReady(Last(ops), id) then 0
    else FailedApiRestarts(Front(ops), id) + if ApiRestartFails(Last(ops), id) then 1 else 0
  }

  /** The counter outgrows the budget only through failing API restarts: it
      stays below 2^32 while the budget plus 1 plus the failed API restarts
      since the last Ready does. For the budget 2^32 - 1 that is never so. */
  lemma {:induction false} FailureCounterBound(cfg: PoolConfig, ops: seq<Op>, id: WorkerId)
    requires Legal(cfg, ops) && id in After(cfg, ops)
    ensures After(cfg, ops)[id].failures <= cfg.maxFailures + 1 + FailedApiRestarts(ops, id)
    decreases |ops|
  {
    if ops != [] {
      BudgetInvariant(cfg, Front(ops), id);
      if id in After(cfg, Front(ops)) {
        FailureCounterBound(cfg, Front(ops), id);
      }
    }
  }

  // ---- giving up ----

  ghost predicate GaveUp(cfg: PoolConfig, t: Table, id: WorkerId) {
    id in t ==> !IsActive(t[id]) && t[id].failures > cfg.maxFailures
  }

  /** A worker given up on is back after a step exactly if the step is a Ready
      for its entry, and no step reports it. */
  lemma StaysDown(cfg: PoolConfig, used: set<WorkerId>, t: Table, op: Op, id: WorkerId)
    requires Allowed(cfg, used, t, op) && t.Keys <= used && id in used
    requires GaveUp(cfg, t, id)
    ensures GaveUp(cfg, Step(cfg, t, op).table, id) <==> !(id in t && IsReady(op, id))
    ensures forall e :: e in Step(cfg, t, op).events && (e.WorkerSpawned? || e.WorkerFailed? || e.WorkerUnhealthy?) ==> e.id != id
  {
  }

  lemma {:induction false} GivenUpStaysDown(cfg: PoolConfig, ops: seq<Op>, i: nat, j: nat, id: WorkerId)
    requires Legal(cfg, ops) && i < j <= |ops|
    requires WorkerFailed(id) in EventsAt(cfg, ops, i)
    requires forall k :: i < k < j ==> !IsReady(ops[k], id)
    ensures id in GeneratedIds(ops[..j]) && GaveUp(cfg, After(cfg, ops[..j]), id)
    decreases j
  {
    assert Front(ops[..j]) == ops[..j - 1];
    LegalPrefix(cfg, ops, j - 1);
    EntriesWereGenerated(cfg, ops[..j - 1]);
    if j > i + 1 {
      GivenUpStaysDown(cfg, ops, i, j - 1, id);
      StaysDown(cfg, GeneratedIds(ops[..j - 1]), After(cfg, ops[..j - 1]), ops[j - 1], id);
    }
  }

  /** Giving up is final: after WorkerFailed for a worker, its id is neither
      spawned nor failed nor charged again before a Ready arrives for it. */
  lemma GivingUpIsFinal(cfg: PoolConfig, ops: seq<Op>, i: nat, j: nat, id: WorkerId)
    requires Legal(cfg, ops) && i < j < |ops|
    requires WorkerFailed(id) in EventsAt(cfg, ops, i)
    requires exists e :: e in EventsAt(cfg, ops, j) && (e.WorkerSpawned? || e.WorkerFailed? || e.WorkerUnhealthy?) && e.id == id
    ensures exists k :: i < k < j && IsReady(ops[k], id)
  {
    if forall k :: i < k < j ==> !IsReady(ops[k], id) {
      GivenUpStaysDown(cfg, ops, i, j, id);
      LegalPrefix(cfg, ops, j);
      EntriesWereGenerated(cfg, ops[..j]);
      StaysDown(cfg, GeneratedIds(ops[..j]), After(cfg, ops[..j]), ops[j], id);
    }
  }

  /** A Ready does undo it, in a legal history of a pool without restarts: the
      worker is given up, Healthy again, and given up a second time. */
  lemma ReadyRevivesGivenUp(cfg: PoolConfig)
    requires cfg.basePort <= cfg.maxPort && cfg.maxFailures == 0
    ensures var ops := [Spawn("w", cfg.basePort, true), Child(Exited("w", Some(1)), 0),
                        Child(Ready(cfg.basePort, "w"), 1), Child(Exited("w", Some(1)), 2)];
            && Legal(cfg, ops)
            && WorkerFailed("w") in EventsAt(cfg, ops, 1) && WorkerFailed("w") in EventsAt(cfg, ops, 3)
            && After(cfg, ops[..3]) == map["w" := Managed(cfg.basePort, Healthy, 0, 0)]
  {
    var ops := [Spawn("w", cfg.basePort, true), Child(Exited("w", Some(1)), 0),
                Child(Ready(cfg.basePort, "w"), 1), Child(Exited("w", Some(1)), 2)];
    GivenUpAtOnce(cfg, ops);
    LegalFrom(cfg, ops, 2, map["w" := Managed(cfg.basePort, Failed(DelayFor(cfg, 1)), 1, 0)], {"w"});
    LegalFrom(cfg, ops, 3, map["w" := Managed(cfg.basePort, Healthy, 0, 0)], {"w"});
    assert ops[..4] == ops;
  }

  lemma GivenUpAtOnce(cfg: PoolConfig, ops: seq<Op>)
    requires cfg.basePort <= cfg.maxPort && cfg.maxFailures == 0
    requires |ops| >= 2 && ops[0] == Spawn("w", cfg.basePort, true) && ops[1] == Child(Exited("w", Some(1)), 0)
    ensures Legal(cfg, ops[..2]) && GeneratedIds(ops[..2]) == {"w"} && WorkerFailed("w") in EventsAt(cfg, ops, 1)
    ensures After(cfg, ops[..2]) == map["w" := Managed(cfg.basePort, Failed(DelayFor(cfg, 1)), 1, 0)]
  {
    assert ops[..0] == [];
    LegalFrom(cfg, ops, 0, map[], {});
    LegalFrom(cfg, ops, 1, map["w" := NewWorker(cfg.basePort)], {"w"});
  }

  // ---- taking a worker down on purpose ----

  /** The step takes `id` out of service: a drain or kill through the API, or
      the child's own announcement that it drains. */
  predicate Parks(op: Op, id: WorkerId) {
    || ((op.Drain? || op.Kill?) && op.id == id)
    || (op.Child? && op.event == ChildDraining(id))
  }

  ghost predicate Parked(t: Table, id: WorkerId) {
    id in t ==> t[id].state.Draining? || t[id].state.Stopped?
  }

  /** A parked worker is unparked by a step exactly if the step is a Ready for
      its entry or a failed API restart of it; no step charges or restarts it. */
  lemma StaysParked(cfg: PoolConfig, used: set<WorkerId>, t: Table, op: Op, id: WorkerId)
    requires Allowed(cfg, used, t, op) && t.Keys <= used && id in used
    requires Parked(t, id)
    ensures Parked(Step(cfg, t, op).table, id) <==> !(id in t && (IsReady(op, id) || ApiRestartFails(op, id)))
    ensures WorkerUnhealthy(id) !in Step(cfg, t, op).events && !(op.AutoRestart? && op.id == id)
  {
  }

  lemma {:induction false} ParkedStaysDown(cfg: PoolConfig, ops: seq<Op>, i: nat, j: nat, id: WorkerId)
    requires Legal(cfg, ops) && i < j <= |ops|
    requires Parks(ops[i], id) && id in After(cfg, ops[..i])
    requires forall k :: i < k < j ==> !IsReady(ops[k], id) && !ApiRestartFails(ops[k], id)
    ensures id in GeneratedIds(ops[..j]) && Parked(After(cfg, ops[..j]), id)
    decreases j
  {
    assert Front(ops[..j]) == ops[..j - 1];
    LegalPrefix(cfg, ops, j - 1);
    EntriesWereGenerated(cfg, ops[..j - 1]);
    if j > i + 1 {
      ParkedStaysDown(cfg, ops, i, j - 1, id);
      StaysParked(cfg, GeneratedIds(ops[..j - 1]), After(cfg, ops[..j - 1]), ops[j - 1], id);
    }
  }

  /** A worker drained or killed on purpose is neither reported unhealthy nor
      restarted automatically, whatever its exit, before a Ready or a failed
      API restart of it. */
  lemma ParkedIsLeftAlone(cfg: PoolConfig, ops: seq<Op>, i: nat, j: nat, id: WorkerId)
    requires Legal(cfg, ops) && i < j < |ops|
    requires Parks(ops[i], id) && id in After(cfg, ops[..i])
    requires WorkerUnhealthy(id) in EventsAt(cfg, ops, j) || (ops[j].AutoRestart? && ops[j].id == id)
    ensures exists k :: i < k < j && (IsReady(ops[k], id) || ApiRestartFails(ops[k], id))
  {
    if forall k :: i < k < j ==> !IsReady(ops[k], id) && !ApiRestartFails(ops[k], id) {
      ParkedStaysDown(cfg, ops, i, j, id);
      LegalPrefix(cfg, ops, j);
      EntriesWereGenerated(cfg, ops[..j]);
      StaysParked(cfg, GeneratedIds(ops[..j]), After(cfg, ops[..j]), ops[j], id);
    }
  }

  /** Both do unpark a worker in a legal history: a Ready makes a draining
      worker Healthy, a failed API restart leads to an automatic one. */
  lemma DrainedComesBack(cfg: PoolConfig)
    requires cfg.basePort <= cfg.maxPort && cfg.maxFailures >= 1
    ensures var ready := [Spawn("w", cfg.basePort, true), Drain("w", true), Child(Ready(cfg.basePort, "w"), 0)];
            && Legal(cfg, ready)
            && After(cfg, ready) == map["w" := Managed(cfg.basePort, Healthy, 0, 0)]
    ensures var failed := [Spawn("w", cfg.basePort, true), Drain("w", true),
                           ApiRestart("w", "x", 0, false), AutoRestart("w", cfg.restartDelay, true)];
            && Legal(cfg, failed)
            && After(cfg, failed) == map["w" := Managed(cfg.basePort, Starting, 1, 0)]
  {
    var ready := [Spawn("w", cfg.basePort, true), Drain("w", true), Child(Ready(cfg.basePort, "w"), 0)];
    DrainedFrom(cfg, ready);
    LegalFrom(cfg, ready, 2, map["w" := Managed(cfg.basePort, Draining, 0, 0)], {"w"});
    assert ready[..3] == ready;
    var failed := [Spawn("w", cfg.basePort, true), Drain("w", true),
                   ApiRestart("w", "x", 0, false), AutoRestart("w", cfg.restartDelay, true)];
    DrainedFrom(cfg, failed);
    LegalFrom(cfg, failed, 2, map["w" := Managed(cfg.basePort, Draining, 0, 0)], {"w"});
    LegalFrom(cfg, failed, 3, map["w" := Managed(cfg.basePort, Failed(cfg.restartDelay), 1, 0)], {"w", "x"});
    assert failed[..4] == failed;
  }

  lemma DrainedFrom(cfg: PoolConfig, ops: seq<Op>)
    requires cfg.basePort <= cfg.maxPort
    requires |ops| >= 2 && ops[0] == Spawn("w", cfg.basePort, true) && ops[1] == Drain("w", true)
    ensures Legal(cfg, ops[..2]) && GeneratedIds(ops[..2]) == {"w"}
    ensures After(cfg, ops[..2]) == map["w" := Managed(cfg.basePort, Draining, 0, 0)]
  {
    assert ops[..0] == [];
    LegalFrom(cfg, ops, 0, map[], {});
    LegalFrom(cfg, ops, 1, map["w" := NewWorker(cfg.basePort)], {"w"});
  }

  // ---- hung detection ----

  lemma {:induction false} UnhealthyCounterBound(cfg: PoolConfig, ops: seq<Op>, id: WorkerId)
    requires Legal(cfg, ops) && id in After(cfg, ops)
    ensures After(cfg, ops)[id].unhealthy < Max(1, cfg.maxUnhealthyChecks)
    decreases |ops|
  {
    if ops != [] && id in After(cfg, Front(ops)) {
      UnhealthyCounterBound(cfg, Front(ops), id);
    }
  }

  /** `n` failing checks in a row of one running process. */
  function FailingChecks(id: WorkerId, times: seq<Instant>): seq<Op> {
    seq(|times|, i requires 0 <= i < |times| => Check(id, Probe(false, true, times[i])))
  }

  function Play(cfg: PoolConfig, t: Table, ops: seq<Op>): Outcome {
    if ops == [] then Outcome(t, [])
    else
      var before := Play(cfg, t, Front(ops));
      var step := Step(cfg, before.table, Last(ops));
      Outcome(step.table, before.events + step.events)
  }

  /** Hung detection counts exactly: from a Healthy worker with counter 0,
      fewer failing checks than the limit only raise the counter, and the
      limit-th charges one failure and resets it. */
  lemma {:induction false} HungDetectionIsExact(cfg: PoolConfig, t: Table, id: WorkerId, times: seq<Instant>)
    requires id in t && t[id].state.Healthy? && t[id].unhealthy == 0
    requires |times| <= Max(1, cfg.maxUnhealthyChecks)
    ensures |times| < Max(1, cfg.maxUnhealthyChecks) ==>
              Play(cfg, t, FailingChecks(id, times)) == Outcome(t[id := t[id].(unhealthy := |times|)], [])
    ensures |times| == Max(1, cfg.maxUnhealthyChecks) ==>
              var after := Play(cfg, t, FailingChecks(id, times));
              var failures := t[id].failures + 1;
              && after.events == ChargeEvents(cfg, id, failures)
              && after.table == t[id := t[id].(failures := failures, state :=
                   if failures <= cfg.maxFailures
                   then Failed(times[|times| - 1] + DelayFor(cfg, failures)) else Stopped)]
    decreases |times|
  {
    var checks := FailingChecks(id, times);
    if times == [] {
      assert t == t[id := t[id].(unhealthy := 0)];
    } else {
      assert Front(checks) == FailingChecks(id, Front(times));
      HungDetectionIsExact(cfg, t, id, Front(times));
    }
  }

  // ---- conservation ----

  function SpawnedCount(trace: seq<PoolEvent>): nat {
    if trace == [] then 0
    else SpawnedCount(Front(trace)) + if Last(trace).WorkerSpawned? then 1 else 0
  }

  lemma {:induction false} SpawnedCountAdds(a: seq<PoolEvent>, b: seq<PoolEvent>)
    ensures SpawnedCount(a + b) == SpawnedCount(a) + SpawnedCount(b)
  {
    if b == [] {
      assert a + b == a;
    } else {
      assert Front(a + b) == a + Front(b);
      SpawnedCountAdds(a, Front(b));
    }
  }

  /** Removals: API restarts that replaced an entry, and automatic restarts attempted. */
  function RemovedCount(cfg: PoolConfig, ops: seq<Op>): nat {
    if ops == [] then 0
    else RemovedCount(cfg, Front(ops))
         + match Last(ops)
           case AutoRestart(_, _, _) => 1
           case ApiRestart(id, _, _, spawned) => if spawned && id in After(cfg, Front(ops)) then 1 else 0
           case _ => 0
  }

  /** The table holds exactly the workers announced as spawned minus the
      entries restarts took out. */
  lemma {:induction false} TableConservation(cfg: PoolConfig, ops: seq<Op>)
    requires Legal(cfg, ops)
    ensures |After(cfg, ops)| + RemovedCount(cfg, ops) == SpawnedCount(TraceOf(cfg, ops))
    decreases |ops|
  {
    if ops != [] {
      var t, op := After(cfg, Front(ops)), Last(ops);
      TableConservation(cfg, Front(ops));
      EntriesWereGenerated(cfg, Front(ops));
      var events := Step(cfg, t, op).events;
      SpawnedCountAdds(TraceOf(cfg, Front(ops)), events);
      StepConserves(cfg, GeneratedIds(Front(ops)), t, op);
    }
  }

  lemma StepConserves(cfg: PoolConfig, used: set<WorkerId>, t: Table, op: Op)
    requires Allowed(cfg, used, t, op) && t.Keys <= used
    ensures var out := Step(cfg, t, op);
            var removed := if op.AutoRestart? || (op.ApiRestart? && op.spawned && op.id in t) then 1 else 0;
            |out.table| + removed == |t| + SpawnedCount(out.events)
  {
    if op.AutoRestart? || op.Spawn? || op.ApiRestart? {
      SpawnStepConserves(cfg, used, t, op);
    } else {
      UpdateStepKeepsKeys(cfg, t, op);
      NoSpawnedEvents(Step(cfg, t, op).events);
    }
  }

  lemma UpdateStepKeepsKeys(cfg: PoolConfig, t: Table, op: Op)
    requires op.Child? || op.Check? || op.Drain? || op.Kill?
    ensures Step(cfg, t, op).table.Keys == t.Keys
    ensures |Step(cfg, t, op).table| == |t|
    ensures forall e :: e in Step(cfg, t, op).events ==> !e.WorkerSpawned?
  {
    var t' := Step(cfg, t, op).table;
    assert t'.Keys == t.Keys;
    assert |t'| == |t'.Keys| && |t| == |t.Keys|;
  }

  lemma SpawnStepConserves(cfg: PoolConfig, used: set<WorkerId>, t: Table, op: Op)
    requires Allowed(cfg, used, t, op) && t.Keys <= used
    requires op.AutoRestart? || op.Spawn? || op.ApiRestart?
    ensures var out := Step(cfg, t, op);
            var removed := if op.AutoRestart? || (op.ApiRestart? && op.spawned && op.id in t) then 1 else 0;
            |out.table| + removed == |t| + SpawnedCount(out.events)
  {
    match op
    case AutoRestart(id, _, spawned) =>
      OneSpawned(id, t[id].port);
      UpdateSize(t, id, NewWorker(t[id].port).(failures := t[id].failures));
      RemoveSize(t, id);
    case Spawn(id, port, spawned) =>
      OneSpawned(id, port);
      UpdateSize(t, id, NewWorker(port));
    case ApiRestart(id, newId, now, spawned) =>
      if id in t {
        OneSpawned(newId, t[id].port);
        UpdateSize(t, newId, NewWorker(t[id].port));
        RemoveSize(t[newId := NewWorker(t[id].port)], id);
        UpdateSize(t, id, t[id].(state := Failed(now + cfg.restartDelay), failures := t[id].failures + 1));
      }
  }

  lemma OneSpawned(id: WorkerId, port: U16)
    ensures SpawnedCount([WorkerSpawned(id, port)]) == 1
  {
    assert Front([WorkerSpawned(id, port)]) == [];
  }

  lemma UpdateSize(t: Table, id: WorkerId, m: Managed)
    ensures |t[id := m]| == if id in t then |t| else |t| + 1
  {
    var t' := t[id := m];
    assert t'.Keys == t.Keys + {id};
    assert |t'| == |t'.Keys| && |t| == |t.Keys|;
  }

  lemma RemoveSize(t: Table, id: WorkerId)
    requires id in t
    ensures |t - {id}| == |t| - 1
  {
    var t' := t - {id};
    assert t'.Keys == t.Keys - {id};
    assert |t'| == |t'.Keys| && |t| == |t.Keys|;
  }

  lemma {:induction false} NoSpawnedEvents(events: seq<PoolEvent>)
    requires forall e :: e in events ==> !e.WorkerSpawned?
    ensures SpawnedCount(events) == 0
  {
    if events != [] {
      NoSpawnedEvents(Front(events));
    }
  }
}
