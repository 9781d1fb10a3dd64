/** The worker pool itself: `WorkerPool` of supervisor/src/pool.rs with its
    mutable table, each method proved against the transition system. `ops` and
    `trace` are the ghost record of what the pool did and announced. */
module WorkerPool {
  import opened Prelude
  import opened PoolProtocol
  import opened PoolPorts
  import PoolBudget
  import PoolEvents

  datatype PoolError = NotFound | NoPort | SpawnFailed

  /** `order` is one possible iteration order of a table with these keys. */
  ghost predicate Enumerates(order: seq<WorkerId>, keys: set<WorkerId>) {
    Distinct(order) && forall id :: id in order <==> id in keys
  }

  /** The table of the initial workers: one per id, on consecutive ports. */
  function Started(cfg: PoolConfig, ids: seq<WorkerId>): Table {
    if ids == [] then map[] else Started(cfg, Front(ids))[Last(ids) := NewWorker(StartPort(cfg, |ids| - 1))]
  }

  lemma {:induction false} StartedOf(cfg: PoolConfig, ids: seq<WorkerId>)
    requires Distinct(ids)
    ensures forall id :: id in Started(cfg, ids) ==> id in ids
    ensures forall i :: 0 <= i < |ids| ==>
              ids[i] in Started(cfg, ids) && Started(cfg, ids)[ids[i]] == NewWorker(StartPort(cfg, i))
  {
    if ids != [] {
      var before := Front(ids);
      StartedOf(cfg, before);
      assert ids == before + [Last(ids)];
      forall i | 0 <= i < |ids|
        ensures ids[i] in Started(cfg, ids) && Started(cfg, ids)[ids[i]] == NewWorker(StartPort(cfg, i))
      {
        if i < |before| {
          assert before[i] == ids[i] != Last(ids);
        }
      }
    }
  }

  lemma StartedPorts(cfg: PoolConfig, ids: seq<WorkerId>)
    requires NewAccepts(cfg) && Distinct(ids) && |ids| <= cfg.workerCount <= U16_RANGE
    ensures forall id :: id in Started(cfg, ids) ==> Started(cfg, ids)[id].port < cfg.basePort + |ids|
  {
    StartedOf(cfg, ids);
    forall id | id in Started(cfg, ids) ensures Started(cfg, ids)[id].port < cfg.basePort + |ids| {
      var i :| 0 <= i < |ids| && ids[i] == id;
      SmallSumsDoNotWrap(cfg, i);
    }
  }

  /** What starting these workers announces. */
  function StartEvents(cfg: PoolConfig, ids: seq<WorkerId>): seq<PoolEvent> {
    seq(|ids|, i requires 0 <= i < |ids| => WorkerSpawned(ids[i], StartPort(cfg, i)))
  }

  lemma StartedSnoc(cfg: PoolConfig, ids: seq<WorkerId>, i: nat)
    requires i < |ids|
    ensures Started(cfg, ids[..i])[ids[i] := NewWorker(StartPort(cfg, i))] == Started(cfg, ids[..i + 1])
    ensures StartEvents(cfg, ids[..i]) + [WorkerSpawned(ids[i], StartPort(cfg, i))] == StartEvents(cfg, ids[..i + 1])
  {
    assert Front(ids[..i + 1]) == ids[..i];
  }

  /** The i-th initial spawn is within the pool's own rules. */
  lemma StartAllowed(cfg: PoolConfig, ops: seq<Op>, ids: seq<WorkerId>, i: nat, spawned: bool)
    requires NewAccepts(cfg) && Distinct(ids) && i < |ids| == cfg.workerCount <= U16_RANGE
    requires GeneratedIds(ops) == Started(cfg, ids[..i]).Keys
    ensures Allowed(cfg, GeneratedIds(ops), Started(cfg, ids[..i]), Spawn(ids[i], StartPort(cfg, i), spawned))
  {
    StartedOf(cfg, ids[..i]);
    StartedPorts(cfg, ids[..i]);
    SmallSumsDoNotWrap(cfg, i);
    assert ids[i] !in ids[..i];
  }

  // ---- what the two batch passes amount to ----

  /** A sweep, whatever its order: every active worker takes its own probe. */
  function SweptTable(cfg: PoolConfig, t: Table, probe: WorkerId -> Probe): Table {
    map id | id in t :: if IsActive(t[id]) then CheckEntry(cfg, t[id], probe(id)) else t[id]
  }

  /** A restart pass, whatever its order: every due worker is replaced on its
      port with its failure count, or lost if its spawn fails; the rest stay. */
  function RestartedTable(cfg: PoolConfig, t: Table, now: Instant, spawns: WorkerId -> bool): Table {
    map id | id in t && (Due(cfg, t[id], now) ==> spawns(id)) ::
      if Due(cfg, t[id], now) then Managed(t[id].port, Starting, t[id].failures, 0) else t[id]
  }

  function ActiveIds(t: Table, order: seq<WorkerId>): seq<WorkerId> {
    if order == [] then []
    else ActiveIds(t, Front(order)) + if Active(t, Last(order)) then [Last(order)] else []
  }

  function DueIds(cfg: PoolConfig, t: Table, now: Instant, order: seq<WorkerId>): seq<WorkerId> {
    if order == [] then []
    else
      var id := Last(order);
      DueIds(cfg, t, now, Front(order)) + if id in t && Due(cfg, t[id], now) then [id] else []
  }

  function Checks(ids: seq<WorkerId>, probe: WorkerId -> Probe): seq<Op> {
    seq(|ids|, i requires 0 <= i < |ids| => Check(ids[i], probe(ids[i])))
  }

  function Restarts(ids: seq<WorkerId>, now: Instant, spawns: WorkerId -> bool): seq<Op> {
    seq(|ids|, i requires 0 <= i < |ids| => AutoRestart(ids[i], now, spawns(ids[i])))
  }

  lemma {:induction false} ActiveIdsOf(t: Table, order: seq<WorkerId>)
    requires Distinct(order)
    ensures Distinct(ActiveIds(t, order))
    ensures forall id :: id in ActiveIds(t, order) <==> id in order && Active(t, id)
  {
    if order != [] {
      ActiveIdsOf(t, Front(order));
      assert order == Front(order) + [Last(order)];
    }
  }

  lemma {:induction false} DueIdsOf(cfg: PoolConfig, t: Table, now: Instant, order: seq<WorkerId>)
    requires Distinct(order)
    ensures Distinct(DueIds(cfg, t, now, order))
    ensures forall id :: id in DueIds(cfg, t, now, order) <==> id in order && id in t && Due(cfg, t[id], now)
  {
    if order != [] {
      DueIdsOf(cfg, t, now, Front(order));
      assert order == Front(order) + [Last(order)];
    }
  }

  // ---- the passes after some of their workers ----

  ghost function Members(ids: seq<WorkerId>): set<WorkerId> {
    set id | id in ids
  }

  ghost function PartSwept(cfg: PoolConfig, t: Table, done: set<WorkerId>, probe: WorkerId -> Probe): Table {
    map id | id in t :: if id in done then CheckEntry(cfg, t[id], probe(id)) else t[id]
  }

  lemma PartSweptNone(cfg: PoolConfig, t: Table, probe: WorkerId -> Probe)
    ensures PartSwept(cfg, t, {}, probe) == t
  {
  }

  lemma PrefixSet(ids: seq<WorkerId>, i: nat)
    requires Distinct(ids) && i < |ids|
    ensures ids[i] !in ids[..i]
    ensures Members(ids[..i + 1]) == Members(ids[..i]) + {ids[i]}
  {
    assert ids[..i + 1] == ids[..i] + [ids[i]];
  }

  lemma PartSweptStep(cfg: PoolConfig, t: Table, done: set<WorkerId>, probe: WorkerId -> Probe, id: WorkerId)
    requires Active(t, id) && id !in done
    ensures var now := PartSwept(cfg, t, done, probe);
            Active(now, id) && now[id := CheckEntry(cfg, now[id], probe(id))] == PartSwept(cfg, t, done + {id}, probe)
  {
  }

  lemma PartSweptAll(cfg: PoolConfig, t: Table, done: set<WorkerId>, probe: WorkerId -> Probe)
    requires forall id :: id in done <==> Active(t, id)
    ensures PartSwept(cfg, t, done, probe) == SweptTable(cfg, t, probe)
  {
    assert forall id :: id in t ==> (IsActive(t[id]) <==> id in done);
  }

  ghost function PartRestarted(t: Table, done: set<WorkerId>, spawns: WorkerId -> bool): Table {
    map id | id in t && (id in done ==> spawns(id)) ::
      if id in done then Managed(t[id].port, Starting, t[id].failures, 0) else t[id]
  }

  lemma PartRestartedNone(t: Table, spawns: WorkerId -> bool)
    ensures PartRestarted(t, {}, spawns) == t
  {
  }

  lemma PartRestartedStep(t: Table, done: set<WorkerId>, spawns: WorkerId -> bool, id: WorkerId)
    requires id in t && id !in done
    ensures var now := PartRestarted(t, done, spawns);
            && id in now && now[id] == t[id]
            && PartRestarted(t, done + {id}, spawns)
               == if spawns(id) then now[id := Managed(t[id].port, Starting, t[id].failures, 0)] else now - {id}
  {
  }

  lemma PartRestartedAll(cfg: PoolConfig, t: Table, done: set<WorkerId>, now: Instant, spawns: WorkerId -> bool)
    requires forall id :: id in done <==> id in t && Due(cfg, t[id], now)
    ensures PartRestarted(t, done, spawns) == RestartedTable(cfg, t, now, spawns)
  {
  }

  lemma ChecksSnoc(ids: seq<WorkerId>, i: nat, probe: WorkerId -> Probe)
    requires i < |ids|
    ensures Checks(ids[..i + 1], probe) == Checks(ids[..i], probe) + [Check(ids[i], probe(ids[i]))]
  {
  }

  lemma RestartsSnoc(ids: seq<WorkerId>, i: nat, now: Instant, spawns: WorkerId -> bool)
    requires i < |ids|
    ensures Restarts(ids[..i + 1], now, spawns)
            == Restarts(ids[..i], now, spawns) + [AutoRestart(ids[i], now, spawns(ids[i]))]
  {
  }

  class WorkerPool {
    const config: PoolConfig
    var workers: Table
    ghost var ops: seq<Op>
    ghost var trace: seq<PoolEvent>

    /** The table and the announcements are those of a legal history. */
    ghost predicate Valid()
      reads this
    {
      && NewAccepts(config)
      && Legal(config, ops) && workers == After(config, ops) && trace == TraceOf(config, ops)
    }

    /** What any valid pool's table and announcements therefore satisfy. */
    lemma Guarantees()
      requires Valid()
      ensures PortsSafe(config, workers)
      ensures PoolEvents.ReportsPaired(config, trace)
      ensures |workers| + PoolBudget.RemovedCount(config, ops) == PoolBudget.SpawnedCount(trace)
      ensures forall id :: id in workers ==>
                && workers[id].failures == PoolBudget.ChargeCount(config, ops, id)
                && workers[id].unhealthy < Max(1, config.maxUnhealthyChecks)
                && (workers[id].state.Failed? ==> PoolBudget.RestartCount(ops, id) < workers[id].failures)
                && (IsActive(workers[id]) ==> workers[id].failures <= config.maxFailures)
    {
      PortsStaySafe(config, ops);
      PoolEvents.ChargeReportsArePaired(config, ops);
      PoolBudget.TableConservation(config, ops);
      forall id | id in workers
        ensures workers[id].failures == PoolBudget.ChargeCount(config, ops, id)
        ensures workers[id].unhealthy < Max(1, config.maxUnhealthyChecks)
        ensures PoolBudget.WithinBudget(config, workers, id, PoolBudget.RestartCount(ops, id))
      {
        PoolBudget.FailureCounterIsExact(config, ops, id);
        PoolBudget.UnhealthyCounterBound(config, ops, id);
        PoolBudget.BudgetInvariant(config, ops, id);
      }
    }

    constructor (config: PoolConfig)
      requires NewAccepts(config)
      ensures Valid() && this.config == config
      ensures ops == [] && workers == map[] && trace == []
    {
      this.config := config;
      workers, ops, trace := map[], [], [];
    }

    ghost method Emit(event: PoolEvent)
      modifies this`trace
      ensures trace == old(trace) + [event]
    {
      trace := trace + [event];
    }

    method SpawnWorker(id: WorkerId, port: U16, spawned: bool) returns (ok: bool)
      modifies this`workers, this`trace
      ensures ok == spawned
      ensures workers == if spawned then old(workers)[id := NewWorker(port)] else old(workers)
      ensures trace == if spawned then old(trace) + [WorkerSpawned(id, port)] else old(trace)
    {
      if !spawned {
        return false;
      }
      workers := workers[id := Managed(port, Starting, 0, 0)];
      Emit(WorkerSpawned(id, port));
      return true;
    }

    /** spawn_worker for an id the pool has just generated. */
    method SpawnFresh(id: WorkerId, port: U16, spawned: bool) returns (ok: bool)
      requires Valid() && Allowed(config, GeneratedIds(ops), workers, Spawn(id, port, spawned))
      modifies this`workers, this`ops, this`trace
      ensures Valid() && ok == spawned
      ensures ops == old(ops) + [Spawn(id, port, spawned)]
      ensures GeneratedIds(ops) == GeneratedIds(old(ops)) + {id}
      ensures workers == if spawned then old(workers)[id := NewWorker(port)] else old(workers)
      ensures trace == if spawned then old(trace) + [WorkerSpawned(id, port)] else old(trace)
    {
      ghost var op := Spawn(id, port, spawned);
      HistorySnoc(config, ops, op);
      SnocShape(ops, op);
      ok := SpawnWorker(id, port, spawned);
      ops := ops + [op];
    }

    /** The table and the announcements of the first initial workers. Up to
        65536 workers they are also those of a legal history. */
    ghost predicate StartedWith(ids: seq<WorkerId>)
      reads this
    {
      && workers == Started(config, ids) && trace == StartEvents(config, ids)
      && (config.workerCount <= U16_RANGE ==> Valid())
    }

    method StartOne(ids: seq<WorkerId>, i: nat, spawned: bool) returns (ok: bool)
      requires Distinct(ids) && i < |ids| == config.workerCount
      requires StartedWith(ids[..i])
      requires config.workerCount <= U16_RANGE ==> GeneratedIds(ops) == workers.Keys
      modifies this`workers, this`ops, this`trace
      ensures ok == spawned
      ensures StartedWith(ids[..if spawned then i + 1 else i])
      ensures spawned && config.workerCount <= U16_RANGE ==> GeneratedIds(ops) == workers.Keys
    {
      StartedSnoc(config, ids, i);
      var port := AsU16(config.basePort + AsU16(i));
      ghost var op := Spawn(ids[i], port, spawned);
      HistorySnoc(config, ops, op);
      SnocShape(ops, op);
      if config.workerCount <= U16_RANGE {
        StartAllowed(config, ops, ids, i, spawned);
      }
      ok := SpawnWorker(ids[i], port, spawned);
      ops := ops + [op];
    }

    /** Spawns the initial workers in order and stops at the first failure. */
    method Start(ids: seq<WorkerId>, spawns: seq<bool>) returns (ok: bool, ghost started: nat)
      requires Valid() && ops == []
      requires |ids| == |spawns| == config.workerCount && Distinct(ids)
      modifies this`workers, this`ops, this`trace
      ensures started <= |ids| && StartedWith(ids[..started])
      ensures forall k :: 0 <= k < started ==> spawns[k]
      ensures if ok then started == |ids| else started < |ids| && !spawns[started]
    {
      started := 0;
      for i := 0 to config.workerCount
        invariant started == i
        invariant StartedWith(ids[..i])
        invariant config.workerCount <= U16_RANGE ==> GeneratedIds(ops) == workers.Keys
        invariant forall k :: 0 <= k < i ==> spawns[k]
      {
        var spawned := StartOne(ids, i, spawns[i]);
        if !spawned {
          return false, i;
        }
        started := i + 1;
      }
      return true, config.workerCount;
    }

    method HandleWorkerEvent(event: ChildEvent, now: Instant)
      requires Valid()
      modifies this`workers, this`ops, this`trace
      ensures Valid() && ops == old(ops) + [Child(event, now)]
      ensures workers == StepChild(config, old(workers), event, now).table
      ensures trace == old(trace) + StepChild(config, old(workers), event, now).events
    {
      HistorySnoc(config, ops, Child(event, now));
      match event {
        case Ready(port, id) =>
          if id in workers {
            workers := workers[id := workers[id].(state := Healthy, failures := 0)];
          }
          Emit(WorkerHealthy(id, port));
          if AllHealthy(workers) {
            Emit(AllWorkersHealthy);
          }
        case ChildDraining(id) =>
          if id in workers {
            workers := workers[id := workers[id].(state := Draining)];
          }
          Emit(WorkerDraining(id));
        case ChildDrained(id) =>
          Emit(WorkerDrained(id));
        case Exited(id, exitCode) =>
          HandleExit(id, exitCode, now);
        case Output =>
      }
      ops := ops + [Child(event, now)];
    }

    method HandleExit(id: WorkerId, exitCode: Option<int>, now: Instant)
      modifies this`workers, this`trace
      ensures workers == StepChild(config, old(workers), Exited(id, exitCode), now).table
      ensures trace == old(trace) + StepChild(config, old(workers), Exited(id, exitCode), now).events
    {
      var exitedWorker: Option<nat> := None;
      if id in workers {
        var managed := workers[id];
        var wasDraining := managed.state == Draining;
        // Skip what a health check or an API call has already dealt with.
        if managed.state != Stopped && !managed.state.Failed? {
          if exitCode == Some(0) || wasDraining {
            managed := managed.(state := Stopped);
          } else {
            managed := managed.(failures := managed.failures + 1);
            var delay := DelayFor(config, managed.failures);
            managed := managed.(state := Failed(now + delay));
            exitedWorker := Some(managed.failures);
          }
        }
        workers := workers[id := managed];
      }
      if exitedWorker.Some? {
        Emit(WorkerUnhealthy(id));
        if exitedWorker.value <= config.maxFailures {
          Emit(WorkerRestarting(id, exitedWorker.value));
        } else {
          Emit(WorkerFailed(id));
        }
      }
    }

    /** One pass over the workers believed alive, in the table's own order. */
    method CheckAllHealth(order: seq<WorkerId>, probe: WorkerId -> Probe)
      requires Valid() && Enumerates(order, workers.Keys)
      modifies this`workers, this`ops, this`trace
      ensures Valid()
      ensures workers == SweptTable(config, old(workers), probe)
      ensures ops == old(ops) + Checks(ActiveIds(old(workers), order), probe)
    {
      var targets := CollectActive(order);
      ghost var before := workers;
      SweepTargets(targets, probe);
      PartSweptAll(config, before, Members(targets), probe);
    }

    method SweepTargets(targets: seq<WorkerId>, probe: WorkerId -> Probe)
      requires Valid() && Distinct(targets) && forall id :: id in targets ==> Active(workers, id)
      modifies this`workers, this`ops, this`trace
      ensures Valid()
      ensures ops == old(ops) + Checks(targets, probe)
      ensures workers == PartSwept(config, old(workers), Members(targets), probe)
    {
      ghost var done: set<WorkerId> := {};
      PartSweptNone(config, workers, probe);
      for i := 0 to |targets|
        invariant Valid()
        invariant ops == old(ops) + Checks(targets[..i], probe)
        invariant done == Members(targets[..i])
        invariant workers == PartSwept(config, old(workers), done, probe)
      {
        PrefixSet(targets, i);
        PartSweptStep(config, old(workers), done, probe, targets[i]);
        CheckOne(targets[i], probe(targets[i]));
        ChecksSnoc(targets, i, probe);
        done := done + {targets[i]};
      }
      assert targets[..|targets|] == targets;
    }

    method CollectActive(order: seq<WorkerId>) returns (targets: seq<WorkerId>)
      requires Enumerates(order, workers.Keys)
      ensures targets == ActiveIds(workers, order) && Distinct(targets)
      ensures forall id :: id in targets <==> Active(workers, id)
    {
      targets := [];
      for i := 0 to |order|
        invariant targets == ActiveIds(workers, order[..i])
      {
        assert Front(order[..i + 1]) == order[..i];
        assert order[i] in order;
        var state := workers[order[i]].state;
        if state == Healthy || state == Starting {
          targets := targets + [order[i]];
        }
      }
      assert order[..|order|] == order;
      ActiveIdsOf(workers, order);
    }

    /** One worker's turn in the sweep. */
    method CheckOne(id: WorkerId, probe: Probe)
      requires Valid() && Active(workers, id)
      modifies this`workers, this`ops, this`trace
      ensures Valid() && ops == old(ops) + [Check(id, probe)]
      ensures workers == old(workers)[id := CheckEntry(config, old(workers)[id], probe)]
    {
      HistorySnoc(config, ops, Check(id, probe));
      CheckWorker(id, probe);
      ops := ops + [Check(id, probe)];
    }

    /** The body of the health sweep for one worker. */
    method CheckWorker(id: WorkerId, probe: Probe)
      requires id in workers
      modifies this`workers, this`trace
      ensures workers == old(workers)[id := CheckEntry(config, old(workers)[id], probe)]
      ensures trace == old(trace) + CheckEvents(config, id, old(workers)[id], probe)
    {
      var managed := workers[id];
      if probe.healthy {
        managed := managed.(unhealthy := 0);
        if managed.state == Starting {
          managed := managed.(state := Healthy);
          Emit(WorkerHealthy(id, managed.port));
        }
      } else if !probe.running && !managed.state.Failed? && managed.state != Stopped {
        managed := managed.(failures := managed.failures + 1, unhealthy := 0);
        Emit(WorkerUnhealthy(id));
        if managed.failures <= config.maxFailures {
          managed := managed.(state := Failed(probe.now + DelayFor(config, managed.failures)));
          Emit(WorkerRestarting(id, managed.failures));
        } else {
          managed := managed.(state := Stopped);
          Emit(WorkerFailed(id));
        }
      } else if probe.running && managed.state == Healthy {
        managed := managed.(unhealthy := managed.unhealthy + 1);
        if managed.unhealthy >= config.maxUnhealthyChecks {
          Emit(WorkerUnhealthy(id));
          managed := managed.(failures := managed.failures + 1, unhealthy := 0);
          if managed.failures <= config.maxFailures {
            managed := managed.(state := Failed(probe.now + DelayFor(config, managed.failures)));
            Emit(WorkerRestarting(id, managed.failures));
          } else {
            managed := managed.(state := Stopped);
            Emit(WorkerFailed(id));
          }
        }
      }
      workers := workers[id := managed];
    }

    /** Replaces every worker whose backoff has run out and whose budget has not. */
    method ProcessRestarts(order: seq<WorkerId>, now: Instant, spawns: WorkerId -> bool)
      requires Valid() && Enumerates(order, workers.Keys)
      modifies this`workers, this`ops, this`trace
      ensures Valid()
      ensures workers == RestartedTable(config, old(workers), now, spawns)
      ensures ops == old(ops) + Restarts(DueIds(config, old(workers), now, order), now, spawns)
    {
      var toRestart := CollectDue(order, now);
      ghost var before, ids := workers, DueIds(config, workers, now, order);
      DueIdsOf(config, workers, now, order);
      RestartTargets(toRestart, ids, now, spawns);
      PartRestartedAll(config, before, Members(ids), now, spawns);
    }

    method RestartTargets(toRestart: seq<(WorkerId, U16, nat)>, ghost ids: seq<WorkerId>, now: Instant, spawns: WorkerId -> bool)
      requires Valid() && Distinct(ids) && |ids| == |toRestart|
      requires forall id :: id in ids ==> id in workers && Due(config, workers[id], now)
      requires forall k :: 0 <= k < |ids| ==> toRestart[k] == (ids[k], workers[ids[k]].port, workers[ids[k]].failures)
      modifies this`workers, this`ops, this`trace
      ensures Valid()
      ensures ops == old(ops) + Restarts(ids, now, spawns)
      ensures workers == PartRestarted(old(workers), Members(ids), spawns)
    {
      ghost var done: set<WorkerId> := {};
      PartRestartedNone(workers, spawns);
      for i := 0 to |toRestart|
        invariant Valid()
        invariant ops == old(ops) + Restarts(ids[..i], now, spawns)
        invariant done == Members(ids[..i])
        invariant workers == PartRestarted(old(workers), done, spawns)
      {
        var (id, port, failureCount) := toRestart[i];
        PrefixSet(ids, i);
        PartRestartedStep(old(workers), done, spawns, id);
        RestartOne(id, port, failureCount, now, spawns(id));
        RestartsSnoc(ids, i, now, spawns);
        done := done + {id};
      }
      assert ids[..|ids|] == ids;
    }

    method CollectDue(order: seq<WorkerId>, now: Instant) returns (toRestart: seq<(WorkerId, U16, nat)>)
      requires Enumerates(order, workers.Keys)
      ensures var ids := DueIds(config, workers, now, order);
              && |toRestart| == |ids|
              && forall k :: 0 <= k < |ids| ==>
                   ids[k] in workers && toRestart[k] == (ids[k], workers[ids[k]].port, workers[ids[k]].failures)
    {
      toRestart := [];
      ghost var ids: seq<WorkerId> := [];
      for i := 0 to |order|
        invariant ids == DueIds(config, workers, now, order[..i])
        invariant |toRestart| == |ids|
        invariant forall k :: 0 <= k < |ids| ==>
                    ids[k] in workers && toRestart[k] == (ids[k], workers[ids[k]].port, workers[ids[k]].failures)
      {
        assert Front(order[..i + 1]) == order[..i];
        assert order[i] in order;
        var managed := workers[order[i]];
        if managed.state.Failed? {
          if now >= managed.state.restartAt && managed.failures <= config.maxFailures {
            toRestart := toRestart + [(order[i], managed.port, managed.failures)];
            ids := ids + [order[i]];
          }
        }
      }
      assert order[..|order|] == order;
    }

    /** One worker's turn in the restart pass. */
    method RestartOne(id: WorkerId, port: U16, failureCount: nat, now: Instant, spawned: bool)
      requires Valid() && id in workers && Due(config, workers[id], now)
      requires port == workers[id].port && failureCount == workers[id].failures
      modifies this`workers, this`ops, this`trace
      ensures Valid() && ops == old(ops) + [AutoRestart(id, now, spawned)]
      ensures workers == if spawned then old(workers)[id := Managed(port, Starting, failureCount, 0)]
                         else old(workers) - {id}
    {
      ghost var op := AutoRestart(id, now, spawned);
      HistorySnoc(config, ops, op);
      workers := workers - {id};
      var ok := SpawnWorker(id, port, spawned);
      if ok {
        workers := workers[id := workers[id].(failures := failureCount)];
      }
      ops := ops + [op];
      assert workers == Step(config, old(workers), op).table;
    }

    /** The least free port from basePort up to maxPort. */
    method NextAvailablePort() returns (r: Result<U16, PoolError>)
      ensures r.Ok? ==>
                && config.basePort <= r.value <= config.maxPort
                && (forall id :: id in workers ==> workers[id].port != r.value)
                && forall p :: config.basePort <= p < r.value ==> p in UsedPorts(workers)
      ensures r.Err? ==> r.error == NoPort && Interval(config.basePort, config.maxPort) <= UsedPorts(workers)
    {
      var usedPorts: set<nat> := set id | id in workers :: workers[id].port;
      var port: nat := config.basePort;
      while port in usedPorts
        invariant config.basePort <= port < U16_RANGE
        invariant port > config.basePort ==> port <= config.maxPort
        invariant forall p :: config.basePort <= p < port ==> p in UsedPorts(workers)
        decreases U16_RANGE - port
      {
        if port >= config.maxPort {
          return Err(NoPort);
        }
        port := port + 1;
      }
      if port > config.maxPort {
        return Err(NoPort);
      }
      return Ok(port);
    }

    /** Spawns one more worker on the least free port; fails for want of a port
        exactly when the table is as large as the port range. */
    method SpawnNewWorker(newId: WorkerId, spawned: bool) returns (r: Result<(WorkerId, U16), PoolError>)
      requires Valid() && newId !in GeneratedIds(ops)
      modifies this`workers, this`ops, this`trace
      ensures Valid()
      ensures r == Err(NoPort) <==> |old(workers)| == config.maxPort - config.basePort + 1
      ensures r.Err? ==> workers == old(workers) && trace == old(trace)
      ensures r == Err(SpawnFailed) <==> !spawned && r != Err(NoPort)
      ensures r.Ok? ==>
                && r.value.0 == newId
                && workers == old(workers)[newId := NewWorker(r.value.1)]
                && ops == old(ops) + [Spawn(newId, r.value.1, true)]
                && forall p :: config.basePort <= p < r.value.1 ==> p in UsedPorts(old(workers))
    {
      CapacityIsExact(config, ops);
      var free := NextAvailablePort();
      if free.Err? {
        return Err(free.error);
      }
      var port := free.value;
      assert port in Interval(config.basePort, config.maxPort) && port !in UsedPorts(workers);
      var ok := SpawnFresh(newId, port, spawned);
      return if ok then Ok((newId, port)) else Err(SpawnFailed);
    }

    method DrainWorker(id: WorkerId, running: bool) returns (r: Result<(), PoolError>)
      requires Valid()
      modifies this`workers, this`ops
      ensures Valid() && ops == old(ops) + [Drain(id, running)]
      ensures r == if id in old(workers) then Ok(()) else Err(NotFound)
      ensures workers == if id !in old(workers) then old(workers)
                         else old(workers)[id := old(workers)[id].(state := if running then Draining else Stopped)]
    {
      HistorySnoc(config, ops, Drain(id, running));
      ops := ops + [Drain(id, running)];
      if id !in workers {
        return Err(NotFound);
      }
      if !running {
        workers := workers[id := workers[id].(state := Stopped)];
        return Ok(());
      }
      workers := workers[id := workers[id].(state := Draining)];
      return Ok(());
    }

    method KillWorker(id: WorkerId, running: bool) returns (r: Result<(), PoolError>)
      requires Valid()
      modifies this`workers, this`ops
      ensures Valid() && ops == old(ops) + [Kill(id, running)]
      ensures r == if id in old(workers) then Ok(()) else Err(NotFound)
      ensures workers == if id !in old(workers) then old(workers)
                         else old(workers)[id := old(workers)[id].(state := Stopped)]
    {
      HistorySnoc(config, ops, Kill(id, running));
      ops := ops + [Kill(id, running)];
      if id !in workers {
        return Err(NotFound);
      }
      if !running {
        workers := workers[id := workers[id].(state := Stopped)];
        return Ok(());
      }
      workers := workers[id := workers[id].(state := Stopped)];
      return Ok(());
    }

    /** Stops a worker and spawns its replacement on the same port, under a new
        id; the old entry is dropped only once the replacement exists. */
    method RestartWorker(id: WorkerId, newId: WorkerId, now: Instant, spawned: bool)
      returns (r: Result<(WorkerId, U16), PoolError>)
      requires Valid() && newId !in GeneratedIds(ops)
      modifies this`workers, this`ops, this`trace
      ensures Valid() && ops == old(ops) + [ApiRestart(id, newId, now, spawned)]
      ensures r == if id !in old(workers) then Err(NotFound)
                   else if spawned then Ok((newId, old(workers)[id].port)) else Err(SpawnFailed)
      ensures r == Err(NotFound) ==> workers == old(workers) && trace == old(trace)
      ensures r.Ok? ==> workers == old(workers)[newId := NewWorker(old(workers)[id].port)] - {id}
      ensures r == Err(SpawnFailed) ==>
                workers == old(workers)[id := old(workers)[id].(state := Failed(now + config.restartDelay),
                                                                failures := old(workers)[id].failures + 1)]
    {
      ghost var op := ApiRestart(id, newId, now, spawned);
      HistorySnoc(config, ops, op);
      PoolBudget.EntriesWereGenerated(config, ops);
      ops := ops + [op];
      if id !in workers {
        return Err(NotFound);
      }
      var port := workers[id].port;
      var ok := SpawnWorker(newId, port, spawned);
      if ok {
        workers := workers - {id};
        return Ok((newId, port));
      }
      workers := workers[id := workers[id].(state := Failed(now + config.restartDelay),
                                            failures := workers[id].failures + 1)];
      return Err(SpawnFailed);
    }
  }
}
