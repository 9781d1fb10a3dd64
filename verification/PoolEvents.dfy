/** What every trace of pool events looks like, whatever the interleaving of
    child events, health sweeps, restarts and API calls. */
module PoolEvents {
  import opened Prelude
  import opened PoolProtocol
  import opened PoolBudget

  // ---- adjacency of charge reports ----

  predicate IsVerdict(cfg: PoolConfig, e: PoolEvent, id: WorkerId) {
    || (e.WorkerRestarting? && e.id == id && 1 <= e.attempt <= cfg.maxFailures)
    || e == WorkerFailed(id)
  }

  ghost predicate ReportsPaired(cfg: PoolConfig, trace: seq<PoolEvent>) {
    && (forall i :: 0 <= i < |trace| && trace[i].WorkerUnhealthy? ==>
          i + 1 < |trace| && IsVerdict(cfg, trace[i + 1], trace[i].id))
    && (forall i :: 0 <= i < |trace| && (trace[i].WorkerRestarting? || trace[i].WorkerFailed?) ==>
          i > 0 && trace[i - 1] == WorkerUnhealthy(trace[i].id))
  }

  lemma PairedAppend(cfg: PoolConfig, a: seq<PoolEvent>, b: seq<PoolEvent>)
    requires ReportsPaired(cfg, a) && ReportsPaired(cfg, b)
    ensures ReportsPaired(cfg, a + b)
  {
    var t := a + b;
    forall i | 0 <= i < |t| && t[i].WorkerUnhealthy?
      ensures i + 1 < |t| && IsVerdict(cfg, t[i + 1], t[i].id)
    {
      if i < |a| {
        assert a[i].WorkerUnhealthy?;
      } else {
        assert b[i - |a|].WorkerUnhealthy?;
      }
    }
    forall i | 0 <= i < |t| && (t[i].WorkerRestarting? || t[i].WorkerFailed?)
      ensures i > 0 && t[i - 1] == WorkerUnhealthy(t[i].id)
    {
      if i < |a| {
        assert a[i] == t[i];
      } else {
        assert b[i - |a|] == t[i];
      }
    }
  }

  lemma StepPaired(cfg: PoolConfig, t: Table, op: Op)
    ensures ReportsPaired(cfg, Step(cfg, t, op).events)
  {
  }

  /** Every WorkerUnhealthy is followed at once by its verdict, a restart with
      an attempt number within the budget or a final failure, and no verdict
      appears on its own. */
  lemma {:induction false} ChargeReportsArePaired(cfg: PoolConfig, ops: seq<Op>)
    ensures ReportsPaired(cfg, TraceOf(cfg, ops))
    decreases |ops|
  {
    if ops != [] {
      ChargeReportsArePaired(cfg, Front(ops));
      StepPaired(cfg, After(cfg, Front(ops)), Last(ops));
      PairedAppend(cfg, TraceOf(cfg, Front(ops)), Step(cfg, After(cfg, Front(ops)), Last(ops)).events);
    }
  }

  // ---- one charge per life, and none after draining ----

  /** The event takes worker `id` out of service. */
  predicate Grounds(e: PoolEvent, id: WorkerId) {
    e == WorkerUnhealthy(id) || e == WorkerDraining(id)
  }

  /** The event puts worker `id` into service. */
  predicate Launches(e: PoolEvent, id: WorkerId) {
    (e.WorkerSpawned? || e.WorkerHealthy?) && e.id == id
  }

  /** Worker `id` was grounded and not launched since. */
  ghost predicate Grounded(trace: seq<PoolEvent>, id: WorkerId) {
    exists i :: 0 <= i < |trace| && Grounds(trace[i], id)
             && forall k :: i < k < |trace| ==> !Launches(trace[k], id)
  }

  lemma GroundedSnoc(trace: seq<PoolEvent>, e: PoolEvent, id: WorkerId)
    ensures Grounded(trace + [e], id) ==> Grounds(e, id) || (Grounded(trace, id) && !Launches(e, id))
  {
    var t := trace + [e];
    if Grounded(t, id) && !Grounds(e, id) {
      var i :| 0 <= i < |t| && Grounds(t[i], id) && forall k :: i < k < |t| ==> !Launches(t[k], id);
      assert t[|trace|] == e;
      assert Grounds(trace[i], id);
      assert forall k :: i < k < |trace| ==> trace[k] == t[k];
    }
  }

  lemma GroundedAppend(trace: seq<PoolEvent>, events: seq<PoolEvent>, id: WorkerId)
    requires |events| <= 2
    ensures Grounded(trace + events, id) ==>
              || (exists e :: e in events && Grounds(e, id))
              || (Grounded(trace, id) && forall e :: e in events ==> !Launches(e, id))
  {
    if |events| == 0 {
      assert trace + events == trace;
    } else if |events| == 1 {
      GroundedSnoc(trace, events[0], id);
      assert trace + events == trace + [events[0]];
    } else {
      GroundedSnoc(trace, events[0], id);
      GroundedSnoc(trace + [events[0]], events[1], id);
      assert trace + events == trace + [events[0]] + [events[1]];
    }
  }

  lemma StepGrounding(cfg: PoolConfig, used: set<WorkerId>, t: Table, op: Op, id: WorkerId)
    requires Allowed(cfg, used, t, op)
    ensures |Step(cfg, t, op).events| <= 2
    ensures (exists e :: e in Step(cfg, t, op).events && Grounds(e, id)) ==> !Active(Step(cfg, t, op).table, id)
    ensures !Active(t, id) && Active(Step(cfg, t, op).table, id) ==>
              exists e :: e in Step(cfg, t, op).events && Launches(e, id)
    ensures WorkerUnhealthy(id) in Step(cfg, t, op).events ==> Active(t, id)
  {
    var out := Step(cfg, t, op);
    if !Active(t, id) && Active(out.table, id) {
      assert Launches(out.events[0], id);
    }
  }

  lemma {:induction false} GroundedIsInactive(cfg: PoolConfig, ops: seq<Op>, id: WorkerId)
    requires Legal(cfg, ops)
    ensures Grounded(TraceOf(cfg, ops), id) ==> !Active(After(cfg, ops), id)
    decreases |ops|
  {
    if ops != [] {
      var t, op := After(cfg, Front(ops)), Last(ops);
      GroundedIsInactive(cfg, Front(ops), id);
      StepGrounding(cfg, GeneratedIds(Front(ops)), t, op, id);
      GroundedAppend(TraceOf(cfg, Front(ops)), Step(cfg, t, op).events, id);
    }
  }

  /** Between a WorkerUnhealthy or WorkerDraining of a worker and a later
      WorkerUnhealthy of it, the worker was spawned or became healthy. So no
      crash is charged twice, by any two of the three paths, and a worker reported
      draining never enters the failure path (nor, by ChargeReportsArePaired, is
      it ever reported restarting or failed) before it is back in service. */
  lemma {:induction false} NoChargeWhileGrounded(cfg: PoolConfig, ops: seq<Op>, i: nat, j: nat, id: WorkerId)
    requires Legal(cfg, ops) && i < j < |TraceOf(cfg, ops)|
    requires Grounds(TraceOf(cfg, ops)[i], id)
    requires TraceOf(cfg, ops)[j] == WorkerUnhealthy(id)
    ensures exists k :: i < k < j && Launches(TraceOf(cfg, ops)[k], id)
    decreases |ops|
  {
    var t, op := After(cfg, Front(ops)), Last(ops);
    var before := TraceOf(cfg, Front(ops));
    var trace := TraceOf(cfg, ops);
    assert forall n :: 0 <= n < |before| ==> trace[n] == before[n];
    if j < |before| {
      NoChargeWhileGrounded(cfg, Front(ops), i, j, id);
    } else {
      UnhealthyComesFirst(cfg, t, op, j - |before|);
      assert trace[j] == Step(cfg, t, op).events[j - |before|];
      StepGrounding(cfg, GeneratedIds(Front(ops)), t, op, id);
      GroundedIsInactive(cfg, Front(ops), id);
      assert !Grounded(before, id);
      assert Grounds(before[i], id);
    }
  }

  lemma UnhealthyComesFirst(cfg: PoolConfig, t: Table, op: Op, n: nat)
    requires n < |Step(cfg, t, op).events| && Step(cfg, t, op).events[n].WorkerUnhealthy?
    ensures n == 0
  {
  }

  /** The failure path cannot follow a WorkerDraining: a WorkerRestarting or
      WorkerFailed after a WorkerDraining of the same worker also has a launch
      of it in between. */
  lemma NoFailureAfterDraining(cfg: PoolConfig, ops: seq<Op>, i: nat, j: nat, id: WorkerId)
    requires Legal(cfg, ops) && i < j < |TraceOf(cfg, ops)|
    requires TraceOf(cfg, ops)[i] == WorkerDraining(id)
    requires var e := TraceOf(cfg, ops)[j];
             (e.WorkerUnhealthy? || e.WorkerRestarting? || e.WorkerFailed?) && e.id == id
    ensures exists k :: i < k < j && Launches(TraceOf(cfg, ops)[k], id)
  {
    var trace := TraceOf(cfg, ops);
    ChargeReportsArePaired(cfg, ops);
    if trace[j].WorkerUnhealthy? {
      NoChargeWhileGrounded(cfg, ops, i, j, id);
    } else {
      NoChargeWhileGrounded(cfg, ops, i, j - 1, id);
    }
  }

  // ---- spawned before healthy ----

  ghost predicate SpawnedIn(trace: seq<PoolEvent>, id: WorkerId) {
    exists i :: 0 <= i < |trace| && trace[i].WorkerSpawned? && trace[i].id == id
  }

  lemma SpawnedInAppend(a: seq<PoolEvent>, b: seq<PoolEvent>, id: WorkerId)
    ensures SpawnedIn(a, id) || SpawnedIn(b, id) ==> SpawnedIn(a + b, id)
  {
    var t := a + b;
    if i :| 0 <= i < |a| && a[i].WorkerSpawned? && a[i].id == id {
      assert t[i] == a[i];
    } else if i :| 0 <= i < |b| && b[i].WorkerSpawned? && b[i].id == id {
      assert t[|a| + i] == b[i];
    }
  }

  lemma {:induction false} EntriesWereSpawned(cfg: PoolConfig, ops: seq<Op>, id: WorkerId)
    requires id in After(cfg, ops)
    ensures SpawnedIn(TraceOf(cfg, ops), id)
    decreases |ops|
  {
    var t, op := After(cfg, Front(ops)), Last(ops);
    var events := Step(cfg, t, op).events;
    if id in t {
      EntriesWereSpawned(cfg, Front(ops), id);
    } else {
      assert events[0].WorkerSpawned? && events[0].id == id;
    }
    SpawnedInAppend(TraceOf(cfg, Front(ops)), events, id);
  }

  /** Children announce themselves ready only under ids the pool has spawned. */
  ghost predicate ReadyNamesSpawned(cfg: PoolConfig, ops: seq<Op>) {
    forall k, id :: 0 <= k < |ops| && IsReady(ops[k], id) ==> SpawnedIn(TraceOf(cfg, ops[..k]), id)
  }

  /** WorkerSpawned comes before WorkerHealthy, for every worker. */
  ghost predicate HealthyWereSpawned(trace: seq<PoolEvent>) {
    forall j :: 0 <= j < |trace| && trace[j].WorkerHealthy? ==> SpawnedIn(trace[..j], trace[j].id)
  }

  /** The step reports a worker healthy: a Ready, or a healthy check. */
  lemma HealthyComesFirst(cfg: PoolConfig, t: Table, op: Op, n: nat)
    requires n < |Step(cfg, t, op).events| && Step(cfg, t, op).events[n].WorkerHealthy?
    ensures n == 0
    ensures var id := Step(cfg, t, op).events[n].id;
            IsReady(op, id) || (op.Check? && id in t)
  {
  }

  lemma ReadyNamesSnoc(cfg: PoolConfig, ops: seq<Op>)
    requires ops != []
    ensures ReadyNamesSpawned(cfg, ops) <==>
            && ReadyNamesSpawned(cfg, Front(ops))
            && forall id :: IsReady(Last(ops), id) ==> SpawnedIn(TraceOf(cfg, Front(ops)), id)
  {
    var before := Front(ops);
    assert ops[..|before|] == before;
    assert forall k :: 0 <= k < |before| ==> before[k] == ops[k] && before[..k] == ops[..k];
    if ReadyNamesSpawned(cfg, ops) {
      forall k, id | 0 <= k < |before| && IsReady(before[k], id)
        ensures SpawnedIn(TraceOf(cfg, before[..k]), id)
      {
        assert IsReady(ops[k], id);
      }
      forall id | IsReady(Last(ops), id) ensures SpawnedIn(TraceOf(cfg, before), id) {
        assert IsReady(ops[|before|], id);
      }
    }
  }

  lemma HealthyAppend(before: seq<PoolEvent>, events: seq<PoolEvent>)
    requires forall n :: 0 <= n < |events| && events[n].WorkerHealthy? ==> n == 0
    ensures HealthyWereSpawned(before + events) <==>
            && HealthyWereSpawned(before)
            && (events != [] && events[0].WorkerHealthy? ==> SpawnedIn(before, events[0].id))
  {
    var trace := before + events;
    assert forall j :: 0 <= j < |before| ==> trace[j] == before[j] && trace[..j] == before[..j];
    assert trace[..|before|] == before;
    assert forall n :: 0 <= n < |events| ==> trace[|before| + n] == events[n];
    if HealthyWereSpawned(trace) && events != [] && events[0].WorkerHealthy? {
      assert trace[|before|] == events[0];
    }
    if HealthyWereSpawned(trace) {
      forall j | 0 <= j < |before| && before[j].WorkerHealthy? ensures SpawnedIn(before[..j], before[j].id) {
        assert trace[j].WorkerHealthy?;
      }
    }
  }

  /** In any history WorkerSpawned precedes WorkerHealthy for every worker
      exactly when children announce themselves ready under spawned ids only. */
  lemma {:induction false} SpawnedBeforeHealthyIff(cfg: PoolConfig, ops: seq<Op>)
    ensures HealthyWereSpawned(TraceOf(cfg, ops)) <==> ReadyNamesSpawned(cfg, ops)
    decreases |ops|
  {
    if ops != [] {
      var t, op := After(cfg, Front(ops)), Last(ops);
      var before, events := TraceOf(cfg, Front(ops)), Step(cfg, t, op).events;
      SpawnedBeforeHealthyIff(cfg, Front(ops));
      forall n | 0 <= n < |events| && events[n].WorkerHealthy?
        ensures n == 0 && (IsReady(op, events[n].id) || SpawnedIn(before, events[n].id))
      {
        HealthyComesFirst(cfg, t, op, n);
        if events[n].id in t {
          EntriesWereSpawned(cfg, Front(ops), events[n].id);
        }
      }
      HealthyAppend(before, events);
      ReadyNamesSnoc(cfg, ops);
      forall id | IsReady(op, id) ensures events[0] == WorkerHealthy(id, op.event.port) {
      }
    }
  }

  /** The condition is not always met: a worker.ready without a workerId is
      reported as "unknown", an id no pool has spawned. */
  lemma UnknownReadyIsReportedHealthy(cfg: PoolConfig, port: U16, now: Instant)
    ensures var ops := [Child(Ready(port, "unknown"), now)];
            && Legal(cfg, ops)
            && TraceOf(cfg, ops) == [WorkerHealthy("unknown", port), AllWorkersHealthy]
            && !HealthyWereSpawned(TraceOf(cfg, ops))
  {
    var op := Child(Ready(port, "unknown"), now);
    HistorySnoc(cfg, [], op);
    assert [] + [op] == [op];
    var trace := TraceOf(cfg, [op]);
    assert trace == [] + Step(cfg, map[], op).events;
    assert trace[0].WorkerHealthy? && trace[..0] == [];
  }
}
