/** The worker pool of supervisor/src/pool.rs as a transition system: the
    entities, one step of each kind, and the histories steps make up.

    A step (`Op`) is what the pool does to one worker at a time under its lock.
    Everything the environment decides is part of the step: whether a process
    spawned or still runs, what a health probe said, and every clock reading. */
module PoolProtocol {
  import opened Prelude
  import opened Backoff

  type WorkerId = string

  /** A monotonic clock reading, in nanoseconds. */
  type Instant = nat

  datatype WorkerState =
    | Starting
    | Healthy
    | Draining
    | Failed(restartAt: Instant)
    | Stopped

  datatype Managed = Managed(port: U16, state: WorkerState, failures: nat, unhealthy: nat)

  type Table = map<WorkerId, Managed>

  datatype PoolConfig = PoolConfig(
    workerCount: nat,
    basePort: U16,
    maxPort: U16,
    restartDelay: Duration,
    maxRestartDelay: Duration,
    maxFailures: nat,
    maxUnhealthyChecks: nat)

  datatype PoolEvent =
    | WorkerSpawned(id: WorkerId, port: U16)
    | WorkerHealthy(id: WorkerId, port: U16)
    | WorkerUnhealthy(id: WorkerId)
    | WorkerDraining(id: WorkerId)
    | WorkerDrained(id: WorkerId)
    | WorkerRestarting(id: WorkerId, attempt: nat)
    | WorkerFailed(id: WorkerId)
    | AllWorkersHealthy

  datatype ChildEvent =
    | Ready(port: U16, id: WorkerId)
    | ChildDraining(id: WorkerId)
    | ChildDrained(id: WorkerId)
    | Exited(id: WorkerId, exitCode: Option<int>)
    | Output

  /** What one health check of one worker meets: the probe's verdict, whether
      the process still runs, and the time. */
  datatype Probe = Probe(healthy: bool, running: bool, now: Instant)

  datatype Op =
    | Child(event: ChildEvent, now: Instant)
    | Check(id: WorkerId, probe: Probe)
    | AutoRestart(id: WorkerId, now: Instant, spawned: bool)
    | Spawn(id: WorkerId, port: U16, spawned: bool)
    | Drain(id: WorkerId, running: bool)
    | Kill(id: WorkerId, running: bool)
    | ApiRestart(id: WorkerId, newId: WorkerId, now: Instant, spawned: bool)

  datatype Outcome = Outcome(table: Table, events: seq<PoolEvent>)

  // ---- entries ----

  function NewWorker(port: U16): Managed {
    Managed(port, Starting, 0, 0)
  }

  predicate IsActive(m: Managed) {
    m.state.Starting? || m.state.Healthy?
  }

  predicate Active(t: Table, id: WorkerId) {
    id in t && IsActive(t[id])
  }

  predicate AllHealthy(t: Table) {
    forall id :: id in t ==> t[id].state.Healthy?
  }

  predicate Due(cfg: PoolConfig, m: Managed, now: Instant) {
    m.state.Failed? && now >= m.state.restartAt && m.failures <= cfg.maxFailures
  }

  function DelayFor(cfg: PoolConfig, failures: nat): Duration {
    RestartDelay(cfg.restartDelay, cfg.maxRestartDelay, failures)
  }

  /** The pair of events that reports a charged failure. */
  function ChargeEvents(cfg: PoolConfig, id: WorkerId, failures: nat): seq<PoolEvent> {
    [WorkerUnhealthy(id),
     if failures <= cfg.maxFailures then WorkerRestarting(id, failures) else WorkerFailed(id)]
  }

  // ---- one step of each kind ----

  predicate ExitCharges(m: Managed, exitCode: Option<int>) {
    IsActive(m) && exitCode != Some(0)
  }

  function ExitEntry(cfg: PoolConfig, m: Managed, exitCode: Option<int>, now: Instant): Managed {
    if ExitCharges(m, exitCode) then
      m.(failures := m.failures + 1, state := Failed(now + DelayFor(cfg, m.failures + 1)))
    else if m.state.Failed? then m
    else m.(state := Stopped)
  }

  function StepChild(cfg: PoolConfig, t: Table, event: ChildEvent, now: Instant): Outcome {
    match event
    case Ready(port, id) =>
      var t' := if id in t then t[id := t[id].(state := Healthy, failures := 0)] else t;
      Outcome(t', [WorkerHealthy(id, port)] + if AllHealthy(t') then [AllWorkersHealthy] else [])
    case ChildDraining(id) =>
      Outcome(if id in t then t[id := t[id].(state := Draining)] else t, [WorkerDraining(id)])
    case ChildDrained(id) =>
      Outcome(t, [WorkerDrained(id)])
    case Exited(id, exitCode) =>
      if id !in t then Outcome(t, [])
      else
        Outcome(t[id := ExitEntry(cfg, t[id], exitCode, now)],
                if ExitCharges(t[id], exitCode) then ChargeEvents(cfg, id, t[id].failures + 1) else [])
    case Output =>
      Outcome(t, [])
  }

  predicate ProbeCharges(cfg: PoolConfig, m: Managed, probe: Probe) {
    && !probe.healthy
    && if probe.running then m.state.Healthy? && m.unhealthy + 1 >= cfg.maxUnhealthyChecks
       else !m.state.Failed? && !m.state.Stopped?
  }

  function CheckEntry(cfg: PoolConfig, m: Managed, probe: Probe): Managed {
    if probe.healthy then
      m.(unhealthy := 0, state := if m.state.Starting? then Healthy else m.state)
    else if ProbeCharges(cfg, m, probe) then
      var failures := m.failures + 1;
      m.(failures := failures, unhealthy := 0,
         state := if failures <= cfg.maxFailures then Failed(probe.now + DelayFor(cfg, failures)) else Stopped)
    else if probe.running && m.state.Healthy? then
      m.(unhealthy := m.unhealthy + 1)
    else m
  }

  function CheckEvents(cfg: PoolConfig, id: WorkerId, m: Managed, probe: Probe): seq<PoolEvent> {
    if probe.healthy && m.state.Starting? then [WorkerHealthy(id, m.port)]
    else if ProbeCharges(cfg, m, probe) then ChargeEvents(cfg, id, m.failures + 1)
    else []
  }

  function Step(cfg: PoolConfig, t: Table, op: Op): Outcome {
    match op
    case Child(event, now) => StepChild(cfg, t, event, now)
    case Check(id, probe) =>
      if id !in t then Outcome(t, [])
      else Outcome(t[id := CheckEntry(cfg, t[id], probe)], CheckEvents(cfg, id, t[id], probe))
    case AutoRestart(id, now, spawned) =>
      if id !in t then Outcome(t, [])
      else if spawned then
        Outcome(t[id := NewWorker(t[id].port).(failures := t[id].failures)], [WorkerSpawned(id, t[id].port)])
      else Outcome(t - {id}, [])
    case Spawn(id, port, spawned) =>
      if spawned then Outcome(t[id := NewWorker(port)], [WorkerSpawned(id, port)]) else Outcome(t, [])
    case Drain(id, running) =>
      Outcome(if id in t then t[id := t[id].(state := if running then Draining else Stopped)] else t, [])
    case Kill(id, running) =>
      Outcome(if id in t then t[id := t[id].(state := Stopped)] else t, [])
    case ApiRestart(id, newId, now, spawned) =>
      if id !in t then Outcome(t, [])
      else if spawned then
        Outcome(t[newId := NewWorker(t[id].port)] - {id}, [WorkerSpawned(newId, t[id].port)])
      else
        Outcome(t[id := t[id].(state := Failed(now + cfg.restartDelay), failures := t[id].failures + 1)], [])
  }

  // ---- histories ----

  /** The table after a history of steps from an empty pool. */
  function After(cfg: PoolConfig, ops: seq<Op>): Table {
    if ops == [] then map[] else Step(cfg, After(cfg, Front(ops)), Last(ops)).table
  }

  /** Every event the history emitted, in order. */
  function TraceOf(cfg: PoolConfig, ops: seq<Op>): seq<PoolEvent> {
    if ops == [] then [] else TraceOf(cfg, Front(ops)) + Step(cfg, After(cfg, Front(ops)), Last(ops)).events
  }

  /** The events of step `k` of a history. */
  function EventsAt(cfg: PoolConfig, ops: seq<Op>, k: nat): seq<PoolEvent>
    requires k < |ops|
  {
    Step(cfg, After(cfg, ops[..k]), ops[k]).events
  }

  /** Identifiers the pool has generated so far. */
  function GeneratedIds(ops: seq<Op>): set<WorkerId> {
    if ops == [] then {}
    else GeneratedIds(Front(ops)) + match Last(ops)
                                    case Spawn(id, _, _) => {id}
                                    case ApiRestart(_, newId, _, _) => {newId}
                                    case _ => {}
  }

  /** What the pool guarantees of the steps it takes by itself: a generated id
      is new, a spawn gets a free port in range, a health check visits workers
      it believes alive, and an automatic restart is due. Child events and API
      calls are unrestricted: they may be stale or name unknown workers. */
  predicate Allowed(cfg: PoolConfig, used: set<WorkerId>, t: Table, op: Op) {
    match op
    case Check(id, _) => Active(t, id)
    case AutoRestart(id, now, _) => id in t && Due(cfg, t[id], now)
    case Spawn(id, port, _) =>
      && id !in used
      && cfg.basePort <= port <= cfg.maxPort
      && forall other :: other in t ==> t[other].port != port
    case ApiRestart(_, newId, _, _) => newId !in used
    case _ => true
  }

  predicate Legal(cfg: PoolConfig, ops: seq<Op>) {
    ops == [] ||
    (Legal(cfg, Front(ops)) && Allowed(cfg, GeneratedIds(Front(ops)), After(cfg, Front(ops)), Last(ops)))
  }

  /** One more step extends every view of a history by that step. */
  lemma HistorySnoc(cfg: PoolConfig, ops: seq<Op>, op: Op)
    ensures After(cfg, ops + [op]) == Step(cfg, After(cfg, ops), op).table
    ensures TraceOf(cfg, ops + [op]) == TraceOf(cfg, ops) + Step(cfg, After(cfg, ops), op).events
    ensures Legal(cfg, ops + [op]) <==> Legal(cfg, ops) && Allowed(cfg, GeneratedIds(ops), After(cfg, ops), op)
  {
    SnocShape(ops, op);
  }

  lemma {:induction false} LegalPrefix(cfg: PoolConfig, ops: seq<Op>, k: nat)
    requires Legal(cfg, ops) && k <= |ops|
    ensures Legal(cfg, ops[..k])
    ensures k < |ops| ==> Allowed(cfg, GeneratedIds(ops[..k]), After(cfg, ops[..k]), ops[k])
  {
    if k == |ops| {
      assert ops[..k] == ops;
    } else {
      LegalPrefix(cfg, Front(ops), k);
      assert Front(ops)[..k] == ops[..k];
      if k == |ops| - 1 {
        assert ops[..k] == Front(ops);
      }
    }
  }

  /** The history up to step `i` made this table, and step `i` is allowed: then
      the history up to `i + 1` is legal. For following a concrete history. */
  lemma LegalFrom(cfg: PoolConfig, ops: seq<Op>, i: nat, t: Table, used: set<WorkerId>)
    requires i < |ops| && Legal(cfg, ops[..i]) && After(cfg, ops[..i]) == t && GeneratedIds(ops[..i]) == used
    requires Allowed(cfg, used, t, ops[i])
    ensures Legal(cfg, ops[..i + 1])
    ensures After(cfg, ops[..i + 1]) == Step(cfg, t, ops[i]).table
    ensures EventsAt(cfg, ops, i) == Step(cfg, t, ops[i]).events
    ensures GeneratedIds(ops[..i + 1]) == used + match ops[i]
                                                 case Spawn(id, _, _) => {id}
                                                 case ApiRestart(_, newId, _, _) => {newId}
                                                 case _ => {}
  {
    assert Front(ops[..i + 1]) == ops[..i] && Last(ops[..i + 1]) == ops[i];
  }
}
