/** How workers enter and leave service: what exits, health checks and
    announcements decide, in terms of the steps alone. */
module PoolService {
  import opened Prelude
  import opened PoolProtocol
  import opened PoolBudget

  // ---- exits ----

  /** An exit is charged exactly to a worker in service that did not exit with
      code 0, whatever the table and the time. */
  lemma ExitChargedIff(cfg: PoolConfig, t: Table, id: WorkerId, code: Option<int>, now: Instant)
    ensures WorkerUnhealthy(id) in Step(cfg, t, Child(Exited(id, code), now)).events
            <==> id in t && (t[id].state.Starting? || t[id].state.Healthy?) && code != Some(0)
  {
  }

  /** A charged exit counts once and leaves the worker waiting for its backoff,
      even if it has no budget left. */
  lemma CrashIsCharged(cfg: PoolConfig, t: Table, id: WorkerId, code: Option<int>, now: Instant)
    requires Active(t, id) && code != Some(0)
    ensures var failures := t[id].failures + 1;
            Step(cfg, t, Child(Exited(id, code), now)).table
            == t[id := t[id].(failures := failures, state := Failed(now + DelayFor(cfg, failures)))]
  {
  }

  /** A clean exit of a worker in service, and any exit of a draining one, stops
      it, changes nothing else and announces nothing. */
  lemma CleanExitStops(cfg: PoolConfig, t: Table, id: WorkerId, code: Option<int>, now: Instant)
    requires id in t && (t[id].state.Draining? || (Active(t, id) && code == Some(0)))
    ensures Step(cfg, t, Child(Exited(id, code), now)) == Outcome(t[id := t[id].(state := Stopped)], [])
  {
  }

  /** An exit of a worker that was already dealt with, or of none, is ignored. */
  lemma LateExitIsIgnored(cfg: PoolConfig, t: Table, id: WorkerId, code: Option<int>, now: Instant)
    requires id in t ==> t[id].state.Failed? || t[id].state.Stopped?
    ensures Step(cfg, t, Child(Exited(id, code), now)) == Outcome(t, [])
  {
    if id in t {
      assert t[id := t[id]] == t;
    }
  }

  // ---- announcements of health ----

  /** A Ready is reported under the id and port it names, makes the entry of
      that id Healthy with a clean record, and touches nothing else of it. */
  lemma ReadyOutcome(cfg: PoolConfig, t: Table, port: U16, id: WorkerId, now: Instant)
    ensures var out := Step(cfg, t, Child(Ready(port, id), now));
            && out.events != [] && out.events[0] == WorkerHealthy(id, port)
            && out.table.Keys == t.Keys
            && (id in t ==> out.table[id] == Managed(t[id].port, Healthy, 0, t[id].unhealthy))
  {
  }

  /** What children say of draining is announced under the id they name, known
      or not; draining moves the entry of that id, drained moves nothing, and
      other output does nothing at all. */
  lemma DrainOutcome(cfg: PoolConfig, t: Table, id: WorkerId, now: Instant)
    ensures var out := Step(cfg, t, Child(ChildDraining(id), now));
            && out.events == [WorkerDraining(id)] && out.table.Keys == t.Keys
            && (id in t ==> out.table[id] == Managed(t[id].port, Draining, t[id].failures, t[id].unhealthy))
    ensures Step(cfg, t, Child(ChildDrained(id), now)) == Outcome(t, [WorkerDrained(id)])
    ensures Step(cfg, t, Child(Output, now)) == Outcome(t, [])
  {
  }

  /** All workers are announced healthy exactly by a Ready that leaves every
      entry Healthy, and never twice in one step. */
  lemma AllHealthyIff(cfg: PoolConfig, t: Table, op: Op)
    ensures var out := Step(cfg, t, op);
            && (AllWorkersHealthy in out.events <==>
                  op.Child? && op.event.Ready? && forall id :: id in out.table ==> out.table[id].state.Healthy?)
            && forall i, j :: 0 <= i < j < |out.events| ==> out.events[i] != out.events[j]
  {
  }

  /** What a successful check does to a worker in service: it is Healthy with
      its hung counter reset, and announced if it was not Healthy before. */
  lemma HealthyCheckOutcome(cfg: PoolConfig, t: Table, id: WorkerId, probe: Probe)
    requires Active(t, id) && probe.healthy
    ensures var out := Step(cfg, t, Check(id, probe));
            && out.table == t[id := Managed(t[id].port, Healthy, t[id].failures, 0)]
            && out.events == if t[id].state.Healthy? then [] else [WorkerHealthy(id, t[id].port)]
  {
  }

  /** No step changes an entry, or announces a health state, of a worker other
      than the ones it is about. */
  lemma OtherWorkersUntouched(cfg: PoolConfig, t: Table, op: Op, other: WorkerId)
    requires !AboutWorker(op, other)
    ensures var out := Step(cfg, t, op);
            && (other in out.table <==> other in t)
            && (other in t ==> out.table[other] == t[other])
            && forall e :: e in out.events && !e.AllWorkersHealthy? ==> e.id != other
  {
  }

  predicate AboutWorker(op: Op, id: WorkerId) {
    match op
    case Child(Output, _) => false
    case Child(event, _) => event.id == id
    case ApiRestart(x, newId, _, _) => x == id || newId == id
    case _ => op.id == id
  }

  /** The trace has a WorkerHealthy of `id` after its latest WorkerSpawned. */
  function Confirmed(trace: seq<PoolEvent>, id: WorkerId): bool {
    if trace == [] then false
    else
      match Last(trace)
      case WorkerSpawned(x, _) => x != id && Confirmed(Front(trace), id)
      case WorkerHealthy(x, _) => x == id || Confirmed(Front(trace), id)
      case _ => Confirmed(Front(trace), id)
  }

  lemma ConfirmedAppend(trace: seq<PoolEvent>, events: seq<PoolEvent>, id: WorkerId)
    requires |events| <= 2 && forall i :: 1 <= i < |events| ==> !events[i].WorkerSpawned? && !events[i].WorkerHealthy?
    ensures Confirmed(trace + events, id) ==
            if events == [] then Confirmed(trace, id)
            else if events[0].WorkerSpawned? && events[0].id == id then false
            else if events[0].WorkerHealthy? && events[0].id == id then true
            else Confirmed(trace, id)
  {
    if |events| == 0 {
      assert trace + events == trace;
    } else if |events| == 1 {
      SnocShape(trace, events[0]);
      assert trace + events == trace + [events[0]];
    } else {
      SnocShape(trace, events[0]);
      SnocShape(trace + [events[0]], events[1]);
      assert trace + events == trace + [events[0]] + [events[1]];
    }
  }

  /** What a step's first event says of the health of `id`, if anything. */
  predicate SpeaksOf(events: seq<PoolEvent>, id: WorkerId) {
    events != [] && (events[0].WorkerSpawned? || events[0].WorkerHealthy?) && events[0].id == id
  }

  lemma StepHealth(cfg: PoolConfig, used: set<WorkerId>, t: Table, op: Op, id: WorkerId)
    requires Allowed(cfg, used, t, op) && t.Keys <= used
    ensures var out := Step(cfg, t, op);
            && |out.events| <= 2
            && (forall i :: 1 <= i < |out.events| ==> !out.events[i].WorkerSpawned? && !out.events[i].WorkerHealthy?)
            && (Active(out.table, id) ==>
                  if SpeaksOf(out.events, id) then out.table[id].state.Healthy? == out.events[0].WorkerHealthy?
                  else Active(t, id) && t[id].state == out.table[id].state)
  {
  }

  lemma StepConfirms(cfg: PoolConfig, used: set<WorkerId>, t: Table, op: Op, trace: seq<PoolEvent>, id: WorkerId)
    requires Allowed(cfg, used, t, op) && t.Keys <= used
    requires Active(t, id) ==> (t[id].state.Healthy? <==> Confirmed(trace, id))
    ensures var out := Step(cfg, t, op);
            Active(out.table, id) ==> (out.table[id].state.Healthy? <==> Confirmed(trace + out.events, id))
  {
    StepHealth(cfg, used, t, op, id);
    ConfirmedAppend(trace, Step(cfg, t, op).events, id);
  }

  /** Over every legal history, a worker in service is Healthy exactly if a
      WorkerHealthy of it was announced since its latest WorkerSpawned. */
  lemma {:induction false} HealthyIffConfirmed(cfg: PoolConfig, ops: seq<Op>, id: WorkerId)
    requires Legal(cfg, ops) && Active(After(cfg, ops), id)
    ensures After(cfg, ops)[id].state.Healthy? <==> Confirmed(TraceOf(cfg, ops), id)
    decreases |ops|
  {
    var before := Front(ops);
    if Active(After(cfg, before), id) {
      HealthyIffConfirmed(cfg, before, id);
    }
    EntriesWereGenerated(cfg, before);
    StepConfirms(cfg, GeneratedIds(before), After(cfg, before), Last(ops), TraceOf(cfg, before), id);
  }

  // ---- hung workers ----

  /** The step starts a process for `id`. */
  predicate StartsProcess(op: Op, id: WorkerId) {
    match op
    case Spawn(x, _, spawned) => x == id && spawned
    case AutoRestart(x, _, spawned) => x == id && spawned
    case ApiRestart(_, newId, _, spawned) => newId == id && spawned
    case _ => false
  }

  /** The failing checks of `id` in a row: those of a running, confirmed process
      since its start or the last check of it that succeeded, found it dead or
      was one too many. */
  function HungCount(cfg: PoolConfig, ops: seq<Op>, id: WorkerId): nat {
    if ops == [] || StartsProcess(Last(ops), id) then 0
    else
      var n := HungCount(cfg, Front(ops), id);
      match Last(ops)
      case Check(x, probe) =>
        if x != id then n
        else if probe.healthy || !probe.running then 0
        else if !Confirmed(TraceOf(cfg, Front(ops)), id) then n
        else if n + 1 < Max(1, cfg.maxUnhealthyChecks) then n + 1
        else 0
      case _ => n
  }

  lemma {:induction false} HungCounterIsExact(cfg: PoolConfig, ops: seq<Op>, id: WorkerId)
    requires Legal(cfg, ops) && id in After(cfg, ops)
    ensures After(cfg, ops)[id].unhealthy == HungCount(cfg, ops, id)
    decreases |ops|
  {
    var before := Front(ops);
    var t := After(cfg, before);
    EntriesWereGenerated(cfg, before);
    if id in t {
      HungCounterIsExact(cfg, before, id);
      if Active(t, id) {
        HealthyIffConfirmed(cfg, before, id);
      }
    }
    StepHungCount(cfg, GeneratedIds(before), t, Last(ops), id, HungCount(cfg, before, id),
                  Confirmed(TraceOf(cfg, before), id));
  }

  lemma StepHungCount(cfg: PoolConfig, used: set<WorkerId>, t: Table, op: Op, id: WorkerId, n: nat, confirmed: bool)
    requires Allowed(cfg, used, t, op) && t.Keys <= used
    requires id in t ==> t[id].unhealthy == n
    requires Active(t, id) ==> (t[id].state.Healthy? <==> confirmed)
    ensures var t' := Step(cfg, t, op).table;
            id in t' ==>
              t'[id].unhealthy ==
                if StartsProcess(op, id) then 0
                else if !op.Check? || op.id != id then n
                else if op.probe.healthy || !op.probe.running then 0
                else if !confirmed then n
                else if n + 1 < Max(1, cfg.maxUnhealthyChecks) then n + 1
                else 0
  {
  }

  /** After any legal history, a check of a worker in service charges it exactly
      if its process is gone, or it runs and this is the limit-th failing check
      in a row since it was announced healthy. */
  lemma CheckChargedIff(cfg: PoolConfig, ops: seq<Op>, id: WorkerId, probe: Probe)
    requires Legal(cfg, ops) && Active(After(cfg, ops), id)
    ensures WorkerUnhealthy(id) in Step(cfg, After(cfg, ops), Check(id, probe)).events <==>
            && !probe.healthy
            && (!probe.running
                || (Confirmed(TraceOf(cfg, ops), id)
                    && HungCount(cfg, ops, id) + 1 == Max(1, cfg.maxUnhealthyChecks)))
  {
    HungCounterIsExact(cfg, ops, id);
    HealthyIffConfirmed(cfg, ops, id);
    UnhealthyCounterBound(cfg, ops, id);
  }

  /** What a failing check that does not charge changes: at most the counter. */
  lemma FailingCheckOutcome(cfg: PoolConfig, t: Table, id: WorkerId, probe: Probe)
    requires Active(t, id) && !probe.healthy
    requires WorkerUnhealthy(id) !in Step(cfg, t, Check(id, probe)).events
    ensures Step(cfg, t, Check(id, probe)) ==
            Outcome(t[id := t[id].(unhealthy := t[id].unhealthy + if t[id].state.Healthy? then 1 else 0)], [])
  {
  }

  /** What one that does charge changes: it counts one failure and no failing
      check, and leaves the worker waiting only if it has budget left. */
  lemma ChargedCheckOutcome(cfg: PoolConfig, t: Table, id: WorkerId, probe: Probe)
    requires Active(t, id) && WorkerUnhealthy(id) in Step(cfg, t, Check(id, probe)).events
    ensures var failures := t[id].failures + 1;
            var state := if failures <= cfg.maxFailures then Failed(probe.now + DelayFor(cfg, failures)) else Stopped;
            Step(cfg, t, Check(id, probe)).table == t[id := Managed(t[id].port, state, failures, 0)]
  {
  }
}
