/** Restart backoff over timed histories of the pool. */
module PoolTiming {
  import opened Prelude
  import opened Backoff
  import opened PoolProtocol
  import opened PoolBudget

  /** The clock reading a step makes, for the steps that make one. */
  function ReadingOf(op: Op): Option<Instant> {
    match op
    case Child(_, now) => Some(now)
    case Check(_, probe) => Some(probe.now)
    case AutoRestart(_, now, _) => Some(now)
    case ApiRestart(_, _, now, _) => Some(now)
    case _ => None
  }

  lemma ChargeSetsDeadline(cfg: PoolConfig, t: Table, op: Op, id: WorkerId)
    requires WorkerUnhealthy(id) in Step(cfg, t, op).events
    ensures id in t && ReadingOf(op).Some?
    ensures var m := Step(cfg, t, op).table[id];
            && (m.state.Stopped? || m.state == Failed(ReadingOf(op).value + DelayFor(cfg, m.failures)))
            && m.failures == t[id].failures + 1
  {
  }

  // ---- the deadline of a worker ----

  /** The deadline a step sets for `id`, if it sets one: a charge sets its
      reading plus the backoff of the count reached, a failed API restart its
      reading plus the plain restart delay. */
  function DeadlineSet(cfg: PoolConfig, t: Table, op: Op, id: WorkerId, charges: nat): Option<Instant> {
    if WorkerUnhealthy(id) in Step(cfg, t, op).events && ReadingOf(op).Some? then
      Some(ReadingOf(op).value + DelayFor(cfg, charges))
    else if ApiRestartFails(op, id) && id in t then Some(op.now + cfg.restartDelay)
    else None
  }

  /** The deadline set last, 0 if there is none. */
  function Deadline(cfg: PoolConfig, ops: seq<Op>, id: WorkerId): Instant {
    if ops == [] then 0
    else
      match DeadlineSet(cfg, After(cfg, Front(ops)), Last(ops), id, ChargeCount(cfg, ops, id))
      case Some(due) => due
      case None => Deadline(cfg, Front(ops), id)
  }

  lemma StepSetsDeadline(cfg: PoolConfig, used: set<WorkerId>, t: Table, op: Op, id: WorkerId, due: Instant)
    requires Allowed(cfg, used, t, op)
    requires id in t && t[id].state.Failed? ==> t[id].state.restartAt == due
    ensures var t' := Step(cfg, t, op).table;
            id in t' && t'[id].state.Failed? ==>
              match DeadlineSet(cfg, t, op, id, t'[id].failures)
              case Some(next) => t'[id].state.restartAt == next
              case None => t'[id].state.restartAt == due
  {
  }

  /** A pending restart is due exactly at the deadline set last. */
  lemma {:induction false} PendingIsDueAtDeadline(cfg: PoolConfig, ops: seq<Op>, id: WorkerId)
    requires Legal(cfg, ops) && id in After(cfg, ops) && After(cfg, ops)[id].state.Failed?
    ensures After(cfg, ops)[id].state.restartAt == Deadline(cfg, ops, id)
    decreases |ops|
  {
    var before, op := Front(ops), Last(ops);
    var t := After(cfg, before);
    if id in t && t[id].state.Failed? {
      PendingIsDueAtDeadline(cfg, before, id);
    }
    StepSetsDeadline(cfg, GeneratedIds(before), t, op, id, Deadline(cfg, before, id));
    FailureCounterIsExact(cfg, ops, id);
  }

  /** Every automatic restart of every legal history happens at or after the
      deadline set last, whatever the clock readings and whatever came between. */
  lemma RestartsWaitForDeadline(cfg: PoolConfig, ops: seq<Op>, j: nat)
    requires Legal(cfg, ops) && j < |ops| && ops[j].AutoRestart?
    ensures ops[j].now >= Deadline(cfg, ops[..j], ops[j].id)
  {
    LegalPrefix(cfg, ops, j);
    PendingIsDueAtDeadline(cfg, ops[..j], ops[j].id);
  }

  /** And the deadline is all it waits for: after a legal history the pool may
      restart a worker exactly if it waits for a restart, has charges within the
      budget, and its deadline has come. */
  lemma RestartAllowedIff(cfg: PoolConfig, ops: seq<Op>, id: WorkerId, now: Instant, spawned: bool)
    requires Legal(cfg, ops)
    ensures Legal(cfg, ops + [AutoRestart(id, now, spawned)]) <==>
            && id in After(cfg, ops) && After(cfg, ops)[id].state.Failed?
            && ChargeCount(cfg, ops, id) <= cfg.maxFailures
            && now >= Deadline(cfg, ops, id)
  {
    HistorySnoc(cfg, ops, AutoRestart(id, now, spawned));
    if id in After(cfg, ops) && After(cfg, ops)[id].state.Failed? {
      PendingIsDueAtDeadline(cfg, ops, id);
      FailureCounterIsExact(cfg, ops, id);
    }
  }

  // ---- backoff ----

  /** Clock readings never decrease along the history. */
  ghost predicate TimeNeverDecreases(ops: seq<Op>) {
    forall i, j :: 0 <= i < j < |ops| && ReadingOf(ops[i]).Some? && ReadingOf(ops[j]).Some? ==>
      ReadingOf(ops[i]).value <= ReadingOf(ops[j]).value
  }

  lemma DeadlineUnfolds(cfg: PoolConfig, ops: seq<Op>, j: nat, id: WorkerId)
    requires j < |ops|
    ensures Deadline(cfg, ops[..j + 1], id) ==
            match DeadlineSet(cfg, After(cfg, ops[..j]), ops[j], id, ChargeCount(cfg, ops[..j + 1], id))
            case Some(due) => due
            case None => Deadline(cfg, ops[..j], id)
    ensures !IsReady(ops[j], id) ==> ChargeCount(cfg, ops[..j], id) <= ChargeCount(cfg, ops[..j + 1], id)
  {
    assert Front(ops[..j + 1]) == ops[..j] && Last(ops[..j + 1]) == ops[j];
  }

  /** After a charge, the deadline and the account only grow while no Ready and
      no failed API restart of the worker comes. */
  lemma {:induction false} DeadlineGrows(cfg: PoolConfig, ops: seq<Op>, i: nat, j: nat, id: WorkerId)
    requires TimeNeverDecreases(ops) && i < j <= |ops|
    requires WorkerUnhealthy(id) in EventsAt(cfg, ops, i) && ReadingOf(ops[i]).Some?
    requires forall k :: i < k < j ==> !IsReady(ops[k], id) && !ApiRestartFails(ops[k], id)
    ensures ChargeCount(cfg, ops[..i + 1], id) <= ChargeCount(cfg, ops[..j], id)
    ensures Deadline(cfg, ops[..j], id) >= ReadingOf(ops[i]).value + DelayFor(cfg, ChargeCount(cfg, ops[..i + 1], id))
    decreases j
  {
    DeadlineUnfolds(cfg, ops, j - 1, id);
    if j > i + 1 {
      DeadlineGrows(cfg, ops, i, j - 1, id);
      DelayMonotoneAndCapped(cfg.restartDelay, cfg.maxRestartDelay,
                             ChargeCount(cfg, ops[..i + 1], id), ChargeCount(cfg, ops[..j], id));
    }
  }

  /** Backoff is respected: with a clock that never goes back, a worker charged
      at time t with count f is not restarted automatically before t + delay(f)
      in any stretch with no Ready and no failed API restart of it, even if it
      is charged or restarted in between. */
  lemma BackoffIsRespected(cfg: PoolConfig, ops: seq<Op>, i: nat, j: nat, id: WorkerId)
    requires Legal(cfg, ops) && TimeNeverDecreases(ops) && i < j < |ops|
    requires WorkerUnhealthy(id) in EventsAt(cfg, ops, i)
    requires ops[j].AutoRestart? && ops[j].id == id
    requires forall k :: i < k < j ==> !IsReady(ops[k], id) && !ApiRestartFails(ops[k], id)
    ensures ReadingOf(ops[i]).Some?
    ensures ops[j].now >= ReadingOf(ops[i]).value + DelayFor(cfg, ChargeCount(cfg, ops[..i + 1], id))
  {
    ChargeSetsDeadline(cfg, After(cfg, ops[..i]), ops[i], id);
    DeadlineGrows(cfg, ops, i, j, id);
    RestartsWaitForDeadline(cfg, ops, j);
  }

  const MS: nat := NANOS_PER_MILLI

  /** Spawned, crashed at 0, restarted at 1 ms, crashed at 1 ms; then an API
      restart fails at 1 ms and the worker is restarted at 2 ms. */
  function CutHistory(port: U16): seq<Op> {
    [Spawn("w", port, true), Child(Exited("w", Some(1)), 0), AutoRestart("w", MS, true),
     Child(Exited("w", Some(1)), MS), ApiRestart("w", "x", MS, false), AutoRestart("w", 2 * MS, true)]
  }

  predicate CutConfig(cfg: PoolConfig) {
    cfg.basePort <= cfg.maxPort && cfg.maxFailures >= 3 && cfg.restartDelay == MS && cfg.maxRestartDelay == 30_000 * MS
  }

  /** Without the exclusion of failed API restarts the bound fails: in a legal
      history with a restart delay of 1 ms, a worker charged for the second time
      at 1 ms is restarted at 2 ms, before the end of its backoff at 3 ms. */
  lemma FailedApiRestartCutsBackoff(cfg: PoolConfig)
    requires CutConfig(cfg)
    ensures var ops := CutHistory(cfg.basePort);
            && Legal(cfg, ops) && TimeNeverDecreases(ops)
            && WorkerUnhealthy("w") in EventsAt(cfg, ops, 3) && ReadingOf(ops[3]) == Some(MS)
            && ops[5].now == 2 * MS < MS + DelayFor(cfg, ChargeCount(cfg, ops[..4], "w")) == 3 * MS
  {
    var ops := CutHistory(cfg.basePort);
    FirstDelays(cfg);
    FirstCrash(cfg, ops);
    SecondCrash(cfg, ops);
    LegalFrom(cfg, ops, 5, map["w" := Managed(cfg.basePort, Failed(2 * MS), 3, 0)], {"w", "x"});
    assert ops[..6] == ops;
  }

  lemma FirstCrash(cfg: PoolConfig, ops: seq<Op>)
    requires CutConfig(cfg) && ops == CutHistory(cfg.basePort)
    ensures Legal(cfg, ops[..3]) && GeneratedIds(ops[..3]) == {"w"}
    ensures After(cfg, ops[..3]) == map["w" := Managed(cfg.basePort, Starting, 1, 0)]
  {
    FirstDelays(cfg);
    assert ops[..0] == [];
    LegalFrom(cfg, ops, 0, map[], {});
    LegalFrom(cfg, ops, 1, map["w" := NewWorker(cfg.basePort)], {"w"});
    LegalFrom(cfg, ops, 2, map["w" := Managed(cfg.basePort, Failed(MS), 1, 0)], {"w"});
  }

  lemma SecondCrash(cfg: PoolConfig, ops: seq<Op>)
    requires CutConfig(cfg) && ops == CutHistory(cfg.basePort)
    requires Legal(cfg, ops[..3]) && GeneratedIds(ops[..3]) == {"w"}
    requires After(cfg, ops[..3]) == map["w" := Managed(cfg.basePort, Starting, 1, 0)]
    ensures Legal(cfg, ops[..5]) && GeneratedIds(ops[..5]) == {"w", "x"}
    ensures After(cfg, ops[..5]) == map["w" := Managed(cfg.basePort, Failed(2 * MS), 3, 0)]
    ensures WorkerUnhealthy("w") in EventsAt(cfg, ops, 3)
    ensures ChargeCount(cfg, ops[..4], "w") == 2
  {
    FirstDelays(cfg);
    LegalFrom(cfg, ops, 3, map["w" := Managed(cfg.basePort, Starting, 1, 0)], {"w"});
    FailureCounterIsExact(cfg, ops[..4], "w");
    LegalFrom(cfg, ops, 4, map["w" := Managed(cfg.basePort, Failed(3 * MS), 2, 0)], {"w"});
  }

  lemma FirstDelays(cfg: PoolConfig)
    requires CutConfig(cfg)
    ensures DelayFor(cfg, 1) == MS && DelayFor(cfg, 2) == 2 * MS
  {
    assert Pow2(0) == 1 && Pow2(1) == 2;
  }
}
