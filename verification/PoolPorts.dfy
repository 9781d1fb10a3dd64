/** Port allocation: range, distinctness and exact capacity. */
module PoolPorts {
  import opened Prelude
  import opened PoolProtocol
  import opened PoolBudget

  const U16_RANGE: nat := 0x1_0000

  /** `n as u16`. */
  function AsU16(n: nat): U16 {
    n % U16_RANGE
  }

  /** The checks WorkerPool::new makes before it returns; it panics otherwise. */
  predicate NewAccepts(cfg: PoolConfig) {
    if cfg.workerCount > 0 then
      var highest := cfg.basePort + AsU16(cfg.workerCount - 1);
      highest < U16_RANGE && highest <= cfg.maxPort
    else cfg.basePort <= cfg.maxPort
  }

  /** The port of the `i`-th initial worker, in wrapping u16 arithmetic. */
  function StartPort(cfg: PoolConfig, i: nat): U16 {
    AsU16(cfg.basePort + AsU16(i))
  }

  /** Accepted configurations start on distinct ports in range exactly when the
      worker count fits the port arithmetic: the check itself truncates. */
  lemma StartPortsSafeIff(cfg: PoolConfig)
    requires NewAccepts(cfg)
    ensures (&& (forall i :: 0 <= i < cfg.workerCount ==> cfg.basePort <= StartPort(cfg, i) <= cfg.maxPort)
             && (forall i, j :: 0 <= i < j < cfg.workerCount ==> StartPort(cfg, i) != StartPort(cfg, j)))
            <==> cfg.workerCount <= U16_RANGE
  {
    if cfg.workerCount > U16_RANGE {
      assert StartPort(cfg, 0) == StartPort(cfg, U16_RANGE);
    } else {
      forall i | 0 <= i < cfg.workerCount
        ensures StartPort(cfg, i) == cfg.basePort + i
      {
        SmallSumsDoNotWrap(cfg, i);
      }
    }
  }

  /** The excluded configurations exist: with the default port limit, 65537
      workers are accepted and the first and the last share a port. */
  lemma TruncatedCountIsAccepted(cfg: PoolConfig)
    requires cfg.workerCount == 65537 && cfg.basePort == 3001 && cfg.maxPort == 49151
    ensures NewAccepts(cfg) && StartPort(cfg, 0) == StartPort(cfg, 65536) == 3001
  {
  }

  /** Up to that count the check is the one intended: the last initial port,
      or the first if there is none, is within the limit. */
  lemma NewAcceptsIff(cfg: PoolConfig)
    requires cfg.workerCount <= 65536
    ensures NewAccepts(cfg) <==> cfg.basePort + Max(cfg.workerCount - 1, 0) <= cfg.maxPort
  {
  }

  lemma SmallSumsDoNotWrap(cfg: PoolConfig, i: nat)
    requires NewAccepts(cfg) && i < cfg.workerCount <= U16_RANGE
    ensures StartPort(cfg, i) == cfg.basePort + i <= cfg.maxPort
  {
    assert AsU16(cfg.workerCount - 1) == cfg.workerCount - 1;
    assert AsU16(i) == i;
  }

  // ---- distinct ports in range ----

  ghost predicate PortsSafe(cfg: PoolConfig, t: Table) {
    && (forall id :: id in t ==> cfg.basePort <= t[id].port <= cfg.maxPort)
    && (forall a, b :: a in t && b in t && a != b ==> t[a].port != t[b].port)
  }

  /** Between operations no two entries share a port and none leaves the
      configured range, through starts, spawns, automatic and API restarts. */
  lemma {:induction false} PortsStaySafe(cfg: PoolConfig, ops: seq<Op>)
    requires Legal(cfg, ops)
    ensures PortsSafe(cfg, After(cfg, ops))
    decreases |ops|
  {
    if ops != [] {
      PortsStaySafe(cfg, Front(ops));
      EntriesWereGenerated(cfg, Front(ops));
      StepKeepsPorts(cfg, GeneratedIds(Front(ops)), After(cfg, Front(ops)), Last(ops));
    }
  }

  lemma StepKeepsPorts(cfg: PoolConfig, used: set<WorkerId>, t: Table, op: Op)
    requires PortsSafe(cfg, t) && t.Keys <= used && Allowed(cfg, used, t, op)
    ensures PortsSafe(cfg, Step(cfg, t, op).table)
  {
    if op.ApiRestart? && op.id in t && op.spawned {
      MoveKeepsPorts(cfg, t, op.id, op.newId);
    } else if !(op.Spawn? && op.spawned) {
      PortsOnlyKept(cfg, t, op);
    }
  }

  /** An API restart hands the port over to the replacement. */
  lemma MoveKeepsPorts(cfg: PoolConfig, t: Table, id: WorkerId, newId: WorkerId)
    requires PortsSafe(cfg, t) && id in t && newId !in t
    ensures PortsSafe(cfg, t[newId := NewWorker(t[id].port)] - {id})
  {
  }

  lemma PortsOnlyKept(cfg: PoolConfig, t: Table, op: Op)
    requires !(op.Spawn? && op.spawned) && !(op.ApiRestart? && op.id in t && op.spawned)
    ensures forall id :: id in Step(cfg, t, op).table ==> id in t && Step(cfg, t, op).table[id].port == t[id].port
  {
  }

  // ---- capacity ----

  ghost function UsedPorts(t: Table): set<nat> {
    set id | id in t :: t[id].port
  }

  ghost function Interval(lo: nat, hi: nat): (s: set<nat>)
    ensures forall p :: p in s <==> lo <= p <= hi
    ensures lo <= hi + 1 ==> |s| == hi + 1 - lo
    decreases hi
  {
    if lo > hi then {} else if hi == 0 then {0} else Interval(lo, hi - 1) + {hi}
  }

  lemma {:induction false} InjectivePortsCount(t: Table)
    requires forall a, b :: a in t && b in t && a != b ==> t[a].port != t[b].port
    ensures |UsedPorts(t)| == |t|
    decreases |t|
  {
    if t != map[] {
      var id :| id in t;
      var rest := t - {id};
      RemoveSize(t, id);
      InjectivePortsCount(rest);
      assert UsedPorts(t) == UsedPorts(rest) + {t[id].port} by {
        forall p | p in UsedPorts(t) ensures p in UsedPorts(rest) + {t[id].port} {
          var other :| other in t && t[other].port == p;
          assert other == id || other in rest;
        }
      }
    }
  }

  /** Exact capacity, by pigeonhole: every port of the range is taken exactly
      when the table has as many entries as the range has ports. */
  lemma CapacityIsExact(cfg: PoolConfig, ops: seq<Op>)
    requires Legal(cfg, ops) && cfg.basePort <= cfg.maxPort
    ensures Interval(cfg.basePort, cfg.maxPort) <= UsedPorts(After(cfg, ops))
            <==> |After(cfg, ops)| == cfg.maxPort - cfg.basePort + 1
    ensures |After(cfg, ops)| <= cfg.maxPort - cfg.basePort + 1
  {
    PortsStaySafe(cfg, ops);
    TableCapacity(cfg, After(cfg, ops));
  }

  lemma TableCapacity(cfg: PoolConfig, t: Table)
    requires PortsSafe(cfg, t) && cfg.basePort <= cfg.maxPort
    ensures Interval(cfg.basePort, cfg.maxPort) <= UsedPorts(t) <==> |t| == cfg.maxPort - cfg.basePort + 1
    ensures |t| <= cfg.maxPort - cfg.basePort + 1
  {
    InjectivePortsCount(t);
    SubsetOfSameSize(UsedPorts(t), Interval(cfg.basePort, cfg.maxPort));
  }

  // ---- when a port comes free ----

  /** The step is a failed automatic restart of the worker holding the port. */
  predicate FreesPort(t: Table, op: Op, port: nat) {
    op.AutoRestart? && !op.spawned && op.id in t && t[op.id].port == port
  }

  /** One step gives up the port of a worker exactly when it is a failed
      automatic restart of it; no kill, drain, exit or health check does. */
  lemma PortFreedIff(cfg: PoolConfig, used: set<WorkerId>, t: Table, op: Op, id: WorkerId)
    requires PortsSafe(cfg, t) && t.Keys <= used && Allowed(cfg, used, t, op) && id in t
    ensures t[id].port !in UsedPorts(Step(cfg, t, op).table)
            <==> op.AutoRestart? && op.id == id && !op.spawned
  {
    var t', p := Step(cfg, t, op).table, t[id].port;
    if op.ApiRestart? && op.id == id && op.spawned {
      assert t'[op.newId].port == p;
    } else if !(op.AutoRestart? && op.id == id && !op.spawned) {
      assert id in t' && t'[id].port == p;
    } else {
      assert forall other :: other in t' ==> t'[other].port != p;
    }
  }

  /** The step starts a worker on a port of its own. */
  predicate TakesPort(op: Op, port: nat) {
    op.Spawn? && op.spawned && op.port == port
  }

  lemma StepPorts(cfg: PoolConfig, used: set<WorkerId>, t: Table, op: Op, port: nat)
    requires PortsSafe(cfg, t) && t.Keys <= used && Allowed(cfg, used, t, op)
    ensures port in UsedPorts(Step(cfg, t, op).table)
            <==> TakesPort(op, port) || (port in UsedPorts(t) && !FreesPort(t, op, port))
  {
    if id :| id in t && t[id].port == port {
      PortFreedIff(cfg, used, t, op, id);
    } else if TakesPort(op, port) {
      assert Step(cfg, t, op).table[op.id].port == port;
    } else if op.Spawn? && op.spawned {
      var t' := Step(cfg, t, op).table;
      assert forall id :: id in t' ==> t'[id].port != port;
    }
  }

  /** Step `i` took the port and nothing freed it since. */
  ghost predicate HeldSince(cfg: PoolConfig, ops: seq<Op>, port: nat, i: int) {
    && 0 <= i < |ops| && TakesPort(ops[i], port)
    && forall k :: i < k < |ops| ==> !FreesPort(After(cfg, ops[..k]), ops[k], port)
  }

  lemma HeldSnoc(cfg: PoolConfig, ops: seq<Op>, port: nat, i: int)
    requires ops != []
    ensures HeldSince(cfg, ops, port, i) <==>
            if i == |ops| - 1 then TakesPort(Last(ops), port)
            else HeldSince(cfg, Front(ops), port, i) && !FreesPort(After(cfg, Front(ops)), Last(ops), port)
  {
    var before := Front(ops);
    assert ops[..|before|] == before;
    if 0 <= i < |before| {
      assert forall k :: i < k < |before| ==> before[..k] == ops[..k] && before[k] == ops[k];
      if HeldSince(cfg, before, port, i) && !FreesPort(After(cfg, before), Last(ops), port) {
        forall k | i < k < |ops| ensures !FreesPort(After(cfg, ops[..k]), ops[k], port) {
          if k < |before| {
            assert !FreesPort(After(cfg, before[..k]), before[k], port);
          }
        }
      }
      if HeldSince(cfg, ops, port, i) {
        assert !FreesPort(After(cfg, ops[..|before|]), ops[|before|], port);
        forall k | i < k < |before| ensures !FreesPort(After(cfg, before[..k]), before[k], port) {
          assert !FreesPort(After(cfg, ops[..k]), ops[k], port);
        }
      }
    }
  }

  /** A port is taken exactly when some spawn took it and no failed automatic
      restart of its holder came since, whatever was drained or killed. */
  lemma {:induction false} PortTakenIff(cfg: PoolConfig, ops: seq<Op>, port: nat)
    requires Legal(cfg, ops)
    ensures port in UsedPorts(After(cfg, ops)) <==> exists i :: HeldSince(cfg, ops, port, i)
    decreases |ops|
  {
    if ops != [] {
      var before, op := Front(ops), Last(ops);
      PortTakenIff(cfg, before, port);
      PortsStaySafe(cfg, before);
      EntriesWereGenerated(cfg, before);
      StepPorts(cfg, GeneratedIds(before), After(cfg, before), op, port);
      if TakesPort(op, port) {
        HeldSnoc(cfg, ops, port, |ops| - 1);
      } else if i :| HeldSince(cfg, ops, port, i) {
        HeldSnoc(cfg, ops, port, i);
      } else if i :| HeldSince(cfg, before, port, i) {
        HeldSnoc(cfg, ops, port, i);
      }
    }
  }

  /** So a port is spawned on again only after a failed automatic restart of
      the worker that held it. */
  lemma PortReuseNeedsFailedRestart(cfg: PoolConfig, ops: seq<Op>, i: nat, j: nat, port: U16)
    requires Legal(cfg, ops) && i <= j < |ops|
    requires port in UsedPorts(After(cfg, ops[..i])) && ops[j].Spawn? && ops[j].port == port
    ensures exists k :: i <= k < j && FreesPort(After(cfg, ops[..k]), ops[k], port)
  {
    LegalPrefix(cfg, ops, j);
    if forall k :: i <= k < j ==> !FreesPort(After(cfg, ops[..k]), ops[k], port) {
      PortStaysTaken(cfg, ops, i, j, port);
    }
  }

  lemma {:induction false} PortStaysTaken(cfg: PoolConfig, ops: seq<Op>, i: nat, j: nat, port: nat)
    requires Legal(cfg, ops) && i <= j <= |ops|
    requires port in UsedPorts(After(cfg, ops[..i]))
    requires forall k :: i <= k < j ==> !FreesPort(After(cfg, ops[..k]), ops[k], port)
    ensures port in UsedPorts(After(cfg, ops[..j]))
    decreases j
  {
    if i < j {
      PortStaysTaken(cfg, ops, i, j - 1, port);
      LegalPrefix(cfg, ops, j - 1);
      PortsStaySafe(cfg, ops[..j - 1]);
      EntriesWereGenerated(cfg, ops[..j - 1]);
      StepPorts(cfg, GeneratedIds(ops[..j - 1]), After(cfg, ops[..j - 1]), ops[j - 1], port);
      assert Front(ops[..j]) == ops[..j - 1];
    }
  }

  /** Killing the only worker does not give its port back: a spawn on the port
      after it is allowed, one on the killed worker's port is not. */
  lemma KilledPortIsNotReused(cfg: PoolConfig, a: WorkerId, b: WorkerId, running: bool)
    requires cfg.basePort < cfg.maxPort && a != b
    ensures var ops := [Spawn(a, cfg.basePort, true), Kill(a, running)];
            && UsedPorts(After(cfg, ops)) == {cfg.basePort}
            && Legal(cfg, ops + [Spawn(b, cfg.basePort + 1, true)])
            && !Legal(cfg, ops + [Spawn(b, cfg.basePort, true)])
  {
    var spawn, kill := Spawn(a, cfg.basePort, true), Kill(a, running);
    HistorySnoc(cfg, [], spawn);
    HistorySnoc(cfg, [spawn], kill);
    assert [] + [spawn] == [spawn] && [spawn] + [kill] == [spawn, kill];
    var t := After(cfg, [spawn, kill]);
    assert t == map[a := Managed(cfg.basePort, Stopped, 0, 0)];
    assert UsedPorts(t) == {t[a].port};
    assert GeneratedIds([]) == {} && GeneratedIds([spawn]) == {a} && GeneratedIds([spawn, kill]) == {a};
    HistorySnoc(cfg, [spawn, kill], Spawn(b, cfg.basePort + 1, true));
    HistorySnoc(cfg, [spawn, kill], Spawn(b, cfg.basePort, true));
  }
}
