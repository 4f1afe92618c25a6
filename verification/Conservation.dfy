/** Counting rows: size, acceptances and removals, and the size limit. */
module Conservation {
  import opened Options
  import opened Records
  import opened PendingRows
  import opened QueueModel
  import opened QueueSteps
  import opened DurableMachine
  import opened Durability

  function ReadyIdSet(ready: seq<QueueRow>): set<nat> {
    set row | row in ready :: row.id
  }

  lemma {:induction false} DistinctIdsCount(ready: seq<QueueRow>)
    requires forall i, j :: 0 <= i < j < |ready| ==> ready[i].id != ready[j].id
    ensures |ReadyIdSet(ready)| == |ready|
  {
    if ready != [] {
      var init, last := ready[..|ready| - 1], ready[|ready| - 1];
      DistinctIdsCount(init);
      assert ReadyIdSet(ready) == ReadyIdSet(init) + {last.id} by {
        assert ready == init + [last];
      }
      assert last.id !in ReadyIdSet(init);
    }
  }

  lemma LedgerKeys(mem: Memory, ledger: Ledger)
    requires Partitioned(mem) && Holds(mem, ledger)
    requires forall id :: id in ledger ==> ledger[id].id == id
    ensures ledger.Keys == ReadyIdSet(mem.ready) + mem.delayed.Keys + mem.leased.Keys
  {
  }

  lemma PlacesAreDisjoint(mem: Memory)
    requires Partitioned(mem)
    ensures ReadyIdSet(mem.ready) !! mem.delayed.Keys && ReadyIdSet(mem.ready) !! mem.leased.Keys
  {
  }

  lemma DisjointCount(a: set<nat>, b: set<nat>, c: set<nat>)
    requires a !! b && a !! c && b !! c
    ensures |a + b + c| == |a| + |b| + |c|
  {
    assert |a + b| == |a| + |b|;
    assert |(a + b) + c| == |a + b| + |c|;
  }

  /** The three places together hold each logical row once. */
  lemma SizeIsLedgerSize(mem: Memory, ledger: Ledger)
    requires Partitioned(mem) && Holds(mem, ledger)
    requires forall id :: id in ledger ==> ledger[id].id == id
    ensures Size(mem) == |ledger|
  {
    DistinctIdsCount(mem.ready);
    LedgerKeys(mem, ledger);
    PlacesAreDisjoint(mem);
    var ready := ReadyIdSet(mem.ready);
    DisjointCount(ready, mem.delayed.Keys, mem.leased.Keys);
    assert |ledger| == |ledger.Keys| && |mem.delayed| == |mem.delayed.Keys| && |mem.leased| == |mem.leased.Keys|;
  }

  /** An id in exactly one of ready, delayed and leased. */
  ghost predicate InOnePlace(mem: Memory, id: nat) {
    var inReady := exists row :: row in mem.ready && row.id == id;
    var inDelayed := id in mem.delayed;
    var inLeased := id in mem.leased;
    (inReady && !inDelayed && !inLeased) || (!inReady && inDelayed && !inLeased) || (!inReady && !inDelayed && inLeased)
  }

  ghost predicate Counted(m: Machine) {
    m.phase.Up? ==> |m.ledger| == m.accepted - m.removed
  }

  lemma PlannedSize(items: seq<Item>)
    ensures |PlannedLedger(items)| == |items|
  {
    assert PlannedLedger(items).Keys == UpTo(|items|);
  }

  lemma MoreOrFewer(ledger: Ledger, id: nat, row: QueueRow)
    ensures |ledger[id := row]| == |ledger| + (if id in ledger then 0 else 1)
    ensures |ledger - {id}| == |ledger| - (if id in ledger then 1 else 0)
  {
    assert ledger[id := row].Keys == ledger.Keys + {id} && (ledger - {id}).Keys == ledger.Keys - {id};
    assert |ledger[id := row]| == |ledger[id := row].Keys| && |ledger - {id}| == |(ledger - {id}).Keys|;
    assert |ledger| == |ledger.Keys|;
  }

  lemma AddingSizeAfter(op: Op, ledger: Ledger)
    requires op.EnqueueOp? || op.RescheduleOp?
    requires op.EnqueueOp? <==> op.row.id !in ledger
    ensures |LedgerAfter(op, ledger)| == AcceptedAfter(op, |ledger|) - RemovedAfter(op, 0)
  {
    MoreOrFewer(ledger, op.row.id, op.row);
  }

  lemma RemovingSizeAfter(op: Op, ledger: Ledger)
    requires (op.AckOp? || op.DequeueOp? || op.CancelOp?) && OpId(op) in ledger
    ensures |LedgerAfter(op, ledger)| == AcceptedAfter(op, |ledger|) - RemovedAfter(op, 0)
  {
    MoreOrFewer(ledger, OpId(op), ledger[OpId(op)]);
    assert LedgerAfter(op, ledger) == ledger - {OpId(op)};
  }

  /** The counts follow the contents through every operation. */
  lemma LedgerSizeAfter(op: Op, ledger: Ledger, accepted: int, removed: int)
    requires |ledger| == accepted - removed
    requires !IsReset(op) ==> (op.EnqueueOp? <==> OpId(op) !in ledger)
    ensures |LedgerAfter(op, ledger)| == AcceptedAfter(op, accepted) - RemovedAfter(op, removed)
  {
    if op.ReplaceOp? {
      PlannedSize(op.items);
    } else if op.EnqueueOp? || op.RescheduleOp? {
      AddingSizeAfter(op, ledger);
    } else if op.AckOp? || op.DequeueOp? || op.CancelOp? {
      RemovingSizeAfter(op, ledger);
    }
  }

  /** The operation in flight concerns a row of the contents, or brings in a new one. */
  lemma InflightIdIsHeld(m: Machine)
    requires Inv(m) && m.phase.Up? && m.phase.inflight.Some? && !IsReset(m.phase.inflight.value.op)
    ensures var op := m.phase.inflight.value.op;
      if op.EnqueueOp? then op.row.id !in m.ledger else OpId(op) in m.ledger
  {
    var op := m.phase.inflight.value.op;
    var rest, mem, before := Resting(m), m.phase.mem, Before(m);
    match op
    case EnqueueOp(_, _) =>
    case ClaimOp(row, _, _) => PoppedRow(mem, row, before, m.ledger, m.clock);
    case DequeueOp(row) => PoppedRow(mem, row, before, m.ledger, m.clock);
    case CancelOp(id) => DroppedIsConsistent(mem, before, m.ledger, m.clock, id);
    case MoveOp(id, _) => DroppedIsConsistent(mem, before, m.ledger, m.clock, id);
    case AckOp(id) => LeasedRowIsHeld(mem, before, m.ledger, m.clock, id);
    case ExtendOp(id, _) => LeasedRowIsHeld(mem, before, m.ledger, m.clock, id);
    case ReleaseOp(id) => LeasedRowIsHeld(mem, before, m.ledger, m.clock, id);
    case RescheduleOp(row, _) => LeasedRowIsHeld(mem, before, m.ledger, m.clock, row.id);
    case _ =>
  }

  /** The id of the operation in flight is new for an enqueue, and held for any other. */
  ghost predicate InflightHeld(m: Machine) {
    m.phase.Up? && m.phase.inflight.Some? && !IsReset(m.phase.inflight.value.op) ==>
      var op := m.phase.inflight.value.op;
      if op.EnqueueOp? then op.row.id !in m.ledger else OpId(op) in m.ledger
  }

  lemma ApplyCounts(m: Machine)
    requires InflightHeld(m) && Counted(m)
    ensures Counted(ExecApply(m))
  {
    if Stands(m, true) {
      LedgerSizeAfter(m.phase.inflight.value.op, m.ledger, m.accepted, m.removed);
    }
  }

  lemma BeginCounts(m: Machine, a: Action)
    requires Counted(m)
    ensures Counted(ExecBegin(m, a))
  {
  }

  lemma StepCountsWhenHeld(m: Machine, a: Action)
    requires InflightHeld(m) && Counted(m)
    ensures Counted(Exec(m, a))
  {
    match a
    case ApplyMemory => ApplyCounts(m);
    case _ => BeginCounts(m, a);
  }

  lemma StepCounts(m: Machine, a: Action)
    requires Inv(m) && Counted(m)
    ensures Counted(Exec(m, a))
  {
    if m.phase.Up? && m.phase.inflight.Some? && !IsReset(m.phase.inflight.value.op) {
      InflightIdIsHeld(m);
    }
    assert InflightHeld(m);
    StepCountsWhenHeld(m, a);
  }

  lemma {:induction false} EveryRunCounts(start: Machine, actions: seq<Action>)
    requires Start(start) && CarefulRun(start, actions)
    ensures Counted(Run(start, actions))
  {
    if actions != [] {
      EveryRunKeeps(start, actions[..|actions| - 1]);
      EveryRunCounts(start, actions[..|actions| - 1]);
      StepCounts(Run(start, actions[..|actions| - 1]), actions[|actions| - 1]);
    }
  }

  lemma ConsistentCounts(mem: Memory, store: Store, ledger: Ledger, clock: real)
    requires Consistent(mem, store, ledger, clock)
    ensures Size(mem) == |ledger|
    ensures forall id :: id in ledger ==> InOnePlace(mem, id) && 1 <= id <= mem.counter
  {
    LedgerIsKeyed(mem, store, ledger, clock);
    SizeIsLedgerSize(mem, ledger);
    CounterCoversLedger(mem, store, ledger, clock);
    forall id | id in ledger
      ensures InOnePlace(mem, id)
    {
      assert ledger[id] in mem.ready || id in mem.delayed || id in mem.leased;
    }
  }

  /** In every state that a careful run reaches, resets included, each accepted row is in exactly
      one place under an id the counter has passed, and the queue's size is what was accepted minus
      what was acked, dequeued or cancelled since the last reset. */
  lemma SizeIsConserved(start: Machine, actions: seq<Action>)
    requires Start(start) && CarefulRun(start, actions)
    ensures var m := Run(start, actions);
      m.phase.Up? ==>
        && Size(Resting(m)) == |m.ledger| == m.accepted - m.removed
        && (forall id :: id in m.ledger ==> InOnePlace(Resting(m), id) && 1 <= id <= Resting(m).counter)
  {
    var m := Run(start, actions);
    EveryRunKeeps(start, actions);
    EveryRunCounts(start, actions);
    if m.phase.Up? {
      ConsistentCounts(Resting(m), Before(m), m.ledger, m.clock);
    }
  }

  // -------------------------------------------------------------- size limit

  /** Rows held, counting an enqueue or a `replaceAll` whose check has passed. */
  function Occupied(m: Machine): nat {
    if m.phase.Up? && m.phase.inflight.Some? then
      match m.phase.inflight.value.op
      case EnqueueOp(_, _) => |m.ledger| + 1
      case ReplaceOp(items) => if |items| > |m.ledger| then |items| else |m.ledger|
      case _ => |m.ledger|
    else |m.ledger|
  }

  lemma BeginKeepsRows(m: Machine, a: Action)
    requires m.phase.Up?
    ensures var m' := ExecBegin(m, a);
      && m'.phase.Up? && m'.ledger == m.ledger && m'.cfg == m.cfg
      && (m.cfg.maxSize.Some? ==> Occupied(m') <= Occupied(m) || Occupied(m') <= m.cfg.maxSize.value)
  {
  }

  lemma ApplyKeepsLimit(m: Machine)
    requires Inv(m) && m.phase.Up?
    ensures Occupied(ExecApply(m)) <= Occupied(m)
  {
    if Stands(m, true) {
      var op := m.phase.inflight.value.op;
      if !IsReset(op) {
        InflightIdIsHeld(m);
      }
      LedgerSizeAfter(op, m.ledger, |m.ledger|, 0);
    }
  }

  lemma EnqueueChecksLimit(m: Machine, id: nat)
    requires Inv(m) && m.phase.Up? && m.cfg.maxSize.Some?
    ensures var m' := ExecBeginEnqueue(m, id);
      Occupied(m') <= Occupied(m) || Occupied(m') <= m.cfg.maxSize.value
  {
    if Idle(m) {
      ConsistentCounts(m.phase.mem, m.store, m.ledger, m.clock);
    }
  }

  lemma RescheduleKeepsRows(m: Machine, call: Rescheduling)
    requires m.phase.Up?
    ensures var m' := ExecBeginReschedule(m, call);
      m'.phase.Up? && m'.ledger == m.ledger && m'.cfg == m.cfg && Occupied(m') <= Occupied(m)
  {
  }

  lemma StoreStepKeepsRows(m: Machine)
    requires m.phase.Up?
    ensures Occupied(ExecStoreWrite(m)) == Occupied(m) && Occupied(ExecStoreFail(m)) <= Occupied(m)
    ensures ExecStoreWrite(m).phase.Up? && ExecStoreWrite(m).ledger == m.ledger && ExecStoreWrite(m).cfg == m.cfg
    ensures ExecStoreFail(m).phase.Up? && ExecStoreFail(m).ledger == m.ledger && ExecStoreFail(m).cfg == m.cfg
  {
  }

  /** Steps beside the chain touch no contents. */
  lemma TimersKeepRows(m: Machine, a: Action)
    requires m.phase.Up?
    requires a.Tick? || a.Promote? || a.EnqueueCall? || a.RescheduleCall? || a.HydrateStart? || a.HydratePut?
      || a.HydrateDone?
    ensures var m' := Exec(m, a);
      m'.phase.Up? && m'.ledger == m.ledger && m'.cfg == m.cfg && Occupied(m') == Occupied(m)
  {
  }

  lemma PopKeepsRows(m: Machine)
    requires m.phase.Up?
    ensures var m' := ExecBeginClaim(m);
      m'.phase.Up? && m'.ledger == m.ledger && m'.cfg == m.cfg && Occupied(m') == Occupied(m)
    ensures var m' := ExecBeginDequeue(m);
      m'.phase.Up? && m'.ledger == m.ledger && m'.cfg == m.cfg && Occupied(m') == Occupied(m)
  {
  }

  lemma BesideKeepsRows(m: Machine, a: Action)
    requires m.phase.Up? && !a.Crash? && !a.ApplyMemory? && !a.BeginEnqueue? && m.cfg.maxSize.Some?
    ensures var m' := Exec(m, a);
      && m'.phase.Up? && m'.ledger == m.ledger && m'.cfg == m.cfg
      && (Occupied(m') <= Occupied(m) || Occupied(m') <= m.cfg.maxSize.value)
  {
    if a.BeginReschedule? {
      RescheduleKeepsRows(m, a.call);
    } else if a.StoreWrite? || a.StoreFail? {
      StoreStepKeepsRows(m);
    } else if a.BeginClaim? || a.BeginDequeue? {
      PopKeepsRows(m);
    } else if a.Tick? || a.Promote? || a.EnqueueCall? || a.RescheduleCall? || a.HydrateStart? || a.HydratePut?
      || a.HydrateDone? {
      TimersKeepRows(m, a);
    } else {
      assert Exec(m, a) == ExecBegin(m, a);
      BeginKeepsRows(m, a);
    }
  }

  /** No step of a running queue takes it above `maxSize`, or further above it. */
  lemma NoStepExceedsMaxSize(m: Machine, a: Action)
    requires Inv(m) && m.phase.Up? && m.cfg.maxSize.Some? && !a.Crash?
    ensures Occupied(Exec(m, a)) <= Occupied(m) || Occupied(Exec(m, a)) <= m.cfg.maxSize.value
    ensures Exec(m, a).phase.Up? && Exec(m, a).cfg == m.cfg
  {
    if a.ApplyMemory? {
      ApplyKeepsLimit(m);
    } else if a.BeginEnqueue? {
      EnqueueChecksLimit(m, a.id);
    } else {
      BesideKeepsRows(m, a);
    }
  }

  lemma StartedIsStart(cfg: Config, clock: real)
    requires clock >= 0.0
    ensures Start(Started(cfg, clock))
  {
    assert Loadable(map[]);
  }

  /** From an empty start, with no restart, the queue never holds more than `maxSize` rows. The
      run is careful, for two rows under one id are one row of the contents. */
  lemma {:induction false} NeverAboveMaxSize(cfg: Config, clock: real, actions: seq<Action>)
    requires cfg.maxSize.Some? && clock >= 0.0 && CarefulRun(Started(cfg, clock), actions)
    requires forall a :: a in actions ==> !a.Crash?
    ensures var m := Run(Started(cfg, clock), actions);
      m.phase.Up? && m.cfg == cfg && Size(Resting(m)) <= Occupied(m) <= cfg.maxSize.value
  {
    var start := Started(cfg, clock);
    StartedIsStart(cfg, clock);
    SizeIsConserved(start, actions);
    if actions != [] {
      var init := actions[..|actions| - 1];
      NeverAboveMaxSize(cfg, clock, init);
      EveryRunKeeps(start, init);
      NoStepExceedsMaxSize(Run(start, init), actions[|actions| - 1]);
    }
  }
}
