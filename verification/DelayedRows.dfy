/** A delayed row stays delayed until its time: through calls, timers, crashes and recoveries. */
module DelayedRows {
  import opened Options
  import opened Records
  import opened PendingRows
  import opened QueueModel
  import opened QueueSteps
  import opened DurableMachine
  import opened Durability

  /** The store keeps the row, unleased, for this time. */
  ghost predicate StoredUntil(store: Store, row: QueueRow, due: real) {
    && row.id in store && store[row.id].lease.None? && store[row.id].availableAt == due
    && FromRecord(store[row.id]) == row
  }

  /** An operation that may end a row's delay: a cancel or move of the row, or a reset. */
  predicate EndsDelay(op: Op, id: nat) {
    IsReset(op) || ((op.CancelOp? || op.MoveOp?) && OpId(op) == id)
  }

  /** The row waits for its time: in memory, or in the store while there is no memory. */
  ghost predicate StillDelayed(m: Machine, row: QueueRow, due: real) {
    match m.phase
    case Up(mem, _, _, _, inflight) =>
      && row.id in mem.delayed && mem.delayed[row.id] == DelayedRow(row, due)
      && (inflight.Some? ==> !EndsDelay(inflight.value.op, row.id))
    case Down => StoredUntil(m.store, row, due)
    case Hydrating(loaded, _, _) => StoredUntil(loaded, row, due) && StoredUntil(m.store, row, due)
  }

  /** `cancelJob`, `rescheduleJob` and `promoteJob`. */
  predicate Administers(a: Action) {
    a.BeginCancel? || a.BeginRescheduleJob? || a.BeginPromoteJob?
  }

  /** No reset, and no administration of this row. */
  predicate Leaves(a: Action, id: nat) {
    !a.BeginClear? && !a.BeginReplaceAll? && (Administers(a) ==> a.id != id)
  }

  ghost predicate Undisturbed(steps: seq<Action>, id: nat) {
    forall a :: a in steps ==> Leaves(a, id)
  }

  // ------------------------------------------------------------ single steps

  lemma ClockNeverFalls(m: Machine, a: Action)
    ensures m.clock <= Exec(m, a).clock
  {
  }

  /** An operation with its own row popped or leased, or new, is not about a delayed row. */
  lemma NotThisRow(op: Op, mem: Memory, ledger: Ledger, id: nat)
    requires Partitioned(Abandoned(op, mem)) && Enabled(op, mem) && Fresh(op, mem, ledger)
    requires id in mem.delayed && id in ledger && !EndsDelay(op, id)
    ensures OpId(op) != id
  {
    if op.ClaimOp? || op.DequeueOp? {
      var rest := Abandoned(op, mem);
      assert rest.ready[|rest.ready| - 1] == op.row;
      assert op.row in rest.ready;
    }
  }

  /** The operation in flight is about another row. */
  lemma OthersInFlight(m: Machine, row: QueueRow, due: real)
    requires Inv(m) && m.phase.Up? && m.phase.inflight.Some? && StillDelayed(m, row, due)
    ensures !IsReset(m.phase.inflight.value.op) && OpId(m.phase.inflight.value.op) != row.id
  {
    var op := m.phase.inflight.value.op;
    assert Resting(m) == Abandoned(op, m.phase.mem) && Resting(m).delayed == m.phase.mem.delayed;
    assert row.id in m.ledger;
    NotThisRow(op, m.phase.mem, m.ledger, row.id);
  }

  lemma WrittenElsewhere(op: Op, mem: Memory, store: Store, id: nat)
    requires Enabled(op, mem) && !IsReset(op) && OpId(op) != id && id in store
    ensures id in Written(op, mem, store) && Written(op, mem, store)[id] == store[id]
  {
  }

  lemma AppliedElsewhere(op: Op, mem: Memory, id: nat)
    requires Enabled(op, mem) && !IsReset(op) && OpId(op) != id && id in mem.delayed
    requires forall d :: d in mem.delayed ==> mem.delayed[d].row.id == d
    ensures id in Applied(op, mem).delayed && Applied(op, mem).delayed[id] == mem.delayed[id]
  {
  }

  lemma PlacedUntil(mem: Memory, store: Store, ledger: Ledger, clock: real, row: QueueRow, due: real)
    requires Consistent(mem, store, ledger, clock)
    requires row.id in mem.delayed && mem.delayed[row.id] == DelayedRow(row, due)
    ensures StoredUntil(store, row, due)
  {
    assert row.id in LedgerOf(store) && LedgerOf(store)[row.id] == row;
  }

  lemma DelayedIsStored(m: Machine, row: QueueRow, due: real)
    requires Inv(m) && m.phase.Up? && StillDelayed(m, row, due)
    ensures StoredUntil(m.store, row, due)
  {
    assert Resting(m).delayed == m.phase.mem.delayed;
    PlacedUntil(Resting(m), Before(m), m.ledger, m.clock, row, due);
    if m.phase.inflight.Some? {
      OthersInFlight(m, row, due);
      WrittenElsewhere(m.phase.inflight.value.op, m.phase.mem, m.phase.inflight.value.before, row.id);
    }
  }

  /** Neither ready nor leased, and not held by a claim or dequeue under way. */
  lemma DelayedIsNotTaken(m: Machine, row: QueueRow, due: real)
    requires Inv(m) && m.phase.Up? && StillDelayed(m, row, due)
    ensures !InReady(m.phase.mem, row.id) && row.id !in m.phase.mem.leased
    ensures m.phase.inflight.Some? ==> !IsReset(m.phase.inflight.value.op) && OpId(m.phase.inflight.value.op) != row.id
  {
    if m.phase.inflight.Some? {
      OthersInFlight(m, row, due);
    }
    forall i | 0 <= i < |m.phase.mem.ready|
      ensures m.phase.mem.ready[i].id != row.id
    {
      assert m.phase.mem.ready[i] == Resting(m).ready[i];
      assert Resting(m).ready[i] in Resting(m).ready;
    }
  }

  /** The delayed rows stay, and no operation begins that would end the row's delay. */
  ghost predicate KeepsDelays(m: Machine, m': Machine, id: nat) {
    if m.phase.Up? then
      && m'.phase.Up? && m'.phase.mem.delayed == m.phase.mem.delayed
      && (m'.phase.inflight.Some? && EndsDelay(m'.phase.inflight.value.op, id) ==>
            m.phase.inflight.Some? && EndsDelay(m.phase.inflight.value.op, id))
    else m' == m
  }

  lemma EnqueueCallKeepsDelays(m: Machine, item: Item, delayMs: real, id: nat)
    ensures KeepsDelays(m, ExecEnqueueCall(m, item, delayMs), id)
  {
  }

  lemma BeginEnqueueKeepsDelays(m: Machine, call: nat, id: nat)
    ensures KeepsDelays(m, ExecBeginEnqueue(m, call), id)
  {
  }

  lemma RescheduleCallKeepsDelays(m: Machine, row: QueueRow, generation: nat, delayMs: real, id: nat)
    ensures KeepsDelays(m, ExecRescheduleCall(m, row, generation, delayMs), id)
  {
  }

  lemma BeginRescheduleKeepsDelays(m: Machine, call: Rescheduling, id: nat)
    ensures KeepsDelays(m, ExecBeginReschedule(m, call), id)
  {
  }

  lemma HeadKeepsDelays(m: Machine, id: nat)
    ensures KeepsDelays(m, ExecBeginClaim(m), id) && KeepsDelays(m, ExecBeginDequeue(m), id)
  {
  }

  lemma StoreKeepsDelays(m: Machine, id: nat)
    ensures KeepsDelays(m, ExecStoreWrite(m), id) && KeepsDelays(m, ExecStoreFail(m), id)
  {
  }

  lemma BeginKeepsDelays(m: Machine, a: Action, id: nat)
    requires Leaves(a, id)
    ensures KeepsDelays(m, ExecBegin(m, a), id)
  {
    var m' := ExecBegin(m, a);
    if m' != m {
      assert Idle(m) && m'.phase.inflight.Some?;
      assert m' == Begin(m, m.phase.mem, m'.phase.inflight.value.op);
    }
  }

  lemma KeptDelayed(m: Machine, m': Machine, row: QueueRow, due: real)
    requires StillDelayed(m, row, due) && KeepsDelays(m, m', row.id)
    ensures StillDelayed(m', row, due)
  {
  }

  lemma ApplyKeepsDelayed(m: Machine, m': Machine, row: QueueRow, due: real)
    requires Inv(m) && StillDelayed(m, row, due)
    requires m' == ExecApply(m)
    ensures StillDelayed(m', row, due)
  {
    if Stands(m, true) {
      OthersInFlight(m, row, due);
      AppliedElsewhere(m.phase.inflight.value.op, m.phase.mem, row.id);
    }
  }

  lemma PromoteKeepsDelayed(m: Machine, m': Machine, order: seq<nat>, row: QueueRow, due: real)
    requires StillDelayed(m, row, due) && m.clock < due
    requires m' == ExecPromote(m, order)
    ensures StillDelayed(m', row, due)
  {
  }

  lemma CrashKeepsDelayed(m: Machine, m': Machine, row: QueueRow, due: real)
    requires Inv(m) && StillDelayed(m, row, due)
    requires m' == ExecCrash(m)
    ensures StillDelayed(m', row, due)
  {
    if m.phase.Up? {
      DelayedIsStored(m, row, due);
    }
  }

  lemma HydrateStartKeepsDelayed(m: Machine, m': Machine, order: seq<nat>, row: QueueRow, due: real)
    requires StillDelayed(m, row, due)
    requires m' == ExecHydrateStart(m, order)
    ensures StillDelayed(m', row, due)
  {
  }

  lemma HydratePutKeepsDelayed(m: Machine, m': Machine, row: QueueRow, due: real)
    requires Inv(m) && StillDelayed(m, row, due)
    requires m' == ExecHydratePut(m)
    ensures StillDelayed(m', row, due)
  {
    if m.phase.Hydrating? && m.phase.todo != [] {
      assert m.phase.todo[0] in m.phase.todo;
    }
  }

  lemma RecoveredIsDelayed(m: Machine, m': Machine, row: QueueRow, due: real)
    requires Inv(m) && StillDelayed(m, row, due) && m.clock < due
    requires m' == ExecHydrateDone(m)
    ensures StillDelayed(m', row, due)
  {
  }

  /** What a step leads to, where it is no call and no beginning. */
  ghost predicate LedBy(m: Machine, a: Action, m': Machine) {
    match a
    case Crash => m' == ExecCrash(m)
    case HydrateStart(order) => m' == ExecHydrateStart(m, order)
    case HydratePut => m' == ExecHydratePut(m)
    case HydrateDone => m' == ExecHydrateDone(m)
    case ApplyMemory => m' == ExecApply(m)
    case Promote(order) => m' == ExecPromote(m, order)
    case Tick(elapsed) => m' == ExecTick(m, elapsed)
    case _ => true
  }

  lemma ExecIsLed(m: Machine, a: Action)
    ensures LedBy(m, a, Exec(m, a))
  {
  }

  /** A call, the beginning of an operation, or its store call. */
  predicate IsCall(a: Action) {
    !a.ApplyMemory? && !a.Tick? && !a.Promote? && !a.Crash? && !a.HydrateStart? && !a.HydratePut? && !a.HydrateDone?
  }

  lemma CallKeepsDelays(m: Machine, a: Action, id: nat)
    requires Leaves(a, id) && IsCall(a)
    ensures KeepsDelays(m, Exec(m, a), id)
  {
    match a
    case EnqueueCall(item, delayMs) => EnqueueCallKeepsDelays(m, item, delayMs, id);
    case BeginEnqueue(n) => BeginEnqueueKeepsDelays(m, n, id);
    case RescheduleCall(n, generation, item, delayMs, attempt, handoff) =>
      RescheduleCallKeepsDelays(m, Row(n, item, attempt, ActiveHandoff(handoff)), generation, delayMs, id);
    case BeginReschedule(call) => BeginRescheduleKeepsDelays(m, call, id);
    case StoreWrite => StoreKeepsDelays(m, id);
    case StoreFail => StoreKeepsDelays(m, id);
    case BeginClaim => HeadKeepsDelays(m, id);
    case BeginDequeue => HeadKeepsDelays(m, id);
    case _ => BeginKeepsDelays(m, a, id);
  }
}

/** A delayed row waits through whole runs. */
module DelayedRuns {
  import opened Options
  import opened Records
  import opened PendingRows
  import opened QueueModel
  import opened DurableMachine
  import opened Durability
  import opened DelayedRows

  lemma MemoryStepKeepsDelayed(m: Machine, a: Action, m': Machine, row: QueueRow, due: real)
    requires Inv(m) && StillDelayed(m, row, due) && m.clock < due
    requires (a.ApplyMemory? || a.Promote?) && LedBy(m, a, m')
    ensures StillDelayed(m', row, due)
  {
    if a.Promote? {
      PromoteKeepsDelayed(m, m', a.order, row, due);
    } else {
      ApplyKeepsDelayed(m, m', row, due);
    }
  }

  lemma RestartStepKeepsDelayed(m: Machine, a: Action, m': Machine, row: QueueRow, due: real)
    requires Inv(m) && StillDelayed(m, row, due) && (a.Crash? || a.HydrateStart?) && LedBy(m, a, m')
    ensures StillDelayed(m', row, due)
  {
    if a.Crash? {
      CrashKeepsDelayed(m, m', row, due);
    } else {
      HydrateStartKeepsDelayed(m, m', a.order, row, due);
    }
  }

  lemma RecoveryStepKeepsDelayed(m: Machine, a: Action, m': Machine, row: QueueRow, due: real)
    requires Inv(m) && StillDelayed(m, row, due) && m.clock < due
    requires (a.HydratePut? || a.HydrateDone?) && LedBy(m, a, m')
    ensures StillDelayed(m', row, due)
  {
    if a.HydratePut? {
      HydratePutKeepsDelayed(m, m', row, due);
    } else {
      RecoveredIsDelayed(m, m', row, due);
    }
  }

  lemma LedKeepsDelayed(m: Machine, a: Action, m': Machine, row: QueueRow, due: real)
    requires Inv(m) && StillDelayed(m, row, due) && m.clock < due
    requires LedBy(m, a, m') && (IsCall(a) ==> KeepsDelays(m, m', row.id))
    ensures StillDelayed(m', row, due)
  {
    if IsCall(a) {
      KeptDelayed(m, m', row, due);
    } else if a.Crash? || a.HydrateStart? {
      RestartStepKeepsDelayed(m, a, m', row, due);
    } else if a.ApplyMemory? || a.Promote? {
      MemoryStepKeepsDelayed(m, a, m', row, due);
    } else if !a.Tick? {
      RecoveryStepKeepsDelayed(m, a, m', row, due);
    }
  }

  /** Before its time only a cancel or move of the row, or a reset, ends its delay. */
  lemma StepKeepsDelayed(m: Machine, a: Action, row: QueueRow, due: real)
    requires Inv(m) && StillDelayed(m, row, due) && Leaves(a, row.id) && m.clock < due
    ensures StillDelayed(Exec(m, a), row, due)
  {
    ExecIsLed(m, a);
    if IsCall(a) {
      CallKeepsDelays(m, a, row.id);
    }
    LedKeepsDelayed(m, a, Exec(m, a), row, due);
  }

  // -------------------------------------------------------------------- runs

  /** A run whose clock has not reached the row's time leaves it delayed, whatever crashes and
      recoveries it has, unless it cancels or moves the row or resets the queue. */
  lemma {:induction false} DelayedUntilDue(m: Machine, actions: seq<Action>, row: QueueRow, due: real)
    requires Inv(m) && CarefulRun(m, actions) && StillDelayed(m, row, due) && Undisturbed(actions, row.id)
    requires Run(m, actions).clock < due
    ensures Inv(Run(m, actions)) && StillDelayed(Run(m, actions), row, due)
  {
    if actions != [] {
      var init, last := actions[..|actions| - 1], actions[|actions| - 1];
      assert last in actions;
      ClockNeverFalls(Run(m, init), last);
      DelayedUntilDue(m, init, row, due);
      StepKeepsIff(Run(m, init), last);
      StepKeepsDelayed(Run(m, init), last, row, due);
    }
  }

  /** An enqueue call with a delay that is let in is written, and kept, as delayed until then. */
  lemma EnqueuedIsDelayed(m: Machine, item: Item, delayMs: real)
    requires Idle(m) && m.clock >= 0.0 && delayMs > 0.0 && m.phase.mem.counter < ID_MAX
    requires m.cfg.maxSize.Some? ==> Size(m.phase.mem) < m.cfg.maxSize.value
    requires m.cfg.unique && item.Job? ==> item.jobId !in m.phase.index
    ensures var id := m.phase.mem.counter + 1;
      var begun := ExecBeginEnqueue(ExecEnqueueCall(m, item, delayMs), id);
      && Idle(ExecEnqueueCall(m, item, delayMs)) && Stands(begun, false)
      && StillDelayed(ExecApply(ExecStoreWrite(begun)), Row(id, item, 1, 0), m.clock + delayMs)
  {
    var id, due := m.phase.mem.counter + 1, m.clock + delayMs;
    var called := ExecEnqueueCall(m, item, delayMs);
    assert called.phase.waiting[id] == Waiting(item, due) && Size(called.phase.mem) == Size(m.phase.mem);
    var begun := ExecBeginEnqueue(called, id);
    assert begun.phase.inflight == Some(Inflight(EnqueueOp(Row(id, item, 1, 0), due), false, m.store));
    var written := ExecStoreWrite(begun);
    assert written.phase.inflight == Some(Inflight(EnqueueOp(Row(id, item, 1, 0), due), true, m.store));
  }
}
