/** The unique-job index of a queue built with `uniqueJobIds`. */
module UniqueJobs {
  import opened Options
  import opened Records
  import opened PendingRows
  import opened QueueModel
  import opened QueueSteps
  import opened DurableMachine
  import opened Durability
  import opened Conservation
  import opened Hydrations

  /** The index maps an application id to a row id exactly when that live row carries it. */
  ghost predicate IndexAgrees(index: map<string, nat>, ledger: Ledger) {
    && (forall a :: a in index ==> index[a] in ledger && JobIdOf(ledger[index[a]].item) == Some(a))
    && (forall id :: id in ledger && ledger[id].item.Job? ==>
        ledger[id].item.jobId in index && index[ledger[id].item.jobId] == id)
  }

  /** The rows in memory, wherever they are. A row popped by an operation in flight is not there. */
  function Held(mem: Memory): set<QueueRow> {
    (set row | row in mem.ready)
    + (set id | id in mem.delayed :: mem.delayed[id].row)
    + (set id | id in mem.leased :: mem.leased[id].row)
  }

  /** `jobViewByRowId` */
  function RowById(mem: Memory, id: nat): Option<QueueRow> {
    if InReady(mem, id) then Some(ReadyRow(mem.ready, id))
    else if id in mem.delayed then Some(mem.delayed[id].row)
    else if id in mem.leased then Some(mem.leased[id].row)
    else None
  }

  /** `getJobs` through the index, and by scanning the rows. */
  function Lookup(index: map<string, nat>, mem: Memory, a: string): set<QueueRow> {
    if a !in index then {}
    else
      var found := RowById(mem, index[a]);
      if found.Some? && found.value.item.Job? then {found.value} else {}
  }

  function Scan(mem: Memory, a: string): set<QueueRow> {
    set row | row in Held(mem) && JobIdOf(row.item) == Some(a)
  }

  /** The index leads to every job in memory under its id, and to none under another id. It may
      lead to a row that is not in memory. */
  ghost predicate IndexShows(index: map<string, nat>, mem: Memory) {
    && (forall row :: row in Held(mem) && row.item.Job? ==> row.item.jobId in index && index[row.item.jobId] == row.id)
    && (forall a, row :: a in index && row in Held(mem) && row.item.Job? && row.id == index[a] ==> row.item.jobId == a)
  }

  lemma HeldById(mem: Memory, id: nat)
    requires Partitioned(mem)
    ensures RowById(mem, id).Some? ==> RowById(mem, id).value in Held(mem) && RowById(mem, id).value.id == id
    ensures forall row :: row in Held(mem) && row.id == id ==> RowById(mem, id) == Some(row)
  {
    forall row | row in mem.ready && row.id == id
      ensures RowById(mem, id) == Some(row)
    {
      var i :| 0 <= i < |mem.ready| && mem.ready[i] == row;
      assert ReadyRow(mem.ready, id) in mem.ready;
    }
    assert InReady(mem, id) ==> ReadyRow(mem.ready, id) in mem.ready;
  }

  lemma LookupIsScan(index: map<string, nat>, mem: Memory, a: string)
    requires Partitioned(mem) && IndexShows(index, mem)
    ensures Lookup(index, mem, a) == Scan(mem, a)
  {
    if a in index {
      HeldById(mem, index[a]);
    }
  }

  lemma WrongLookup(index: map<string, nat>, mem: Memory, a: string, row: QueueRow)
    requires Partitioned(mem) && Lookup(index, mem, a) == Scan(mem, a) && row in Held(mem) && row.item.Job?
    ensures row.item.jobId == a ==> a in index && index[a] == row.id
    ensures a in index && row.id == index[a] ==> row.item.jobId == a
  {
    if a in index {
      HeldById(mem, index[a]);
    }
    assert row.item.jobId == a ==> row in Scan(mem, a);
    assert a in index && row.id == index[a] ==> row in Lookup(index, mem, a);
  }

  /** Every lookup gives the rows of the scan exactly when the index shows the memory as it is. */
  lemma LookupIsScanIff(index: map<string, nat>, mem: Memory)
    requires Partitioned(mem)
    ensures IndexShows(index, mem) <==> forall a :: Lookup(index, mem, a) == Scan(mem, a)
  {
    if IndexShows(index, mem) {
      forall a
        ensures Lookup(index, mem, a) == Scan(mem, a)
      {
        LookupIsScan(index, mem, a);
      }
    }
    if forall a :: Lookup(index, mem, a) == Scan(mem, a) {
      forall a, row | row in Held(mem) && row.item.Job?
        ensures row.item.jobId == a ==> a in index && index[a] == row.id
        ensures a in index && row.id == index[a] ==> row.item.jobId == a
      {
        assert Lookup(index, mem, a) == Scan(mem, a);
        WrongLookup(index, mem, a, row);
      }
    }
  }

  lemma AgreementMeansDistinctJobs(index: map<string, nat>, ledger: Ledger)
    requires IndexAgrees(index, ledger)
    ensures DistinctJobs(ledger)
  {
  }

  lemma RebuiltIndexAgrees(ledger: Ledger)
    requires DistinctJobs(ledger)
    ensures IndexAgrees(IndexFor(ledger), ledger)
  {
  }

  // ------------------------------------------------------------- operations

  /** A new row's application id is refused exactly when some accepted row, not yet removed, has it. */
  lemma TakenIff(index: map<string, nat>, ledger: Ledger, item: Item, id: nat)
    requires IndexAgrees(index, ledger) && id !in ledger
    ensures JobIsFree(index, item, id) <==>
      !(item.Job? && exists d :: d in ledger && ledger[d].item.Job? && ledger[d].item.jobId == item.jobId)
  {
  }

  lemma AddedJobAgrees(index: map<string, nat>, ledger: Ledger, row: QueueRow)
    requires IndexAgrees(index, ledger) && row.id !in ledger && JobIsFree(index, row.item, row.id)
    ensures IndexAgrees(Indexed(index, row.item, row.id), ledger[row.id := row])
  {
  }

  lemma RemovedJobAgrees(index: map<string, nat>, ledger: Ledger, id: nat)
    requires IndexAgrees(index, ledger) && id in ledger
    ensures IndexAgrees(Unindexed(index, ledger[id].item, id), ledger - {id})
  {
  }

  /** A reschedule never touches the index, so it keeps the agreement exactly when the
      new item carries the application id of the old one. */
  lemma RescheduleKeepsIndexIff(index: map<string, nat>, ledger: Ledger, row: QueueRow)
    requires IndexAgrees(index, ledger) && row.id in ledger
    ensures IndexAgrees(index, ledger[row.id := row]) <==> JobIdOf(row.item) == JobIdOf(ledger[row.id].item)
  {
    var id := row.id;
    var ledger' := ledger[id := row];
    if IndexAgrees(index, ledger') {
      if row.item.Job? {
        assert ledger'[id] == row && index[row.item.jobId] == id;
      } else if ledger[id].item.Job? {
        var a := ledger[id].item.jobId;
        assert index[a] == id && ledger'[index[a]] == row;
      }
    }
  }

  // ------------------------------------------------------------------- runs

  /** What `replaceAll` indexes is right when no application id is repeated. */
  lemma PlannedIndexAgrees(items: seq<Item>)
    requires DistinctItems(items)
    ensures IndexAgrees(IndexOf(Planned(items)), PlannedLedger(items))
  {
    var ledger := PlannedLedger(items);
    PlannedHolds(items);
    forall a, b | a in ledger && b in ledger && a != b
      ensures !SameJob(ledger[a].item, ledger[b].item)
    {
      if a < b {
        assert !SameJob(items[a - 1], items[b - 1]);
      } else {
        assert !SameJob(items[b - 1], items[a - 1]);
      }
    }
    assert forall a, b :: a in ledger && b in ledger && a != b ==> !SameJob(ledger[a].item, ledger[b].item);
    IndexOfAllRows(Planned(items), ledger);
    RebuiltIndexAgrees(ledger);
  }

  ghost predicate IndexInv(m: Machine) {
    m.cfg.unique ==>
      match m.phase
      case Up(mem, index, _, _, inflight) =>
        && IndexAgrees(index, m.ledger)
        && (inflight.Some? && inflight.value.op.EnqueueOp? ==>
            JobIsFree(index, inflight.value.op.row.item, inflight.value.op.row.id))
        && (inflight.Some? && inflight.value.op.RescheduleOp? ==>
             OpId(inflight.value.op) in m.ledger
               && JobIdOf(inflight.value.op.row.item) == JobIdOf(m.ledger[OpId(inflight.value.op)].item))
        && (inflight.Some? && inflight.value.op.ReplaceOp? ==> DistinctItems(inflight.value.op.items))
      case Down => true
      case Hydrating(_, _, _) => DistinctJobs(m.ledger)
  }

  /** What an index update removes is what the logical contents hold. */
  lemma IndexedItemIsHeld(m: Machine)
    requires Inv(m) && m.phase.Up? && m.phase.inflight.Some?
    ensures var op, mem := m.phase.inflight.value.op, m.phase.mem;
      && Enabled(op, mem)
      && (op.AckOp? ==> op.id in m.ledger && mem.leased[op.id].row == m.ledger[op.id])
      && (op.DequeueOp? ==> op.row.id in m.ledger && op.row == m.ledger[op.row.id])
      && (op.CancelOp? ==> op.id in m.ledger && PendingRow(mem, op.id) == m.ledger[op.id])
  {
    var op, mem, before := m.phase.inflight.value.op, m.phase.mem, Before(m);
    match op
    case AckOp(id) => LeasedRowIsHeld(mem, before, m.ledger, m.clock, id);
    case DequeueOp(row) => PoppedRow(mem, row, before, m.ledger, m.clock);
    case CancelOp(id) => DroppedIsConsistent(mem, before, m.ledger, m.clock, id);
    case _ =>
  }

  lemma ApplyKeepsIndex(m: Machine)
    requires Inv(m) && IndexInv(m) && m.cfg.unique && Stands(m, true)
    ensures IndexInv(ExecApply(m))
  {
    var op, index := m.phase.inflight.value.op, m.phase.index;
    if op.ReplaceOp? {
      PlannedIndexAgrees(op.items);
    } else if !op.ClearOp? {
      InflightIdIsHeld(m);
      IndexedItemIsHeld(m);
      OneRowKeepsIndex(m, op);
    }
  }

  /** The updates of single rows. */
  lemma OneRowKeepsIndex(m: Machine, op: Op)
    requires IndexInv(m) && m.cfg.unique && Stands(m, true) && op == m.phase.inflight.value.op && !IsReset(op)
    requires op.EnqueueOp? <==> OpId(op) !in m.ledger
    requires op.AckOp? ==> m.phase.mem.leased[op.id].row == m.ledger[op.id]
    requires op.DequeueOp? ==> op.row == m.ledger[op.row.id]
    requires op.CancelOp? ==> PendingRow(m.phase.mem, op.id) == m.ledger[op.id]
    ensures IndexInv(ExecApply(m))
  {
    var index := m.phase.index;
    match op
    case EnqueueOp(row, _) => AddedJobAgrees(index, m.ledger, row);
    case AckOp(id) => RemovedJobAgrees(index, m.ledger, id);
    case DequeueOp(row) => RemovedJobAgrees(index, m.ledger, row.id);
    case CancelOp(id) => RemovedJobAgrees(index, m.ledger, id);
    case RescheduleOp(row, _) => RescheduleKeepsIndexIff(index, m.ledger, row);
    case _ =>
  }

  lemma BeginKeepsIndex(m: Machine, a: Action)
    requires IndexInv(m)
    ensures IndexInv(ExecBegin(m, a))
  {
  }

  lemma RescheduleKeepsIndex(m: Machine, call: Rescheduling)
    requires Inv(m) && IndexInv(m) && KeepsJobId(m, BeginReschedule(call))
    ensures IndexInv(ExecBeginReschedule(m, call))
  {
    if LeaseIsLive(m, call.row.id, call.generation) {
      LiveRowIsHeld(m, call.row.id, call.generation);
    }
    HeldRescheduleKeepsIndex(m, call);
  }

  lemma LiveRowIsHeld(m: Machine, id: nat, generation: nat)
    requires Inv(m) && LeaseIsLive(m, id, generation)
    ensures id in m.ledger && m.phase.mem.leased[id].row == m.ledger[id]
  {
    LeasedRowIsHeld(m.phase.mem, m.store, m.ledger, m.clock, id);
  }

  lemma HeldRescheduleKeepsIndex(m: Machine, call: Rescheduling)
    requires IndexInv(m) && KeepsJobId(m, BeginReschedule(call))
    requires var id := call.row.id;
      LeaseIsLive(m, id, call.generation) ==> id in m.ledger && m.phase.mem.leased[id].row == m.ledger[id]
    ensures IndexInv(ExecBeginReschedule(m, call))
  {
  }

  lemma HydrateKeepsIndex(m: Machine, a: Action)
    requires Inv(m) && IndexInv(m) && (a.HydrateStart? || a.HydrateDone?)
    ensures IndexInv(Exec(m, a))
  {
    if a.HydrateDone? && m.phase.Hydrating? && m.phase.todo == [] && m.cfg.unique {
      RebuiltIndexAgrees(LedgerOf(m.phase.loaded));
    }
  }

  lemma BesideKeepsIndex(m: Machine, a: Action)
    requires IndexInv(m)
    requires a.RescheduleCall? || a.StoreWrite? || a.StoreFail? || a.BeginClaim? || a.BeginDequeue? || a.EnqueueCall?
             || a.BeginEnqueue? || a.Promote? || a.Tick? || a.HydratePut? || a.Crash?
    ensures IndexInv(Exec(m, a))
  {
    match a
    case BeginEnqueue(id) => BeginEnqueueKeepsIndex(m, id);
    case StoreWrite => StoreStepKeepsIndex(m);
    case StoreFail => StoreStepKeepsIndex(m);
    case BeginClaim => PopKeepsIndex(m);
    case BeginDequeue => PopKeepsIndex(m);
    case _ => TimerKeepsIndex(m, a);
  }

  lemma PopKeepsIndex(m: Machine)
    requires IndexInv(m)
    ensures IndexInv(ExecBeginClaim(m)) && IndexInv(ExecBeginDequeue(m))
  {
  }

  lemma TimerKeepsIndex(m: Machine, a: Action)
    requires IndexInv(m)
    requires a.RescheduleCall? || a.EnqueueCall? || a.Promote? || a.Tick? || a.HydratePut? || a.Crash?
    ensures IndexInv(Exec(m, a))
  {
  }

  lemma StoreStepKeepsIndex(m: Machine)
    requires IndexInv(m)
    ensures IndexInv(ExecStoreWrite(m)) && IndexInv(ExecStoreFail(m))
  {
  }

  lemma BeginEnqueueKeepsIndex(m: Machine, id: nat)
    requires IndexInv(m)
    ensures IndexInv(ExecBeginEnqueue(m, id))
  {
  }

  lemma StepKeepsIndex(m: Machine, a: Action)
    requires Inv(m) && IndexInv(m) && KeepsJobId(m, a)
    ensures IndexInv(Exec(m, a))
  {
    if a.ApplyMemory? {
      if m.cfg.unique && Stands(m, true) {
        ApplyKeepsIndex(m);
      }
    } else if a.HydrateStart? || a.HydrateDone? {
      HydrateKeepsIndex(m, a);
    } else if a.BeginReschedule? {
      RescheduleKeepsIndex(m, a.call);
    } else if a.RescheduleCall? || a.StoreWrite? || a.StoreFail? || a.BeginClaim? || a.BeginDequeue? || a.EnqueueCall?
              || a.BeginEnqueue? || a.Promote? || a.Tick? || a.HydratePut? || a.Crash? {
      BesideKeepsIndex(m, a);
    } else {
      BeginKeepsIndex(m, a);
    }
  }

  lemma {:induction false} RunKeepsIndex(m: Machine, actions: seq<Action>)
    requires Inv(m) && IndexInv(m) && CarefulRun(m, actions) && JobKeepingRun(m, actions)
    ensures Inv(Run(m, actions)) && IndexInv(Run(m, actions))
  {
    if actions != [] {
      var init := actions[..|actions| - 1];
      RunKeepsIndex(m, init);
      StepKeepsIff(Run(m, init), actions[|actions| - 1]);
      StepKeepsIndex(Run(m, init), actions[|actions| - 1]);
    }
  }

  /** In careful runs whose reschedules keep application ids the index and the contents agree,
      across resets and restarts. */
  lemma EveryRunKeepsIndex(start: Machine, actions: seq<Action>)
    requires Start(start) && CarefulRun(start, actions) && JobKeepingRun(start, actions)
    ensures IndexInv(Run(start, actions))
  {
    StartHasIndex(start);
    RunKeepsIndex(start, actions);
  }

  lemma StartHasIndex(start: Machine)
    requires Start(start)
    ensures Inv(start) && IndexInv(start)
  {
    assert CarefulRun(start, []) && Run(start, []) == start;
    EveryRunKeeps(start, []);
  }

  // ----------------------------------------------------------------- lookups

  lemma HeldIsHeld(mem: Memory, more: seq<QueueRow>, ledger: Ledger)
    requires Holds(mem.(ready := mem.ready + more), ledger)
    requires forall id :: id in mem.delayed ==> mem.delayed[id].row.id == id
    requires forall id :: id in mem.leased ==> mem.leased[id].row.id == id
    ensures forall row :: row in Held(mem) ==> row.id in ledger && ledger[row.id] == row
  {
    assert forall row :: row in mem.ready ==> row in mem.ready + more;
  }

  /** What memory holds, an operation in flight or not, are rows of the contents. */
  lemma HeldIsLogical(m: Machine)
    requires Inv(m) && m.phase.Up?
    ensures Partitioned(m.phase.mem)
    ensures forall row :: row in Held(m.phase.mem) ==> row.id in m.ledger && m.ledger[row.id] == row
  {
    var mem := m.phase.mem;
    if m.phase.inflight.Some? && (m.phase.inflight.value.op.ClaimOp? || m.phase.inflight.value.op.DequeueOp?) {
      var row := m.phase.inflight.value.op.row;
      PoppedRow(mem, row, Before(m), m.ledger, m.clock);
      HeldIsHeld(mem, [row], m.ledger);
    } else {
      assert mem.ready + [] == mem.ready && Resting(m) == mem;
      HeldIsHeld(mem, [], m.ledger);
    }
  }

  lemma AgreementShows(index: map<string, nat>, mem: Memory, ledger: Ledger)
    requires IndexAgrees(index, ledger)
    requires forall row :: row in Held(mem) ==> row.id in ledger && ledger[row.id] == row
    ensures IndexShows(index, mem)
  {
  }

  /** In every such state, operations in flight included, no two live rows share an application
      id, and the indexed lookup of any id finds exactly the rows that the scan finds. */
  lemma IndexedLookupIsExact(start: Machine, actions: seq<Action>, a: string)
    requires Start(start) && CarefulRun(start, actions) && JobKeepingRun(start, actions)
    ensures var m := Run(start, actions);
      m.cfg.unique && m.phase.Up? ==>
        && DistinctJobs(m.ledger)
        && Lookup(m.phase.index, m.phase.mem, a) == Scan(m.phase.mem, a)
  {
    var m := Run(start, actions);
    EveryRunKeeps(start, actions);
    EveryRunKeepsIndex(start, actions);
    if m.cfg.unique && m.phase.Up? {
      AgreementMeansDistinctJobs(m.phase.index, m.ledger);
      HeldIsLogical(m);
      AgreementShows(m.phase.index, m.phase.mem, m.ledger);
      LookupIsScan(m.phase.index, m.phase.mem, a);
    }
  }
}
