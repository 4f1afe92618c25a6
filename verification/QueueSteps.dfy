/** Each durable operation keeps memory, store and logical contents consistent. */
module QueueSteps {
  import opened Options
  import opened Records
  import opened PendingRows
  import opened QueueModel

  /** What an in-flight operation may rely on besides its check: nothing else holds
      the id it brings in, a claim's generation is the newest, attempts are 1-based. */
  ghost predicate Fresh(op: Op, mem: Memory, ledger: Ledger) {
    match op
    case EnqueueOp(row, _) => row.id !in ledger && 1 <= row.id <= mem.counter
    case ClaimOp(row, generation, _) =>
      generation >= 1 && forall id :: id in mem.leased ==> mem.leased[id].generation < generation
    case RescheduleOp(row, _) => row.attempt >= 1
    case _ => true
  }

  lemma LedgerOfWrite(store: Store, row: QueueRow, at: real, lease: Option<nat>, expiresAt: Option<real>)
    requires row.attempt >= 1
    ensures LedgerOf(store[row.id := ToRecord(row, at, lease, expiresAt)]) == LedgerOf(store)[row.id := row]
  {
    RecordRoundTrip(row, at, lease, expiresAt);
  }

  lemma LedgerOfRemoval(store: Store, id: nat)
    ensures LedgerOf(store - {id}) == LedgerOf(store) - {id}
  {
  }

  lemma SameLedger(ledger: Ledger, row: QueueRow)
    requires row.id in ledger && ledger[row.id] == row
    ensures ledger[row.id := row] == ledger
  {
  }

  lemma AddedIsPartitioned(mem: Memory, row: QueueRow, at: real)
    requires Partitioned(mem)
    requires row.id !in mem.delayed && row.id !in mem.leased && forall r :: r in mem.ready ==> r.id != row.id
    ensures Partitioned(Add(mem, row, at))
  {
  }

  lemma AddedShape(mem: Memory, ledger: Ledger, row: QueueRow, at: real)
    requires Partitioned(mem) && Numbered(mem) && Fenced(mem) && Holds(mem, ledger)
    requires row.id !in ledger && 1 <= row.id <= mem.counter && row.attempt >= 1
    ensures var mem' := Add(mem, row, at); Partitioned(mem') && Numbered(mem') && Fenced(mem')
  {
    AddedIsPartitioned(mem, row, at);
  }

  lemma AddedHolds(mem: Memory, ledger: Ledger, row: QueueRow, at: real)
    requires Holds(mem, ledger) && row.id !in ledger
    ensures Holds(Add(mem, row, at), ledger[row.id := row])
  {
    var mem' := Add(mem, row, at);
    assert at == 0.0 ==> mem'.ready[|mem.ready|] == row;
    assert forall r :: r in mem.ready ==> r in mem'.ready;
  }

  lemma AddedPlaced(mem: Memory, store: Store, ledger: Ledger, clock: real, row: QueueRow, at: real)
    requires Holds(mem, ledger) && Placed(mem, store, clock) && row.id !in ledger && clock >= 0.0
    ensures Placed(Add(mem, row, at), store[row.id := ToRecord(row, at, None, None)], clock)
  {
  }

  /** A new or returning row: ready at once, or delayed. */
  lemma AddedIsConsistent(mem: Memory, store: Store, ledger: Ledger, clock: real, row: QueueRow, at: real)
    requires Consistent(mem, store, ledger, clock)
    requires row.id !in ledger && 1 <= row.id <= mem.counter && row.attempt >= 1 && at >= 0.0
    ensures Consistent(Add(mem, row, at), store[row.id := ToRecord(row, at, None, None)], ledger[row.id := row], clock)
  {
    LedgerOfWrite(store, row, at, None, None);
    AddedShape(mem, ledger, row, at);
    AddedHolds(mem, ledger, row, at);
    AddedPlaced(mem, store, ledger, clock, row, at);
  }

  lemma UnleasedShape(mem: Memory, id: nat)
    requires Partitioned(mem) && Numbered(mem) && Fenced(mem)
    ensures var mem' := mem.(leased := mem.leased - {id}); Partitioned(mem') && Numbered(mem') && Fenced(mem')
  {
  }

  lemma UnleasedHolds(mem: Memory, ledger: Ledger, id: nat)
    requires Partitioned(mem) && Holds(mem, ledger) && id in mem.leased
    ensures Holds(mem.(leased := mem.leased - {id}), ledger - {id})
  {
  }

  lemma UnleasedIsConsistent(mem: Memory, store: Store, ledger: Ledger, clock: real, id: nat)
    requires Consistent(mem, store, ledger, clock) && id in mem.leased
    ensures Consistent(mem.(leased := mem.leased - {id}), store - {id}, ledger - {id}, clock)
  {
    LedgerOfRemoval(store, id);
    UnleasedShape(mem, id);
    UnleasedHolds(mem, ledger, id);
  }

  lemma DroppedShape(mem: Memory, id: nat)
    requires Partitioned(mem) && Numbered(mem) && Fenced(mem) && IsPending(mem, id)
    ensures var mem' := DropPending(mem, id); Partitioned(mem') && Numbered(mem') && Fenced(mem')
  {
    if id !in mem.delayed {
      ReadyWithoutKeeps(mem.ready, id);
    }
  }

  lemma DroppedHolds(mem: Memory, ledger: Ledger, id: nat)
    requires Partitioned(mem) && Holds(mem, ledger) && IsPending(mem, id)
    requires forall i :: i in ledger ==> ledger[i].id == i
    ensures Holds(DropPending(mem, id), ledger - {id})
    ensures id in ledger && ledger[id] == PendingRow(mem, id)
  {
    if id !in mem.delayed {
      ReadyWithoutKeeps(mem.ready, id);
      assert ledger[id] == ReadyRow(mem.ready, id);
    }
  }

  lemma DroppedPlaced(mem: Memory, store: Store, clock: real, id: nat)
    requires Partitioned(mem) && Placed(mem, store, clock) && IsPending(mem, id)
    ensures Placed(DropPending(mem, id), store - {id}, clock)
  {
    if id !in mem.delayed {
      ReadyWithoutKeeps(mem.ready, id);
      var row := ReadyRow(mem.ready, id);
      assert id !in mem.leased;
    }
  }

  /** Removing a delayed row, or one ready row. */
  lemma DroppedIsConsistent(mem: Memory, store: Store, ledger: Ledger, clock: real, id: nat)
    requires Consistent(mem, store, ledger, clock) && IsPending(mem, id)
    ensures Consistent(DropPending(mem, id), store - {id}, ledger - {id}, clock)
    ensures id in ledger && ledger[id] == PendingRow(mem, id)
    ensures ledger[id].id == id && 1 <= id <= mem.counter && ledger[id].attempt >= 1
  {
    LedgerOfRemoval(store, id);
    DroppedShape(mem, id);
    LedgerIsKeyed(mem, store, ledger, clock);
    DroppedHolds(mem, ledger, id);
    DroppedPlaced(mem, store, clock, id);
  }

  lemma OverwriteAfterRemoval(store: Store, id: nat, rec: Record)
    ensures (store - {id})[id := rec] == store[id := rec]
  {
  }

  lemma RewriteAfterRemoval(ledger: Ledger, id: nat, row: QueueRow)
    ensures (ledger - {id})[id := row] == ledger[id := row]
  {
  }

  lemma LeasedRowIsHeld(mem: Memory, store: Store, ledger: Ledger, clock: real, id: nat)
    requires Consistent(mem, store, ledger, clock) && id in mem.leased
    ensures id in ledger && ledger[id] == mem.leased[id].row && ledger[id].id == id
    ensures 1 <= id <= mem.counter && ledger[id].attempt >= 1
    ensures ledger[id := mem.leased[id].row] == ledger
  {
  }

  /** A lease ends and its row, changed or not, becomes ready or delayed. */
  lemma ReturnedIsConsistent(mem: Memory, store: Store, ledger: Ledger, clock: real, row: QueueRow, at: real)
    requires Consistent(mem, store, ledger, clock) && row.id in mem.leased && row.attempt >= 1 && at >= 0.0
    ensures Consistent(Add(mem.(leased := mem.leased - {row.id}), row, at),
                       store[row.id := ToRecord(row, at, None, None)], ledger[row.id := row], clock)
  {
    var id := row.id;
    LeasedRowIsHeld(mem, store, ledger, clock, id);
    UnleasedIsConsistent(mem, store, ledger, clock, id);
    AddedIsConsistent(mem.(leased := mem.leased - {id}), store - {id}, ledger - {id}, clock, row, at);
    OverwriteAfterRemoval(store, id, ToRecord(row, at, None, None));
    RewriteAfterRemoval(ledger, id, row);
  }

  lemma MovedIsConsistent(mem: Memory, store: Store, ledger: Ledger, clock: real, id: nat, at: real)
    requires Consistent(mem, store, ledger, clock) && IsPending(mem, id) && at >= 0.0
    ensures var row := PendingRow(mem, id);
      Consistent(Add(DropPending(mem, id), row, at), store[id := ToRecord(row, at, None, None)], ledger, clock)
  {
    var row := PendingRow(mem, id);
    DroppedIsConsistent(mem, store, ledger, clock, id);
    assert row.id == id;
    AddedIsConsistent(DropPending(mem, id), store - {id}, ledger - {id}, clock, row, at);
    OverwriteAfterRemoval(store, id, ToRecord(row, at, None, None));
    RewriteAfterRemoval(ledger, id, row);
    SameLedger(ledger, row);
  }

  /** A lease put in place (a claim) or prolonged (an extension). */
  lemma LeasedPlaced(mem: Memory, store: Store, clock: real, entry: LeasedRow)
    requires Placed(mem, store, clock)
    requires entry.row.id !in mem.delayed && forall r :: r in mem.ready ==> r.id != entry.row.id
    ensures Placed(mem.(leased := mem.leased[entry.row.id := entry]),
                   store[entry.row.id := ToRecord(entry.row, 0.0, Some(entry.generation), entry.expiresAt)], clock)
  {
  }

  lemma LeasedHolds(mem: Memory, ledger: Ledger, entry: LeasedRow)
    requires Holds(mem.(ready := mem.ready + [entry.row]), ledger) || (Holds(mem, ledger) && entry.row.id in mem.leased)
    requires entry.row.id in ledger && ledger[entry.row.id] == entry.row
    requires forall id :: id in ledger ==> ledger[id].id == id
    ensures Holds(mem.(leased := mem.leased[entry.row.id := entry]), ledger)
  {
    assert forall r :: r in mem.ready ==> r in mem.ready + [entry.row];
    forall id | id in ledger && id != entry.row.id && ledger[id] in mem.ready + [entry.row]
      ensures ledger[id] in mem.ready
    {
    }
  }

  lemma LedgerIsKeyed(mem: Memory, store: Store, ledger: Ledger, clock: real)
    requires Consistent(mem, store, ledger, clock)
    ensures forall id :: id in ledger ==> ledger[id].id == id
  {
  }

  lemma ExtendedShape(mem: Memory, id: nat, expiresAt: Option<real>)
    requires Partitioned(mem) && Numbered(mem) && Fenced(mem) && id in mem.leased
    ensures var mem' := mem.(leased := mem.leased[id := mem.leased[id].(expiresAt := expiresAt)]);
      Partitioned(mem') && Numbered(mem') && Fenced(mem')
  {
  }

  lemma ExtendedIsConsistent(mem: Memory, store: Store, ledger: Ledger, clock: real, id: nat, expiresAt: Option<real>)
    requires Consistent(mem, store, ledger, clock) && id in mem.leased
    ensures var entry := mem.leased[id];
      Consistent(mem.(leased := mem.leased[id := entry.(expiresAt := expiresAt)]),
                 store[id := ToRecord(entry.row, 0.0, Some(entry.generation), expiresAt)], ledger, clock)
  {
    var entry := mem.leased[id].(expiresAt := expiresAt);
    LeasedRowIsHeld(mem, store, ledger, clock, id);
    LedgerOfWrite(store, entry.row, 0.0, Some(entry.generation), expiresAt);
    LedgerIsKeyed(mem, store, ledger, clock);
    SameLedger(ledger, entry.row);
    ExtendedShape(mem, id, expiresAt);
    LeasedHolds(mem, ledger, entry);
    LeasedPlaced(mem, store, clock, entry);
  }

  /** The popped row as the last ready row. */
  lemma PoppedRow(mem: Memory, row: QueueRow, store: Store, ledger: Ledger, clock: real)
    requires Consistent(mem.(ready := mem.ready + [row]), store, ledger, clock)
    ensures row.id in ledger && ledger[row.id] == row && row.attempt >= 1 && 1 <= row.id <= mem.counter
    ensures row.id !in mem.delayed && row.id !in mem.leased
    ensures forall r :: r in mem.ready ==> r.id != row.id
    ensures Partitioned(mem) && Numbered(mem) && Fenced(mem)
  {
    var ready := mem.ready + [row];
    assert ready[|mem.ready|] == row && row in ready;
    forall r | r in mem.ready
      ensures r.id != row.id && r in ready
    {
      var i :| 0 <= i < |mem.ready| && mem.ready[i] == r;
      assert ready[i] == r;
    }
    forall i, j | 0 <= i < j < |mem.ready|
      ensures mem.ready[i].id != mem.ready[j].id
    {
      assert ready[i] == mem.ready[i] && ready[j] == mem.ready[j];
    }
  }

  lemma DequeuedIsConsistent(mem: Memory, row: QueueRow, store: Store, ledger: Ledger, clock: real)
    requires Consistent(mem.(ready := mem.ready + [row]), store, ledger, clock)
    ensures Consistent(mem, store - {row.id}, ledger - {row.id}, clock)
  {
    PoppedRow(mem, row, store, ledger, clock);
    LedgerOfRemoval(store, row.id);
    LedgerIsKeyed(mem.(ready := mem.ready + [row]), store, ledger, clock);
    PoppedHolds(mem, row, ledger);
    assert forall r :: r in mem.ready ==> r in mem.ready + [row];
  }

  lemma PoppedHolds(mem: Memory, row: QueueRow, ledger: Ledger)
    requires Holds(mem.(ready := mem.ready + [row]), ledger)
    requires row.id !in mem.delayed && row.id !in mem.leased && forall r :: r in mem.ready ==> r.id != row.id
    requires row.id in ledger && ledger[row.id] == row && forall id :: id in ledger ==> ledger[id].id == id
    ensures Holds(mem, ledger - {row.id})
  {
    assert forall r :: r in mem.ready ==> r in mem.ready + [row];
  }

  lemma ClaimedShape(mem: Memory, entry: LeasedRow)
    requires Partitioned(mem) && Numbered(mem) && Fenced(mem)
    requires entry.row.attempt >= 1 && 1 <= entry.row.id <= mem.counter && entry.row.id !in mem.delayed
    requires forall r :: r in mem.ready ==> r.id != entry.row.id
    requires 1 <= entry.generation == mem.generations
    requires forall id :: id in mem.leased ==> mem.leased[id].generation < entry.generation
    ensures var mem' := mem.(leased := mem.leased[entry.row.id := entry]);
      Partitioned(mem') && Numbered(mem') && Fenced(mem')
  {
  }

  lemma ClaimedIsConsistent(mem: Memory, row: QueueRow, generation: nat, expiresAt: Option<real>, store: Store,
                            ledger: Ledger, clock: real)
    requires Consistent(mem.(ready := mem.ready + [row]), store, ledger, clock)
    requires generation == mem.generations && Fresh(ClaimOp(row, generation, expiresAt), mem, ledger)
    ensures Consistent(mem.(leased := mem.leased[row.id := LeasedRow(row, generation, expiresAt)]),
                       store[row.id := ToRecord(row, 0.0, Some(generation), expiresAt)], ledger, clock)
  {
    var entry := LeasedRow(row, generation, expiresAt);
    PoppedRow(mem, row, store, ledger, clock);
    LedgerOfWrite(store, row, 0.0, Some(generation), expiresAt);
    SameLedger(ledger, row);
    LedgerIsKeyed(mem.(ready := mem.ready + [row]), store, ledger, clock);
    LeasedHolds(mem, ledger, entry);
    ClaimedShape(mem, entry);
    assert forall r :: r in mem.ready ==> r in mem.ready + [row];
    LeasedPlaced(mem, store, clock, entry);
  }

  lemma PlannedHolds(items: seq<Item>)
    ensures Holds(Memory(Planned(items), map[], map[], |items|, 0), PlannedLedger(items))
  {
    var rows := Planned(items);
    forall row | row in rows
      ensures row.id in PlannedLedger(items) && PlannedLedger(items)[row.id] == row
    {
      var i :| 0 <= i < |rows| && rows[i] == row;
      assert i + 1 in UpTo(|items|);
    }
    forall id | id in PlannedLedger(items)
      ensures PlannedLedger(items)[id] in rows
    {
      assert rows[id - 1] == PlannedRow(items, id);
    }
  }

  lemma PlannedPlaced(items: seq<Item>, clock: real)
    requires clock >= 0.0
    ensures Placed(Memory(Planned(items), map[], map[], |items|, 0), PlannedStore(items), clock)
  {
    forall row | row in Planned(items)
      ensures row.id in UpTo(|items|) && row == PlannedRow(items, row.id)
    {
    }
  }

  lemma PlannedShape(items: seq<Item>)
    requires |items| <= ID_MAX
    ensures var mem := Memory(Planned(items), map[], map[], |items|, 0);
      Partitioned(mem) && Numbered(mem) && Fenced(mem)
  {
  }

  lemma LedgerOfPlanned(items: seq<Item>)
    ensures LedgerOf(PlannedStore(items)) == PlannedLedger(items)
  {
    forall id | id in UpTo(|items|)
      ensures FromRecord(PlannedStore(items)[id]) == PlannedRow(items, id)
    {
      RecordRoundTrip(PlannedRow(items, id), 0.0, None, None);
    }
  }

  /** Rows put in from scratch. */
  lemma PlannedIsConsistent(items: seq<Item>, clock: real)
    requires |items| <= ID_MAX && clock >= 0.0
    ensures Consistent(Memory(Planned(items), map[], map[], |items|, 0), PlannedStore(items), PlannedLedger(items),
                       clock)
  {
    PlannedShape(items);
    PlannedHolds(items);
    PlannedPlaced(items, clock);
    LedgerOfPlanned(items);
  }

  lemma LeaseOpIsConsistent(op: Op, mem: Memory, store: Store, ledger: Ledger, clock: real)
    requires op.ClaimOp? || op.AckOp? || op.ExtendOp? || op.ReleaseOp? || op.RescheduleOp?
    requires Enabled(op, mem) && Fresh(op, mem, ledger)
    requires Consistent(Abandoned(op, mem), store, ledger, clock)
    ensures Consistent(Applied(op, mem), Written(op, mem, store), LedgerAfter(op, ledger), clock)
  {
    match op
    case ClaimOp(row, generation, expiresAt) =>
      ClaimedIsConsistent(mem, row, generation, expiresAt, store, ledger, clock);
    case AckOp(id) => UnleasedIsConsistent(mem, store, ledger, clock, id);
    case ExtendOp(id, expiresAt) => ExtendedIsConsistent(mem, store, ledger, clock, id, expiresAt);
    case ReleaseOp(id) =>
      LeasedRowIsHeld(mem, store, ledger, clock, id);
      ReturnedIsConsistent(mem, store, ledger, clock, mem.leased[id].row, 0.0);
    case RescheduleOp(row, at) => ReturnedIsConsistent(mem, store, ledger, clock, row, at);
  }

  /** A reset leaves memory, store and contents in agreement whatever they were. */
  lemma ResetIsConsistent(op: Op, mem: Memory, store: Store, ledger: Ledger, clock: real)
    requires IsReset(op) && Enabled(op, mem) && clock >= 0.0
    ensures Consistent(Applied(op, mem), Written(op, mem, store), LedgerAfter(op, ledger), clock)
  {
    if op.ClearOp? {
      assert LedgerOf(map[]) == map[];
    } else {
      PlannedIsConsistent(op.items, clock);
    }
  }

  lemma OtherOpIsConsistent(op: Op, mem: Memory, store: Store, ledger: Ledger, clock: real)
    requires op.EnqueueOp? || op.DequeueOp? || op.CancelOp? || op.MoveOp?
    requires Enabled(op, mem) && Fresh(op, mem, ledger)
    requires Consistent(Abandoned(op, mem), store, ledger, clock)
    ensures Consistent(Applied(op, mem), Written(op, mem, store), LedgerAfter(op, ledger), clock)
  {
    match op
    case EnqueueOp(row, at) => AddedIsConsistent(mem, store, ledger, clock, row, at);
    case DequeueOp(row) => DequeuedIsConsistent(mem, row, store, ledger, clock);
    case CancelOp(id) => DroppedIsConsistent(mem, store, ledger, clock, id);
    case MoveOp(id, at) => MovedIsConsistent(mem, store, ledger, clock, id, at);
  }

  /** The main step: once written and applied, an operation leaves memory, store and
      logical contents consistent, with exactly its own effect on the contents. */
  lemma AppliedIsConsistent(op: Op, mem: Memory, store: Store, ledger: Ledger, clock: real)
    requires Enabled(op, mem) && Fresh(op, mem, ledger)
    requires Consistent(Abandoned(op, mem), store, ledger, clock)
    ensures Consistent(Applied(op, mem), Written(op, mem, store), LedgerAfter(op, ledger), clock)
  {
    if op.ClaimOp? || op.AckOp? || op.ExtendOp? || op.ReleaseOp? || op.RescheduleOp? {
      LeaseOpIsConsistent(op, mem, store, ledger, clock);
    } else if IsReset(op) {
      ResetIsConsistent(op, mem, store, ledger, clock);
    } else {
      OtherOpIsConsistent(op, mem, store, ledger, clock);
    }
  }
}
