/** The durable queue's memory and row store as plain values, and what each
    operation does to them (packages/queue/src/queue/core/queue.ts). */
module QueueModel {
  import opened Options
  import opened Records
  import opened PendingRows
  import IdCounters

  type QueueRow = Row<Item>
  type Store = map<nat, Record>
  /** Logical contents: the rows accepted and not yet removed, by id. */
  type Ledger = map<nat, QueueRow>

  datatype DelayedRow = DelayedRow(row: QueueRow, availableAt: real)
  datatype LeasedRow = LeasedRow(row: QueueRow, generation: nat, expiresAt: Option<real>)

  datatype Memory = Memory(
    ready: seq<QueueRow>, delayed: map<nat, DelayedRow>, leased: map<nat, LeasedRow>,
    counter: nat, generations: nat)

  const ID_MAX: nat := IdCounters.ID_MAX

  // ---------------------------------------------------------------- records

  /** `toRecord`: default attempt and handoff counts are left out. */
  function ToRecord(row: QueueRow, availableAt: real, lease: Option<nat>, expiresAt: Option<real>): Record {
    Record(row.id, row.item, availableAt, lease, expiresAt,
           if row.attempt > 1 then Some(row.attempt) else None,
           if row.handoff > 0 then Some(row.handoff) else None)
  }

  function FromRecord(rec: Record): QueueRow {
    Row(rec.id, rec.item, rec.attempt.GetOr(1), ActiveHandoff(rec.handoff.GetOr(0)))
  }

  /** A row survives the store exactly when its attempt is 1-based. */
  lemma RecordRoundTrip(row: QueueRow, availableAt: real, lease: Option<nat>, expiresAt: Option<real>)
    ensures FromRecord(ToRecord(row, availableAt, lease, expiresAt)) == row <==> row.attempt >= 1
  {
  }

  /** What the store means, whatever the timing and lease fields say. */
  function LedgerOf(store: Store): Ledger {
    map id | id in store :: FromRecord(store[id])
  }

  // ------------------------------------------------------------- operations

  /** A durable operation between its check and its memory update. A claim or
      dequeue holds the row it has already popped. */
  datatype Op =
    | EnqueueOp(row: QueueRow, availableAt: real)
    | ClaimOp(row: QueueRow, generation: nat, expiresAt: Option<real>)
    | AckOp(id: nat)
    | ExtendOp(id: nat, expiresAt: Option<real>)
    | ReleaseOp(id: nat)
    | RescheduleOp(row: QueueRow, availableAt: real)
    | DequeueOp(row: QueueRow)
    | CancelOp(id: nat)
    | MoveOp(id: nat, availableAt: real)
    | ClearOp
    | ReplaceOp(items: seq<Item>)

  /** `clear` and `replaceAll`: all rows go, and ids and generations restart. */
  predicate IsReset(op: Op) {
    op.ClearOp? || op.ReplaceOp?
  }

  /** The one row an operation is about. */
  function OpId(op: Op): nat
    requires !IsReset(op)
  {
    match op
    case EnqueueOp(row, _) => row.id
    case ClaimOp(row, _, _) => row.id
    case AckOp(id) => id
    case ExtendOp(id, _) => id
    case ReleaseOp(id) => id
    case RescheduleOp(row, _) => row.id
    case DequeueOp(row) => row.id
    case CancelOp(id) => id
    case MoveOp(id, _) => id
  }

  function ReadyWithout(ready: seq<QueueRow>, id: nat): seq<QueueRow> {
    if ready == [] then []
    else if ready[0].id == id then ready[1..]
    else [ready[0]] + ReadyWithout(ready[1..], id)
  }

  predicate InReady(mem: Memory, id: nat) {
    exists i :: 0 <= i < |mem.ready| && mem.ready[i].id == id
  }

  function ReadyRow(ready: seq<QueueRow>, id: nat): (row: QueueRow)
    requires exists i :: 0 <= i < |ready| && ready[i].id == id
    ensures row in ready && row.id == id
  {
    if ready[0].id == id then ready[0] else ReadyRow(ready[1..], id)
  }

  /** A ready or delayed row: what the admin operations may touch. */
  predicate IsPending(mem: Memory, id: nat) {
    id in mem.delayed || InReady(mem, id)
  }

  function PendingRow(mem: Memory, id: nat): QueueRow
    requires IsPending(mem, id)
  {
    if id in mem.delayed then mem.delayed[id].row else ReadyRow(mem.ready, id)
  }

  function DropPending(mem: Memory, id: nat): Memory {
    if id in mem.delayed then mem.(delayed := mem.delayed - {id})
    else mem.(ready := ReadyWithout(mem.ready, id))
  }

  /** Ready now, or delayed until a positive time. */
  function Add(mem: Memory, row: QueueRow, availableAt: real): Memory {
    if availableAt == 0.0 then mem.(ready := mem.ready + [row])
    else mem.(delayed := mem.delayed[row.id := DelayedRow(row, availableAt)])
  }

  /** The rows that `replaceAll` puts in: ready, numbered from 1. */
  function Planned(items: seq<Item>): (rows: seq<QueueRow>)
    ensures |rows| == |items|
  {
    seq(|items|, i requires 0 <= i < |items| => PlannedRow(items, i + 1))
  }

  function PlannedRow(items: seq<Item>, id: nat): QueueRow
    requires 1 <= id <= |items|
  {
    Row(id, items[id - 1], 1, 0)
  }

  function UpTo(n: nat): (ids: set<nat>)
    ensures |ids| == n && forall id :: id in ids <==> 1 <= id <= n
  {
    if n == 0 then {} else UpTo(n - 1) + {n}
  }

  function PlannedStore(items: seq<Item>): Store {
    map id | id in UpTo(|items|) :: ToRecord(PlannedRow(items, id), 0.0, None, None)
  }

  function PlannedLedger(items: seq<Item>): Ledger {
    map id | id in UpTo(|items|) :: PlannedRow(items, id)
  }

  /** What the check of each operation established. */
  predicate Enabled(op: Op, mem: Memory) {
    match op
    case AckOp(id) => id in mem.leased
    case ExtendOp(id, _) => id in mem.leased
    case ReleaseOp(id) => id in mem.leased
    case RescheduleOp(row, at) => row.id in mem.leased && at >= 0.0
    case CancelOp(id) => IsPending(mem, id)
    case MoveOp(id, at) => IsPending(mem, id) && at >= 0.0
    case EnqueueOp(row, at) => row.attempt >= 1 && at >= 0.0
    case ClaimOp(row, generation, _) => generation == mem.generations
    case DequeueOp(_) => true
    case ClearOp => true
    case ReplaceOp(items) => |items| <= ID_MAX && mem.leased == map[]
  }

  /** The one store call of an operation. */
  function Written(op: Op, mem: Memory, store: Store): Store
    requires Enabled(op, mem)
  {
    match op
    case EnqueueOp(row, at) => store[row.id := ToRecord(row, at, None, None)]
    case ClaimOp(row, generation, expiresAt) => store[row.id := ToRecord(row, 0.0, Some(generation), expiresAt)]
    case AckOp(id) => store - {id}
    case ExtendOp(id, expiresAt) =>
      store[id := ToRecord(mem.leased[id].row, 0.0, Some(mem.leased[id].generation), expiresAt)]
    case ReleaseOp(id) => store[id := ToRecord(mem.leased[id].row, 0.0, None, None)]
    case RescheduleOp(row, at) => store[row.id := ToRecord(row, at, None, None)]
    case DequeueOp(row) => store - {row.id}
    case CancelOp(id) => store - {id}
    case MoveOp(id, at) => store[id := ToRecord(PendingRow(mem, id), at, None, None)]
    case ClearOp => map[]
    case ReplaceOp(items) => PlannedStore(items)
  }

  /** The memory update after the store call succeeded. */
  function Applied(op: Op, mem: Memory): Memory
    requires Enabled(op, mem)
  {
    match op
    case EnqueueOp(row, at) => Add(mem, row, at)
    case ClaimOp(row, generation, expiresAt) =>
      mem.(leased := mem.leased[row.id := LeasedRow(row, generation, expiresAt)])
    case AckOp(id) => mem.(leased := mem.leased - {id})
    case ExtendOp(id, expiresAt) => mem.(leased := mem.leased[id := mem.leased[id].(expiresAt := expiresAt)])
    case ReleaseOp(id) => mem.(leased := mem.leased - {id}, ready := mem.ready + [mem.leased[id].row])
    case RescheduleOp(row, at) => Add(mem.(leased := mem.leased - {row.id}), row, at)
    case DequeueOp(_) => mem
    case CancelOp(id) => DropPending(mem, id)
    case MoveOp(id, at) => Add(DropPending(mem, id), PendingRow(mem, id), at)
    case ClearOp => Memory([], map[], map[], 0, 0)
    case ReplaceOp(items) => Memory(Planned(items), map[], map[], |items|, 0)
  }

  /** The memory update after the store call failed: a popped row goes to the tail. */
  function Abandoned(op: Op, mem: Memory): Memory {
    match op
    case ClaimOp(row, _, _) => mem.(ready := mem.ready + [row])
    case DequeueOp(row) => mem.(ready := mem.ready + [row])
    case _ => mem
  }

  /** What an operation means for the logical contents. */
  function LedgerAfter(op: Op, ledger: Ledger): Ledger {
    match op
    case EnqueueOp(row, _) => ledger[row.id := row]
    case RescheduleOp(row, _) => ledger[row.id := row]
    case AckOp(id) => ledger - {id}
    case DequeueOp(row) => ledger - {row.id}
    case CancelOp(id) => ledger - {id}
    case ClearOp => map[]
    case ReplaceOp(items) => PlannedLedger(items)
    case _ => ledger
  }

  // ------------------------------------------------------------- invariants

  /** Each live row id sits in exactly one of ready, delayed and leased. */
  ghost predicate Partitioned(mem: Memory) {
    && (forall i, j :: 0 <= i < j < |mem.ready| ==> mem.ready[i].id != mem.ready[j].id)
    && (forall row :: row in mem.ready ==> row.id !in mem.delayed && row.id !in mem.leased)
    && mem.delayed.Keys !! mem.leased.Keys
    && (forall id :: id in mem.delayed ==> mem.delayed[id].row.id == id)
    && (forall id :: id in mem.leased ==> mem.leased[id].row.id == id)
  }

  /** Every live id has been handed out by the counter, attempts are 1-based. */
  ghost predicate Numbered(mem: Memory) {
    && mem.counter <= ID_MAX
    && (forall row :: row in mem.ready ==> 1 <= row.id <= mem.counter && row.attempt >= 1)
    && (forall id :: id in mem.delayed ==> 1 <= id <= mem.counter && mem.delayed[id].row.attempt >= 1)
    && (forall id :: id in mem.leased ==> 1 <= id <= mem.counter && mem.leased[id].row.attempt >= 1)
  }

  /** What every operation needs of memory, and keeps. */
  ghost predicate Sound(mem: Memory) {
    Partitioned(mem) && Numbered(mem)
  }

  /** Lease generations are distinct and none lies ahead of the sequence. */
  ghost predicate Fenced(mem: Memory) {
    && (forall id :: id in mem.leased ==> 1 <= mem.leased[id].generation <= mem.generations)
    && (forall a, b :: a in mem.leased && b in mem.leased && a != b ==>
        mem.leased[a].generation != mem.leased[b].generation)
  }

  ghost predicate Holds(mem: Memory, ledger: Ledger) {
    && (forall row :: row in mem.ready ==> row.id in ledger && ledger[row.id] == row)
    && (forall id :: id in mem.delayed ==> id in ledger && ledger[id] == mem.delayed[id].row)
    && (forall id :: id in mem.leased ==> id in ledger && ledger[id] == mem.leased[id].row)
    && (forall id :: id in ledger ==> ledger[id] in mem.ready || id in mem.delayed || id in mem.leased)
  }

  /** The store's timing and lease fields match where the row is kept. */
  ghost predicate Placed(mem: Memory, store: Store, clock: real) {
    && (forall id :: id in store ==> store[id].id == id)
    && (forall row :: row in mem.ready ==>
        row.id in store && store[row.id].lease.None? && store[row.id].availableAt <= clock)
    && (forall id :: id in mem.delayed ==>
        id in store && store[id].lease.None? && store[id].availableAt == mem.delayed[id].availableAt)
    && (forall id :: id in mem.leased ==> id in store && store[id].lease == Some(mem.leased[id].generation)
                                          && store[id].leaseExpiresAt == mem.leased[id].expiresAt)
  }

  ghost predicate Consistent(mem: Memory, store: Store, ledger: Ledger, clock: real) {
    && Partitioned(mem) && Numbered(mem) && Fenced(mem)
    && Holds(mem, ledger) && Placed(mem, store, clock)
    && LedgerOf(store) == ledger && clock >= 0.0
  }

  // ------------------------------------------------------------ small lemmas

  lemma {:induction false} ReadyWithoutKeeps(ready: seq<QueueRow>, id: nat)
    requires forall i, j :: 0 <= i < j < |ready| ==> ready[i].id != ready[j].id
    ensures var rest := ReadyWithout(ready, id);
      && (forall row :: row in rest <==> row in ready && row.id != id)
      && (forall i, j :: 0 <= i < j < |rest| ==> rest[i].id != rest[j].id)
      && |rest| == |ready| - (if exists i :: 0 <= i < |ready| && ready[i].id == id then 1 else 0)
  {
    if ready != [] {
      var tail := ready[1..];
      ReadyWithoutKeeps(tail, id);
      assert ready == [ready[0]] + tail;
      assert forall row :: row in tail ==> row.id != ready[0].id;
      if ready[0].id != id {
        assert (exists i :: 0 <= i < |ready| && ready[i].id == id) <==>
          (exists i :: 0 <= i < |tail| && tail[i].id == id) by {
          if i :| 0 <= i < |ready| && ready[i].id == id {
            assert tail[i - 1].id == id;
          }
        }
      }
    }
  }
}
