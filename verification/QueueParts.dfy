/** What the queue's parts mean, as values: the expiry heap with its stale entries, the delayed
    heap, promotion and reclaim (packages/queue/src/queue/core/queue.ts). */
module QueueParts {
  import opened Options
  import opened Sequences
  import opened Records
  import opened PendingRows
  import opened QueueModel
  import opened QueueSteps
  import opened DurableMachine
  import opened Durability
  import MinHeaps

  datatype LeaseExpiry = LeaseExpiry(id: nat, generation: nat, expiresAt: real)

  /** `requireLease`: the token names a live lease of the same generation. */
  ghost predicate IsCurrent(leased: map<nat, LeasedRow>, lease: LeasedRow) {
    lease.row.id in leased && leased[lease.row.id].generation == lease.generation
  }

  // ------------------------------------------------------------ expiry heap

  predicate IsLive(leased: map<nat, LeasedRow>, e: LeaseExpiry) {
    e.id in leased && leased[e.id].generation == e.generation && leased[e.id].expiresAt == Some(e.expiresAt)
  }

  function EntryOf(id: nat, lease: LeasedRow): LeaseExpiry
    requires lease.expiresAt.Some?
  {
    LeaseExpiry(id, lease.generation, lease.expiresAt.value)
  }

  /** Every lease with a deadline has its entry in the heap; other entries are stale. */
  ghost predicate Covered(leased: map<nat, LeasedRow>, entries: seq<LeaseExpiry>) {
    forall id :: id in leased && leased[id].expiresAt.Some? ==> EntryOf(id, leased[id]) in entries
  }

  /** Armed for the least live deadline, or not at all when there is none. */
  ghost predicate ArmedForLeast(leased: map<nat, LeasedRow>, timer: Option<real>) {
    match timer
    case None => forall id :: id in leased ==> leased[id].expiresAt.None?
    case Some(at) =>
      && (exists id :: id in leased && leased[id].expiresAt == Some(at))
      && (forall id :: id in leased && leased[id].expiresAt.Some? ==> at <= leased[id].expiresAt.value)
  }

  // ------------------------------------------------------------ delayed heap

  /** The heap's values are exactly the delayed rows, once each. */
  ghost predicate Represents(data: seq<DelayedRow>, delayed: map<nat, DelayedRow>) {
    && |data| == |delayed|
    && (forall id :: id in delayed ==> delayed[id].row.id == id)
    && (forall e :: multiset(data)[e] == if e.row.id in delayed && delayed[e.row.id] == e then 1 else 0)
  }

  ghost predicate DelayArmed(delayed: map<nat, DelayedRow>, timer: Option<real>) {
    match timer
    case None => delayed == map[]
    case Some(at) =>
      && (exists id :: id in delayed && delayed[id].availableAt == at)
      && (forall id :: id in delayed ==> at <= delayed[id].availableAt)
  }

  lemma RepresentsPush(data: seq<DelayedRow>, data': seq<DelayedRow>, delayed: map<nat, DelayedRow>, e: DelayedRow)
    requires Represents(data, delayed) && e.row.id !in delayed
    requires multiset(data') == multiset(data) + multiset{e}
    ensures Represents(data', delayed[e.row.id := e])
  {
    assert |multiset(data')| == |data'| && |multiset(data)| == |data|;
    assert |delayed[e.row.id := e]| == |delayed| + 1 by {
      assert delayed[e.row.id := e].Keys == delayed.Keys + {e.row.id};
    }
  }

  lemma RepresentsRemove(data: seq<DelayedRow>, data': seq<DelayedRow>, delayed: map<nat, DelayedRow>, e: DelayedRow)
    requires Represents(data, delayed) && e in data
    requires multiset(data) == multiset(data') + multiset{e}
    ensures e.row.id in delayed && delayed[e.row.id] == e
    ensures Represents(data', delayed - {e.row.id})
  {
    assert |multiset(data')| == |data'| && |multiset(data)| == |data|;
    assert multiset(data)[e] > 0;
    assert |delayed - {e.row.id}| == |delayed| - 1 by {
      assert (delayed - {e.row.id}).Keys == delayed.Keys - {e.row.id};
    }
  }

  lemma RepresentsMembers(data: seq<DelayedRow>, delayed: map<nat, DelayedRow>)
    requires Represents(data, delayed)
    ensures forall e :: e in data <==> e.row.id in delayed && delayed[e.row.id] == e
    ensures data == [] <==> delayed == map[]
  {
    assert forall e :: e in data <==> multiset(data)[e] > 0;
  }

  /** No live deadline can pass unnoticed: the timer is armed no later than any of them. */
  ghost predicate TimerCovers(leased: map<nat, LeasedRow>, timer: Option<real>) {
    match timer
    case None => forall id :: id in leased ==> leased[id].expiresAt.None?
    case Some(at) => forall id :: id in leased && leased[id].expiresAt.Some? ==> at <= leased[id].expiresAt.value
  }

  /** Part of a promotion: the rows of `order` have left, in time order, before all the rest. */
  ghost predicate Leaving(all: map<nat, DelayedRow>, rest: map<nat, DelayedRow>, clock: real, order: seq<nat>) {
    && (forall id :: id in all <==> id in order || id in rest)
    && (forall id :: id in rest ==> id !in order && rest[id] == all[id])
    && (forall i, j :: 0 <= i < j < |order| ==> order[i] != order[j])
    && (forall id :: id in order ==> all[id].availableAt <= clock)
    && (forall i, j :: 0 <= i < j < |order| && order[i] in all && order[j] in all ==>
         all[order[i]].availableAt <= all[order[j]].availableAt)
    && (forall id, d :: id in order && id in all && d in rest ==> all[id].availableAt <= rest[d].availableAt)
  }

  lemma LeavingOne(all: map<nat, DelayedRow>, rest: map<nat, DelayedRow>, clock: real, order: seq<nat>, id: nat)
    requires Leaving(all, rest, clock, order) && id in rest && rest[id].availableAt <= clock
    requires forall d :: d in rest ==> rest[id].availableAt <= rest[d].availableAt
    ensures Leaving(all, rest - {id}, clock, order + [id])
    ensures RowsOf(all, order + [id]) == RowsOf(all, order) + [rest[id].row]
  {
    var order' := order + [id];
    assert forall d :: d in order' <==> d in order || d == id;
  }

  lemma AllDueLeft(data: seq<DelayedRow>, all: map<nat, DelayedRow>, rest: map<nat, DelayedRow>, clock: real,
                   order: seq<nat>, key: DelayedRow -> real)
    requires Leaving(all, rest, clock, order) && Represents(data, rest)
    requires MinHeaps.Ordered(data, key) && forall e :: key(e) == e.availableAt
    requires data == [] || data[0].availableAt > clock
    ensures DueOrder(all, clock, order) && rest == all - (set id | id in order)
  {
    RepresentsMembers(data, rest);
    MinHeaps.RootIsLeastValue(data, key);
    forall id | id in rest
      ensures rest[id].availableAt > clock
    {
      assert rest[id] in data;
      assert key(data[0]) <= key(rest[id]);
    }
  }

  // ---------------------------------------------------------------- reclaim

  function LeasedRows(leased: map<nat, LeasedRow>, ids: seq<nat>): (rows: seq<QueueRow>)
    requires forall id :: id in ids ==> id in leased
    ensures |rows| == |ids|
  {
    seq(|ids|, i requires 0 <= i < |ids| => leased[ids[i]].row)
  }

  function Deadline(leased: map<nat, LeasedRow>, id: nat): real {
    if id in leased then leased[id].expiresAt.GetOr(0.0) else 0.0
  }

  /** The leases of `ids` end and their rows go to the FIFO tail in that order. */
  function Reclaimed(mem: Memory, ids: seq<nat>): Memory
    requires forall id :: id in ids ==> id in mem.leased
  {
    mem.(ready := mem.ready + LeasedRows(mem.leased, ids), leased := mem.leased - (set id | id in ids))
  }

  function ReclaimedStore(rows: Store, leased: map<nat, LeasedRow>, ids: seq<nat>): Store
    requires forall id :: id in ids ==> id in leased
  {
    map id | id in rows.Keys + (set i | i in ids) ::
      if id in ids then ToRecord(leased[id].row, 0.0, None, None) else rows[id]
  }

  /** Part of a reclaim: expired leases of `all` ended in the order of their deadlines. */
  ghost predicate Reclaiming(all: map<nat, LeasedRow>, clock: real, ids: seq<nat>) {
    && (forall i, j :: 0 <= i < j < |ids| ==> ids[i] != ids[j])
    && (forall id :: id in ids ==> id in all && all[id].expiresAt.Some? && all[id].expiresAt.value <= clock)
    && (forall i, j :: 0 <= i < j < |ids| ==> Deadline(all, ids[i]) <= Deadline(all, ids[j]))
  }

  /** Every lease whose deadline has passed is among `ids`. */
  ghost predicate NothingElseDue(all: map<nat, LeasedRow>, clock: real, ids: seq<nat>) {
    forall id :: id in all && all[id].expiresAt.Some? && all[id].expiresAt.value <= clock ==> id in ids
  }

  /** No ended lease had a later deadline than an entry that remains. */
  ghost predicate Earlier(all: map<nat, LeasedRow>, ids: seq<nat>, entries: seq<LeaseExpiry>) {
    forall id, e :: id in ids && e in entries ==> Deadline(all, id) <= e.expiresAt
  }

  lemma ReclaimingOne(all: map<nat, LeasedRow>, clock: real, ids: seq<nat>, entries: seq<LeaseExpiry>, id: nat)
    requires Reclaiming(all, clock, ids) && Earlier(all, ids, entries)
    requires id in all && id !in ids && EntryIn(all, id, entries)
    requires all[id].expiresAt.value <= clock && forall e :: e in entries ==> all[id].expiresAt.value <= e.expiresAt
    ensures Reclaiming(all, clock, ids + [id]) && Earlier(all, ids + [id], entries)
  {
    var ids' := ids + [id];
    assert forall d :: d in ids' <==> d in ids || d == id;
    assert forall i :: 0 <= i < |ids| ==> ids[i] in ids;
  }

  ghost predicate EntryIn(all: map<nat, LeasedRow>, id: nat, entries: seq<LeaseExpiry>)
    requires id in all
  {
    all[id].expiresAt.Some? && EntryOf(id, all[id]) in entries
  }

  lemma ReclaimedOne(mem: Memory, rows: Store, ids: seq<nat>, id: nat)
    requires forall d :: d in ids ==> d in mem.leased
    requires id in mem.leased && id !in ids
    ensures var now := Reclaimed(mem, ids);
      Reclaimed(mem, ids + [id]) == now.(ready := now.ready + [mem.leased[id].row], leased := now.leased - {id})
    ensures ReclaimedStore(rows, mem.leased, ids + [id])
         == ReclaimedStore(rows, mem.leased, ids)[id := ToRecord(mem.leased[id].row, 0.0, None, None)]
  {
    var ids' := ids + [id];
    assert forall d :: d in ids' <==> d in ids || d == id;
    assert LeasedRows(mem.leased, ids') == LeasedRows(mem.leased, ids) + [mem.leased[id].row];
    assert mem.ready + LeasedRows(mem.leased, ids') == Reclaimed(mem, ids).ready + [mem.leased[id].row];
    assert mem.leased - (set d | d in ids') == Reclaimed(mem, ids).leased - {id};
  }

  lemma ReclaimedNone(mem: Memory, rows: Store)
    ensures Reclaimed(mem, []) == mem && ReclaimedStore(rows, mem.leased, []) == rows
  {
    assert mem.ready + LeasedRows(mem.leased, []) == mem.ready;
    assert mem.leased - {} == mem.leased;
  }

  /** With no due entry left in the heap no due lease is left. */
  lemma NoneDue(entries: seq<LeaseExpiry>, mem: Memory, clock: real, ids: seq<nat>, key: LeaseExpiry -> real)
    requires Reclaiming(mem.leased, clock, ids) && Covered(Reclaimed(mem, ids).leased, entries)
    requires MinHeaps.Ordered(entries, key) && forall e :: key(e) == e.expiresAt
    requires entries == [] || entries[0].expiresAt > clock
    ensures NothingElseDue(mem.leased, clock, ids)
  {
    MinHeaps.RootIsLeastValue(entries, key);
    var rest := Reclaimed(mem, ids).leased;
    forall id | id in rest && rest[id].expiresAt.Some?
      ensures rest[id].expiresAt.value > clock
    {
      assert EntryOf(id, rest[id]) in entries;
      assert key(entries[0]) <= key(EntryOf(id, rest[id]));
    }
    assert forall id :: id in mem.leased && id !in ids ==> id in rest;
  }

  lemma CoveredWithoutStale(leased: map<nat, LeasedRow>, entries: seq<LeaseExpiry>, rest: seq<LeaseExpiry>,
                            head: LeaseExpiry)
    requires Covered(leased, entries) && forall e :: e in entries ==> e in rest || e == head
    ensures !IsLive(leased, head) ==> Covered(leased, rest)
    ensures Covered(leased - {head.id}, rest)
  {
  }

  // ------------------------------------------------------ what a step needs

  lemma UnleasedIsSound(mem: Memory, id: nat)
    requires Sound(mem)
    ensures Sound(mem.(leased := mem.leased - {id}))
  {
  }

  lemma ProlongedIsSound(mem: Memory, id: nat, expiresAt: Option<real>)
    requires Sound(mem) && id in mem.leased
    ensures Sound(mem.(leased := mem.leased[id := mem.leased[id].(expiresAt := expiresAt)]))
  {
  }

  lemma AddedIsSound(mem: Memory, row: QueueRow, at: real)
    requires Sound(mem) && 1 <= row.id <= mem.counter && row.attempt >= 1
    requires row.id !in mem.delayed && row.id !in mem.leased && forall r :: r in mem.ready ==> r.id != row.id
    ensures Sound(Add(mem, row, at))
  {
  }

  /** A row stands where a call at `now` with this delay puts it, in memory and in the store: delayed
      until the delay is over, or at the tail of the FIFO. */
  ghost predicate Arrives(mem: Memory, rows: Store, row: QueueRow, now: real, delayMs: real) {
    && row.id in rows && rows[row.id].id == row.id && rows[row.id].item == row.item && rows[row.id].lease.None?
    && (row.attempt >= 1 ==> FromRecord(rows[row.id]) == row)
    && if delayMs > 0.0 then
         && row.id in mem.delayed && mem.delayed[row.id] == DelayedRow(row, now + delayMs)
         && rows[row.id].availableAt == now + delayMs
       else mem.ready != [] && mem.ready[|mem.ready| - 1] == row && rows[row.id].availableAt == 0.0
  }

  lemma AddedArrives(mem: Memory, rows: Store, row: QueueRow, now: real, delayMs: real)
    requires now >= 0.0
    ensures var at := DueAt(now, delayMs);
      Arrives(Add(mem, row, at), rows[row.id := ToRecord(row, at, None, None)], row, now, delayMs)
  {
    RecordRoundTrip(row, DueAt(now, delayMs), None, None);
  }

  lemma AddedIsUnsound(mem: Memory, row: QueueRow, at: real)
    requires row.attempt < 1
    ensures !Sound(Add(mem, row, at))
  {
    if at == 0.0 {
      assert Add(mem, row, at).ready[|mem.ready|] == row;
      assert row in Add(mem, row, at).ready;
    } else {
      assert row.id in Add(mem, row, at).delayed;
    }
  }

  lemma ReturnedIsSound(mem: Memory, row: QueueRow, at: real)
    requires Sound(mem) && row.id in mem.leased && row.attempt >= 1
    ensures Sound(Add(mem.(leased := mem.leased - {row.id}), row, at))
    ensures row.id !in mem.delayed && mem.leased[row.id].row.id == row.id && mem.leased[row.id].row.attempt >= 1
  {
    UnleasedIsSound(mem, row.id);
    AddedIsSound(mem.(leased := mem.leased - {row.id}), row, at);
  }

  /** A leased row replaced by another version, ready or delayed. */
  function Requeued(mem: Memory, row: QueueRow, at: real): Memory {
    Add(mem.(leased := mem.leased - {row.id}), row, at)
  }

  /** A row of the same id in place of a lease: sound exactly when its attempt is at least 1. */
  lemma ReplacedIsSoundIff(mem: Memory, row: QueueRow, at: real)
    requires Sound(mem) && row.id in mem.leased
    ensures row.id !in mem.delayed
    ensures Sound(Requeued(mem, row, at)) <==> row.attempt >= 1
  {
    if row.attempt >= 1 {
      ReturnedIsSound(mem, row, at);
    } else {
      AddedIsUnsound(mem.(leased := mem.leased - {row.id}), row, at);
    }
  }

  lemma PromotedIsSound(mem: Memory, order: seq<nat>, clock: real)
    requires Sound(mem) && DueOrder(mem.delayed, clock, order)
    ensures Sound(Promoted(mem, order))
  {
    PromotedRowsAre(mem, order, clock);
  }

  /** `isJob(item) && item.id === jobId` */
  ghost predicate Carries(item: Item, jobId: string) {
    item.Job? && item.jobId == jobId
  }

  lemma SplicedTail(ready: seq<QueueRow>, k: nat)
    requires 0 < k < |ready|
    ensures Spliced(ready, k) == [ready[0]] + Spliced(ready[1..], k - 1)
  {
    var tail := ready[1..];
    assert ready[..k] == [ready[0]] + tail[..k - 1];
    assert ready[k + 1..] == tail[k..];
  }

  /** Taking out one position takes out its id, when no earlier row has it. */
  lemma {:induction false} SplicedIsWithout(ready: seq<QueueRow>, k: nat)
    requires k < |ready| && forall i :: 0 <= i < k ==> ready[i].id != ready[k].id
    ensures Spliced(ready, k) == ReadyWithout(ready, ready[k].id)
  {
    if k == 0 {
      assert Spliced(ready, 0) == ready[1..];
    } else {
      SplicedIsWithout(ready[1..], k - 1);
      SplicedTail(ready, k);
    }
  }

  lemma {:induction false} ReadyRowAt(ready: seq<QueueRow>, k: nat)
    requires k < |ready| && forall i :: 0 <= i < k ==> ready[i].id != ready[k].id
    ensures ReadyRow(ready, ready[k].id) == ready[k]
  {
    if k > 0 {
      ReadyRowAt(ready[1..], k - 1);
    }
  }

  lemma DroppedIsSound(mem: Memory, id: nat)
    requires Sound(mem) && IsPending(mem, id)
    ensures Sound(DropPending(mem, id)) && PendingRow(mem, id).id == id && PendingRow(mem, id).attempt >= 1
    ensures id !in DropPending(mem, id).delayed
  {
    if id !in mem.delayed {
      ReadyWithoutKeeps(mem.ready, id);
    }
  }

  lemma MovedIsSound(mem: Memory, id: nat, at: real)
    requires Sound(mem) && IsPending(mem, id)
    ensures Sound(Add(DropPending(mem, id), PendingRow(mem, id), at))
  {
    DroppedIsSound(mem, id);
    if id !in mem.delayed {
      ReadyWithoutKeeps(mem.ready, id);
      assert ReadyRow(mem.ready, id) in mem.ready;
    }
    AddedIsSound(DropPending(mem, id), PendingRow(mem, id), at);
  }

  /** The head of the FIFO popped, and a popped row at the tail. */
  function Beheaded(mem: Memory): Memory
    requires mem.ready != []
  {
    mem.(ready := mem.ready[1..])
  }

  lemma BeheadedIsSound(mem: Memory)
    requires Sound(mem) && mem.ready != []
    ensures var head, rest := mem.ready[0], Beheaded(mem);
      && Sound(rest) && head.attempt >= 1 && 1 <= head.id <= mem.counter
      && head.id !in rest.delayed && head.id !in rest.leased && forall r :: r in rest.ready ==> r.id != head.id
  {
    var head, rest := mem.ready[0], Beheaded(mem);
    assert head in mem.ready;
    forall i | 0 <= i < |rest.ready|
      ensures rest.ready[i] == mem.ready[i + 1] && rest.ready[i] in mem.ready && rest.ready[i].id != head.id
    {
    }
  }

  /** The head leased under the next generation. */
  function HeadLeased(mem: Memory, expiresAt: Option<real>): Memory
    requires mem.ready != []
  {
    var lease := LeasedRow(mem.ready[0], mem.generations + 1, expiresAt);
    Beheaded(mem).(leased := mem.leased[lease.row.id := lease], generations := lease.generation)
  }

  /** The head at the tail, after a store failure. */
  function HeadToBack(mem: Memory): Memory
    requires mem.ready != []
  {
    mem.(ready := mem.ready[1..] + [mem.ready[0]])
  }

  lemma ClaimedIsSound(mem: Memory, expiresAt: Option<real>)
    requires Sound(mem) && mem.ready != []
    ensures Sound(HeadLeased(mem, expiresAt))
    ensures Sound(HeadToBack(mem)) && Sound(HeadToBack(mem).(generations := mem.generations + 1))
    ensures Sound(Beheaded(mem)) && mem.ready[0].attempt >= 1
  {
    BeheadedIsSound(mem);
    AddedIsSound(Beheaded(mem), mem.ready[0], 0.0);
  }

  /** Both ends of a claim, from memory without its head under the next generation. */
  lemma PoppedBecomes(mem: Memory, expiresAt: Option<real>)
    requires mem.ready != []
    ensures var row, popped := mem.ready[0], Beheaded(mem).(generations := mem.generations + 1);
      && HeadLeased(mem, expiresAt)
         == popped.(leased := popped.leased[row.id := LeasedRow(row, popped.generations, expiresAt)])
      && HeadToBack(mem).(generations := mem.generations + 1) == popped.(ready := popped.ready + [row])
  {
  }

  /** One more id is spent. */
  function Spent(mem: Memory): Memory {
    mem.(counter := mem.counter + 1)
  }

  /** A row under the next id. */
  lemma NewIsSound(mem: Memory, row: QueueRow, at: real)
    requires Sound(mem) && mem.counter < ID_MAX && row.id == mem.counter + 1 && row.attempt >= 1
    ensures Sound(Spent(mem)) && Sound(Add(Spent(mem), row, at))
    ensures row.id !in Spent(mem).delayed && row.id !in mem.leased
  {
    AddedIsSound(Spent(mem), row, at);
  }

  lemma OneFewer(m: map<nat, DelayedRow>, id: nat)
    requires id in m
    ensures |m - {id}| == |m| - 1
  {
    assert (m - {id}).Keys == m.Keys - {id};
  }

  /** `replaceAll` numbers its items from 1, as fresh rows that are ready at once. */
  lemma PlannedIs(items: seq<Item>, k: nat)
    requires k < |items|
    ensures Planned(items)[k] == Row(k + 1, items[k], 1, 0)
    ensures k + 1 in PlannedStore(items)
      && PlannedStore(items)[k + 1] == Record(k + 1, items[k], 0.0, None, None, None, None)
    ensures |Planned(items)| == |items| && forall id :: id in PlannedStore(items) ==> 1 <= id <= |items|
  {
  }

  lemma PlannedNext(items: seq<Item>, n: nat)
    requires n < |items|
    ensures Planned(items[..n + 1]) == Planned(items[..n]) + [PlannedRow(items, n + 1)]
    ensures IndexOf(Planned(items[..n + 1])) == Indexed(IndexOf(Planned(items[..n])), items[n], n + 1)
  {
    assert Planned(items[..n + 1]) == Planned(items[..n]) + [PlannedRow(items, n + 1)];
    assert Planned(items[..n + 1])[..n] == Planned(items[..n]);
  }

  lemma EmptyIsSound()
    ensures Sound(Memory([], map[], map[], 0, 0))
  {
  }
}
