/** The durable queue itself: ready rows in the head-index FIFO, delayed rows in a heap,
    leases in a table with a lazily cleaned expiry heap, rows in a store
    (packages/queue/src/queue/core/queue.ts). */
module JobQueues {
  import opened Options
  import opened Records
  import opened PendingRows
  import opened QueueModel
  import opened QueueSteps
  import opened DurableMachine
  import opened Durability
  import opened Hydrations
  import opened QueueParts
  import opened Sequences
  import IdCounters
  import FifoSlots
  import AvailableFifos
  import MinHeaps

  datatype Outcome =
    | Done
    | Nothing
    | Mismatch
    | StoreFailed
    | InvalidOption
    | Full
    | DuplicateJob
    | IdSpaceExhausted
    | Active
    | InvalidRowId
    | DuplicateRowId

  /** `Number.isSafeInteger` for a nonnegative time. */
  predicate SafeInteger(x: real) {
    x.Floor as real == x && -(ID_MAX as real) <= x <= ID_MAX as real
  }

  /** It accepts exactly the whole numbers that a double holds with both their neighbours. */
  lemma SafeIntegersAre(x: real, n: int)
    ensures SafeInteger(n as real) <==> -9007199254740991 <= n <= 9007199254740991
    ensures x != x.Floor as real ==> !SafeInteger(x)
  {
  }

  /** Where a job was found: a slot of the FIFO, or an entry of the delayed heap. */
  datatype Located = ReadyAt(slot: nat, row: QueueRow) | DelayedAt(entry: DelayedRow) | Missing

  /** The row a reschedule puts back, with the token's values as defaults. */
  ghost function Rescheduled(lease: LeasedRow, item: Item, attempt: Option<int>, handoff: Option<int>): QueueRow {
    Row(lease.row.id, item, attempt.GetOr(lease.row.attempt), ActiveHandoff(handoff.GetOr(lease.row.handoff)))
  }

  /** The error that a refused record raises. */
  ghost predicate Rejects(verdict: Verdict, outcome: Outcome) {
    match outcome
    case InvalidRowId => verdict.UnsafeId?
    case DuplicateRowId => verdict.RepeatedId?
    case DuplicateJob => verdict.RepeatedJob?
    case _ => false
  }

  class JobQueue {
    const cfg: Config
    const fifo: AvailableFifos.AvailableFifo<Item>
    const delayed: MinHeaps.MinHeap<DelayedRow>
    const expiries: MinHeaps.MinHeap<LeaseExpiry>
    var leased: map<nat, LeasedRow>
    var index: map<string, nat>
    /** `createIdCounter()` */
    var ids: IdCounters.Counter
    var generations: nat
    var store: Store
    var delayTimer: Option<real>
    var leaseTimer: Option<real>
    var clock: real
    /** No store call of this queue ever fails. */
    const reliable: bool
    /** The store calls that failed. */
    ghost var failures: nat
    /** The delayed rows by id. */
    ghost var delayedRows: map<nat, DelayedRow>

    ghost predicate Apart()
      reads this
    {
      && (delayed as object) != expiries && (fifo as object) != delayed && (fifo as object) != expiries
      && (this as object) != fifo && (this as object) != delayed && (this as object) != expiries
    }

    ghost predicate Shaped()
      reads this, fifo, delayed, expiries
    {
      && Apart()
      && fifo.Aligned() && fifo.track && delayed.Valid() && expiries.Valid()
      && (forall e :: delayed.keyOf(e) == e.availableAt)
      && (forall e :: expiries.keyOf(e) == e.expiresAt)
      && Represents(delayed.data, delayedRows) && (reliable ==> failures == 0)
    }

    ghost function Mem(): Memory
      requires fifo.Aligned()
      reads this, fifo
    {
      Memory(fifo.Contents(), delayedRows, leased, ids.value, generations)
    }

    ghost predicate Timed()
      reads this, expiries
    {
      && Covered(leased, expiries.data)
      && TimerCovers(leased, leaseTimer)
      && DelayArmed(delayedRows, delayTimer)
    }

    ghost predicate Valid()
      reads this, fifo, delayed, expiries
    {
      Shaped() && Timed() && Sound(Mem()) && clock >= 0.0
    }

    constructor (cfg: Config, clock: real, reliable: bool)
      requires clock >= 0.0
      ensures Valid() && fresh(fifo) && fresh(delayed) && fresh(expiries)
      ensures this.cfg == cfg && this.clock == clock && store == map[] && index == map[] && this.reliable == reliable
      ensures Mem() == Memory([], map[], map[], 0, 0)
    {
      EmptyIsSound();
      this.cfg, this.clock, this.reliable, failures := cfg, clock, reliable, 0;
      fifo := new AvailableFifos.AvailableFifo<Item>(true);
      delayed := new MinHeaps.MinHeap<DelayedRow>((e: DelayedRow) => e.availableAt);
      expiries := new MinHeaps.MinHeap<LeaseExpiry>((e: LeaseExpiry) => e.expiresAt);
      leased, index, ids, generations, store := map[], map[], IdCounters.Counter(0, false), 0, map[];
      delayTimer, leaseTimer, delayedRows := None, None, map[];
    }

    /** A new process over a store that an earlier one left: nothing in memory yet. */
    constructor Over(cfg: Config, clock: real, store: Store, reliable: bool)
      ensures Shaped() && Timed() && fresh(fifo) && fresh(delayed) && fresh(expiries)
      ensures this.cfg == cfg && this.clock == clock && this.store == store && index == map[]
      ensures this.reliable == reliable
      ensures Mem() == Memory([], map[], map[], 0, 0)
    {
      this.cfg, this.clock, this.store, this.reliable, failures := cfg, clock, store, reliable, 0;
      fifo := new AvailableFifos.AvailableFifo<Item>(true);
      delayed := new MinHeaps.MinHeap<DelayedRow>((e: DelayedRow) => e.availableAt);
      expiries := new MinHeaps.MinHeap<LeaseExpiry>((e: LeaseExpiry) => e.expiresAt);
      leased, index, ids, generations := map[], map[], IdCounters.Counter(0, false), 0;
      delayTimer, leaseTimer, delayedRows := None, None, map[];
    }

    method Advance(elapsed: real)
      requires Valid() && elapsed >= 0.0
      modifies this`clock
      ensures Valid() && clock == old(clock) + elapsed
    {
      clock := clock + elapsed;
    }

    // ------------------------------------------------------------ store calls

    /** A store call works or fails; one of a reliable store works. */
    method StoreAnswers() returns (ok: bool)
      requires Shaped()
      modifies this`failures
      ensures Shaped() && Mem() == old(Mem()) && (old(Timed()) ==> Timed())
      ensures failures == if ok then old(failures) else old(failures) + 1
    {
      ok := *;
      ok := ok || reliable;
      failures := if ok then failures else failures + 1;
    }

    /** A store call either takes effect or fails without effect. */
    method StorePut(rec: Record) returns (ok: bool)
      requires Shaped()
      modifies this`store, this`failures
      ensures Shaped() && Mem() == old(Mem()) && (old(Timed()) ==> Timed())
      ensures store == if ok then old(store)[rec.id := rec] else old(store)
      ensures failures == if ok then old(failures) else old(failures) + 1
    {
      ok := StoreAnswers();
      store := if ok then store[rec.id := rec] else store;
    }

    method StoreRemove(id: nat) returns (ok: bool)
      requires Shaped()
      modifies this`store, this`failures
      ensures Shaped() && Mem() == old(Mem()) && (old(Timed()) ==> Timed())
      ensures store == if ok then old(store) - {id} else old(store)
      ensures failures == if ok then old(failures) else old(failures) + 1
    {
      ok := StoreAnswers();
      store := if ok then store - {id} else store;
    }

    // ------------------------------------------------------------ delayed rows

    method ArmDelayTimer()
      requires Shaped()
      modifies this`delayTimer
      ensures DelayArmed(delayedRows, delayTimer) && Mem() == old(Mem())
    {
      RepresentsMembers(delayed.data, delayedRows);
      var next := delayed.Peek();
      delayTimer := if next.None? then None else Some(next.value.availableAt);
      if next.Some? {
        assert next.value in delayed.data;
        assert next.value.row.id in delayedRows;
        forall id | id in delayedRows
          ensures next.value.availableAt <= delayedRows[id].availableAt
        {
          assert delayedRows[id] in delayed.data;
        }
      }
    }

    method DelayRow(entry: DelayedRow)
      requires Shaped() && entry.row.id !in delayedRows
      modifies delayed, this`delayedRows
      ensures Shaped() && Mem() == old(Mem()).(delayed := old(delayedRows)[entry.row.id := entry])
      ensures expiries.data == old(expiries.data)
    {
      ghost var before := delayed.data;
      delayed.Push(entry);
      RepresentsPush(before, delayed.data, delayedRows, entry);
      delayedRows := delayedRows[entry.row.id := entry];
    }

    method PushRow(row: QueueRow)
      requires Shaped()
      modifies fifo
      ensures Shaped() && Mem() == old(Mem()).(ready := old(fifo.Contents()) + [row])
      ensures expiries.data == old(expiries.data)
    {
      fifo.Push(row.item, row.id, row.attempt, row.handoff);
    }

    /** A row becomes ready, or delayed with the timer armed again. */
    method AddRow(row: QueueRow, availableAt: real)
      requires Shaped() && DelayArmed(delayedRows, delayTimer) && row.id !in delayedRows
      modifies fifo, delayed, this`delayedRows, this`delayTimer
      ensures Shaped() && Mem() == Add(old(Mem()), row, availableAt)
      ensures DelayArmed(delayedRows, delayTimer) && store == old(store)
      ensures leased == old(leased) && leaseTimer == old(leaseTimer) && expiries.data == old(expiries.data)
    {
      if availableAt == 0.0 {
        PushRow(row);
      } else {
        DelayRow(DelayedRow(row, availableAt));
        ArmDelayTimer();
      }
    }

    /** The first delayed row leaves the heap. */
    method TakeDelayed() returns (entry: DelayedRow)
      requires Shaped() && delayed.data != []
      modifies delayed, this`delayedRows
      ensures Shaped() && entry == old(delayed.data)[0]
      ensures entry.row.id in old(delayedRows) && old(delayedRows)[entry.row.id] == entry
      ensures Mem() == old(Mem()).(delayed := old(delayedRows) - {entry.row.id})
      ensures forall d :: d in old(delayedRows) ==> entry.availableAt <= old(delayedRows)[d].availableAt
    {
      RepresentsMembers(delayed.data, delayedRows);
      ghost var before := delayed.data;
      assert forall d :: d in delayedRows ==> delayedRows[d] in before;
      var top := delayed.Pop();
      entry := top.value;
      RepresentsRemove(before, delayed.data, delayedRows, entry);
      delayedRows := delayedRows - {entry.row.id};
    }

    /** One due row leaves the delayed heap for the tail of the FIFO. */
    method PromoteOne() returns (ghost id: nat)
      requires Shaped() && delayed.data != []
      modifies fifo, delayed, this`delayedRows
      ensures Shaped() && id in old(delayedRows) && old(delayedRows)[id] == old(delayed.data)[0]
      ensures Mem() == old(Mem()).(ready := old(fifo.Contents()) + [old(delayedRows)[id].row],
                                   delayed := old(delayedRows) - {id})
      ensures forall d :: d in old(delayedRows) ==> old(delayedRows)[id].availableAt <= old(delayedRows)[d].availableAt
    {
      var entry := TakeDelayed();
      id := entry.row.id;
      PushRow(entry.row);
    }

    /** The promotion so far: the rows of `order` have moved. */
    ghost predicate Promoting(all: map<nat, DelayedRow>, ready: seq<QueueRow>, order: seq<nat>)
      reads this, fifo, delayed, expiries
    {
      && Shaped() && Leaving(all, delayedRows, clock, order)
      && fifo.Contents() == ready + RowsOf(all, order)
    }

    method PromoteNext(ghost all: map<nat, DelayedRow>, ghost ready: seq<QueueRow>, ghost order: seq<nat>)
        returns (ghost order': seq<nat>)
      requires Promoting(all, ready, order) && delayed.data != [] && delayed.data[0].availableAt <= clock
      modifies fifo, delayed, this`delayedRows
      ensures Promoting(all, ready, order') && |delayedRows| < |old(delayedRows)|
    {
      var id := PromoteOne();
      LeavingOne(all, old(delayedRows), clock, order, id);
      order' := order + [id];
      OneFewer(old(delayedRows), id);
    }

    method PromoteLoop() returns (ghost order: seq<nat>)
      requires Shaped()
      modifies fifo, delayed, this`delayedRows
      ensures Promoting(old(delayedRows), old(fifo.Contents()), order)
      ensures delayed.data == [] || delayed.data[0].availableAt > clock
    {
      order := [];
      while |delayed.data| > 0 && delayed.data[0].availableAt <= clock
        invariant Promoting(old(delayedRows), old(fifo.Contents()), order)
        decreases |delayedRows|
      {
        order := PromoteNext(old(delayedRows), old(fifo.Contents()), order);
      }
    }

    /** Exactly the due rows move, in nondecreasing time order; the timer is armed for the rest. */
    method PromoteDueDelayed() returns (ghost order: seq<nat>)
      requires Shaped()
      modifies fifo, delayed, this`delayedRows, this`delayTimer
      ensures Shaped() && DelayArmed(delayedRows, delayTimer)
      ensures DueOrder(old(delayedRows), old(clock), order) && Mem() == Promoted(old(Mem()), order)
    {
      order := PromoteLoop();
      AllDueLeft(delayed.data, old(delayedRows), delayedRows, clock, order, delayed.keyOf);
      ArmDelayTimer();
    }

    // ----------------------------------------------------------------- leases

    /** The live deadlines, for a rebuild of the expiry heap. */
    method LiveExpiries() returns (live: seq<LeaseExpiry>)
      ensures forall e :: e in live <==> IsLive(leased, e)
      ensures |live| <= |leased|
    {
      live := [];
      var todo := leased;
      while todo != map[]
        invariant todo.Keys <= leased.Keys && forall id :: id in todo ==> todo[id] == leased[id]
        invariant forall e :: e in live <==> IsLive(leased, e) && e.id !in todo
        invariant |live| + |todo| <= |leased|
        decreases |todo|
      {
        var id :| id in todo;
        assert |todo - {id}| == |todo| - 1 by {
          assert (todo - {id}).Keys == todo.Keys - {id};
        }
        if todo[id].expiresAt.Some? {
          live := live + [EntryOf(id, todo[id])];
        }
        todo := todo - {id};
      }
    }

    /** Stale entries are dropped once they outnumber the leases enough. */
    method CompactExpiries()
      requires Shaped() && Covered(leased, expiries.data)
      modifies expiries
      ensures Shaped() && Covered(leased, expiries.data)
      ensures |expiries.data| <= 2 * |leased| + 64
    {
      if |expiries.data| > |leased| * 2 + 64 {
        var live := LiveExpiries();
        expiries.Rebuild(live);
        assert |multiset(expiries.data)| == |multiset(live)|;
        assert forall e :: e in expiries.data <==> e in multiset(expiries.data);
        assert forall e :: e in live ==> e in multiset(live);
      }
    }

    /** A stale head leaves the expiry heap. */
    method DropExpiry() returns (head: LeaseExpiry)
      requires Shaped() && expiries.data != []
      modifies expiries
      ensures Shaped() && head == old(expiries.data)[0] && |expiries.data| == |old(expiries.data)| - 1
      ensures multiset(old(expiries.data)) == multiset(expiries.data) + multiset{head}
      ensures forall e :: e in old(expiries.data) ==> e in expiries.data || e == head
      ensures forall e :: e in expiries.data ==> e in old(expiries.data)
      ensures forall e :: e in old(expiries.data) ==> head.expiresAt <= e.expiresAt
    {
      ghost var before := expiries.data;
      var top := expiries.Pop();
      head := top.value;
      assert |multiset(before)| == |multiset(expiries.data)| + 1;
      assert forall e :: e in before <==> e in multiset(before);
      assert forall e :: e in expiries.data <==> e in multiset(expiries.data);
      assert forall e :: e in before ==> expiries.keyOf(head) <= expiries.keyOf(e);
    }

    /** Arms for the least live deadline, and bounds what stale entries retain. */
    method ArmLeaseTimer()
      requires Shaped() && Covered(leased, expiries.data)
      modifies expiries, this`leaseTimer
      ensures Shaped() && Covered(leased, expiries.data)
      ensures ArmedForLeast(leased, leaseTimer) && TimerCovers(leased, leaseTimer)
      ensures delayedRows == old(delayedRows) && delayTimer == old(delayTimer)
      ensures |expiries.data| <= 2 * |leased| + 64
    {
      leaseTimer := None;
      if |leased| == 0 {
        expiries.Clear();
        return;
      }
      CompactExpiries();
      var next := expiries.Peek();
      while next.Some? && !IsLive(leased, next.value)
        invariant Shaped() && Covered(leased, expiries.data) && |expiries.data| <= 2 * |leased| + 64
        invariant next == (if expiries.data == [] then None else Some(expiries.data[0]))
        decreases |expiries.data|
      {
        var head := DropExpiry();
        next := expiries.Peek();
      }
      leaseTimer := if next.Some? then Some(next.value.expiresAt) else None;
      LeastLive();
    }

    lemma LeastLive()
      requires Shaped() && Covered(leased, expiries.data)
      requires expiries.data == [] || IsLive(leased, expiries.data[0])
      ensures ArmedForLeast(leased, if expiries.data == [] then None else Some(expiries.data[0].expiresAt))
    {
      MinHeaps.RootIsLeastValue(expiries.data, expiries.keyOf);
      forall id | id in leased && leased[id].expiresAt.Some?
        ensures expiries.data != [] && expiries.data[0].expiresAt <= leased[id].expiresAt.value
      {
        assert EntryOf(id, leased[id]) in expiries.data;
        assert expiries.keyOf(expiries.data[0]) <= expiries.keyOf(EntryOf(id, leased[id]));
      }
    }

    // ------------------------------------------------------- lease operations

    predicate Current(lease: LeasedRow)
      reads this
    {
      lease.row.id in leased && leased[lease.row.id].generation == lease.generation
    }

    /** Memory, store and index are what they were. */
    ghost predicate Kept(mem: Memory, rows: Store, jobs: map<string, nat>)
      requires fifo.Aligned()
      reads this, fifo
    {
      Mem() == mem && store == rows && index == jobs
    }

    method EndLease(id: nat)
      requires Shaped() && Timed()
      modifies expiries, this`leased, this`leaseTimer
      ensures Shaped() && Timed() && ArmedForLeast(leased, leaseTimer)
      ensures leased == old(leased) - {id} && Mem() == old(Mem()).(leased := leased)
      ensures store == old(store) && index == old(index)
    {
      DropLease(id);
      Rearm();
    }

    method DropLease(id: nat)
      requires Shaped() && Timed()
      modifies this`leased
      ensures Shaped() && Timed() && leased == old(leased) - {id} && Mem() == old(Mem()).(leased := leased)
      ensures store == old(store) && index == old(index)
    {
      leased := leased - {id};
    }

    method Settle(id: nat) returns (ok: bool)
      requires Shaped() && Timed() && id in leased
      modifies expiries, this`leased, this`index, this`store, this`failures, this`leaseTimer
      ensures Shaped() && Timed() && (ok ==> ArmedForLeast(leased, leaseTimer))
      ensures Mem() == old(Mem()).(leased := if ok then old(leased) - {id} else old(leased))
      ensures store == if ok then old(store) - {id} else old(store)
      ensures index == if ok && cfg.unique then Unindexed(old(index), old(leased)[id].row.item, id) else old(index)
      ensures failures == if ok then old(failures) else old(failures) + 1
    {
      ok := StoreRemove(id);
      if ok {
        Forget(id);
      }
    }

    /** `unindexJob` */
    method Unlist(row: QueueRow)
      requires Shaped() && Timed()
      modifies this`index
      ensures Shaped() && Timed() && Mem() == old(Mem()) && store == old(store)
      ensures index == if cfg.unique then Unindexed(old(index), row.item, row.id) else old(index)
    {
      index := if cfg.unique then Unindexed(index, row.item, row.id) else index;
    }

    /** The lease and its index entry go. */
    method Forget(id: nat)
      requires Shaped() && Timed() && id in leased
      modifies expiries, this`leased, this`leaseTimer, this`index
      ensures Shaped() && Timed() && ArmedForLeast(leased, leaseTimer)
      ensures Mem() == old(Mem()).(leased := old(leased) - {id}) && store == old(store)
      ensures index == if cfg.unique then Unindexed(old(index), old(leased)[id].row.item, id) else old(index)
    {
      index := if cfg.unique then Unindexed(index, leased[id].row.item, id) else index;
      EndLease(id);
    }

    method Ack(lease: LeasedRow) returns (outcome: Outcome)
      requires Valid()
      modifies expiries, this`leased, this`index, this`store, this`failures, this`leaseTimer
      ensures Valid() && (outcome.Done? || outcome.Mismatch? || outcome.StoreFailed?)
      ensures outcome.Mismatch? <==>
        lease.row.id !in old(leased) || old(leased)[lease.row.id].generation != lease.generation
      ensures outcome.Done? ==>
        && Mem() == old(Mem()).(leased := old(leased) - {lease.row.id}) && store == old(store) - {lease.row.id}
        && index == (if cfg.unique then Unindexed(old(index), old(leased)[lease.row.id].row.item, lease.row.id)
                     else old(index))
        && ArmedForLeast(leased, leaseTimer)
      ensures !outcome.Done? ==> Kept(old(Mem()), old(store), old(index))
      ensures failures == if outcome.StoreFailed? then old(failures) + 1 else old(failures)
    {
      if !Current(lease) {
        return Mismatch;
      }
      UnleasedIsSound(Mem(), lease.row.id);
      var ok := Settle(lease.row.id);
      outcome := if ok then Done else StoreFailed;
    }

    method WatchDeadline(entry: LeaseExpiry)
      requires Shaped()
      modifies expiries
      ensures Shaped() && forall e :: e in expiries.data <==> e == entry || e in old(expiries.data)
    {
      ghost var before := expiries.data;
      expiries.Push(entry);
      assert forall e :: e in before <==> e in multiset(before);
      assert forall e :: e in expiries.data <==> e in multiset(expiries.data);
    }

    /** A lease with its deadline put in place and watched. */
    method SetLease(id: nat, entry: LeasedRow)
      requires Shaped() && Timed()
      modifies expiries, this`leased, this`leaseTimer
      ensures Shaped() && Timed() && ArmedForLeast(leased, leaseTimer)
      ensures Mem() == old(Mem()).(leased := old(leased)[id := entry]) && store == old(store)
    {
      leased := leased[id := entry];
      if entry.expiresAt.Some? {
        WatchDeadline(EntryOf(id, entry));
      }
      ArmLeaseTimer();
    }

    method Prolong(id: nat, expiresAt: real) returns (ok: bool)
      requires Shaped() && Timed() && id in leased && leased[id].row.id == id
      modifies expiries, this`leased, this`store, this`failures, this`leaseTimer
      ensures Shaped() && Timed() && (ok ==> ArmedForLeast(leased, leaseTimer))
      ensures var entry := old(leased)[id];
        && leased == (if ok then old(leased)[id := entry.(expiresAt := Some(expiresAt))] else old(leased))
        && store == (if ok then old(store)[id := ToRecord(entry.row, 0.0, Some(entry.generation), Some(expiresAt))]
                     else old(store))
      ensures failures == if ok then old(failures) else old(failures) + 1
    {
      var entry := leased[id];
      ok := StorePut(ToRecord(entry.row, 0.0, Some(entry.generation), Some(expiresAt)));
      if ok {
        SetLease(id, entry.(expiresAt := Some(expiresAt)));
      }
    }

    /** The lease in memory and in the store has the new deadline, and all else is as before. */
    ghost predicate Extended(mem: Memory, rows: Store, id: nat, expiresAt: real)
      requires fifo.Aligned() && id in mem.leased
      reads this, fifo
    {
      && Mem() == mem.(leased := mem.leased[id := mem.leased[id].(expiresAt := Some(expiresAt))])
      && store == rows[id := ToRecord(mem.leased[id].row, 0.0, Some(mem.leased[id].generation), Some(expiresAt))]
    }

    method Extend(id: nat, expiresAt: real) returns (ok: bool)
      requires Valid() && id in leased
      modifies expiries, this`leased, this`store, this`failures, this`leaseTimer
      ensures Valid()
      ensures ok ==> Extended(old(Mem()), old(store), id, expiresAt) && ArmedForLeast(leased, leaseTimer)
      ensures !ok ==> Kept(old(Mem()), old(store), old(index))
      ensures failures == if ok then old(failures) else old(failures) + 1
    {
      ProlongedIsSound(Mem(), id, Some(expiresAt));
      ok := Prolong(id, expiresAt);
    }

    /** The new deadline, by the requested time to live or else the queue's own; none for a
        time to live that is missing, below 1 or not a safe integer. */
    ghost function DeadlineAfter(requestedTtlMs: Option<real>, now: real): Option<real> {
      var ttlMs := if requestedTtlMs.Some? then requestedTtlMs else cfg.leaseTtl;
      if ttlMs.Some? && SafeInteger(ttlMs.value) && ttlMs.value >= 1.0 then Some(now + ttlMs.value) else None
    }

    /** A bad option before a mismatch before an unsafe deadline before a store failure;
        only success changes anything. */
    ghost predicate ExtendResult(outcome: Outcome, lease: LeasedRow, expiresAt: Option<real>, mem: Memory, rows: Store,
                                 jobs: map<string, nat>)
      requires fifo.Aligned()
      reads this, fifo
    {
      match outcome
      case InvalidOption =>
        (expiresAt.None? || (IsCurrent(mem.leased, lease) && !SafeInteger(expiresAt.value))) && Kept(mem, rows, jobs)
      case Mismatch => expiresAt.Some? && !IsCurrent(mem.leased, lease) && Kept(mem, rows, jobs)
      case StoreFailed =>
        expiresAt.Some? && IsCurrent(mem.leased, lease) && SafeInteger(expiresAt.value) && Kept(mem, rows, jobs)
      case Done =>
        && expiresAt.Some? && IsCurrent(mem.leased, lease) && SafeInteger(expiresAt.value)
        && Extended(mem, rows, lease.row.id, expiresAt.value) && index == jobs && ArmedForLeast(leased, leaseTimer)
      case _ => false
    }

    method ExtendUntil(lease: LeasedRow, expiresAt: Option<real>) returns (outcome: Outcome)
      requires Valid()
      modifies expiries, this`leased, this`store, this`failures, this`leaseTimer
      ensures Valid() && ExtendResult(outcome, lease, expiresAt, old(Mem()), old(store), old(index))
      ensures failures == if outcome.StoreFailed? then old(failures) + 1 else old(failures)
    {
      if expiresAt.None? {
        return InvalidOption;
      }
      if !Current(lease) {
        return Mismatch;
      }
      if !SafeInteger(expiresAt.value) {
        return InvalidOption;
      }
      var ok := Extend(lease.row.id, expiresAt.value);
      outcome := if ok then Done else StoreFailed;
    }

    method ExtendLease(lease: LeasedRow, requestedTtlMs: Option<real>) returns (outcome: Outcome)
      requires Valid()
      modifies expiries, this`leased, this`store, this`failures, this`leaseTimer
      ensures Valid()
        && ExtendResult(outcome, lease, DeadlineAfter(requestedTtlMs, old(clock)), old(Mem()), old(store), old(index))
      ensures failures == if outcome.StoreFailed? then old(failures) + 1 else old(failures)
    {
      var ttlMs := if requestedTtlMs.Some? then requestedTtlMs else cfg.leaseTtl;
      var fits := ttlMs.Some? && SafeInteger(ttlMs.value) && ttlMs.value >= 1.0;
      var expiresAt := if fits then Some(clock + ttlMs.value) else None;
      assert expiresAt == DeadlineAfter(requestedTtlMs, clock);
      outcome := ExtendUntil(lease, expiresAt);
    }

    /** What the caller learns: a time to live that is missing, below 1 or no safe integer is a bad
        option, and so is, for a lease still held, a deadline that is no safe integer; a lease not
        held is a mismatch; on success the lease runs until that much later than the call. */
    lemma ExtendMeans(outcome: Outcome, lease: LeasedRow, requestedTtlMs: Option<real>, now: real, mem: Memory,
                      rows: Store, jobs: map<string, nat>)
      requires fifo.Aligned()
      requires ExtendResult(outcome, lease, DeadlineAfter(requestedTtlMs, now), mem, rows, jobs)
      ensures var ttlMs := if requestedTtlMs.Some? then requestedTtlMs else cfg.leaseTtl;
        var fits := ttlMs.Some? && ttlMs.value >= 1.0 && SafeInteger(ttlMs.value);
        var held := lease.row.id in mem.leased && mem.leased[lease.row.id].generation == lease.generation;
        && (outcome.Mismatch? <==> fits && !held)
        && (outcome.InvalidOption? <==> !fits || (held && !SafeInteger(now + ttlMs.value)))
        && (outcome.Done? ==>
            lease.row.id in leased && leased[lease.row.id].expiresAt == Some(now + ttlMs.value))
    {
    }

    /** A lease ends and its row goes to the FIFO tail; the timer is left to the caller. */
    method Return(id: nat) returns (ok: bool)
      requires Shaped() && id in leased && leased[id].row.id == id
      modifies fifo, this`leased, this`store, this`failures
      ensures Shaped() && delayedRows == old(delayedRows) && delayTimer == old(delayTimer)
      ensures leaseTimer == old(leaseTimer) && expiries.data == old(expiries.data)
      ensures var row := old(leased)[id].row;
        && leased == (if ok then old(leased) - {id} else old(leased))
        && store == (if ok then old(store)[id := ToRecord(row, 0.0, None, None)] else old(store))
        && fifo.Contents() == (if ok then old(fifo.Contents()) + [row] else old(fifo.Contents()))
      ensures failures == if ok then old(failures) else old(failures) + 1
    {
      var row := leased[id].row;
      ok := StorePut(ToRecord(row, 0.0, None, None));
      if ok {
        leased := leased - {id};
        fifo.Push(row.item, id, row.attempt, row.handoff);
      }
    }

    /** The row left its lease for the FIFO tail, in memory and in the store. */
    ghost predicate Released(mem: Memory, rows: Store, id: nat)
      requires fifo.Aligned() && id in mem.leased
      reads this, fifo
    {
      && Mem() == mem.(leased := mem.leased - {id}, ready := mem.ready + [mem.leased[id].row])
      && store == rows[id := ToRecord(mem.leased[id].row, 0.0, None, None)]
    }

    method Free(id: nat) returns (ok: bool)
      requires Shaped() && Timed() && id in leased && leased[id].row.id == id
      modifies fifo, expiries, this`leased, this`store, this`failures, this`leaseTimer
      ensures Shaped() && Timed() && (ok ==> ArmedForLeast(leased, leaseTimer))
      ensures var row := old(leased)[id].row;
        && leased == (if ok then old(leased) - {id} else old(leased))
        && store == (if ok then old(store)[id := ToRecord(row, 0.0, None, None)] else old(store))
        && fifo.Contents() == (if ok then old(fifo.Contents()) + [row] else old(fifo.Contents()))
      ensures failures == if ok then old(failures) else old(failures) + 1
    {
      ok := Return(id);
      if ok {
        ArmLeaseTimer();
      }
    }

    method GiveBack(id: nat) returns (ok: bool)
      requires Valid() && id in leased
      modifies fifo, expiries, this`leased, this`store, this`failures, this`leaseTimer
      ensures Valid()
      ensures ok ==> Released(old(Mem()), old(store), id) && ArmedForLeast(leased, leaseTimer)
      ensures !ok ==> Kept(old(Mem()), old(store), old(index))
      ensures failures == if ok then old(failures) else old(failures) + 1
    {
      ReturnedIsSound(Mem(), leased[id].row, 0.0);
      ok := Free(id);
    }

    method Release(lease: LeasedRow) returns (outcome: Outcome)
      requires Valid()
      modifies fifo, expiries, this`leased, this`store, this`failures, this`leaseTimer
      ensures Valid() && outcome in {Done, Mismatch, StoreFailed}
      ensures outcome.Mismatch? <==>
        lease.row.id !in old(leased) || old(leased)[lease.row.id].generation != lease.generation
      ensures outcome.Done? ==> Released(old(Mem()), old(store), lease.row.id) && ArmedForLeast(leased, leaseTimer)
      ensures !outcome.Done? ==> Kept(old(Mem()), old(store), old(index))
      ensures failures == if outcome.StoreFailed? then old(failures) + 1 else old(failures)
    {
      if !Current(lease) {
        return Mismatch;
      }
      var ok := GiveBack(lease.row.id);
      outcome := if ok then Done else StoreFailed;
    }

    /** A lease ends and a row of the same id, changed or not, is ready or delayed. */
    method Requeue(row: QueueRow, availableAt: real) returns (ok: bool)
      requires Shaped() && Timed() && row.id in leased && row.id !in delayedRows
      modifies fifo, delayed, expiries, this`delayedRows, this`delayTimer
      modifies this`leased, this`store, this`failures, this`leaseTimer
      ensures Shaped() && Timed() && (ok ==> ArmedForLeast(leased, leaseTimer))
      ensures store == if ok then old(store)[row.id := ToRecord(row, availableAt, None, None)] else old(store)
      ensures Mem() == if ok then Requeued(old(Mem()), row, availableAt) else old(Mem())
      ensures failures == if ok then old(failures) else old(failures) + 1
    {
      ok := StorePut(ToRecord(row, availableAt, None, None));
      if ok {
        EndLease(row.id);
        AddRow(row, availableAt);
      }
    }

    /** The lease ended with the row ready or delayed, or nothing changed. */
    ghost predicate RescheduleResult(outcome: Outcome, row: QueueRow, delayMs: real, availableAt: real, current: bool,
                                     mem: Memory, rows: Store, jobs: map<string, nat>)
      requires fifo.Aligned()
      reads this, fifo
    {
      match outcome
      case InvalidOption => delayMs < 0.0 && Kept(mem, rows, jobs)
      case Mismatch => delayMs >= 0.0 && !current && Kept(mem, rows, jobs)
      case StoreFailed => delayMs >= 0.0 && current && Kept(mem, rows, jobs)
      case Done =>
        && delayMs >= 0.0 && current && ArmedForLeast(leased, leaseTimer) && index == jobs
        && Mem() == Requeued(mem, row, availableAt)
        && store == rows[row.id := ToRecord(row, availableAt, None, None)]
      case _ => false
    }

    method Replace(row: QueueRow, availableAt: real) returns (ok: bool)
      requires Valid() && row.id in leased
      modifies fifo, delayed, expiries, this`delayedRows, this`delayTimer
      modifies this`leased, this`store, this`failures, this`leaseTimer
      ensures Shaped() && Timed() && (Sound(Mem()) <==> !ok || row.attempt >= 1)
      ensures ok ==>
        ArmedForLeast(leased, leaseTimer) && store == old(store)[row.id := ToRecord(row, availableAt, None, None)]
      ensures ok ==> Mem() == Requeued(old(Mem()), row, availableAt)
      ensures !ok ==> Kept(old(Mem()), old(store), old(index))
      ensures failures == if ok then old(failures) else old(failures) + 1
    {
      ReplacedIsSoundIff(Mem(), row, availableAt);
      ok := Requeue(row, availableAt);
    }

    method PutBack(row: QueueRow, delayMs: real, availableAt: real) returns (outcome: Outcome)
      requires Valid() && row.id in leased && delayMs >= 0.0
      modifies fifo, delayed, expiries, this`delayedRows, this`delayTimer
      modifies this`leased, this`store, this`failures, this`leaseTimer
      ensures Shaped() && Timed() && (Valid() <==> !outcome.Done? || row.attempt >= 1)
      ensures RescheduleResult(outcome, row, delayMs, availableAt, true, old(Mem()), old(store), old(index))
      ensures failures == if outcome.StoreFailed? then old(failures) + 1 else old(failures)
    {
      var ok := Replace(row, availableAt);
      outcome := if ok then Done else StoreFailed;
    }

    /** `next` overrides the token's item, attempt and handoff. Whatever the attempt, the row is
        put back as asked; below 1 it makes the queue one that must not hand the row out. */
    method Reschedule(lease: LeasedRow, item: Item, delayMs: real, attempt: Option<int>, handoff: Option<int>)
        returns (outcome: Outcome)
      requires Valid()
      modifies fifo, delayed, expiries, this`delayedRows, this`delayTimer
      modifies this`leased, this`store, this`failures, this`leaseTimer
      ensures Shaped() && Timed()
      ensures Valid() <==> !outcome.Done? || Rescheduled(lease, item, attempt, handoff).attempt >= 1
      ensures RescheduleResult(outcome, Rescheduled(lease, item, attempt, handoff), delayMs, DueAt(old(clock), delayMs),
                               IsCurrent(old(leased), lease), old(Mem()), old(store), old(index))
      ensures outcome.Mismatch? <==>
        delayMs >= 0.0 && (lease.row.id !in old(leased) || old(leased)[lease.row.id].generation != lease.generation)
      ensures outcome.Done? ==>
        var count := if handoff.Some? then handoff.value else lease.row.handoff;
        var row := Row(lease.row.id, item, if attempt.Some? then attempt.value else lease.row.attempt,
                       if count <= 0 then 0 else count);
        Arrives(Mem(), store, row, old(clock), delayMs)
      ensures failures == if outcome.StoreFailed? then old(failures) + 1 else old(failures)
    {
      if delayMs < 0.0 {
        return InvalidOption;
      }
      if !Current(lease) {
        return Mismatch;
      }
      var row := Row(lease.row.id, item, attempt.GetOr(lease.row.attempt),
                     ActiveHandoff(handoff.GetOr(lease.row.handoff)));
      outcome := PutBackLater(row, delayMs);
    }

    /** The row comes back once the delay is over. */
    method PutBackLater(row: QueueRow, delayMs: real) returns (outcome: Outcome)
      requires Valid() && row.id in leased && delayMs >= 0.0
      modifies fifo, delayed, expiries, this`delayedRows, this`delayTimer, this`leased, this`leaseTimer
      modifies this`store, this`failures
      ensures Shaped() && Timed() && (Valid() <==> !outcome.Done? || row.attempt >= 1)
      ensures RescheduleResult(outcome, row, delayMs, DueAt(old(clock), delayMs), true, old(Mem()), old(store),
                               old(index))
      ensures outcome.Done? ==> Arrives(Mem(), store, row, old(clock), delayMs)
      ensures failures == if outcome.StoreFailed? then old(failures) + 1 else old(failures)
    {
      var availableAt := if delayMs > 0.0 then clock + delayMs else 0.0;
      assert availableAt == DueAt(clock, delayMs);
      outcome := PutBack(row, delayMs, availableAt);
      PutBackArrives(outcome, row, delayMs, true, old(Mem()), old(store), old(index));
    }

    lemma PutBackArrives(outcome: Outcome, row: QueueRow, delayMs: real, current: bool, mem: Memory, rows: Store,
                         jobs: map<string, nat>)
      requires Shaped() && clock >= 0.0
      requires RescheduleResult(outcome, row, delayMs, DueAt(clock, delayMs), current, mem, rows, jobs)
      ensures outcome.Done? ==> Arrives(Mem(), store, row, clock, delayMs)
    {
      AddedArrives(mem.(leased := mem.leased - {row.id}), rows, row, clock, delayMs);
    }

    // ---------------------------------------------------------------- enqueue

    function TotalSize(): nat
      requires fifo.count >= 0
      reads this, fifo, delayed
    {
      fifo.count + |delayed.data| + |leased|
    }

    /** `assertNotFull` and `assertUniqueJob` */
    method Admit(row: QueueRow) returns (outcome: Outcome)
      requires Shaped()
      ensures outcome == if IsFull(Mem()) then Full else if IsTaken(index, row) then DuplicateJob else Done
    {
      assert |fifo.Contents()| == fifo.count;
      if cfg.maxSize.Some? && TotalSize() + 1 > cfg.maxSize.value {
        return Full;
      }
      var job := row.item;
      var taken := cfg.unique && job.Job? && job.jobId in index && index[job.jobId] != row.id;
      outcome := if taken then DuplicateJob else Done;
    }

    /** A new row is written, then added and indexed. */
    method WriteNew(row: QueueRow, availableAt: real) returns (ok: bool)
      requires Shaped() && Timed() && row.id !in delayedRows
      modifies fifo, delayed, this`delayedRows, this`delayTimer, this`store, this`failures, this`index
      ensures Shaped() && Timed()
      ensures index == if ok && cfg.unique then Indexed(old(index), row.item, row.id) else old(index)
      ensures store == if ok then old(store)[row.id := ToRecord(row, availableAt, None, None)] else old(store)
      ensures Mem() == if ok then Add(old(Mem()), row, availableAt) else old(Mem())
      ensures failures == if ok then old(failures) else old(failures) + 1
    {
      ok := StorePut(ToRecord(row, availableAt, None, None));
      if ok {
        AddIndexed(row, availableAt);
      }
    }

    /** `applyEnqueueMemory` */
    method AddIndexed(row: QueueRow, availableAt: real)
      requires Shaped() && Timed() && row.id !in delayedRows
      modifies fifo, delayed, this`delayedRows, this`delayTimer, this`index
      ensures Shaped() && Timed() && Mem() == Add(old(Mem()), row, availableAt)
      ensures index == if cfg.unique then Indexed(old(index), row.item, row.id) else old(index)
    {
      index := if cfg.unique then Indexed(index, row.item, row.id) else index;
      AddRow(row, availableAt);
    }

    method Accept(row: QueueRow, availableAt: real) returns (ok: bool)
      requires Valid() && row.id !in delayedRows && Sound(Add(Mem(), row, availableAt))
      modifies fifo, delayed, this`delayedRows, this`delayTimer, this`store, this`failures, this`index
      ensures Valid()
      ensures Mem() == if ok then Add(old(Mem()), row, availableAt) else old(Mem())
      ensures store == if ok then old(store)[row.id := ToRecord(row, availableAt, None, None)] else old(store)
      ensures index == if ok && cfg.unique then Indexed(old(index), row.item, row.id) else old(index)
      ensures failures == if ok then old(failures) else old(failures) + 1
    {
      ok := WriteNew(row, availableAt);
    }

    /** `ids.next()` */
    method NextId() returns (id: nat)
      requires Shaped() && Timed() && ids.value < ID_MAX
      modifies this`ids
      ensures Shaped() && Timed() && id == old(ids.value) + 1 && Mem() == Spent(old(Mem()))
      ensures store == old(store) && index == old(index)
    {
      ids := IdCounters.After(ids, IdCounters.Next);
      id := ids.value;
    }

    /** Every rejection leaves the rows, the store and the index alone; once past the
        option check an id is spent all the same. */
    method Enqueue(item: Item, delayMs: real) returns (outcome: Outcome)
      requires Valid()
      modifies fifo, delayed, this`delayedRows, this`delayTimer, this`store, this`failures, this`index, this`ids
      ensures Valid()
      ensures outcome.InvalidOption? <==> delayMs < 0.0
      ensures outcome.IdSpaceExhausted? <==> delayMs >= 0.0 && old(ids.value) >= ID_MAX
      ensures outcome.InvalidOption? || outcome.IdSpaceExhausted? ==> Kept(old(Mem()), old(store), old(index))
      ensures delayMs >= 0.0 && old(ids.value) < ID_MAX ==>
        EnqueueResult(outcome, Row(old(ids.value) + 1, item, 1, 0), DueAt(old(clock), delayMs), Spent(old(Mem())),
                      old(store), old(index))
      ensures outcome.Done? ==> Arrives(Mem(), store, Row(old(ids.value) + 1, item, 1, 0), old(clock), delayMs)
      ensures failures == if outcome.StoreFailed? then old(failures) + 1 else old(failures)
    {
      if delayMs < 0.0 {
        return InvalidOption;
      }
      if IdCounters.Issued(ids, IdCounters.Next).None? {
        return IdSpaceExhausted;
      }
      outcome := EnqueueNext(item, if delayMs > 0.0 then clock + delayMs else 0.0);
      EnqueuedArrives(outcome, Row(old(ids.value) + 1, item, 1, 0), delayMs, Spent(old(Mem())), old(store), old(index));
    }

    lemma EnqueuedArrives(outcome: Outcome, row: QueueRow, delayMs: real, mem: Memory, rows: Store,
                          jobs: map<string, nat>)
      requires Shaped() && clock >= 0.0 && EnqueueResult(outcome, row, DueAt(clock, delayMs), mem, rows, jobs)
      ensures outcome.Done? ==> Arrives(Mem(), store, row, clock, delayMs)
    {
      AddedArrives(mem, rows, row, clock, delayMs);
    }

    ghost predicate IsFull(mem: Memory) {
      cfg.maxSize.Some? && Size(mem) + 1 > cfg.maxSize.value
    }

    ghost predicate IsTaken(jobs: map<string, nat>, row: QueueRow) {
      cfg.unique && !JobIsFree(jobs, row.item, row.id)
    }

    /** Full before duplicate before store failure; only an accepted row changes anything. */
    ghost predicate EnqueueResult(outcome: Outcome, row: QueueRow, availableAt: real, mem: Memory, rows: Store,
                                  jobs: map<string, nat>)
      requires fifo.Aligned()
      reads this, fifo
    {
      match outcome
      case Full => IsFull(mem) && Kept(mem, rows, jobs)
      case DuplicateJob => !IsFull(mem) && IsTaken(jobs, row) && Kept(mem, rows, jobs)
      case StoreFailed => !IsFull(mem) && !IsTaken(jobs, row) && Kept(mem, rows, jobs)
      case Done =>
        && !IsFull(mem) && !IsTaken(jobs, row)
        && Mem() == Add(mem, row, availableAt)
        && store == rows[row.id := ToRecord(row, availableAt, None, None)]
        && index == if cfg.unique then Indexed(jobs, row.item, row.id) else jobs
      case _ => false
    }

    method EnqueueNext(item: Item, availableAt: real) returns (outcome: Outcome)
      requires Valid() && ids.value < ID_MAX
      modifies fifo, delayed, this`delayedRows, this`delayTimer, this`store, this`failures, this`index, this`ids
      ensures Valid()
      ensures EnqueueResult(outcome, Row(old(ids.value) + 1, item, 1, 0), availableAt, Spent(old(Mem())), old(store),
                            old(index))
      ensures failures == if outcome.StoreFailed? then old(failures) + 1 else old(failures)
    {
      var row := Row(ids.value + 1, item, 1, 0);
      NewIsSound(Mem(), row, availableAt);
      var id := NextId();
      outcome := EnqueueNow(row, availableAt, Spent(old(Mem())), old(store), old(index));
    }

    method EnqueueNow(row: QueueRow, availableAt: real, ghost mem: Memory, ghost rows: Store,
                      ghost jobs: map<string, nat>) returns (outcome: Outcome)
      requires Shaped() && Timed() && clock >= 0.0 && Kept(mem, rows, jobs)
      requires Sound(mem) && Sound(Add(mem, row, availableAt)) && row.id !in mem.delayed
      modifies fifo, delayed, this`delayedRows, this`delayTimer, this`store, this`failures, this`index
      ensures Valid() && EnqueueResult(outcome, row, availableAt, mem, rows, jobs)
      ensures failures == if outcome.StoreFailed? then old(failures) + 1 else old(failures)
    {
      outcome := Admit(row);
      if outcome.Done? {
        var ok := Accept(row, availableAt);
        outcome := if ok then Done else StoreFailed;
      }
    }

    // ---------------------------------------------------------------- reclaim

    /** `reclaimOneExpired` for a live head that was taken off the heap. */
    method ReclaimLive(head: LeaseExpiry) returns (ok: bool)
      requires Shaped() && IsLive(leased, head) && Sound(Mem())
      requires TimerCovers(leased, leaseTimer) && DelayArmed(delayedRows, delayTimer)
      requires Covered(leased - {head.id}, expiries.data)
      requires forall e :: e in expiries.data ==> head.expiresAt <= e.expiresAt
      modifies fifo, expiries, this`leased, this`store, this`failures
      ensures Shaped() && (ok ==> Timed()) && clock == old(clock)
      ensures ok ==> Released(old(Mem()), old(store), head.id) && expiries.data == old(expiries.data)
      ensures !ok ==>
        Kept(old(Mem()), old(store), old(index)) && leaseTimer == old(leaseTimer) && delayTimer == old(delayTimer)
      ensures !ok ==> forall e :: e in expiries.data <==> e == head || e in old(expiries.data)
      ensures failures == if ok then old(failures) else old(failures) + 1
    {
      ok := Return(head.id);
      if !ok {
        WatchDeadline(head);
      }
    }

    /** The reclaim so far: the expired leases of `ids` ended, one after the other. */
    ghost predicate ReclaimingAt(mem: Memory, rows: Store, ids: seq<nat>)
      reads this, fifo, delayed, expiries
    {
      && Shaped() && Timed() && Sound(Mem())
      && Reclaiming(mem.leased, clock, ids) && Earlier(mem.leased, ids, expiries.data)
      && Mem() == Reclaimed(mem, ids) && store == ReclaimedStore(rows, mem.leased, ids)
    }

    method ReclaimHead(ghost mem: Memory, ghost rows: Store, ghost ids: seq<nat>)
        returns (ok: bool, ghost ids': seq<nat>)
      requires ReclaimingAt(mem, rows, ids) && expiries.data != [] && expiries.data[0].expiresAt <= clock
      modifies fifo, expiries, this`leased, this`store, this`failures
      ensures ReclaimingAt(mem, rows, ids')
      ensures ok ==> |expiries.data| < |old(expiries.data)|
      ensures failures == if ok then old(failures) else old(failures) + 1
    {
      ghost var before := expiries.data;
      var head := DropExpiry();
      CoveredWithoutStale(leased, before, expiries.data, head);
      ok, ids' := true, ids;
      if IsLive(leased, head) {
        ok, ids' := ReclaimDue(head, before, mem, rows, ids);
      }
    }

    method ReclaimDue(head: LeaseExpiry, ghost before: seq<LeaseExpiry>, ghost mem: Memory, ghost rows: Store,
                      ghost ids: seq<nat>) returns (ok: bool, ghost ids': seq<nat>)
      requires Shaped() && IsLive(leased, head) && Sound(Mem()) && head.expiresAt <= clock
      requires TimerCovers(leased, leaseTimer) && DelayArmed(delayedRows, delayTimer)
      requires Covered(leased, before) && Covered(leased - {head.id}, expiries.data)
      requires forall e :: e in before <==> e == head || e in expiries.data
      requires forall e :: e in before ==> head.expiresAt <= e.expiresAt
      requires Reclaiming(mem.leased, clock, ids) && Earlier(mem.leased, ids, before)
      requires Mem() == Reclaimed(mem, ids) && store == ReclaimedStore(rows, mem.leased, ids)
      modifies fifo, expiries, this`leased, this`store, this`failures
      ensures ReclaimingAt(mem, rows, ids') && (ok ==> expiries.data == old(expiries.data))
      ensures failures == if ok then old(failures) else old(failures) + 1
    {
      ReclaimingOne(mem.leased, clock, ids, before, head.id);
      ReclaimedOne(mem, rows, ids, head.id);
      ReturnedIsSound(Mem(), leased[head.id].row, 0.0);
      ok := ReclaimLive(head);
      ids' := if ok then ids + [head.id] else ids;
    }

    /** Ends exactly the leases whose live deadline has passed, in deadline order. A store
        failure stops it with the remaining deadlines still watched. */
    method ReclaimLoop() returns (ok: bool, ghost ids: seq<nat>)
      requires Valid()
      modifies fifo, expiries, this`leased, this`store, this`failures
      ensures ReclaimingAt(old(Mem()), old(store), ids)
      ensures ok ==> expiries.data == [] || expiries.data[0].expiresAt > clock
      ensures failures == if ok then old(failures) else old(failures) + 1
    {
      ok, ids := true, [];
      ReclaimedNone(Mem(), store);
      while ok && |expiries.data| > 0 && expiries.data[0].expiresAt <= clock
        invariant ReclaimingAt(old(Mem()), old(store), ids)
        invariant failures == if ok then old(failures) else old(failures) + 1
        decreases ok, |expiries.data|
      {
        ok, ids := ReclaimHead(old(Mem()), old(store), ids);
      }
    }

    method ReclaimExpiredCore(suppressStoreErrors: bool) returns (ok: bool, ghost ids: seq<nat>)
      requires Valid()
      modifies fifo, expiries, this`leased, this`store, this`failures, this`leaseTimer
      ensures Valid() && Reclaiming(old(leased), old(clock), ids)
      ensures Mem() == Reclaimed(old(Mem()), ids) && store == ReclaimedStore(old(store), old(leased), ids)
      ensures ok ==> NothingElseDue(old(leased), old(clock), ids)
      ensures ok || suppressStoreErrors ==> ArmedForLeast(leased, leaseTimer)
      ensures failures == if ok then old(failures) else old(failures) + 1
    {
      ok, ids := ReclaimLoop();
      if ok {
        NoneDue(expiries.data, old(Mem()), clock, ids, expiries.keyOf);
      }
      if ok || suppressStoreErrors {
        Rearm();
      }
    }

    /** `armLeaseTimer` between operations. */
    method Rearm()
      requires Shaped() && Timed()
      modifies expiries, this`leaseTimer
      ensures Shaped() && Timed() && ArmedForLeast(leased, leaseTimer) && Mem() == old(Mem())
      ensures store == old(store) && index == old(index)
    {
      ArmLeaseTimer();
    }

    // ------------------------------------------------------------------ claim

    /** Without an attempt below 1 the FIFO may give its rows away. */
    lemma SoundIsOneBased()
      requires Shaped() && Sound(Mem())
      ensures fifo.Valid()
    {
    }

    /** The head of the FIFO leaves it. */
    method TakeHead() returns (head: Option<QueueRow>)
      requires Shaped() && Timed() && fifo.Valid()
      modifies fifo
      ensures Shaped() && Timed() && (head.None? <==> old(fifo.Contents()) == [])
      ensures head.None? ==> Mem() == old(Mem())
      ensures head.Some? ==>
        head.value == old(fifo.Contents())[0] && Mem() == old(Mem()).(ready := old(fifo.Contents())[1..])
    {
      head := fifo.Pop();
    }

    /** A popped row is leased, or goes back to the tail when the store fails. */
    method LeaseRow(entry: LeasedRow) returns (ok: bool)
      requires Shaped() && Timed()
      modifies fifo, expiries, this`leased, this`store, this`failures, this`leaseTimer
      ensures Shaped() && Timed() && (ok ==> ArmedForLeast(leased, leaseTimer))
      ensures Mem() == if ok then old(Mem()).(leased := old(leased)[entry.row.id := entry])
                       else old(Mem()).(ready := old(fifo.Contents()) + [entry.row])
      ensures store ==
        if ok then old(store)[entry.row.id := ToRecord(entry.row, 0.0, Some(entry.generation), entry.expiresAt)]
        else old(store)
      ensures failures == if ok then old(failures) else old(failures) + 1
    {
      ok := StorePut(ToRecord(entry.row, 0.0, Some(entry.generation), entry.expiresAt));
      if ok {
        SetLease(entry.row.id, entry);
      } else {
        PushRow(entry.row);
      }
    }

    ghost function LeaseDeadline(): Option<real>
      reads this
    {
      if cfg.leaseTtl.Some? then Some(clock + cfg.leaseTtl.value) else None
    }

    /** What a claim does to memory and store, once promotion and reclaim are over: nothing
        on an empty FIFO, a new generation for the head, or the head at the tail. */
    ghost predicate ClaimResult(outcome: Outcome, expiresAt: Option<real>, mem: Memory, rows: Store)
      requires fifo.Aligned()
      reads this, fifo
    {
      match outcome
      case Nothing => mem.ready == [] && Mem() == mem && store == rows
      case Done =>
        && mem.ready != [] && Mem() == HeadLeased(mem, expiresAt)
        && store == rows[mem.ready[0].id := ToRecord(mem.ready[0], 0.0, Some(mem.generations + 1), expiresAt)]
      case StoreFailed =>
        mem.ready != [] && Mem() == HeadToBack(mem).(generations := mem.generations + 1) && store == rows
      case _ => false
    }

    method NextGeneration() returns (generation: nat)
      requires Shaped() && Timed()
      modifies this`generations
      ensures Shaped() && Timed() && generation == old(generations) + 1
        && Mem() == old(Mem()).(generations := generation)
      ensures store == old(store)
    {
      generations := generations + 1;
      generation := generations;
    }

    method ClaimPopped(expiresAt: Option<real>, ghost mem: Memory, row: QueueRow) returns (ok: bool, lease: LeasedRow)
      requires Shaped() && Timed()
      requires mem.ready != [] && row == mem.ready[0] && Mem() == Beheaded(mem)
      modifies fifo, expiries, this`leased, this`generations, this`store, this`failures, this`leaseTimer
      ensures lease == LeasedRow(row, mem.generations + 1, expiresAt)
      ensures Shaped() && Timed() && (ok ==> ArmedForLeast(leased, leaseTimer))
      ensures Mem() == if ok then HeadLeased(mem, expiresAt) else HeadToBack(mem).(generations := mem.generations + 1)
      ensures store ==
        if ok then old(store)[row.id := ToRecord(row, 0.0, Some(mem.generations + 1), expiresAt)] else old(store)
      ensures failures == if ok then old(failures) else old(failures) + 1
    {
      var generation := NextGeneration();
      assert Mem() == Beheaded(mem).(generations := mem.generations + 1);
      PoppedBecomes(mem, expiresAt);
      lease := LeasedRow(row, generation, expiresAt);
      ok := LeaseRow(lease);
    }

    /** The token a claim hands out: the row under a new generation, until the deadline. */
    ghost predicate HandsOut(outcome: Outcome, lease: Option<LeasedRow>, expiresAt: Option<real>, mem: Memory)
      reads this
    {
      if outcome.Done? then
        && mem.ready != [] && lease == Some(LeasedRow(mem.ready[0], mem.generations + 1, expiresAt))
        && mem.ready[0].id in leased && leased[mem.ready[0].id] == lease.value
      else lease.None?
    }

    method ClaimTaken(expiresAt: Option<real>, ghost mem: Memory, row: QueueRow)
        returns (outcome: Outcome, lease: Option<LeasedRow>)
      requires Shaped() && Timed() && clock >= 0.0 && Sound(mem)
      requires mem.ready != [] && row == mem.ready[0] && Mem() == Beheaded(mem)
      modifies fifo, expiries, this`leased, this`generations, this`store, this`failures, this`leaseTimer
      ensures Valid() && ClaimResult(outcome, expiresAt, mem, old(store))
      ensures HandsOut(outcome, lease, expiresAt, mem) && (outcome.Done? ==> ArmedForLeast(leased, leaseTimer))
      ensures failures == if outcome.StoreFailed? then old(failures) + 1 else old(failures)
    {
      ClaimedIsSound(mem, expiresAt);
      var ok, taken := ClaimPopped(expiresAt, mem, row);
      outcome := if ok then Done else StoreFailed;
      lease := if ok then Some(taken) else None;
    }

    /** The second half of `claimCore`. */
    method ClaimHead(expiresAt: Option<real>) returns (outcome: Outcome, lease: Option<LeasedRow>)
      requires Valid()
      modifies fifo, expiries, this`leased, this`generations, this`store, this`failures, this`leaseTimer
      ensures Valid() && ClaimResult(outcome, expiresAt, old(Mem()), old(store))
      ensures HandsOut(outcome, lease, expiresAt, old(Mem())) && (outcome.Done? ==> ArmedForLeast(leased, leaseTimer))
      ensures failures == if outcome.StoreFailed? then old(failures) + 1 else old(failures)
    {
      SoundIsOneBased();
      var head := TakeHead();
      if head.None? {
        return Nothing, None;
      }
      outcome, lease := ClaimTaken(expiresAt, old(Mem()), head.value);
    }

    /** The delay timer fires. */
    method Promote() returns (ghost order: seq<nat>)
      requires Valid()
      modifies fifo, delayed, this`delayedRows, this`delayTimer
      ensures Valid() && DueOrder(old(delayedRows), old(clock), order) && Mem() == Promoted(old(Mem()), order)
    {
      order := PromoteDueDelayed();
      assert Timed();
      PromotedIsSound(old(Mem()), order, clock);
    }

    /** The first half of `claimCore`: due rows move, then expired leases end. */
    method Prepare() returns (ok: bool, ghost order: seq<nat>, ghost ids: seq<nat>)
      requires Valid()
      modifies fifo, delayed, expiries, this`delayedRows, this`delayTimer
      modifies this`leased, this`store, this`failures, this`leaseTimer
      ensures Valid() && DueOrder(old(delayedRows), old(clock), order) && Reclaiming(old(leased), old(clock), ids)
      ensures Mem() == Reclaimed(Promoted(old(Mem()), order), ids)
      ensures store == ReclaimedStore(old(store), old(leased), ids)
      ensures ok ==> NothingElseDue(old(leased), old(clock), ids)
      ensures failures == if ok then old(failures) else old(failures) + 1
    {
      order := Promote();
      ok, ids := ReclaimIfNeeded();
    }

    method ReclaimIfNeeded() returns (ok: bool, ghost ids: seq<nat>)
      requires Valid()
      modifies fifo, expiries, this`leased, this`store, this`failures, this`leaseTimer
      ensures Valid() && Reclaiming(old(leased), old(clock), ids)
      ensures Mem() == Reclaimed(old(Mem()), ids) && store == ReclaimedStore(old(store), old(leased), ids)
      ensures ok ==> NothingElseDue(old(leased), old(clock), ids)
      ensures failures == if ok then old(failures) else old(failures) + 1
    {
      ok, ids := true, [];
      ReclaimedNone(Mem(), store);
      if cfg.leaseTtl.Some? || |expiries.data| > 0 {
        ok, ids := ReclaimExpiredCore(false);
      }
    }

    /** Due rows are promoted, expired leases reclaimed, then the head is leased. `mem` and
        `rows` are memory and store between the halves; `prepared` says that the store went
        along with the first. */
    method Claim() returns (outcome: Outcome, lease: Option<LeasedRow>, ghost order: seq<nat>, ghost ids: seq<nat>,
                            ghost prepared: bool, ghost mem: Memory, ghost rows: Store)
      requires Valid()
      modifies fifo, delayed, expiries, this`delayedRows, this`delayTimer
      modifies this`leased, this`generations, this`store, this`failures, this`leaseTimer
      ensures Valid() && DueOrder(old(delayedRows), old(clock), order) && Reclaiming(old(leased), old(clock), ids)
      ensures mem == Reclaimed(Promoted(old(Mem()), order), ids) && rows == ReclaimedStore(old(store), old(leased), ids)
      ensures !prepared ==> outcome.StoreFailed? && Mem() == mem && store == rows
      ensures prepared ==>
        ClaimResult(outcome, old(LeaseDeadline()), mem, rows) && NothingElseDue(old(leased), old(clock), ids)
      ensures outcome.Done? ==> prepared && ArmedForLeast(leased, leaseTimer)
      ensures reliable ==> !outcome.StoreFailed?
      ensures outcome.Done? ==>
        && mem.ready != [] && mem.ready[0].id in leased && lease == Some(leased[mem.ready[0].id])
        && lease.value.row == mem.ready[0] && lease.value.generation == old(generations) + 1
        && lease.value.expiresAt == (if cfg.leaseTtl.Some? then Some(old(clock) + cfg.leaseTtl.value) else None)
      ensures failures == if outcome.StoreFailed? then old(failures) + 1 else old(failures)
    {
      var expiresAt := if cfg.leaseTtl.Some? then Some(clock + cfg.leaseTtl.value) else None;
      var ok;
      ok, order, ids := Prepare();
      prepared, mem, rows := ok, Mem(), store;
      outcome, lease := ClaimIf(ok, expiresAt);
    }

    method ClaimIf(prepared: bool, expiresAt: Option<real>) returns (outcome: Outcome, lease: Option<LeasedRow>)
      requires Valid()
      modifies fifo, expiries, this`leased, this`generations, this`store, this`failures, this`leaseTimer
      ensures Valid()
      ensures prepared ==> ClaimResult(outcome, expiresAt, old(Mem()), old(store))
      ensures HandsOut(outcome, lease, expiresAt, old(Mem())) && (outcome.Done? ==> ArmedForLeast(leased, leaseTimer))
      ensures !prepared ==> outcome.StoreFailed? && Mem() == old(Mem()) && store == old(store)
      ensures failures == if prepared && outcome.StoreFailed? then old(failures) + 1 else old(failures)
    {
      outcome, lease := StoreFailed, None;
      if prepared {
        outcome, lease := ClaimHead(expiresAt);
      }
    }

    /** The lease timer fires: every expired lease ends, or the store failed and the timer,
        armed again, will retry. */
    method LeaseTimerFires() returns (ok: bool, ghost ids: seq<nat>)
      requires Valid()
      modifies fifo, expiries, this`leased, this`store, this`failures, this`leaseTimer
      ensures Valid() && ArmedForLeast(leased, leaseTimer) && Reclaiming(old(leased), old(clock), ids)
      ensures Mem() == Reclaimed(old(Mem()), ids) && store == ReclaimedStore(old(store), old(leased), ids)
      ensures ok ==> NothingElseDue(old(leased), old(clock), ids)
      ensures reliable ==> ok
      ensures failures == if ok then old(failures) else old(failures) + 1
    {
      ok, ids := ReclaimExpiredCore(true);
    }

    // ---------------------------------------------------------------- dequeue

    /** A popped row is removed for good, or goes back to the tail when the store fails. */
    method RemoveRow(row: QueueRow) returns (ok: bool)
      requires Shaped() && Timed()
      modifies fifo, this`store, this`failures, this`index
      ensures Shaped() && Timed()
      ensures Mem() == if ok then old(Mem()) else old(Mem()).(ready := old(fifo.Contents()) + [row])
      ensures store == if ok then old(store) - {row.id} else old(store)
      ensures index == if ok && cfg.unique then Unindexed(old(index), row.item, row.id) else old(index)
      ensures failures == if ok then old(failures) else old(failures) + 1
    {
      ok := StoreRemove(row.id);
      if ok {
        Unlist(row);
      } else {
        PushRow(row);
      }
    }

    ghost predicate DequeueResult(outcome: Outcome, item: Option<Item>, mem: Memory, rows: Store,
                                  jobs: map<string, nat>)
      requires fifo.Aligned()
      reads this, fifo
    {
      match outcome
      case Nothing => mem.ready == [] && item.None? && Kept(mem, rows, jobs)
      case Done =>
        && mem.ready != []
        && var head := mem.ready[0];
           && item == Some(head.item) && Mem() == Beheaded(mem) && store == rows - {head.id}
           && index == if cfg.unique then Unindexed(jobs, head.item, head.id) else jobs
      case StoreFailed =>
        mem.ready != [] && item.None? && Kept(HeadToBack(mem), rows, jobs)
      case _ => false
    }

    method DequeueTaken(ghost mem: Memory, ghost rows: Store, ghost jobs: map<string, nat>, row: QueueRow)
        returns (outcome: Outcome)
      requires Shaped() && Timed() && clock >= 0.0 && Sound(mem)
      requires mem.ready != [] && row == mem.ready[0] && Kept(Beheaded(mem), rows, jobs)
      modifies fifo, this`store, this`failures, this`index
      ensures Valid() && DequeueResult(outcome, if outcome.Done? then Some(row.item) else None, mem, rows, jobs)
      ensures failures == if outcome.StoreFailed? then old(failures) + 1 else old(failures)
    {
      ClaimedIsSound(mem, None);
      var ok := RemoveRow(row);
      outcome := if ok then Done else StoreFailed;
    }

    method DequeueHead() returns (outcome: Outcome, item: Option<Item>)
      requires Valid()
      modifies fifo, this`store, this`failures, this`index
      ensures Valid() && DequeueResult(outcome, item, old(Mem()), old(store), old(index))
      ensures failures == if outcome.StoreFailed? then old(failures) + 1 else old(failures)
    {
      SoundIsOneBased();
      var head := TakeHead();
      if head.None? {
        return Nothing, None;
      }
      outcome := DequeueTaken(old(Mem()), old(store), old(index), head.value);
      item := if outcome.Done? then Some(head.value.item) else None;
    }

    method TryDequeue() returns (outcome: Outcome, item: Option<Item>, ghost order: seq<nat>)
      requires Valid()
      modifies fifo, delayed, this`delayedRows, this`delayTimer, this`store, this`failures, this`index
      ensures Valid() && DueOrder(old(delayedRows), old(clock), order)
      ensures DequeueResult(outcome, item, Promoted(old(Mem()), order), old(store), old(index))
      ensures failures == if outcome.StoreFailed? then old(failures) + 1 else old(failures)
    {
      order := Promote();
      outcome, item := DequeueHead();
    }

    // -------------------------------------------------------------- job admin

    /** A located job carries the id that was asked for: the first such ready row, or
        else some delayed row. It is missing only when no pending row carries it. */
    ghost predicate Finds(found: Located, jobId: string)
      requires fifo.Aligned()
      reads this, fifo
    {
      match found
      case ReadyAt(slot, row) =>
        && fifo.head <= slot < fifo.head + |fifo.Contents()| == |fifo.items|
        && fifo.Contents()[slot - fifo.head] == row && Carries(row.item, jobId)
        && forall k :: 0 <= k < slot - fifo.head ==> !Carries(fifo.Contents()[k].item, jobId)
      case DelayedAt(entry) =>
        && entry.row.id in delayedRows && delayedRows[entry.row.id] == entry && Carries(entry.row.item, jobId)
        && forall r :: r in fifo.Contents() ==> !Carries(r.item, jobId)
      case Missing =>
        && (forall r :: r in fifo.Contents() ==> !Carries(r.item, jobId))
        && (forall id :: id in delayedRows ==> !Carries(delayedRows[id].row.item, jobId))
    }

    method LocateReady(jobId: string) returns (found: Located)
      requires Shaped()
      ensures found.Missing? || (found.ReadyAt? && Finds(found, jobId))
      ensures found.Missing? ==> forall r :: r in fifo.Contents() ==> !Carries(r.item, jobId)
    {
      var slot := fifo.head;
      while slot < |fifo.items|
        invariant fifo.head <= slot <= |fifo.items|
        invariant forall k :: 0 <= k < slot - fifo.head ==> !Carries(fifo.Contents()[k].item, jobId)
      {
        var row := FifoSlots.RowAt(fifo.State(), slot);
        assert fifo.Contents()[slot - fifo.head] == row;
        if row.item.Job? && row.item.jobId == jobId {
          return ReadyAt(slot, row);
        }
        slot := slot + 1;
      }
      found := Missing;
    }

    /** `locatePendingJob` */
    method Locate(jobId: string) returns (found: Located)
      requires Shaped()
      ensures Finds(found, jobId)
      ensures !found.Missing? ==> FoundRow(found).item.Job? && FoundRow(found).item.jobId == jobId
      ensures found.Missing? ==>
        && (forall r :: r in fifo.Contents() && r.item.Job? ==> r.item.jobId != jobId)
        && (forall id :: id in delayedRows && delayedRows[id].row.item.Job? ==> delayedRows[id].row.item.jobId != jobId)
    {
      found := LocateReady(jobId);
      if found.Missing? {
        RepresentsMembers(delayed.data, delayedRows);
        var i := 0;
        while i < |delayed.data|
          invariant 0 <= i <= |delayed.data|
          invariant forall k :: 0 <= k < i ==> !Carries(delayed.data[k].row.item, jobId)
        {
          if delayed.data[i].row.item.Job? && delayed.data[i].row.item.jobId == jobId {
            return DelayedAt(delayed.data[i]);
          }
          i := i + 1;
        }
        assert forall id :: id in delayedRows ==> delayedRows[id] in delayed.data;
      }
    }

    /** The row a search found; any row at all when it found none. */
    function FoundRow(found: Located): QueueRow
      requires !found.Missing?
    {
      if found.ReadyAt? then found.row else found.entry.row
    }

    /** The row is ready or delayed. */
    ghost predicate Pends(row: QueueRow)
      requires fifo.Aligned()
      reads this, fifo
    {
      IsPending(Mem(), row.id) && PendingRow(Mem(), row.id) == row
    }

    lemma FoundIsPending(found: Located, jobId: string)
      requires Shaped() && Sound(Mem()) && Finds(found, jobId) && !found.Missing?
      ensures Pends(FoundRow(found)) && Carries(FoundRow(found).item, jobId)
      ensures found.DelayedAt? <==> FoundRow(found).id in delayedRows
      ensures found.ReadyAt? ==>
        && fifo.head <= found.slot < |fifo.items|
        && Spliced(fifo.Contents(), found.slot - fifo.head) == ReadyWithout(fifo.Contents(), found.row.id)
    {
      if found.ReadyAt? {
        var k := found.slot - fifo.head;
        assert fifo.Contents()[k] in fifo.Contents();
        SplicedIsWithout(fifo.Contents(), k);
        ReadyRowAt(fifo.Contents(), k);
      }
    }

    lemma FoundMoves(found: Located, jobId: string, availableAt: real)
      requires Shaped() && Sound(Mem()) && Finds(found, jobId) && !found.Missing?
      ensures var row, rest := FoundRow(found), DropPending(Mem(), FoundRow(found).id);
        && row.attempt >= 1 && row.id !in rest.delayed && Sound(rest) && Sound(Add(rest, row, availableAt))
    {
      FoundIsPending(found, jobId);
      DroppedIsSound(Mem(), FoundRow(found).id);
      MovedIsSound(Mem(), FoundRow(found).id, availableAt);
    }

    method RemoveDelayed(entry: DelayedRow)
      requires Shaped() && Timed() && entry.row.id in delayedRows && delayedRows[entry.row.id] == entry
      modifies delayed, this`delayedRows, this`delayTimer
      ensures Shaped() && Timed() && Mem() == DropPending(old(Mem()), entry.row.id)
    {
      DropDelayed(entry);
      ArmDelayTimer();
    }

    method DropDelayed(entry: DelayedRow)
      requires Shaped() && entry.row.id in delayedRows && delayedRows[entry.row.id] == entry
      modifies delayed, this`delayedRows
      ensures Shaped() && Mem() == old(Mem()).(delayed := old(delayedRows) - {entry.row.id})
      ensures expiries.data == old(expiries.data)
    {
      RepresentsMembers(delayed.data, delayedRows);
      ghost var before := delayed.data;
      var removed := delayed.Remove(entry);
      RepresentsRemove(before, delayed.data, delayedRows, entry);
      delayedRows := delayedRows - {entry.row.id};
    }

    method RemoveReady(slot: nat)
      requires Shaped() && Timed() && fifo.Valid() && fifo.head <= slot < |fifo.items|
      modifies fifo
      ensures Shaped() && Timed()
      ensures Mem() == old(Mem()).(ready := Spliced(old(fifo.Contents()), slot - old(fifo.head)))
    {
      fifo.RemoveAt(slot);
    }

    /** `removePendingJob` */
    method RemovePending(found: Located, ghost jobId: string)
      requires Shaped() && Timed() && Sound(Mem()) && Finds(found, jobId) && !found.Missing?
      modifies fifo, delayed, this`delayedRows, this`delayTimer
      ensures Shaped() && Timed() && Mem() == DropPending(old(Mem()), FoundRow(found).id)
      ensures store == old(store) && index == old(index)
    {
      if found.ReadyAt? {
        RemoveFoundReady(found, jobId);
      } else {
        RemoveFoundDelayed(found, jobId);
      }
    }

    method RemoveFoundDelayed(found: Located, ghost jobId: string)
      requires Shaped() && Timed() && Finds(found, jobId) && found.DelayedAt?
      modifies delayed, this`delayedRows, this`delayTimer
      ensures Shaped() && Timed() && Mem() == DropPending(old(Mem()), FoundRow(found).id)
      ensures store == old(store) && index == old(index)
    {
      RemoveDelayed(found.entry);
    }

    method RemoveFoundReady(found: Located, ghost jobId: string)
      requires Shaped() && Timed() && Sound(Mem()) && Finds(found, jobId) && found.ReadyAt?
      modifies fifo
      ensures Shaped() && Timed() && Mem() == DropPending(old(Mem()), FoundRow(found).id)
      ensures store == old(store) && index == old(index)
    {
      FoundIsPending(found, jobId);
      SoundIsOneBased();
      RemoveReady(found.slot);
    }

    /** The cancelled or moved row, and nothing else, changed; a store failure changes nothing. */
    ghost predicate CancelResult(outcome: Outcome, row: QueueRow, mem: Memory, rows: Store, jobs: map<string, nat>)
      requires fifo.Aligned()
      reads this, fifo
    {
      match outcome
      case Done =>
        && Mem() == DropPending(mem, row.id) && store == rows - {row.id}
        && index == if cfg.unique then Unindexed(jobs, row.item, row.id) else jobs
      case StoreFailed => Kept(mem, rows, jobs)
      case _ => false
    }

    ghost predicate MoveResult(outcome: Outcome, row: QueueRow, availableAt: real, mem: Memory, rows: Store,
                               jobs: map<string, nat>)
      requires fifo.Aligned()
      reads this, fifo
    {
      match outcome
      case Done =>
        && Mem() == Add(DropPending(mem, row.id), row, availableAt) && index == jobs
        && store == rows[row.id := ToRecord(row, availableAt, None, None)]
      case StoreFailed => Kept(mem, rows, jobs)
      case _ => false
    }

    /** The store call has removed the row from `rows`; memory and index follow. */
    method DropFound(found: Located, ghost jobId: string, ghost rows: Store)
      requires Shaped() && Timed() && Sound(Mem()) && Finds(found, jobId) && !found.Missing?
      requires store == rows - {FoundRow(found).id}
      modifies fifo, delayed, this`delayedRows, this`delayTimer, this`index
      ensures Shaped() && Timed() && CancelResult(Done, FoundRow(found), old(Mem()), rows, old(index))
    {
      RemovePending(found, jobId);
      Unlist(FoundRow(found));
    }

    method WriteDrop(found: Located, ghost jobId: string) returns (outcome: Outcome)
      requires Shaped() && Timed() && Sound(Mem()) && Finds(found, jobId) && !found.Missing?
      modifies fifo, delayed, this`delayedRows, this`delayTimer, this`store, this`failures, this`index
      ensures Shaped() && Timed() && CancelResult(outcome, FoundRow(found), old(Mem()), old(store), old(index))
      ensures failures == if outcome.StoreFailed? then old(failures) + 1 else old(failures)
    {
      var ok := StoreRemove(FoundRow(found).id);
      if ok {
        assert Finds(found, jobId);
        DropFound(found, jobId, old(store));
      }
      outcome := if ok then Done else StoreFailed;
    }

    /** The store call has rewritten the row in `rows`; memory follows. */
    method Relocate(found: Located, availableAt: real, ghost jobId: string, ghost rows: Store)
      requires Shaped() && Timed() && Sound(Mem()) && Finds(found, jobId) && !found.Missing?
      requires FoundRow(found).id !in DropPending(Mem(), FoundRow(found).id).delayed
      requires store == rows[FoundRow(found).id := ToRecord(FoundRow(found), availableAt, None, None)]
      modifies fifo, delayed, this`delayedRows, this`delayTimer
      ensures Shaped() && Timed() && MoveResult(Done, FoundRow(found), availableAt, old(Mem()), rows, old(index))
    {
      RemovePending(found, jobId);
      AddRow(FoundRow(found), availableAt);
    }

    method WriteMove(found: Located, availableAt: real, ghost jobId: string) returns (outcome: Outcome)
      requires Shaped() && Timed() && Sound(Mem()) && Finds(found, jobId) && !found.Missing?
      requires FoundRow(found).id !in DropPending(Mem(), FoundRow(found).id).delayed
      modifies fifo, delayed, this`delayedRows, this`delayTimer, this`store, this`failures
      ensures Shaped() && Timed()
        && MoveResult(outcome, FoundRow(found), availableAt, old(Mem()), old(store), old(index))
      ensures failures == if outcome.StoreFailed? then old(failures) + 1 else old(failures)
    {
      var ok := StorePut(ToRecord(FoundRow(found), availableAt, None, None));
      if ok {
        Relocate(found, availableAt, jobId, old(store));
      }
      outcome := if ok then Done else StoreFailed;
    }

    /** A pending row moves to another time: now, or later. */
    method MoveFound(found: Located, availableAt: real, ghost jobId: string) returns (outcome: Outcome)
      requires Valid() && Finds(found, jobId) && !found.Missing?
      modifies fifo, delayed, this`delayedRows, this`delayTimer, this`store, this`failures
      ensures Valid() && MoveResult(outcome, FoundRow(found), availableAt, old(Mem()), old(store), old(index))
      ensures failures == if outcome.StoreFailed? then old(failures) + 1 else old(failures)
    {
      FoundMoves(found, jobId, availableAt);
      outcome := WriteMove(found, availableAt, jobId);
    }

    method CancelFound(found: Located, ghost jobId: string) returns (outcome: Outcome)
      requires Valid() && Finds(found, jobId) && !found.Missing?
      modifies fifo, delayed, this`delayedRows, this`delayTimer, this`store, this`failures, this`index
      ensures Valid() && CancelResult(outcome, FoundRow(found), old(Mem()), old(store), old(index))
      ensures failures == if outcome.StoreFailed? then old(failures) + 1 else old(failures)
    {
      FoundMoves(found, jobId, 0.0);
      outcome := WriteDrop(found, jobId);
    }

    /** A ready or delayed job is removed; `Nothing` when no pending row carries the id. */
    method CancelJob(jobId: string) returns (outcome: Outcome, ghost found: Located)
      requires Valid()
      modifies fifo, delayed, this`delayedRows, this`delayTimer, this`store, this`failures, this`index
      ensures Valid() && old(Finds(found, jobId))
      ensures found.Missing? ==> outcome.Nothing? && Kept(old(Mem()), old(store), old(index))
      ensures !found.Missing? ==>
        old(Pends(FoundRow(found))) && CancelResult(outcome, FoundRow(found), old(Mem()), old(store), old(index))
      ensures failures == if outcome.StoreFailed? then old(failures) + 1 else old(failures)
    {
      var place := Locate(jobId);
      found := place;
      if place.Missing? {
        return Nothing, found;
      }
      FoundIsPending(place, jobId);
      outcome := CancelFound(place, jobId);
    }

    method RescheduleJob(jobId: string, delayMs: real) returns (outcome: Outcome, ghost found: Located)
      requires Valid()
      modifies fifo, delayed, this`delayedRows, this`delayTimer, this`store, this`failures
      ensures Valid() && (outcome.InvalidOption? <==> delayMs < 0.0)
      ensures delayMs < 0.0 || found.Missing? ==> Kept(old(Mem()), old(store), old(index))
      ensures delayMs >= 0.0 ==>
        && old(Finds(found, jobId)) && (outcome.Nothing? <==> found.Missing?)
        && (!found.Missing? ==>
              && old(Pends(FoundRow(found)))
              && MoveResult(outcome, FoundRow(found), DueAt(old(clock), delayMs), old(Mem()), old(store), old(index))
              && (outcome.Done? ==> Arrives(Mem(), store, FoundRow(found), old(clock), delayMs)))
      ensures failures == if outcome.StoreFailed? then old(failures) + 1 else old(failures)
    {
      found := Missing;
      if delayMs < 0.0 {
        return InvalidOption, found;
      }
      var place := Locate(jobId);
      found := place;
      outcome := MoveIfFound(place, delayMs, jobId);
    }

    method MoveIfFound(found: Located, delayMs: real, ghost jobId: string) returns (outcome: Outcome)
      requires Valid() && Finds(found, jobId)
      modifies fifo, delayed, this`delayedRows, this`delayTimer, this`store, this`failures
      ensures Valid() && (outcome.Nothing? <==> found.Missing?) && !outcome.InvalidOption?
      ensures found.Missing? ==> Kept(old(Mem()), old(store), old(index))
      ensures !found.Missing? ==>
        && old(Pends(FoundRow(found)))
        && MoveResult(outcome, FoundRow(found), DueAt(old(clock), delayMs), old(Mem()), old(store), old(index))
        && (outcome.Done? ==> Arrives(Mem(), store, FoundRow(found), old(clock), delayMs))
      ensures failures == if outcome.StoreFailed? then old(failures) + 1 else old(failures)
    {
      outcome := Nothing;
      if !found.Missing? {
        FoundIsPending(found, jobId);
        outcome := MoveFoundLater(found, delayMs, jobId);
      }
    }

    /** The located row moves to when the delay is over. */
    method MoveFoundLater(found: Located, delayMs: real, ghost jobId: string) returns (outcome: Outcome)
      requires Valid() && Finds(found, jobId) && !found.Missing?
      modifies fifo, delayed, this`delayedRows, this`delayTimer, this`store, this`failures
      ensures Valid()
      ensures MoveResult(outcome, FoundRow(found), DueAt(old(clock), delayMs), old(Mem()), old(store), old(index))
      ensures outcome.Done? ==> Arrives(Mem(), store, FoundRow(found), old(clock), delayMs)
      ensures failures == if outcome.StoreFailed? then old(failures) + 1 else old(failures)
    {
      outcome := MoveFound(found, if delayMs > 0.0 then clock + delayMs else 0.0, jobId);
      MovedArrives(outcome, FoundRow(found), delayMs, old(Mem()), old(store), old(index));
    }

    lemma MovedArrives(outcome: Outcome, row: QueueRow, delayMs: real, mem: Memory, rows: Store,
                       jobs: map<string, nat>)
      requires Shaped() && clock >= 0.0 && MoveResult(outcome, row, DueAt(clock, delayMs), mem, rows, jobs)
      ensures outcome.Done? ==> Arrives(Mem(), store, row, clock, delayMs)
    {
      AddedArrives(DropPending(mem, row.id), rows, row, clock, delayMs);
    }

    /** Only a delayed job can be promoted. */
    method PromoteJob(jobId: string) returns (outcome: Outcome, ghost found: Located)
      requires Valid()
      modifies fifo, delayed, this`delayedRows, this`delayTimer, this`store, this`failures
      ensures Valid() && old(Finds(found, jobId)) && (outcome.Nothing? <==> !found.DelayedAt?)
      ensures !found.DelayedAt? ==> Kept(old(Mem()), old(store), old(index))
      ensures found.DelayedAt? ==> MoveResult(outcome, FoundRow(found), 0.0, old(Mem()), old(store), old(index))
      ensures failures == if outcome.StoreFailed? then old(failures) + 1 else old(failures)
    {
      var place := Locate(jobId);
      found := place;
      if !place.DelayedAt? {
        return Nothing, found;
      }
      outcome := MoveFound(place, 0.0, jobId);
    }

    // ---------------------------------------------------------------- hydrate

    /** `clearMemory` with the counters reset. */
    method ClearMemory()
      requires Shaped()
      modifies fifo, delayed, expiries, this`delayedRows, this`leased, this`index
      modifies this`ids, this`generations, this`delayTimer, this`leaseTimer
      ensures Shaped() && Timed() && Mem() == Memory([], map[], map[], 0, 0) && index == map[] && expiries.data == []
    {
      fifo.Clear();
      delayed.Clear();
      expiries.Clear();
      leased, index, delayedRows := map[], map[], map[];
      ids := IdCounters.After(ids, IdCounters.Reset);
      generations, delayTimer, leaseTimer := 0, None, None;
    }

    method StoreReplace(rows: Store) returns (ok: bool)
      requires Shaped()
      modifies this`store, this`failures
      ensures Shaped() && Mem() == old(Mem()) && (old(Timed()) ==> Timed())
      ensures store == if ok then rows else old(store)
      ensures failures == if ok then old(failures) else old(failures) + 1
    {
      ok := StoreAnswers();
      store := if ok then rows else store;
    }

    /** Rows, leases, index, timers and counters are as in a new queue, or nothing changed. */
    ghost predicate ClearResult(outcome: Outcome, mem: Memory, rows: Store, jobs: map<string, nat>)
      requires fifo.Aligned()
      reads this, fifo
    {
      match outcome
      case Done => Kept(Memory([], map[], map[], 0, 0), map[], map[])
      case StoreFailed => Kept(mem, rows, jobs)
      case _ => false
    }

    method Clear() returns (outcome: Outcome)
      requires Valid()
      modifies fifo, delayed, expiries, this`delayedRows, this`leased, this`index, this`store, this`failures
      modifies this`ids, this`generations, this`delayTimer, this`leaseTimer
      ensures Valid() && ClearResult(outcome, old(Mem()), old(store), old(index))
      ensures failures == if outcome.StoreFailed? then old(failures) + 1 else old(failures)
    {
      var ok := StoreReplace(map[]);
      if !ok {
        return StoreFailed;
      }
      EmptyIsSound();
      ClearMemory();
      outcome := Done;
    }

    /** Some application id is repeated among the items. */
    method HasRepeats(items: seq<Item>) returns (repeats: bool)
      ensures repeats <==> !DistinctItems(items)
      ensures repeats <==>
        exists i, j :: 0 <= i < j < |items| && items[i].Job? && items[j].Job? && items[i].jobId == items[j].jobId
    {
      var seen: set<string>, i := {}, 0;
      while i < |items|
        invariant 0 <= i <= |items|
        invariant forall job :: job in seen <==> exists k :: 0 <= k < i && items[k].Job? && items[k].jobId == job
        invariant DistinctItems(items[..i])
      {
        assert items[..i + 1] == items[..i] + [items[i]];
        if items[i].Job? {
          if items[i].jobId in seen {
            var k :| 0 <= k < i && items[k].Job? && items[k].jobId == items[i].jobId;
            assert SameJob(items[k], items[i]);
            return true;
          }
          seen := seen + {items[i].jobId};
        }
        i := i + 1;
      }
      assert items[..i] == items;
      repeats := false;
    }

    /** Refused for its length before a repeated id before a lease before a store failure. On success
        the rows are the items, ready under the ids from 1 on. */
    ghost predicate ReplaceResult(outcome: Outcome, items: seq<Item>, mem: Memory, rows: Store, jobs: map<string, nat>)
      requires fifo.Aligned()
      reads this, fifo
    {
      var tooMany := cfg.maxSize.Some? && |items| > cfg.maxSize.value;
      var repeats := cfg.unique && !DistinctItems(items);
      match outcome
      case Full => tooMany && Kept(mem, rows, jobs)
      case DuplicateJob => !tooMany && repeats && Kept(mem, rows, jobs)
      case Active => !tooMany && !repeats && mem.leased != map[] && Kept(mem, rows, jobs)
      case StoreFailed => !tooMany && !repeats && mem.leased == map[] && Kept(mem, rows, jobs)
      case Done =>
        && !tooMany && !repeats && mem.leased == map[]
        && Mem() == Memory(Planned(items), map[], map[], |items|, 0) && store == PlannedStore(items)
        && index == if cfg.unique then IndexOf(Planned(items)) else map[]
      case _ => false
    }

    /** The items pushed and indexed one after the other, each under its id. */
    method FillPlanned(items: seq<Item>)
      requires Shaped() && Timed() && Mem() == Memory([], map[], map[], 0, 0) && index == map[]
      modifies fifo, this`index, this`ids
      ensures Shaped() && Timed() && Mem() == Memory(Planned(items), map[], map[], |items|, 0)
      ensures index == (if cfg.unique then IndexOf(Planned(items)) else map[]) && store == old(store)
    {
      var n := 0;
      assert Planned(items[..0]) == [];
      while n < |items|
        invariant 0 <= n <= |items| && Shaped() && Timed() && store == old(store)
        invariant Mem() == Memory(Planned(items[..n]), map[], map[], n, 0)
        invariant index == if cfg.unique then IndexOf(Planned(items[..n])) else map[]
      {
        PlannedNext(items, n);
        PushPlanned(Row(n + 1, items[n], 1, 0));
        n := n + 1;
      }
      assert items[..n] == items;
    }

    method PushPlanned(row: QueueRow)
      requires Shaped() && Timed() && row.id == ids.value + 1
      modifies fifo, this`index, this`ids
      ensures Shaped() && Timed() && store == old(store)
      ensures Mem() == old(Mem()).(ready := old(fifo.Contents()) + [row], counter := row.id)
      ensures index == if cfg.unique then Indexed(old(index), row.item, row.id) else old(index)
    {
      PushRow(row);
      Enlist(row);
      ids := IdCounters.After(ids, IdCounters.Fixup(row.id));
    }

    method RebuildPlanned(items: seq<Item>)
      requires Shaped()
      modifies fifo, delayed, expiries, this`delayedRows, this`leased, this`index
      modifies this`ids, this`generations, this`delayTimer, this`leaseTimer
      ensures Shaped() && Timed() && Mem() == Memory(Planned(items), map[], map[], |items|, 0)
      ensures index == (if cfg.unique then IndexOf(Planned(items)) else map[])
    {
      ClearMemory();
      FillPlanned(items);
    }

    method ReplaceChecked(items: seq<Item>) returns (ok: bool)
      requires Shaped() && Timed() && clock >= 0.0 && |items| <= ID_MAX && Sound(Mem())
      modifies fifo, delayed, expiries, this`delayedRows, this`leased, this`index, this`store, this`failures
      modifies this`ids, this`generations, this`delayTimer, this`leaseTimer
      ensures Valid()
      ensures ok ==> Mem() == Memory(Planned(items), map[], map[], |items|, 0) && store == PlannedStore(items)
      ensures ok ==> index == if cfg.unique then IndexOf(Planned(items)) else map[]
      ensures !ok ==> Kept(old(Mem()), old(store), old(index))
      ensures failures == if ok then old(failures) else old(failures) + 1
    {
      ok := StoreReplace(PlannedStore(items));
      if ok {
        PlannedShape(items);
        RebuildPlanned(items);
      }
    }

    /** `replaceAll`; a sequence of items is no longer than an array can be. */
    method ReplaceAll(items: seq<Item>) returns (outcome: Outcome)
      requires Valid() && |items| <= ID_MAX
      modifies fifo, delayed, expiries, this`delayedRows, this`leased, this`index, this`store, this`failures
      modifies this`ids, this`generations, this`delayTimer, this`leaseTimer
      ensures Valid() && ReplaceResult(outcome, items, old(Mem()), old(store), old(index))
      ensures failures == if outcome.StoreFailed? then old(failures) + 1 else old(failures)
    {
      if cfg.maxSize.Some? && |items| > cfg.maxSize.value {
        return Full;
      }
      var repeats := HasRepeats(items);
      if cfg.unique && repeats {
        return DuplicateJob;
      }
      if |leased| > 0 {
        return Active;
      }
      var ok := ReplaceChecked(items);
      outcome := if ok then Done else StoreFailed;
    }

    /** Splits the loaded rows; every leased one is written back without its lease first. */
    method ReadRows(loaded: seq<Record>) returns (ok: bool, ready: seq<QueueRow>, later: seq<DelayedRow>)
      requires Shaped()
      modifies this`store, this`failures
      ensures Shaped() && Mem() == old(Mem()) && (old(Timed()) ==> Timed())
      ensures ok ==> store == ClearedStore(old(store), loaded)
      ensures ok ==> ready == ReadyOf(loaded, clock) && later == DelayedOf(loaded, clock)
      ensures !ok ==> PartlyCleared(store, old(store), loaded)
      ensures failures == if ok then old(failures) else old(failures) + 1
    {
      ready, later := [], [];
      var n := 0;
      while n < |loaded|
        invariant 0 <= n <= |loaded|
        invariant Shaped() && Mem() == old(Mem()) && (old(Timed()) ==> Timed())
        invariant store == ClearedStore(old(store), loaded[..n]) && failures == old(failures)
        invariant ready == ReadyOf(loaded[..n], clock) && later == DelayedOf(loaded[..n], clock)
      {
        var rec := loaded[n];
        assert loaded[..n + 1][..n] == loaded[..n];
        if rec.lease.Some? {
          ok := StorePut(Cleared(rec));
          if !ok {
            return;
          }
        }
        if IsReady(rec, clock) {
          ready := ready + [RowOf(rec)];
        } else {
          later := later + [DelayedRow(FromRecord(rec), rec.availableAt)];
        }
        n := n + 1;
      }
      assert loaded[..n] == loaded;
      ok := true;
    }

    method Enlist(row: QueueRow)
      requires Shaped()
      modifies this`index
      ensures Shaped() && Mem() == old(Mem()) && expiries.data == old(expiries.data)
      ensures index == if cfg.unique then Indexed(old(index), row.item, row.id) else old(index)
    {
      index := if cfg.unique then Indexed(index, row.item, row.id) else index;
    }

    method FillReady(rows: seq<QueueRow>)
      requires Shaped() && fifo.Contents() == [] && index == map[]
      modifies fifo, this`index
      ensures Shaped() && Mem() == old(Mem()).(ready := rows) && index == (if cfg.unique then IndexOf(rows) else map[])
    {
      var n := 0;
      while n < |rows|
        invariant 0 <= n <= |rows| && Shaped()
        invariant Mem() == old(Mem()).(ready := rows[..n])
          && index == (if cfg.unique then IndexOf(rows[..n]) else map[])
      {
        assert rows[..n + 1][..n] == rows[..n] && rows[..n + 1] == rows[..n] + [rows[n]];
        PushRow(rows[n]);
        Enlist(rows[n]);
        n := n + 1;
      }
      assert rows[..n] == rows;
    }

    method DelayIndexed(entry: DelayedRow)
      requires Shaped() && entry.row.id !in delayedRows
      modifies delayed, this`delayedRows, this`index
      ensures Shaped() && Mem() == old(Mem()).(delayed := old(delayedRows)[entry.row.id := entry])
      ensures expiries.data == old(expiries.data)
      ensures index == if cfg.unique then Indexed(old(index), entry.row.item, entry.row.id) else old(index)
    {
      DelayRow(entry);
      Enlist(entry.row);
    }

    /** The first `n` delayed rows are in place. */
    ghost predicate Filled(mem: Memory, ready: seq<QueueRow>, entries: seq<DelayedRow>, n: nat,
                           watched: seq<LeaseExpiry>)
      requires n <= |entries|
      reads this, fifo, delayed, expiries
    {
      && Shaped() && Mem() == mem.(delayed := ById(entries[..n])) && expiries.data == watched
      && index == if cfg.unique then IndexOf(ready + RowsIn(entries[..n])) else map[]
    }

    method FillOne(ghost mem: Memory, ghost ready: seq<QueueRow>, entries: seq<DelayedRow>, n: nat,
                   ghost watched: seq<LeaseExpiry>)
      requires n < |entries| && Filled(mem, ready, entries, n, watched)
      requires forall i, j :: 0 <= i < j < |entries| ==> entries[i].row.id != entries[j].row.id
      modifies delayed, this`delayedRows, this`index
      ensures Filled(mem, ready, entries, n + 1, watched)
    {
      NextEntry(ready, entries, n);
      DelayIndexed(entries[n]);
    }

    /** Delayed rows are pushed and indexed after the ready ones. */
    method FillDelayed(entries: seq<DelayedRow>, ghost ready: seq<QueueRow>)
      requires Shaped() && delayedRows == map[] && index == (if cfg.unique then IndexOf(ready) else map[])
      requires forall i, j :: 0 <= i < j < |entries| ==> entries[i].row.id != entries[j].row.id
      modifies delayed, this`delayedRows, this`index
      ensures Shaped() && Mem() == old(Mem()).(delayed := ById(entries)) && expiries.data == old(expiries.data)
      ensures index == if cfg.unique then IndexOf(ready + RowsIn(entries)) else map[]
    {
      var n := 0;
      assert ready + RowsIn([]) == ready;
      while n < |entries|
        invariant 0 <= n <= |entries| && Filled(old(Mem()), ready, entries, n, old(expiries.data))
      {
        FillOne(old(Mem()), ready, entries, n, old(expiries.data));
        n := n + 1;
      }
      assert entries[..n] == entries;
    }

    /** Memory rebuilt from what was read: sorted ready rows, then delayed rows. */
    method Rebuild(ready: seq<QueueRow>, later: seq<DelayedRow>, maxId: nat)
      requires Shaped()
      requires forall i, j :: 0 <= i < j < |later| ==> later[i].row.id != later[j].row.id
      modifies fifo, delayed, expiries, this`delayedRows, this`leased, this`index
      modifies this`ids, this`generations, this`delayTimer, this`leaseTimer
      ensures Shaped() && Timed() && Mem() == Memory(ready, ById(later), map[], maxId, 0)
      ensures index == if cfg.unique then IndexOf(ready + RowsIn(later)) else map[]
    {
      ClearMemory();
      ids := IdCounters.After(ids, IdCounters.Fixup(maxId));
      FillReady(ready);
      FillDelayed(later, ready);
      ArmDelayTimer();
    }

    /** `hydrate` past its checks: leases are cleared in the store, then memory is rebuilt. */
    method Recover(loaded: seq<Record>, maxId: nat) returns (ok: bool)
      requires Shaped() && DistinctIds(loaded)
      modifies fifo, delayed, expiries, this`delayedRows, this`leased, this`index, this`store, this`failures
      modifies this`ids, this`generations, this`delayTimer, this`leaseTimer
      ensures Shaped() && (ok || old(Timed()) ==> Timed())
      ensures ok ==> Mem() == ReadMemory(loaded, old(clock), maxId) && store == ClearedStore(old(store), loaded)
      ensures ok ==> index == if cfg.unique then IndexOf(RowsRead(loaded, old(clock))) else map[]
      ensures !ok ==> Mem() == old(Mem()) && index == old(index) && PartlyCleared(store, old(store), loaded)
      ensures failures == if ok then old(failures) else old(failures) + 1
    {
      var ready, later;
      ok, ready, later := ReadRows(loaded);
      if !ok {
        return;
      }
      DelayedOfIsDistinct(loaded, clock);
      Rebuild(SortRows(ready), later, maxId);
      assert Mem() == ReadMemory(loaded, old(clock), maxId);
    }

    /** Refused loads change nothing; a store failure leaves memory alone and some leases cleared
        in the store; success makes memory what was read. */
    ghost predicate HydrateResult(outcome: Outcome, loaded: seq<Record>, now: real, mem: Memory, rows: Store,
                                  jobs: map<string, nat>)
      requires fifo.Aligned()
      reads this, fifo
    {
      match outcome
      case Active => mem.leased != map[] && Kept(mem, rows, jobs)
      case Done =>
        && mem.leased == map[] && AcceptedUpTo(loaded, cfg.unique, |loaded|)
        && store == ClearedStore(rows, loaded)
        && Mem() == ReadMemory(loaded, now, ids.value) && IsMaxId(loaded, ids.value)
        && index == if cfg.unique then IndexOf(RowsRead(loaded, now)) else map[]
      case StoreFailed =>
        && mem.leased == map[] && Mem() == mem && index == jobs
        && (store == rows || (AcceptedUpTo(loaded, cfg.unique, |loaded|) && PartlyCleared(store, rows, loaded)))
      case _ =>
        && mem.leased == map[] && Kept(mem, rows, jobs)
        && exists k :: RefusedAt(loaded, cfg.unique, k) && Rejects(VerdictOn(loaded, cfg.unique, k), outcome)
    }

    /** Rebuilds memory from the store, whose rows `loaded` are in whatever order. When all
        stored attempts are at least 1, memory is what the store determines (`HydratedMemory`). */
    method Hydrate(loaded: seq<Record>) returns (outcome: Outcome)
      requires Shaped() && clock >= 0.0 && Lists(loaded, store)
      modifies fifo, delayed, expiries, this`delayedRows, this`leased, this`index, this`store, this`failures
      modifies this`ids, this`generations, this`delayTimer, this`leaseTimer
      ensures Shaped() && (outcome.Done? || old(Timed()) ==> Timed())
      ensures HydrateResult(outcome, loaded, old(clock), old(Mem()), old(store), old(index))
      ensures outcome.Done? && OneBasedRecords(loaded) ==>
        && Valid() && Mem() == HydratedMemory(old(store), old(clock)) && LedgerOf(store) == old(LedgerOf(store))
        && (cfg.unique ==> DistinctJobs(LedgerOf(store)) && index == IndexFor(LedgerOf(store)))
      ensures outcome.InvalidRowId? ==> exists rec :: rec in loaded && !(1 <= rec.id <= ID_MAX)
      ensures outcome.DuplicateRowId? ==> !DistinctIds(loaded)
      ensures outcome.DuplicateJob? ==> cfg.unique && !DistinctJobRecords(loaded)
      ensures failures == if outcome.StoreFailed? then old(failures) + 1 else old(failures)
    {
      outcome := HydrateChecked(loaded);
      RefusedMeans(outcome, loaded, old(clock), old(Mem()), old(store), old(index));
      if outcome.Done? && OneBasedRecords(loaded) {
        AcceptedIff(loaded, cfg.unique);
        RecoveredIs(loaded, old(store), old(clock), cfg.unique, ids.value);
      }
    }

    lemma RefusedMeans(outcome: Outcome, loaded: seq<Record>, now: real, mem: Memory, rows: Store,
                       jobs: map<string, nat>)
      requires fifo.Aligned() && HydrateResult(outcome, loaded, now, mem, rows, jobs)
      ensures outcome.InvalidRowId? ==> exists rec :: rec in loaded && !(1 <= rec.id <= ID_MAX)
      ensures outcome.DuplicateRowId? ==> !DistinctIds(loaded)
      ensures outcome.DuplicateJob? ==> cfg.unique && !DistinctJobRecords(loaded)
    {
      if outcome.InvalidRowId? || outcome.DuplicateRowId? || outcome.DuplicateJob? {
        var k: nat :| RefusedAt(loaded, cfg.unique, k) && Rejects(VerdictOn(loaded, cfg.unique, k), outcome);
        assert loaded[k] in loaded;
      }
    }

    method HydrateChecked(loaded: seq<Record>) returns (outcome: Outcome)
      requires Shaped()
      modifies fifo, delayed, expiries, this`delayedRows, this`leased, this`index, this`store, this`failures
      modifies this`ids, this`generations, this`delayTimer, this`leaseTimer
      ensures Shaped() && (outcome.Done? || old(Timed()) ==> Timed())
      ensures HydrateResult(outcome, loaded, old(clock), old(Mem()), old(store), old(index))
      ensures failures == if outcome.StoreFailed? then old(failures) + 1 else old(failures)
    {
      if |leased| > 0 {
        return Active;
      }
      var reached := StoreAnswers();
      if !reached {
        return StoreFailed;
      }
      var verdict, maxId := Validate(loaded, cfg.unique);
      if !verdict.Accepted? {
        return if verdict.UnsafeId? then InvalidRowId else if verdict.RepeatedId? then DuplicateRowId else DuplicateJob;
      }
      AcceptedIff(loaded, cfg.unique);
      var ok := Recover(loaded, maxId);
      outcome := if ok then Done else StoreFailed;
    }
  }
}
