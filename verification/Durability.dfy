/** What every run of the durable queue keeps, and what hydrate recovers after a crash. */
module Durability {
  import opened Options
  import opened Records
  import opened PendingRows
  import opened QueueModel
  import opened QueueSteps
  import opened DurableMachine

  // -------------------------------------------------------------- invariant

  /** Memory as it would be if the operation in flight were given up. */
  function Resting(m: Machine): Memory
    requires m.phase.Up?
  {
    if m.phase.inflight.None? then m.phase.mem else Abandoned(m.phase.inflight.value.op, m.phase.mem)
  }

  /** The store as the operation in flight found it. */
  function Before(m: Machine): Store
    requires m.phase.Up?
  {
    if m.phase.inflight.None? then m.store else m.phase.inflight.value.before
  }

  ghost predicate InflightInv(m: Machine)
    requires m.phase.Up?
  {
    m.phase.inflight.Some? ==>
      var fl := m.phase.inflight.value;
      && Enabled(fl.op, m.phase.mem) && Fresh(fl.op, m.phase.mem, m.ledger)
      && m.store == (if fl.written then Written(fl.op, m.phase.mem, fl.before) else fl.before)
  }

  /** Ids handed to waiting enqueues are held by no row. */
  ghost predicate WaitingInv(m: Machine)
    requires m.phase.Up?
  {
    && (forall id :: id in m.phase.waiting ==>
         1 <= id <= m.phase.mem.counter && id !in m.ledger && m.phase.waiting[id].availableAt >= 0.0)
    && (m.phase.inflight.Some? && m.phase.inflight.value.op.EnqueueOp? ==>
        m.phase.inflight.value.op.row.id !in m.phase.waiting)
  }

  ghost predicate UpInv(m: Machine)
    requires m.phase.Up?
  {
    Consistent(Resting(m), Before(m), m.ledger, m.clock) && InflightInv(m) && WaitingInv(m)
  }

  /** Half-done recovery: every row is as loaded, or cleared of its lease. */
  ghost predicate HydratingInv(m: Machine)
    requires m.phase.Hydrating?
  {
    var loaded := m.phase.loaded;
    && Loadable(loaded) && Loadable(m.store) && m.phase.now <= m.clock
    && LedgerOf(loaded) == m.ledger == LedgerOf(m.store)
    && loaded.Keys == m.store.Keys
    && (forall id :: id in m.phase.todo ==> id in loaded && loaded[id].lease.Some?)
    && (forall id :: id in loaded ==>
        m.store[id] == loaded[id] || (loaded[id].lease.Some? && m.store[id] == Cleared(loaded[id])))
    && (forall id :: id in loaded && loaded[id].lease.Some? && id !in m.phase.todo ==>
        m.store[id] == Cleared(loaded[id]))
  }

  ghost predicate Inv(m: Machine) {
    && m.clock >= 0.0
    && match m.phase
       case Up(_, _, _, _, _) => UpInv(m)
       case Down => Loadable(m.store) && m.ledger == LedgerOf(m.store)
       case Hydrating(_, _, _) => HydratingInv(m)
  }

  // ------------------------------------------------------------ single steps

  lemma LaterIsConsistent(mem: Memory, store: Store, ledger: Ledger, clock: real, later: real)
    requires Consistent(mem, store, ledger, clock) && clock <= later
    ensures Consistent(mem, store, ledger, later)
  {
  }

  /** Ready rows in another order, more ids handed out, more generations used. */
  lemma ReorderedIsConsistent(mem: Memory, mem': Memory, store: Store, ledger: Ledger, clock: real)
    requires Consistent(mem, store, ledger, clock)
    requires multiset(mem'.ready) == multiset(mem.ready)
    requires mem'.delayed == mem.delayed && mem'.leased == mem.leased
    requires mem.counter <= mem'.counter <= ID_MAX && mem.generations <= mem'.generations
    ensures Consistent(mem', store, ledger, clock)
  {
    assert forall row :: row in mem'.ready <==> row in multiset(mem'.ready);
    assert forall row :: row in mem.ready <==> row in multiset(mem.ready);
    DistinctIdsPermute(mem.ready, mem'.ready);
  }

  lemma DistinctIdsPermute(a: seq<QueueRow>, b: seq<QueueRow>)
    requires multiset(a) == multiset(b)
    requires forall i, j :: 0 <= i < j < |a| ==> a[i].id != a[j].id
    ensures forall i, j :: 0 <= i < j < |b| ==> b[i].id != b[j].id
  {
    forall i, j | 0 <= i < j < |b|
      ensures b[i].id != b[j].id
    {
      assert b == b[..i] + [b[i]] + b[i + 1..j] + [b[j]] + b[j + 1..];
      assert b[i] in multiset(b) && b[j] in multiset(b);
      assert b[i] in a && b[j] in a;
      if b[i] == b[j] {
        assert multiset(b)[b[i]] >= 2;
        UniqueOccurrence(a, b[i]);
      }
    }
  }

  lemma {:induction false} UniqueOccurrence(a: seq<QueueRow>, row: QueueRow)
    requires forall i, j :: 0 <= i < j < |a| ==> a[i].id != a[j].id
    ensures multiset(a)[row] <= 1
  {
    if a != [] {
      var init := a[..|a| - 1];
      assert a == init + [a[|a| - 1]];
      UniqueOccurrence(init, row);
      if a[|a| - 1] == row {
        assert row !in init;
        assert multiset(init)[row] == 0;
      }
    }
  }

  lemma HeadToTail(ready: seq<QueueRow>)
    requires ready != []
    ensures multiset(ready[1..] + [ready[0]]) == multiset(ready)
  {
    assert ready == [ready[0]] + ready[1..];
  }

  lemma CounterCoversLedger(mem: Memory, store: Store, ledger: Ledger, clock: real)
    requires Consistent(mem, store, ledger, clock)
    ensures forall id :: id in ledger ==> 1 <= id <= mem.counter && ledger[id].attempt >= 1
  {
    LedgerIsKeyed(mem, store, ledger, clock);
  }

  /** A step beside the chain that leaves the rows of the operation in flight alone. */
  lemma BesideInflight(op: Op, mem: Memory, mem': Memory, ledger: Ledger, before: Store)
    requires Enabled(op, mem) && Fresh(op, mem, ledger)
    requires mem'.leased == mem.leased && mem'.generations == mem.generations && mem'.counter >= mem.counter
    requires (op.CancelOp? || op.MoveOp?) ==> mem'.ready == mem.ready && mem'.delayed == mem.delayed
    ensures Enabled(op, mem') && Fresh(op, mem', ledger) && Written(op, mem', before) == Written(op, mem, before)
  {
    if op.CancelOp? || op.MoveOp? {
      assert IsPending(mem', OpId(op)) <==> IsPending(mem, OpId(op));
    }
  }

  /** One more id is spent. */
  lemma SpentIsConsistent(mem: Memory, mem': Memory, store: Store, ledger: Ledger, clock: real)
    requires Consistent(mem, store, ledger, clock) && mem.counter < ID_MAX && mem' == mem.(counter := mem.counter + 1)
    ensures Consistent(mem', store, ledger, clock) && mem.counter + 1 !in ledger
  {
    CounterCoversLedger(mem, store, ledger, clock);
  }

  lemma EnqueueCallKeepsInflight(m: Machine, item: Item, delayMs: real)
    requires m.phase.Up? && InflightInv(m)
    ensures InflightInv(ExecEnqueueCall(m, item, delayMs))
  {
    var m' := ExecEnqueueCall(m, item, delayMs);
    if m.phase.inflight.Some? {
      BesideInflight(m.phase.inflight.value.op, m.phase.mem, m'.phase.mem, m.ledger, m.phase.inflight.value.before);
    }
  }

  lemma EnqueueCallKeepsWaiting(m: Machine, item: Item, delayMs: real)
    requires m.phase.Up? && WaitingInv(m) && m.phase.mem.counter + 1 !in m.ledger && m.clock >= 0.0
    requires InflightInv(m)
    ensures WaitingInv(ExecEnqueueCall(m, item, delayMs))
  {
  }

  lemma EnqueueCallKeepsRows(m: Machine, item: Item, delayMs: real)
    requires m.phase.Up? && ExecEnqueueCall(m, item, delayMs) != m
    ensures var m' := ExecEnqueueCall(m, item, delayMs);
      && m'.phase.Up? && Resting(m').counter == m.phase.mem.counter + 1 == Resting(m).counter + 1
      && Resting(m') == Resting(m).(counter := Resting(m).counter + 1) && Before(m') == Before(m)
      && m'.ledger == m.ledger && m'.clock == m.clock && m.phase.mem.counter < ID_MAX
  {
  }

  lemma EnqueueCallKeeps(m: Machine, item: Item, delayMs: real)
    requires Inv(m)
    ensures Inv(ExecEnqueueCall(m, item, delayMs))
  {
    if ExecEnqueueCall(m, item, delayMs) != m {
      EnqueueCallKeepsRows(m, item, delayMs);
      SpentIsConsistent(Resting(m), Resting(ExecEnqueueCall(m, item, delayMs)), Before(m), m.ledger, m.clock);
      EnqueueCallKeepsInflight(m, item, delayMs);
      EnqueueCallKeepsWaiting(m, item, delayMs);
    }
  }

  lemma RescheduleCallKeeps(m: Machine, row: QueueRow, generation: nat, delayMs: real)
    requires Inv(m)
    ensures Inv(ExecRescheduleCall(m, row, generation, delayMs))
  {
  }

  lemma BeginEnqueueKeeps(m: Machine, id: nat)
    requires Inv(m)
    ensures Inv(ExecBeginEnqueue(m, id))
  {
  }

  lemma BeginClaimKeeps(m: Machine)
    requires Inv(m)
    ensures Inv(ExecBeginClaim(m))
  {
    var m' := ExecBeginClaim(m);
    if m' != m {
      HeadToTail(m.phase.mem.ready);
      ReorderedIsConsistent(m.phase.mem, Resting(m'), m.store, m.ledger, m.clock);
    }
  }

  lemma BeginDequeueKeeps(m: Machine)
    requires Inv(m)
    ensures Inv(ExecBeginDequeue(m))
  {
    var m' := ExecBeginDequeue(m);
    if m' != m {
      HeadToTail(m.phase.mem.ready);
      ReorderedIsConsistent(m.phase.mem, Resting(m'), m.store, m.ledger, m.clock);
    }
  }

  /** An operation that pops nothing and brings in no id may start whenever it is enabled. */
  lemma BeginPlainKeeps(m: Machine, op: Op)
    requires Inv(m) && Idle(m) && Enabled(op, m.phase.mem)
    requires !op.EnqueueOp? && !op.ClaimOp? && !op.DequeueOp?
    ensures Inv(Begin(m, m.phase.mem, op)) <==> (op.RescheduleOp? ==> op.row.attempt >= 1)
  {
    var m' := Begin(m, m.phase.mem, op);
    assert Resting(m') == Resting(m) && Before(m') == Before(m);
    assert WaitingInv(m') && (InflightInv(m') <==> Fresh(op, m.phase.mem, m.ledger));
  }

  /** A reschedule whose turn has come may begin exactly when its attempt is at least 1. */
  lemma BeginRescheduleKeepsIff(m: Machine, call: Rescheduling)
    requires Inv(m)
    ensures Inv(ExecBeginReschedule(m, call)) <==> Careful(m, BeginReschedule(call))
  {
    if ExecBeginReschedule(m, call) != m {
      var m' := m.(phase := m.phase.(asked := m.phase.asked - multiset{call}));
      assert Inv(m') && Idle(m');
      if LeaseIsLive(m, call.row.id, call.generation) {
        BeginPlainKeeps(m', RescheduleOp(call.row, call.availableAt));
      }
    }
  }

  lemma BeginKeeps(m: Machine, a: Action)
    requires Inv(m) && !a.BeginReschedule?
    ensures Inv(ExecBegin(m, a))
  {
    var m' := ExecBegin(m, a);
    if m' != m {
      assert Idle(m) && m'.phase.inflight.Some?;
      var op := m'.phase.inflight.value.op;
      assert m' == Begin(m, m.phase.mem, op);
      assert Enabled(op, m.phase.mem);
      BeginPlainKeeps(m, op);
    }
  }

  lemma StoreWriteKeeps(m: Machine)
    requires Inv(m)
    ensures Inv(ExecStoreWrite(m))
  {
  }

  lemma StoreFailKeeps(m: Machine)
    requires Inv(m)
    ensures Inv(ExecStoreFail(m))
  {
  }

  lemma LedgerAfterAdds(op: Op, ledger: Ledger)
    requires !IsReset(op)
    ensures forall id :: id in LedgerAfter(op, ledger) ==>
      id in ledger || (id == OpId(op) && (op.EnqueueOp? || op.RescheduleOp?))
  {
  }

  lemma AppliedKeepsCounter(op: Op, mem: Memory)
    requires Enabled(op, mem) && !IsReset(op)
    ensures Applied(op, mem).counter == mem.counter
  {
  }

  /** A rescheduled row was there before. */
  lemma RescheduledIsHeld(m: Machine)
    requires Inv(m) && m.phase.Up? && m.phase.inflight.Some?
    ensures var op := m.phase.inflight.value.op; op.RescheduleOp? ==> op.row.id in m.ledger
  {
    var fl := m.phase.inflight.value;
    if fl.op.RescheduleOp? {
      LeasedRowIsHeld(m.phase.mem, fl.before, m.ledger, m.clock, OpId(fl.op));
    }
  }

  lemma ApplyKeepsWaiting(m: Machine)
    requires Stands(m, true) && WaitingInv(m) && !IsReset(m.phase.inflight.value.op)
    requires var op := m.phase.inflight.value.op; op.RescheduleOp? ==> op.row.id in m.ledger
    ensures WaitingInv(ExecApply(m))
  {
    var op := m.phase.inflight.value.op;
    AppliedKeepsCounter(op, m.phase.mem);
    LedgerAfterAdds(op, m.ledger);
  }

  /** A reset takes back the ids that waiting enqueues were given: no waiting id is both
      spent and unused afterwards. */
  lemma ResetStrandsWaiting(m: Machine)
    requires Stands(m, true) && WaitingInv(m) && IsReset(m.phase.inflight.value.op)
    ensures WaitingInv(ExecApply(m)) <==> m.phase.waiting == map[]
  {
    var op := m.phase.inflight.value.op;
    if m.phase.waiting != map[] {
      var id :| id in m.phase.waiting;
      assert op.ReplaceOp? && id <= |op.items| ==> id in PlannedLedger(op.items);
      assert !(id in ExecApply(m).phase.waiting && id <= ExecApply(m).phase.mem.counter && id !in ExecApply(m).ledger);
    }
  }

  lemma ApplyKeepsConsistent(m: Machine)
    requires Inv(m) && Stands(m, true)
    ensures var m' := ExecApply(m); Consistent(m'.phase.mem, m'.store, m'.ledger, m'.clock)
  {
    var fl := m.phase.inflight.value;
    AppliedIsConsistent(fl.op, m.phase.mem, fl.before, m.ledger, m.clock);
  }

  lemma ApplyKeepsIff(m: Machine)
    requires Inv(m)
    ensures Inv(ExecApply(m)) <==> Careful(m, ApplyMemory)
  {
    if Stands(m, true) {
      ApplyKeepsConsistent(m);
      if IsReset(m.phase.inflight.value.op) {
        ResetStrandsWaiting(m);
      } else {
        RescheduledIsHeld(m);
        ApplyKeepsWaiting(m);
      }
    }
  }

  // -------------------------------------------------------------- promotion

  /** The promoted rows, told apart by their ids. */
  lemma PromotedRowsAre(mem: Memory, order: seq<nat>, clock: real)
    requires DueOrder(mem.delayed, clock, order)
    requires forall id :: id in mem.delayed ==> mem.delayed[id].row.id == id
    ensures var rows := RowsOf(mem.delayed, order);
      && (forall row :: row in rows ==> row.id in order && row == mem.delayed[row.id].row)
      && (forall id :: id in order ==> mem.delayed[id].row in rows)
      && (forall i, j :: 0 <= i < j < |rows| ==> rows[i].id != rows[j].id)
  {
    var rows := RowsOf(mem.delayed, order);
    forall id | id in order
      ensures mem.delayed[id].row in rows
    {
      var i :| 0 <= i < |order| && order[i] == id;
      assert rows[i] == mem.delayed[id].row;
    }
    assert forall i :: 0 <= i < |rows| ==> rows[i].id == order[i];
  }

  lemma PromotedShape(mem: Memory, order: seq<nat>, clock: real)
    requires Partitioned(mem) && Numbered(mem) && Fenced(mem) && DueOrder(mem.delayed, clock, order)
    ensures var mem' := Promoted(mem, order); Partitioned(mem') && Numbered(mem') && Fenced(mem')
  {
    PromotedRowsAre(mem, order, clock);
  }

  lemma PromotedHolds(mem: Memory, ledger: Ledger, order: seq<nat>, clock: real)
    requires Partitioned(mem) && Holds(mem, ledger) && DueOrder(mem.delayed, clock, order)
    ensures Holds(Promoted(mem, order), ledger)
  {
    PromotedRowsAre(mem, order, clock);
    var mem' := Promoted(mem, order);
    forall id | id in ledger
      ensures ledger[id] in mem'.ready || id in mem'.delayed || id in mem'.leased
    {
      if id in order {
        assert mem.delayed[id].row in RowsOf(mem.delayed, order);
      }
    }
  }

  lemma PromotedPlaced(mem: Memory, store: Store, order: seq<nat>, clock: real)
    requires Partitioned(mem) && Placed(mem, store, clock) && DueOrder(mem.delayed, clock, order)
    ensures Placed(Promoted(mem, order), store, clock)
  {
    PromotedRowsAre(mem, order, clock);
  }

  /** Promotion moves due rows and nothing else; the store needs no write. */
  lemma PromotedIsConsistent(mem: Memory, store: Store, ledger: Ledger, clock: real, order: seq<nat>)
    requires Consistent(mem, store, ledger, clock) && DueOrder(mem.delayed, clock, order)
    ensures Consistent(Promoted(mem, order), store, ledger, clock)
  {
    PromotedShape(mem, order, clock);
    PromotedHolds(mem, ledger, order, clock);
    PromotedPlaced(mem, store, order, clock);
  }

  lemma TailSwap(a: seq<QueueRow>, b: seq<QueueRow>, c: seq<QueueRow>)
    ensures multiset(a + b + c) == multiset(a + c + b)
  {
  }

  lemma PromoteKeeps(m: Machine, order: seq<nat>)
    requires Inv(m)
    ensures Inv(ExecPromote(m, order))
  {
    var m' := ExecPromote(m, order);
    if m' != m {
      var rest := Resting(m);
      var rows := RowsOf(m.phase.mem.delayed, order);
      PromotedIsConsistent(rest, Before(m), m.ledger, m.clock, order);
      if m.phase.inflight.Some? {
        var op := m.phase.inflight.value.op;
        BesideInflight(op, m.phase.mem, m'.phase.mem, m.ledger, Before(m));
        if op.ClaimOp? || op.DequeueOp? {
          TailSwap(m.phase.mem.ready, rows, [op.row]);
        }
      }
      ReorderedIsConsistent(Promoted(rest, order), Resting(m'), Before(m), m.ledger, m.clock);
    }
  }

  // ------------------------------------------------------ crash and hydrate

  lemma ConsistentIsLoadable(mem: Memory, store: Store, ledger: Ledger, clock: real)
    requires Consistent(mem, store, ledger, clock)
    ensures Loadable(store)
  {
    CounterCoversLedger(mem, store, ledger, clock);
    forall id | id in store
      ensures store[id].id == id && 1 <= id <= ID_MAX && FromRecord(store[id]).attempt >= 1
    {
      assert id in ledger && ledger[id] == FromRecord(store[id]);
    }
  }

  /** At every moment the store is the one of the contents before or after the operation in flight. */
  lemma StoreIsBeforeOrAfter(m: Machine) returns (mem: Memory, ledger: Ledger)
    requires Inv(m) && m.phase.Up?
    ensures Consistent(mem, m.store, ledger, m.clock)
    ensures ledger == m.ledger
         || (m.phase.inflight.Some? && m.phase.inflight.value.written
             && ledger == LedgerAfter(m.phase.inflight.value.op, m.ledger))
    ensures if m.phase.inflight.Some? && m.phase.inflight.value.written
            then mem == Applied(m.phase.inflight.value.op, m.phase.mem)
              && ledger == LedgerAfter(m.phase.inflight.value.op, m.ledger)
            else mem == Resting(m) && ledger == m.ledger
  {
    if m.phase.inflight.Some? && m.phase.inflight.value.written {
      var fl := m.phase.inflight.value;
      AppliedIsConsistent(fl.op, m.phase.mem, fl.before, m.ledger, m.clock);
      return Applied(fl.op, m.phase.mem), LedgerAfter(fl.op, m.ledger);
    }
    return Resting(m), m.ledger;
  }

  lemma CrashKeeps(m: Machine)
    requires Inv(m)
    ensures Inv(ExecCrash(m))
  {
    if m.phase.Up? {
      var mem, ledger := StoreIsBeforeOrAfter(m);
      ConsistentIsLoadable(mem, m.store, ledger, m.clock);
    }
  }

  lemma {:induction false} LeasedOnlyIs(loaded: Store, order: seq<nat>)
    ensures forall id :: id in LeasedOnly(loaded, order) <==> id in order && id in loaded && loaded[id].lease.Some?
  {
    if order != [] {
      LeasedOnlyIs(loaded, order[1..]);
      assert forall id :: id in order <==> id == order[0] || id in order[1..];
    }
  }

  lemma HydrateStartKeeps(m: Machine, order: seq<nat>)
    requires Inv(m)
    ensures Inv(ExecHydrateStart(m, order))
  {
    var m' := ExecHydrateStart(m, order);
    if m' != m {
      LeasedOnlyIs(m.store, order);
      forall id | id in m.store
        ensures id in order
      {
        assert id in (set i | i in order);
      }
    }
  }

  lemma ClearedKeepsRow(rec: Record)
    requires FromRecord(rec).attempt >= 1
    ensures FromRecord(Cleared(rec)) == FromRecord(rec)
    ensures Cleared(Cleared(rec)) == Cleared(rec)
  {
    RecordRoundTrip(FromRecord(rec), 0.0, None, None);
  }

  lemma ClearedLedger(store: Store, id: nat)
    requires Loadable(store) && id in store
    ensures LedgerOf(store[id := Cleared(store[id])]) == LedgerOf(store)
    ensures Loadable(store[id := Cleared(store[id])])
  {
    ClearedKeepsRow(store[id]);
  }

  lemma HydratePutKeeps(m: Machine)
    requires Inv(m)
    ensures Inv(ExecHydratePut(m))
  {
    var m' := ExecHydratePut(m);
    if m' != m {
      var id := m.phase.todo[0];
      ClearedLedger(m.store, id);
      ClearedKeepsRow(m.phase.loaded[id]);
      assert m.phase.todo == [id] + m.phase.todo[1..];
      assert m'.store[id] == Cleared(m.phase.loaded[id]);
    }
  }

  // ----------------------------------------------------- what hydrate rebuilds

  /** The ready rows of a hydrated queue: exactly the once-leased and the due rows, by ascending id. */
  lemma HydratedReady(loaded: Store, now: real)
    requires Loadable(loaded)
    ensures var mem := HydratedMemory(loaded, now);
      && (forall i, j :: 0 <= i < j < |mem.ready| ==> mem.ready[i].id < mem.ready[j].id)
      && (forall row :: row in mem.ready ==> row.id in ReadyIds(loaded, now) && row == FromRecord(loaded[row.id]))
      && (forall id :: id in ReadyIds(loaded, now) ==> FromRecord(loaded[id]) in mem.ready)
  {
    var mem := HydratedMemory(loaded, now);
    var bound := MaxId(loaded.Keys);
    var order := Ascending(ReadyIds(loaded, now), bound);
    AscendingIs(ReadyIds(loaded, now), bound);
    forall i | 0 <= i < |order|
      ensures order[i] in ReadyIds(loaded, now) && mem.ready[i] == FromRecord(loaded[order[i]])
        && mem.ready[i].id == order[i]
    {
      assert order[i] in order;
    }
    forall id | id in ReadyIds(loaded, now)
      ensures FromRecord(loaded[id]) in mem.ready
    {
      assert id in loaded.Keys;
      assert id in order;
      var i :| 0 <= i < |order| && order[i] == id;
      assert mem.ready[i] == FromRecord(loaded[id]);
    }
  }

  lemma HydratedShape(loaded: Store, now: real)
    requires Loadable(loaded)
    ensures var mem := HydratedMemory(loaded, now); Partitioned(mem) && Numbered(mem) && Fenced(mem)
  {
    HydratedReady(loaded, now);
    var mem := HydratedMemory(loaded, now);
    assert forall id :: id in loaded ==> id in loaded.Keys;
    assert mem.counter in loaded.Keys || mem.counter == 0;
  }

  lemma HydratedHolds(loaded: Store, now: real)
    requires Loadable(loaded)
    ensures Holds(HydratedMemory(loaded, now), LedgerOf(loaded))
  {
    HydratedReady(loaded, now);
  }

  lemma HydrateDoneKeeps(m: Machine)
    requires Inv(m)
    ensures Inv(ExecHydrateDone(m))
  {
    if ExecHydrateDone(m) != m {
      var loaded, now := m.phase.loaded, m.phase.now;
      HydratedShape(loaded, now);
      HydratedHolds(loaded, now);
      HydratedPlaced(m);
    }
  }

  lemma HydratedPlaced(m: Machine)
    requires Inv(m) && m.phase.Hydrating? && m.phase.todo == []
    ensures Placed(HydratedMemory(m.phase.loaded, m.phase.now), m.store, m.clock)
  {
    var loaded, now := m.phase.loaded, m.phase.now;
    HydratedReady(loaded, now);
    forall id | id in ReadyIds(loaded, now)
      ensures id in m.store && m.store[id].lease.None? && m.store[id].availableAt <= m.clock
    {
      assert m.store[id] == if loaded[id].lease.Some? then Cleared(loaded[id]) else loaded[id];
    }
  }

  // ---------------------------------------------------------------- all runs

  lemma TickKeeps(m: Machine, elapsed: real)
    requires Inv(m)
    ensures Inv(ExecTick(m, elapsed))
  {
    if elapsed >= 0.0 && m.phase.Up? {
      LaterIsConsistent(Resting(m), Before(m), m.ledger, m.clock, m.clock + elapsed);
    }
  }

  lemma ChainStepKeeps(m: Machine, a: Action)
    requires Inv(m) && (a.StoreWrite? || a.StoreFail? || a.ApplyMemory?)
    ensures Inv(Exec(m, a)) <==> Careful(m, a)
  {
    match a
    case StoreWrite => StoreWriteKeeps(m);
    case StoreFail => StoreFailKeeps(m);
    case ApplyMemory => ApplyKeepsIff(m);
  }

  lemma RestartStepKeeps(m: Machine, a: Action)
    requires Inv(m) && (a.Crash? || a.HydrateStart? || a.HydratePut? || a.HydrateDone?)
    ensures Inv(Exec(m, a))
  {
    match a
    case Crash => CrashKeeps(m);
    case HydrateStart(order) => HydrateStartKeeps(m, order);
    case HydratePut => HydratePutKeeps(m);
    case HydrateDone => HydrateDoneKeeps(m);
  }

  lemma BesideStepKeeps(m: Machine, a: Action)
    requires Inv(m) && (a.Tick? || a.EnqueueCall? || a.RescheduleCall? || a.Promote?)
    ensures Inv(Exec(m, a))
  {
    match a
    case Tick(elapsed) => TickKeeps(m, elapsed);
    case EnqueueCall(item, delayMs) => EnqueueCallKeeps(m, item, delayMs);
    case RescheduleCall(id, generation, item, delayMs, attempt, handoff) =>
      RescheduleCallKeeps(m, Row(id, item, attempt, ActiveHandoff(handoff)), generation, delayMs);
    case Promote(order) => PromoteKeeps(m, order);
  }

  lemma BeginStepKeeps(m: Machine, a: Action)
    requires Inv(m)
    requires !a.StoreWrite? && !a.StoreFail? && !a.ApplyMemory? && !a.Crash? && !a.HydrateStart? && !a.HydratePut?
    requires !a.HydrateDone? && !a.Tick? && !a.EnqueueCall? && !a.RescheduleCall? && !a.Promote?
    ensures Inv(Exec(m, a)) <==> Careful(m, a)
  {
    match a
    case BeginEnqueue(id) => BeginEnqueueKeeps(m, id);
    case BeginReschedule(call) => BeginRescheduleKeepsIff(m, call);
    case BeginClaim => BeginClaimKeeps(m);
    case BeginDequeue => BeginDequeueKeeps(m);
    case _ => BeginKeeps(m, a);
  }

  /** The invariant survives a step exactly when the step is careful: a reset takes effect only
      while no enqueue waits with its id, and a reschedule that begins has an attempt of at least 1. */
  lemma StepKeepsIff(m: Machine, a: Action)
    requires Inv(m)
    ensures Inv(Exec(m, a)) <==> Careful(m, a)
  {
    if a.StoreWrite? || a.StoreFail? || a.ApplyMemory? {
      ChainStepKeeps(m, a);
    } else if a.Crash? || a.HydrateStart? || a.HydratePut? || a.HydrateDone? {
      RestartStepKeeps(m, a);
    } else if a.Tick? || a.EnqueueCall? || a.RescheduleCall? || a.Promote? {
      BesideStepKeeps(m, a);
    } else {
      BeginStepKeeps(m, a);
    }
  }

  ghost predicate Start(m: Machine) {
    exists cfg, store, clock :: clock >= 0.0 && Loadable(store)
      && (m == Restarted(cfg, store, clock) || (m == Started(cfg, clock) && store == map[]))
  }

  /** Memory, store and logical contents agree throughout every careful run, across crashes,
      restarts and resets. */
  lemma {:induction false} EveryRunKeeps(start: Machine, actions: seq<Action>)
    requires Start(start) && CarefulRun(start, actions)
    ensures Inv(Run(start, actions))
  {
    if actions == [] {
      assert LedgerOf(map[]) == map[];
    } else {
      var init := actions[..|actions| - 1];
      EveryRunKeeps(start, init);
      StepKeepsIff(Run(start, init), actions[|actions| - 1]);
    }
  }
}
