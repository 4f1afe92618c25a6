/** What a fresh queue finds after a crash at any point of any run. */
module CrashRecovery {
  import opened Options
  import opened Records
  import opened PendingRows
  import opened QueueModel
  import opened QueueSteps
  import opened DurableMachine
  import opened Durability

  /** The logical contents a crash now would leave: those acknowledged, or those
      after the one operation whose store write is done but not acknowledged. */
  function Survives(m: Machine): Ledger {
    if m.phase.Up? && m.phase.inflight.Some? && m.phase.inflight.value.written
    then LedgerAfter(m.phase.inflight.value.op, m.ledger)
    else m.ledger
  }

  /** The rows of `mem` and no others, at rest: leased rows are ready again, delayed rows
      that fell due are ready, ready rows ascend by id. */
  ghost predicate Recovers(mem: Memory, contents: Ledger, now: real, h: Memory) {
    && Holds(h, contents) && h.leased == map[]
    && Partitioned(h)
    && (forall i, j :: 0 <= i < j < |h.ready| ==> h.ready[i].id < h.ready[j].id)
    && (forall row :: row in mem.ready ==> row in h.ready)
    && (forall id :: id in mem.leased ==> mem.leased[id].row in h.ready)
    && (forall id :: id in mem.delayed ==>
         if mem.delayed[id].availableAt > now then id in h.delayed && h.delayed[id] == mem.delayed[id]
         else mem.delayed[id].row in h.ready)
  }

  lemma ConsistentRecovers(mem: Memory, store: Store, ledger: Ledger, clock: real, now: real)
    requires Consistent(mem, store, ledger, clock) && now >= clock
    ensures Recovers(mem, ledger, now, HydratedMemory(store, now))
  {
    ConsistentIsLoadable(mem, store, ledger, clock);
    HydratedReady(store, now);
    HydratedShape(store, now);
    HydratedHolds(store, now);
    var h := HydratedMemory(store, now);
    forall row | row in mem.ready
      ensures row in h.ready
    {
      assert row.id in ReadyIds(store, now) && FromRecord(store[row.id]) == ledger[row.id];
    }
    forall id | id in mem.leased
      ensures mem.leased[id].row in h.ready
    {
      assert id in ReadyIds(store, now) && FromRecord(store[id]) == ledger[id];
    }
    forall id | id in mem.delayed
      ensures if mem.delayed[id].availableAt > now then id in h.delayed && h.delayed[id] == mem.delayed[id]
              else mem.delayed[id].row in h.ready
    {
      assert FromRecord(store[id]) == ledger[id];
      assert id in ReadyIds(store, now) <==> mem.delayed[id].availableAt <= now;
    }
  }

  /** The memory the surviving contents sit in. */
  function SurvivingMemory(m: Machine): Memory
    requires m.phase.Up?
      && (m.phase.inflight.Some? && m.phase.inflight.value.written ==> Enabled(m.phase.inflight.value.op, m.phase.mem))
  {
    if m.phase.inflight.Some? && m.phase.inflight.value.written then Applied(m.phase.inflight.value.op, m.phase.mem)
    else Resting(m)
  }

  /** After any careful run, with store calls that fail, timers firing, resets, and crashes and
      restarts on the way: a crash now followed by a hydrate at any later time yields exactly the rows
      accepted and not yet removed (the operation in flight before or after), unchanged in
      item, id, attempt and handoff count. */
  lemma CrashRecoveryIsExact(start: Machine, actions: seq<Action>, now: real)
    requires Start(start) && CarefulRun(start, actions)
    ensures var m := Run(start, actions);
      m.phase.Up? && now >= m.clock ==>
        && (m.phase.inflight.Some? && m.phase.inflight.value.written ==>
            Enabled(m.phase.inflight.value.op, m.phase.mem))
        && Recovers(SurvivingMemory(m), Survives(m), now, HydratedMemory(m.store, now))
  {
    var m := Run(start, actions);
    EveryRunKeeps(start, actions);
    if m.phase.Up? && now >= m.clock {
      var mem, ledger := StoreIsBeforeOrAfter(m);
      ConsistentRecovers(mem, m.store, ledger, m.clock, now);
    }
  }

  /** The rows a crash leaves never differ from the acknowledged ones by more than the row of
      the single operation in flight; under a `clear` or `replaceAll` in flight they are either
      the acknowledged ones or the new ones, all of them. */
  lemma OnlyInflightRowDiffers(m: Machine)
    requires m.phase.Up?
    ensures Survives(m) == m.ledger
         || (m.phase.inflight.Some? && IsReset(m.phase.inflight.value.op)
             && Survives(m) == LedgerAfter(m.phase.inflight.value.op, map[]))
         || (m.phase.inflight.Some? && !IsReset(m.phase.inflight.value.op)
             && Survives(m) - {OpId(m.phase.inflight.value.op)} == m.ledger - {OpId(m.phase.inflight.value.op)})
  {
  }

  // ------------------------------------------------------- crash in hydrate

  lemma SameHydration(a: Store, b: Store, now: real)
    requires Loadable(a) && a.Keys == b.Keys && now >= 0.0
    requires forall id :: id in a ==> b[id] == a[id] || (a[id].lease.Some? && b[id] == Cleared(a[id]))
    ensures HydratedMemory(b, now) == HydratedMemory(a, now)
  {
    forall id | id in a
      ensures FromRecord(b[id]) == FromRecord(a[id])
      ensures id in ReadyIds(b, now) <==> id in ReadyIds(a, now)
    {
      ClearedKeepsRow(a[id]);
    }
    assert ReadyIds(b, now) == ReadyIds(a, now);
    AscendingIs(ReadyIds(a, now), MaxId(a.Keys));
    var order := Ascending(ReadyIds(a, now), MaxId(a.Keys));
    forall i | 0 <= i < |order|
      ensures LoadedRows(b, order)[i] == LoadedRows(a, order)[i]
    {
      assert order[i] in order;
    }
    assert LoadedRows(b, order) == LoadedRows(a, order);
  }

  /** A crash at any point inside `hydrate` leaves the next one with the same result. */
  lemma CrashInHydrateIsHarmless(start: Machine, actions: seq<Action>, now: real)
    requires Start(start) && CarefulRun(start, actions) && now >= 0.0
    ensures var m := Run(start, actions);
      m.phase.Hydrating? ==>
        && HydratedMemory(m.store, now) == HydratedMemory(m.phase.loaded, now)
        && Exec(m, Crash).ledger == m.ledger == LedgerOf(m.phase.loaded)
  {
    var m := Run(start, actions);
    EveryRunKeeps(start, actions);
    if m.phase.Hydrating? {
      SameHydration(m.phase.loaded, m.store, now);
    }
  }

  // ----------------------------------------------------------- a whole hydrate

  ghost function PutAll(m: Machine, n: nat): Machine
    decreases n
  {
    if n == 0 then m else PutAll(ExecHydratePut(m), n - 1)
  }

  lemma PutAdvances(m: Machine)
    requires Inv(m) && m.phase.Hydrating? && m.phase.todo != []
    ensures var m' := ExecHydratePut(m);
      m'.phase == m.phase.(todo := m.phase.todo[1..]) && m'.ledger == m.ledger && m'.clock == m.clock && m'.cfg == m.cfg
  {
    assert m.phase.todo[0] in m.phase.todo;
  }

  lemma {:induction false} PutAllFinishes(m: Machine)
    requires Inv(m) && m.phase.Hydrating?
    ensures var m' := PutAll(m, |m.phase.todo|);
      Inv(m') && m'.phase == m.phase.(todo := []) && m'.ledger == m.ledger && m'.clock == m.clock && m'.cfg == m.cfg
    decreases |m.phase.todo|
  {
    if m.phase.todo != [] {
      HydratePutKeeps(m);
      PutAdvances(m);
      PutAllFinishes(ExecHydratePut(m));
    }
  }

  /** Whatever order the leased rows are written back in, a hydrate that nothing disturbs
      ends with the memory determined by the stored rows and the clock alone. */
  lemma HydrateCompletes(m: Machine, order: seq<nat>)
    requires Inv(m) && m.phase.Down? && ExecHydrateStart(m, order) != m
    ensures var loading := ExecHydrateStart(m, order);
      var m' := ExecHydrateDone(PutAll(loading, |loading.phase.todo|));
      m'.phase.Up? && m'.phase.mem == HydratedMemory(m.store, m.clock) && m'.ledger == m.ledger && Inv(m')
  {
    HydrateStartKeeps(m, order);
    var loading := ExecHydrateStart(m, order);
    PutAllFinishes(loading);
    HydrateDoneKeeps(PutAll(loading, |loading.phase.todo|));
  }
}
