/** What goes wrong when a reset meets an enqueue that waits with its id. */
module ResetHazards {
  import opened Options
  import opened Records
  import opened PendingRows
  import opened QueueModel
  import opened DurableMachine
  import opened Durability
  import opened Conservation
  import opened QueueRuns

  /** The machine between operations, no unique jobs and no limit. */
  function Plain(clock: real, mem: Memory, store: Store, ledger: Ledger, waiting: map<nat, Waiting>,
                 accepted: int): Machine {
    Machine(Config(None, None, false), store, clock, Up(mem, map[], waiting, multiset{}, None), ledger, accepted, 0)
  }

  /** The same machine with an operation in flight. */
  function With(m: Machine, inflight: Inflight): Machine
    requires m.phase.Up?
  {
    m.(phase := m.phase.(inflight := Some(inflight)))
  }

  lemma ClearStrands(clock: real, item: Item)
    ensures var waiting := map[1 := Waiting(item, 0.0)];
      Run(Plain(clock, Memory([], map[], map[], 1, 0), map[], map[], waiting, 0), Taken(BeginClear))
      == Plain(clock, Memory([], map[], map[], 0, 0), map[], map[], waiting, 0)
  {
    var m := Plain(clock, Memory([], map[], map[], 1, 0), map[], map[], map[1 := Waiting(item, 0.0)], 0);
    RunTaken(m, BeginClear);
    assert Exec(m, BeginClear) == With(m, Inflight(ClearOp, false, map[]));
    ClearIsApplied(m);
  }

  lemma ClearIsApplied(m: Machine)
    requires Idle(m) && m.store == map[] && m.ledger == map[]
    ensures Exec(Exec(With(m, Inflight(ClearOp, false, map[])), StoreWrite), ApplyMemory)
         == m.(phase := m.phase.(mem := Memory([], map[], map[], 0, 0), index := map[]), accepted := 0, removed := 0)
  {
    assert Exec(With(m, Inflight(ClearOp, false, map[])), StoreWrite) == With(m, Inflight(ClearOp, true, map[]));
  }

  lemma TurnOfOne(clock: real, mem: Memory, store: Store, ledger: Ledger, item: Item, accepted: int)
    ensures Exec(Plain(clock, mem, store, ledger, map[1 := Waiting(item, 0.0)], accepted), BeginEnqueue(1))
         == With(Plain(clock, mem, store, ledger, map[], accepted),
                 Inflight(EnqueueOp(Row(1, item, 1, 0), 0.0), false, store))
  {
    assert map[1 := Waiting(item, 0.0)] - {1} == map[];
  }

  lemma OneIsWritten(clock: real, mem: Memory, store: Store, ledger: Ledger, row: QueueRow, accepted: int)
    requires row.id == 1 && row.attempt == 1
    ensures var m := Plain(clock, mem, store, ledger, map[], accepted);
      Exec(Exec(With(m, Inflight(EnqueueOp(row, 0.0), false, store)), StoreWrite), ApplyMemory)
      == Plain(clock, mem.(ready := mem.ready + [row]), store[1 := ToRecord(row, 0.0, None, None)], ledger[1 := row],
               map[], accepted + 1)
  {
    var m, op := Plain(clock, mem, store, ledger, map[], accepted), EnqueueOp(row, 0.0);
    assert Exec(With(m, Inflight(op, false, store)), StoreWrite)
        == With(m, Inflight(op, true, store)).(store := store[1 := ToRecord(row, 0.0, None, None)]);
  }

  /** The call whose turn comes puts its row under id 1, whoever holds that id. */
  lemma LandsUnderOne(clock: real, mem: Memory, store: Store, ledger: Ledger, item: Item, accepted: int)
    ensures var row := Row(1, item, 1, 0);
      Run(Plain(clock, mem, store, ledger, map[1 := Waiting(item, 0.0)], accepted), Taken(BeginEnqueue(1)))
      == Plain(clock, mem.(ready := mem.ready + [row]), store[1 := ToRecord(row, 0.0, None, None)], ledger[1 := row],
               map[], accepted + 1)
  {
    RunTaken(Plain(clock, mem, store, ledger, map[1 := Waiting(item, 0.0)], accepted), BeginEnqueue(1));
    TurnOfOne(clock, mem, store, ledger, item, accepted);
    OneIsWritten(clock, mem, store, ledger, Row(1, item, 1, 0), accepted);
  }

  /** `enqueue(a)` is called while a `clear` waits before it, `enqueue(b)` once the clear has run. */
  function ReusedSteps(a: Item, b: Item): seq<Action> {
    [EnqueueCall(a, 0.0)] + Taken(BeginClear) + Taken(BeginEnqueue(1)) + [EnqueueCall(b, 0.0)] + Taken(BeginEnqueue(1))
  }

  lemma ReusedRun(clock: real, a: Item, b: Item)
    ensures Run(Started(Config(None, None, false), clock), ReusedSteps(a, b))
         == Plain(clock, Memory([Row(1, a, 1, 0), Row(1, b, 1, 0)], map[], map[], 1, 0),
                  map[1 := ToRecord(Row(1, b, 1, 0), 0.0, None, None)], map[1 := Row(1, b, 1, 0)], map[], 2)
  {
    var start := Started(Config(None, None, false), clock);
    var mem, rowA := Memory([], map[], map[], 0, 0), Row(1, a, 1, 0);
    var store, ledger: Ledger := map[][1 := ToRecord(rowA, 0.0, None, None)], map[][1 := rowA];
    var called, clear, land := [EnqueueCall(a, 0.0)], Taken(BeginClear), Taken(BeginEnqueue(1));
    FirstCall(clock, a);
    RunConcat(start, called, clear);
    ClearStrands(clock, a);
    RunConcat(start, called + clear, land);
    LandsUnderOne(clock, mem, map[], map[], a, 0);
    RunThen(start, called + clear + land, EnqueueCall(b, 0.0));
    NextCall(clock, mem.(ready := mem.ready + [rowA]), store, ledger, b);
    RunConcat(start, called + clear + land + [EnqueueCall(b, 0.0)], land);
    LandsUnderOne(clock, mem.(ready := mem.ready + [rowA], counter := 1), store, ledger, b, 1);
    assert mem.ready + [rowA] + [Row(1, b, 1, 0)] == [rowA, Row(1, b, 1, 0)];
    assert store[1 := ToRecord(Row(1, b, 1, 0), 0.0, None, None)] ==
      map[1 := ToRecord(Row(1, b, 1, 0), 0.0, None, None)];
    assert ledger[1 := Row(1, b, 1, 0)] == map[1 := Row(1, b, 1, 0)];
  }

  /** Two live rows share id 1, and the store has kept only the second. */
  lemma ClearReusesId(clock: real, a: Item, b: Item)
    requires clock >= 0.0
    ensures var start := Started(Config(None, None, false), clock);
      var m := Run(start, ReusedSteps(a, b));
      && Idle(m) && m.phase.mem.ready == [Row(1, a, 1, 0), Row(1, b, 1, 0)] && m.store.Keys == {1}
      && m.accepted - m.removed == 2 && |m.ledger| == 1 && !CarefulRun(start, ReusedSteps(a, b))
  {
    var start := Started(Config(None, None, false), clock);
    StartedIsStart(Config(None, None, false), clock);
    ReusedRun(clock, a, b);
    TwinsBreakInv(Run(start, ReusedSteps(a, b)));
    BrokenIsCareless(start, ReusedSteps(a, b));
  }

  lemma BrokenIsCareless(start: Machine, actions: seq<Action>)
    requires Start(start) && !Inv(Run(start, actions))
    ensures !CarefulRun(start, actions)
  {
    if CarefulRun(start, actions) {
      EveryRunKeeps(start, actions);
    }
  }

  lemma FirstCall(clock: real, a: Item)
    ensures Run(Started(Config(None, None, false), clock), [EnqueueCall(a, 0.0)])
         == Plain(clock, Memory([], map[], map[], 1, 0), map[], map[], map[1 := Waiting(a, 0.0)], 0)
  {
    RunOne(Started(Config(None, None, false), clock), EnqueueCall(a, 0.0));
  }

  lemma NextCall(clock: real, mem: Memory, store: Store, ledger: Ledger, b: Item)
    requires mem.counter == 0
    ensures Exec(Plain(clock, mem, store, ledger, map[], 1), EnqueueCall(b, 0.0))
         == Plain(clock, mem.(counter := 1), store, ledger, map[1 := Waiting(b, 0.0)], 1)
  {
  }

  lemma TwinsBreakInv(m: Machine)
    requires Idle(m) && |m.phase.mem.ready| == 2 && m.phase.mem.ready[0].id == m.phase.mem.ready[1].id
    ensures !Inv(m)
  {
  }
}
