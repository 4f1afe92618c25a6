/** What each call leaves behind, as a run of the state machine's small steps. */
module QueueRuns {
  import opened Options
  import opened Sequences
  import opened Records
  import opened PendingRows
  import opened QueueModel
  import opened QueueSteps
  import opened DurableMachine
  import opened Durability
  import opened CrashRecovery
  import opened Hydrations
  import opened QueueParts
  import opened DelayedRows

  /** What can be seen of a queue between calls, or of the store between processes. */
  datatype Snapshot =
    | Live(cfg: Config, clock: real, rows: Store, mem: Memory, jobs: map<string, nat>)
    | Halted(cfg: Config, clock: real, rows: Store)

  /** The machine rests where the queue is. */
  ghost predicate At(m: Machine, s: Snapshot) {
    && m.cfg == s.cfg && m.clock == s.clock && m.store == s.rows
    && match s
       case Live(_, _, _, mem, jobs) =>
         && Idle(m) && m.phase.mem == mem && m.phase.index == jobs
         && m.phase.waiting == map[] && m.phase.asked == multiset{}
       case Halted(_, _, _) => m.phase.Down?
  }

  /** From any machine at the first snapshot these actions run to the second. */
  ghost predicate Leads(s: Snapshot, steps: seq<Action>, s': Snapshot) {
    forall m :: At(m, s) ==> At(Run(m, steps), s')
  }

  // -------------------------------------------------------------------- runs

  lemma {:induction false} RunConcat(m: Machine, a: seq<Action>, b: seq<Action>)
    ensures Run(m, a + b) == Run(Run(m, a), b)
  {
    if b == [] {
      assert a + b == a;
    } else {
      var init, last := b[..|b| - 1], b[|b| - 1];
      RunConcat(m, a, init);
      assert (a + b)[..|a + b| - 1] == a + init && (a + b)[|a + b| - 1] == last;
      assert Run(m, a + b) == Exec(Run(m, a + init), last);
      assert Run(Run(m, a), b) == Exec(Run(Run(m, a), init), last);
    }
  }

  lemma RunOne(m: Machine, a: Action)
    ensures Run(m, [a]) == Exec(m, a)
  {
    assert [a][..0] == [];
  }

  /** One action more. */
  lemma RunThen(m: Machine, acts: seq<Action>, a: Action)
    ensures Run(m, acts + [a]) == Exec(Run(m, acts), a)
  {
    RunConcat(m, acts, [a]);
    RunOne(Run(m, acts), a);
  }

  lemma LeadsNowhere(s: Snapshot)
    ensures Leads(s, [], s)
  {
  }

  lemma LeadsOn(s: Snapshot, steps: seq<Action>, s': Snapshot, steps': seq<Action>, s'': Snapshot)
    requires Leads(s, steps, s') && Leads(s', steps', s'')
    ensures Leads(s, steps + steps', s'')
  {
    forall m | At(m, s)
      ensures At(Run(m, steps + steps'), s'')
    {
      RunConcat(m, steps, steps');
    }
  }

  /** An operation that succeeds, and one whose store call fails. */
  function Taken(a: Action): seq<Action> {
    [a, StoreWrite, ApplyMemory]
  }

  function GivenUp(a: Action): seq<Action> {
    [a, StoreFail]
  }

  lemma RunTaken(m: Machine, a: Action)
    ensures Run(m, Taken(a)) == Exec(Exec(Exec(m, a), StoreWrite), ApplyMemory)
  {
    assert Taken(a)[..2] == [a, StoreWrite] && [a, StoreWrite][..1] == [a];
    RunOne(m, a);
  }

  lemma RunGivenUp(m: Machine, a: Action)
    ensures Run(m, GivenUp(a)) == Exec(Exec(m, a), StoreFail)
  {
    assert GivenUp(a)[..1] == [a];
    RunOne(m, a);
  }

  /** A machine that stands where the snapshot was taken. */
  ghost function MachineAt(s: Snapshot): (m: Machine)
    ensures At(m, s)
  {
    var phase := if s.Live? then Up(s.mem, s.jobs, map[], multiset{}, None) else Down;
    Machine(s.cfg, s.rows, s.clock, phase, LedgerOf(s.rows), 0, 0)
  }

  // ------------------------------------------------------- steps of one process

  /** No action of these ends the process. */
  ghost predicate SameProcess(steps: seq<Action>) {
    forall a :: a in steps ==> !a.Crash?
  }

  /** No action of these lets generations and ids restart. */
  ghost predicate NoResets(steps: seq<Action>) {
    forall a :: a in steps ==> !a.BeginClear? && !a.BeginReplaceAll?
  }

  ghost predicate NoReschedules(steps: seq<Action>) {
    forall a :: a in steps ==> !a.BeginReschedule?
  }

  /** No action of these cancels or moves a pending row. */
  ghost predicate NoAdmin(steps: seq<Action>) {
    forall a :: a in steps ==> !Administers(a)
  }

  /** Within one process, without resets or reschedules and without job administration. */
  ghost predicate Ordinary(steps: seq<Action>) {
    SameProcess(steps) && NoResets(steps) && NoReschedules(steps) && NoAdmin(steps)
  }

  /** Ordinary actions lead from the one snapshot to the other. */
  ghost predicate Goes(s: Snapshot, steps: seq<Action>, s': Snapshot) {
    Leads(s, steps, s') && Ordinary(steps)
  }

  predicate IsOrdinary(a: Action) {
    !a.Crash? && !a.BeginClear? && !a.BeginReplaceAll? && !a.BeginReschedule? && !Administers(a)
  }

  lemma TakenIsOrdinary(a: Action)
    requires IsOrdinary(a)
    ensures Ordinary([a]) && Ordinary(Taken(a)) && Ordinary(GivenUp(a))
  {
  }

  lemma OrdinaryConcat(a: seq<Action>, b: seq<Action>)
    requires Ordinary(a) && Ordinary(b)
    ensures Ordinary(a + b)
  {
  }

  lemma GoesNowhere(s: Snapshot)
    ensures Goes(s, [], s)
  {
    LeadsNowhere(s);
  }

  lemma GoesOn(s: Snapshot, steps: seq<Action>, s': Snapshot, steps': seq<Action>, s'': Snapshot)
    requires Goes(s, steps, s') && Goes(s', steps', s'')
    ensures Goes(s, steps + steps', s'')
  {
    LeadsOn(s, steps, s', steps', s'');
    OrdinaryConcat(steps, steps');
  }

  /** From any machine at the snapshot the actions are careful. */
  ghost predicate Safely(s: Snapshot, steps: seq<Action>) {
    forall m :: At(m, s) ==> CarefulRun(m, steps)
  }

  /** From any machine at the snapshot their reschedules keep application ids. */
  ghost predicate JobKeeping(s: Snapshot, steps: seq<Action>) {
    forall m :: At(m, s) ==> JobKeepingRun(m, steps)
  }

  ghost predicate ResetInFlight(m: Machine) {
    m.phase.Up? && m.phase.inflight.Some? && IsReset(m.phase.inflight.value.op)
  }

  lemma NoResetBegins(m: Machine, a: Action)
    requires !ResetInFlight(m) && !a.BeginClear? && !a.BeginReplaceAll?
    ensures !ResetInFlight(Exec(m, a))
  {
  }

  lemma {:induction false} NoResetInRun(m: Machine, steps: seq<Action>)
    requires !ResetInFlight(m) && NoResets(steps)
    ensures !ResetInFlight(Run(m, steps))
  {
    if steps != [] {
      assert steps[|steps| - 1] in steps;
      NoResetInRun(m, steps[..|steps| - 1]);
      NoResetBegins(Run(m, steps[..|steps| - 1]), steps[|steps| - 1]);
    }
  }

  lemma {:induction false} PlainRun(m: Machine, steps: seq<Action>)
    requires !ResetInFlight(m) && NoResets(steps) && NoReschedules(steps)
    ensures CarefulRun(m, steps) && JobKeepingRun(m, steps)
  {
    if steps != [] {
      var init := steps[..|steps| - 1];
      assert steps[|steps| - 1] in steps;
      PlainRun(m, init);
      NoResetInRun(m, init);
    }
  }

  /** Actions without reset or reschedule are careful and keep application ids. */
  lemma PlainIsSafe(s: Snapshot, steps: seq<Action>)
    requires NoResets(steps) && NoReschedules(steps)
    ensures Safely(s, steps) && JobKeeping(s, steps)
  {
    forall m | At(m, s) {
      PlainRun(m, steps);
    }
  }

  lemma CarefulThen(m: Machine, acts: seq<Action>, a: Action)
    ensures CarefulRun(m, acts + [a]) <==> CarefulRun(m, acts) && Careful(Run(m, acts), a)
    ensures JobKeepingRun(m, acts + [a]) <==> JobKeepingRun(m, acts) && KeepsJobId(Run(m, acts), a)
  {
    assert (acts + [a])[..|acts + [a]| - 1] == acts;
  }

  lemma {:induction false} CarefulConcat(m: Machine, a: seq<Action>, b: seq<Action>)
    ensures CarefulRun(m, a + b) <==> CarefulRun(m, a) && CarefulRun(Run(m, a), b)
    ensures JobKeepingRun(m, a + b) <==> JobKeepingRun(m, a) && JobKeepingRun(Run(m, a), b)
  {
    if b == [] {
      assert a + b == a;
    } else {
      var init, last := b[..|b| - 1], b[|b| - 1];
      CarefulConcat(m, a, init);
      RunConcat(m, a, init);
      assert (a + b)[..|a + b| - 1] == a + init && (a + b)[|a + b| - 1] == last;
    }
  }

  lemma SafelyOn(s: Snapshot, steps: seq<Action>, s': Snapshot, steps': seq<Action>)
    requires Leads(s, steps, s')
    ensures Safely(s, steps) && Safely(s', steps') ==> Safely(s, steps + steps')
    ensures JobKeeping(s, steps) && JobKeeping(s', steps') ==> JobKeeping(s, steps + steps')
  {
    forall m | At(m, s)
      ensures Safely(s, steps) && Safely(s', steps') ==> CarefulRun(m, steps + steps')
      ensures JobKeeping(s, steps) && JobKeeping(s', steps') ==> JobKeepingRun(m, steps + steps')
    {
      CarefulConcat(m, steps, steps');
    }
  }

  // --------------------------------------------------------- single operations

  /** The snapshot after an operation. */
  function After(s: Snapshot, op: Op): Snapshot
    requires s.Live? && Enabled(op, s.mem)
  {
    s.(mem := Applied(op, s.mem), rows := Written(op, s.mem, s.rows), jobs := IndexNow(s.cfg, op, s.mem, s.jobs))
  }

  /** The machine has just begun an operation on the snapshot. */
  ghost predicate Begun(m: Machine, s: Snapshot, op: Op) {
    && s.Live? && m.cfg == s.cfg && m.clock == s.clock && m.store == s.rows
    && m.phase.Up? && m.phase.mem == s.mem && m.phase.index == s.jobs
    && m.phase.waiting == map[] && m.phase.asked == multiset{}
    && m.phase.inflight == Some(Inflight(op, false, s.rows)) && Enabled(op, s.mem)
  }

  /** A begun operation whose store call works lands on its whole effect. */
  lemma WrittenLands(m: Machine, s: Snapshot, op: Op)
    requires Begun(m, s, op)
    ensures At(Exec(Exec(m, StoreWrite), ApplyMemory), After(s, op))
  {
    var m' := ExecStoreWrite(m);
    assert m'.phase.inflight == Some(Inflight(op, true, s.rows)) && m'.store == Written(op, s.mem, s.rows);
  }

  /** A begun operation whose store call fails lands on none of it. */
  lemma FailedLands(m: Machine, s: Snapshot, op: Op)
    requires Begun(m, s, op)
    ensures At(Exec(m, StoreFail), s.(mem := Abandoned(op, s.mem)))
  {
  }

  lemma BegunLands(m: Machine, a: Action, s: Snapshot, op: Op)
    requires Begun(Exec(m, a), s, op)
    ensures At(Run(m, Taken(a)), After(s, op)) && At(Run(m, GivenUp(a)), s.(mem := Abandoned(op, s.mem)))
  {
    RunTaken(m, a);
    RunGivenUp(m, a);
    WrittenLands(Exec(m, a), s, op);
    FailedLands(Exec(m, a), s, op);
  }

  /** Where the actions of an operation lead that takes nothing from memory when it begins. */
  lemma OpLeads(s: Snapshot, a: Action, op: Op, s': Snapshot)
    requires s.Live? && Enabled(op, s.mem) && s' == After(s, op) && forall m :: At(m, s) ==> Begun(Exec(m, a), s, op)
    ensures Leads(s, Taken(a), s')
  {
    forall m | At(m, s)
      ensures At(Run(m, Taken(a)), s')
    {
      BegunLands(m, a, s, op);
    }
  }

  lemma OpGoes(s: Snapshot, a: Action, op: Op, s': Snapshot)
    requires s.Live? && Enabled(op, s.mem) && s' == After(s, op) && forall m :: At(m, s) ==> Begun(Exec(m, a), s, op)
    requires IsOrdinary(a)
    ensures Goes(s, Taken(a), s')
  {
    OpLeads(s, a, op, s');
    TakenIsOrdinary(a);
  }

  /** One begun operation is careful when it began so and nothing waits. */
  lemma TakenIsCareful(m: Machine, a: Action)
    requires !a.ApplyMemory? && m.phase.Up? && Exec(m, a).phase.Up? && Exec(m, a).phase.waiting == map[]
    ensures CarefulRun(m, Taken(a)) <==> Careful(m, a)
    ensures JobKeepingRun(m, Taken(a)) <==> KeepsJobId(m, a)
  {
    assert Taken(a) == [a] + [StoreWrite] + [ApplyMemory];
    TwoAreCareful(m, a);
    CarefulThen(m, [a] + [StoreWrite], ApplyMemory);
    StoreWriteKeepsWaiting(Exec(m, a));
  }

  lemma StoreWriteKeepsWaiting(m: Machine)
    requires m.phase.Up?
    ensures ExecStoreWrite(m).phase.Up? && ExecStoreWrite(m).phase.waiting == m.phase.waiting
  {
  }

  lemma OneIsCareful(m: Machine, a: Action)
    ensures Run(m, [a]) == Exec(m, a)
    ensures CarefulRun(m, [a]) <==> Careful(m, a)
    ensures JobKeepingRun(m, [a]) <==> KeepsJobId(m, a)
  {
    assert [] + [a] == [a];
    CarefulThen(m, [], a);
    RunOne(m, a);
  }

  lemma TwoAreCareful(m: Machine, a: Action)
    ensures Run(m, [a] + [StoreWrite]) == Exec(Exec(m, a), StoreWrite)
    ensures CarefulRun(m, [a] + [StoreWrite]) <==> Careful(m, a)
    ensures JobKeepingRun(m, [a] + [StoreWrite]) <==> KeepsJobId(m, a)
  {
    OneIsCareful(m, a);
    CarefulThen(m, [a], StoreWrite);
    RunThen(m, [a], StoreWrite);
  }

  lemma TickGoes(s: Snapshot, elapsed: real)
    requires elapsed >= 0.0
    ensures Goes(s, [Tick(elapsed)], s.(clock := s.clock + elapsed))
  {
    TakenIsOrdinary(Tick(elapsed));
    forall m | At(m, s)
      ensures At(Run(m, [Tick(elapsed)]), s.(clock := s.clock + elapsed))
    {
      RunOne(m, Tick(elapsed));
    }
  }

  // ---------------------------------------------------------- lease operations

  function Acked(s: Snapshot, id: nat): Snapshot
    requires s.Live? && id in s.mem.leased
  {
    s.(mem := s.mem.(leased := s.mem.leased - {id}), rows := s.rows - {id},
       jobs := if s.cfg.unique then Unindexed(s.jobs, s.mem.leased[id].row.item, id) else s.jobs)
  }

  lemma AckGoes(s: Snapshot, lease: LeasedRow)
    requires s.Live? && IsCurrent(s.mem.leased, lease)
    ensures Goes(s, Taken(BeginAck(lease.row.id, lease.generation)), Acked(s, lease.row.id))
  {
    OpGoes(s, BeginAck(lease.row.id, lease.generation), AckOp(lease.row.id), Acked(s, lease.row.id));
  }

  /** A leased row at the tail of the FIFO, its lease ended. */
  function Freed(s: Snapshot, id: nat): Snapshot
    requires s.Live? && id in s.mem.leased
  {
    s.(mem := s.mem.(leased := s.mem.leased - {id}, ready := s.mem.ready + [s.mem.leased[id].row]),
       rows := s.rows[id := ToRecord(s.mem.leased[id].row, 0.0, None, None)])
  }

  lemma ReleaseGoes(s: Snapshot, lease: LeasedRow)
    requires s.Live? && IsCurrent(s.mem.leased, lease)
    ensures Goes(s, Taken(BeginRelease(lease.row.id, lease.generation)), Freed(s, lease.row.id))
  {
    OpGoes(s, BeginRelease(lease.row.id, lease.generation), ReleaseOp(lease.row.id), Freed(s, lease.row.id));
  }

  function Prolonged(s: Snapshot, id: nat, expiresAt: Option<real>): Snapshot
    requires s.Live? && id in s.mem.leased
  {
    var held := s.mem.leased[id];
    s.(mem := s.mem.(leased := s.mem.leased[id := held.(expiresAt := expiresAt)]),
       rows := s.rows[id := ToRecord(held.row, 0.0, Some(held.generation), expiresAt)])
  }

  lemma ExtendGoes(s: Snapshot, lease: LeasedRow, ttlMs: real)
    requires s.Live? && IsCurrent(s.mem.leased, lease) && ttlMs >= 1.0
    ensures Goes(s, Taken(BeginExtend(lease.row.id, lease.generation, ttlMs)),
                  Prolonged(s, lease.row.id, Some(s.clock + ttlMs)))
  {
    OpGoes(s, BeginExtend(lease.row.id, lease.generation, ttlMs), ExtendOp(lease.row.id, Some(s.clock + ttlMs)),
            Prolonged(s, lease.row.id, Some(s.clock + ttlMs)));
  }

  /** The row of a lease back under another version. */
  function PutAgain(s: Snapshot, row: QueueRow, at: real): Snapshot
    requires s.Live?
  {
    s.(mem := Requeued(s.mem, row, at),
       rows := s.rows[row.id := ToRecord(row, at, None, None)])
  }

  /** The call of a reschedule, and the turn of that call. */
  function RescheduleAsk(lease: LeasedRow, row: QueueRow, delayMs: real): Action {
    RescheduleCall(row.id, lease.generation, row.item, delayMs, row.attempt, row.handoff)
  }

  function RescheduleTurn(s: Snapshot, lease: LeasedRow, row: QueueRow, delayMs: real): Action {
    BeginReschedule(Rescheduling(row, lease.generation, DueAt(s.clock, delayMs)))
  }

  function RescheduleSteps(s: Snapshot, lease: LeasedRow, row: QueueRow, delayMs: real): seq<Action> {
    [RescheduleAsk(lease, row, delayMs)] + Taken(RescheduleTurn(s, lease, row, delayMs))
  }

  lemma AskedBegins(m: Machine, s: Snapshot, lease: LeasedRow, row: QueueRow, delayMs: real)
    requires At(m, s) && s.Live? && s.clock >= 0.0 && IsCurrent(s.mem.leased, lease) && row.id == lease.row.id
      && delayMs >= 0.0
    ensures var asked := Exec(m, RescheduleAsk(lease, row, delayMs));
      && asked == m.(phase := m.phase.(asked := multiset{Rescheduling(row, lease.generation, DueAt(s.clock, delayMs))}))
      && Begun(Exec(asked, RescheduleTurn(s, lease, row, delayMs)), s, RescheduleOp(row, DueAt(s.clock, delayMs)))
  {
    var call := Rescheduling(row, lease.generation, DueAt(s.clock, delayMs));
    assert multiset{} + multiset{call} == multiset{call} && multiset{call} - multiset{call} == multiset{};
    assert ActiveHandoff(row.handoff) == row.handoff;
  }

  /** Whatever the attempt, the row is back under the due time fixed by the call. */
  lemma RescheduleLeads(s: Snapshot, lease: LeasedRow, row: QueueRow, delayMs: real)
    requires s.Live? && s.clock >= 0.0 && IsCurrent(s.mem.leased, lease) && row.id == lease.row.id && delayMs >= 0.0
    ensures Leads(s, RescheduleSteps(s, lease, row, delayMs), PutAgain(s, row, DueAt(s.clock, delayMs)))
  {
    var ask, turn := RescheduleAsk(lease, row, delayMs), RescheduleTurn(s, lease, row, delayMs);
    forall m | At(m, s)
      ensures At(Run(m, [ask] + Taken(turn)), PutAgain(s, row, DueAt(s.clock, delayMs)))
    {
      AskedBegins(m, s, lease, row, delayMs);
      RunConcat(m, [ask], Taken(turn));
      RunOne(m, ask);
      BegunLands(Exec(m, ask), turn, s, RescheduleOp(row, DueAt(s.clock, delayMs)));
    }
  }

  lemma RescheduleIsCarefulIff(m: Machine, s: Snapshot, lease: LeasedRow, row: QueueRow, delayMs: real)
    requires At(m, s) && s.Live? && s.clock >= 0.0 && IsCurrent(s.mem.leased, lease) && row.id == lease.row.id
      && delayMs >= 0.0
    ensures CarefulRun(m, RescheduleSteps(s, lease, row, delayMs)) <==> row.attempt >= 1
    ensures JobKeepingRun(m, RescheduleSteps(s, lease, row, delayMs))
       <==> JobIdOf(row.item) == JobIdOf(s.mem.leased[row.id].row.item)
  {
    var ask, turn := RescheduleAsk(lease, row, delayMs), RescheduleTurn(s, lease, row, delayMs);
    AskedBegins(m, s, lease, row, delayMs);
    CarefulConcat(m, [ask], Taken(turn));
    RunOne(m, ask);
    assert [ask][..0] == [];
    TakenIsCareful(Exec(m, ask), turn);
  }

  /** The actions are careful exactly when the attempt is at least 1, and keep the application id
      exactly when the new item does. */
  lemma RescheduleIsSafeIff(s: Snapshot, lease: LeasedRow, row: QueueRow, delayMs: real)
    requires s.Live? && s.clock >= 0.0 && IsCurrent(s.mem.leased, lease) && row.id == lease.row.id && delayMs >= 0.0
    ensures Safely(s, RescheduleSteps(s, lease, row, delayMs)) <==> row.attempt >= 1
    ensures JobKeeping(s, RescheduleSteps(s, lease, row, delayMs))
       <==> JobIdOf(row.item) == JobIdOf(s.mem.leased[row.id].row.item)
  {
    RescheduleIsCarefulIff(MachineAt(s), s, lease, row, delayMs);
    forall m | At(m, s) {
      RescheduleIsCarefulIff(m, s, lease, row, delayMs);
    }
  }

  // ------------------------------------------------------------------ resets

  lemma ClearLeads(s: Snapshot)
    requires s.Live?
    ensures Leads(s, Taken(BeginClear), Live(s.cfg, s.clock, map[], Memory([], map[], map[], 0, 0), map[]))
  {
    OpLeads(s, BeginClear, ClearOp, Live(s.cfg, s.clock, map[], Memory([], map[], map[], 0, 0), map[]));
  }

  /** The rows of `replaceAll` and nothing else, ids and generations counted from there. */
  function Replaced(s: Snapshot, items: seq<Item>): Snapshot {
    Live(s.cfg, s.clock, PlannedStore(items), Memory(Planned(items), map[], map[], |items|, 0),
         if s.cfg.unique then IndexOf(Planned(items)) else map[])
  }

  lemma ReplaceLeads(s: Snapshot, items: seq<Item>)
    requires s.Live? && |items| <= ID_MAX && s.mem.leased == map[]
    requires (s.cfg.maxSize.Some? ==> |items| <= s.cfg.maxSize.value) && (s.cfg.unique ==> DistinctItems(items))
    ensures Leads(s, Taken(BeginReplaceAll(items)), Replaced(s, items))
  {
    OpLeads(s, BeginReplaceAll(items), ReplaceOp(items), Replaced(s, items));
  }

  /** Between calls nothing waits, so a reset is careful. */
  lemma ResetIsSafe(s: Snapshot, a: Action)
    requires s.Live? && (a.BeginClear? || a.BeginReplaceAll?)
    ensures Safely(s, Taken(a)) && JobKeeping(s, Taken(a))
  {
    forall m | At(m, s)
      ensures CarefulRun(m, Taken(a)) && JobKeepingRun(m, Taken(a))
    {
      TakenIsCareful(m, a);
    }
  }

  // ------------------------------------------------------------------ enqueue

  predicate Refused(s: Snapshot, row: QueueRow)
    requires s.Live?
  {
    || (s.cfg.maxSize.Some? && Size(s.mem) + 1 > s.cfg.maxSize.value)
    || (s.cfg.unique && !JobIsFree(s.jobs, row.item, row.id))
  }

  /** The row at the end of the chain, with the row in memory, store and index. */
  function Enqueued(s: Snapshot, row: QueueRow, at: real): Snapshot
    requires s.Live?
  {
    s.(mem := Add(s.mem, row, at), rows := s.rows[row.id := ToRecord(row, at, None, None)],
       jobs := if s.cfg.unique then Indexed(s.jobs, row.item, row.id) else s.jobs)
  }

  /** Only the row of one call waits. */
  ghost predicate OneWaits(m: Machine, s: Snapshot, row: QueueRow, at: real) {
    && m.phase.Up? && m.phase.waiting == map[row.id := Waiting(row.item, at)]
    && At(m.(phase := m.phase.(waiting := map[])), s)
  }

  lemma CalledIs(m: Machine, s: Snapshot, item: Item, delayMs: real)
    requires s.Live? && At(m, s) && delayMs >= 0.0 && s.mem.counter < ID_MAX
    ensures OneWaits(Exec(m, EnqueueCall(item, delayMs)), s.(mem := Spent(s.mem)), Row(s.mem.counter + 1, item, 1, 0),
                     DueAt(s.clock, delayMs))
  {
  }

  lemma TurnOfEnqueue(m: Machine, s: Snapshot, row: QueueRow, at: real)
    requires s.Live? && OneWaits(m, s, row, at) && at >= 0.0 && row.attempt == 1 && row.handoff == 0
    ensures Refused(s, row) ==> At(Exec(m, BeginEnqueue(row.id)), s)
    ensures !Refused(s, row) ==> Begun(Exec(m, BeginEnqueue(row.id)), s, EnqueueOp(row, at))
  {
    assert m.phase.waiting - {row.id} == map[];
  }

  lemma EnqueueIsRun(m: Machine, s: Snapshot, item: Item, delayMs: real)
    requires s.Live? && At(m, s) && s.clock >= 0.0 && delayMs >= 0.0 && s.mem.counter < ID_MAX
    ensures var row, spent := Row(s.mem.counter + 1, item, 1, 0), s.(mem := Spent(s.mem));
      var called, begin := [EnqueueCall(item, delayMs)], BeginEnqueue(row.id);
      && (Refused(spent, row) ==> At(Run(m, called + [begin]), spent))
      && (!Refused(spent, row) ==>
           && At(Run(m, called + Taken(begin)), Enqueued(spent, row, DueAt(s.clock, delayMs)))
           && At(Run(m, called + GivenUp(begin)), spent))
  {
    var row, spent, at := Row(s.mem.counter + 1, item, 1, 0), s.(mem := Spent(s.mem)), DueAt(s.clock, delayMs);
    var called := [EnqueueCall(item, delayMs)];
    CalledIs(m, s, item, delayMs);
    RunOne(m, EnqueueCall(item, delayMs));
    RunThen(m, called, BeginEnqueue(row.id));
    RunConcat(m, called, Taken(BeginEnqueue(row.id)));
    RunConcat(m, called, GivenUp(BeginEnqueue(row.id)));
    TurnOfEnqueue(Run(m, called), spent, row, at);
    if !Refused(spent, row) {
      BegunLands(Run(m, called), BeginEnqueue(row.id), spent, EnqueueOp(row, at));
    }
  }

  /** The id is taken when `enqueue` is called, the row is checked and added on the chain. */
  lemma EnqueueGoes(s: Snapshot, item: Item, delayMs: real)
    requires s.Live? && s.clock >= 0.0 && delayMs >= 0.0 && s.mem.counter < ID_MAX
    ensures var row, spent := Row(s.mem.counter + 1, item, 1, 0), s.(mem := Spent(s.mem));
      var called, begin := [EnqueueCall(item, delayMs)], BeginEnqueue(row.id);
      && (Refused(spent, row) ==> Goes(s, called + [begin], spent))
      && (!Refused(spent, row) ==>
           && Goes(s, called + Taken(begin), Enqueued(spent, row, DueAt(s.clock, delayMs)))
           && Goes(s, called + GivenUp(begin), spent))
  {
    var begin := BeginEnqueue(s.mem.counter + 1);
    forall m | At(m, s) {
      EnqueueIsRun(m, s, item, delayMs);
    }
    TakenIsOrdinary(EnqueueCall(item, delayMs));
    TakenIsOrdinary(begin);
    OrdinaryConcat([EnqueueCall(item, delayMs)], [begin]);
    OrdinaryConcat([EnqueueCall(item, delayMs)], Taken(begin));
    OrdinaryConcat([EnqueueCall(item, delayMs)], GivenUp(begin));
  }

  // ---------------------------------------------------------- claim, dequeue

  function LeaseDeadline(s: Snapshot): Option<real> {
    if s.cfg.leaseTtl.Some? then Some(s.clock + s.cfg.leaseTtl.value) else None
  }

  function Claimed(s: Snapshot): Snapshot
    requires s.Live? && s.mem.ready != []
  {
    var head, expiresAt := s.mem.ready[0], LeaseDeadline(s);
    s.(mem := HeadLeased(s.mem, expiresAt),
       rows := s.rows[head.id := ToRecord(head, 0.0, Some(s.mem.generations + 1), expiresAt)])
  }

  function Unclaimed(s: Snapshot): Snapshot
    requires s.Live? && s.mem.ready != []
  {
    s.(mem := HeadToBack(s.mem).(generations := s.mem.generations + 1))
  }

  /** The head leaves the FIFO when the operation begins. */
  lemma ClaimGoes(s: Snapshot)
    requires s.Live? && s.mem.ready != []
    ensures Goes(s, Taken(BeginClaim), Claimed(s)) && Goes(s, GivenUp(BeginClaim), Unclaimed(s))
  {
    TakenIsOrdinary(BeginClaim);
    var popped := Beheaded(s.mem).(generations := s.mem.generations + 1);
    forall m | At(m, s) {
      BegunLands(m, BeginClaim, s.(mem := popped), ClaimOp(s.mem.ready[0], s.mem.generations + 1, LeaseDeadline(s)));
    }
  }

  function Dequeued(s: Snapshot): Snapshot
    requires s.Live? && s.mem.ready != []
  {
    var head := s.mem.ready[0];
    s.(mem := Beheaded(s.mem), rows := s.rows - {head.id},
       jobs := if s.cfg.unique then Unindexed(s.jobs, head.item, head.id) else s.jobs)
  }

  lemma DequeueGoes(s: Snapshot)
    requires s.Live? && s.mem.ready != []
    ensures Goes(s, Taken(BeginDequeue), Dequeued(s)) && Goes(s, GivenUp(BeginDequeue), s.(mem := HeadToBack(s.mem)))
  {
    TakenIsOrdinary(BeginDequeue);
    forall m | At(m, s) {
      BegunLands(m, BeginDequeue, s.(mem := Beheaded(s.mem)), DequeueOp(s.mem.ready[0]));
    }
  }

  // ---------------------------------------------------------------- job admin

  function Cancelled(s: Snapshot, row: QueueRow): Snapshot
    requires s.Live?
  {
    s.(mem := DropPending(s.mem, row.id), rows := s.rows - {row.id},
       jobs := if s.cfg.unique then Unindexed(s.jobs, row.item, row.id) else s.jobs)
  }

  function Moved(s: Snapshot, row: QueueRow, at: real): Snapshot
    requires s.Live?
  {
    s.(mem := Add(DropPending(s.mem, row.id), row, at), rows := s.rows[row.id := ToRecord(row, at, None, None)])
  }

  /** The row is one that a call for this application id may find. */
  ghost predicate Concerns(s: Snapshot, jobId: string, id: nat) {
    s.Live? && IsPending(s.mem, id) && Carries(PendingRow(s.mem, id).item, jobId)
  }

  /** The actions of a call for this application id lead from the one snapshot to the other. */
  ghost predicate GoesForJob(s: Snapshot, jobId: string, steps: seq<Action>, s': Snapshot) {
    && Leads(s, steps, s') && SameProcess(steps) && NoResets(steps) && NoReschedules(steps)
    && forall id :: !Concerns(s, jobId, id) ==> Undisturbed(steps, id)
  }

  lemma GoesNowhereForJob(s: Snapshot, jobId: string)
    ensures GoesForJob(s, jobId, [], s)
  {
    LeadsNowhere(s);
  }

  lemma TakenForJob(s: Snapshot, jobId: string, a: Action, s': Snapshot)
    requires Leads(s, Taken(a), s') && Administers(a) && Concerns(s, jobId, a.id)
    ensures GoesForJob(s, jobId, Taken(a), s')
  {
  }

  lemma CancelLeads(s: Snapshot, row: QueueRow)
    requires s.Live? && IsPending(s.mem, row.id) && PendingRow(s.mem, row.id) == row
    ensures Leads(s, Taken(BeginCancel(row.id)), Cancelled(s, row))
  {
    OpLeads(s, BeginCancel(row.id), CancelOp(row.id), Cancelled(s, row));
  }

  lemma MoveLeads(s: Snapshot, row: QueueRow, delayMs: real)
    requires s.Live? && s.clock >= 0.0 && delayMs >= 0.0
    requires IsPending(s.mem, row.id) && PendingRow(s.mem, row.id) == row
    ensures Leads(s, Taken(BeginRescheduleJob(row.id, delayMs)), Moved(s, row, DueAt(s.clock, delayMs)))
  {
    OpLeads(s, BeginRescheduleJob(row.id, delayMs), MoveOp(row.id, DueAt(s.clock, delayMs)),
            Moved(s, row, DueAt(s.clock, delayMs)));
  }

  lemma PromoteJobLeads(s: Snapshot, row: QueueRow)
    requires s.Live? && row.id in s.mem.delayed && s.mem.delayed[row.id].row == row
    ensures Leads(s, Taken(BeginPromoteJob(row.id)), Moved(s, row, 0.0))
  {
    OpLeads(s, BeginPromoteJob(row.id), MoveOp(row.id, 0.0), Moved(s, row, 0.0));
  }

  // ------------------------------------------------------------------- timers

  lemma PromoteGoes(s: Snapshot, order: seq<nat>)
    requires s.Live? && DueOrder(s.mem.delayed, s.clock, order)
    ensures Goes(s, [Promote(order)], s.(mem := Promoted(s.mem, order)))
  {
    forall m | At(m, s) {
      RunOne(m, Promote(order));
    }
    TakenIsOrdinary(Promote(order));
  }

  function ReclaimSteps(ids: seq<nat>): seq<Action> {
    if ids == [] then [] else ReclaimSteps(ids[..|ids| - 1]) + Taken(BeginReclaim(ids[|ids| - 1]))
  }

  lemma ReclaimOneGoes(s: Snapshot, id: nat)
    requires s.Live? && id in s.mem.leased
    requires s.mem.leased[id].expiresAt.Some? && s.mem.leased[id].expiresAt.value <= s.clock
    ensures Goes(s, Taken(BeginReclaim(id)), Freed(s, id))
  {
    OpGoes(s, BeginReclaim(id), ReleaseOp(id), Freed(s, id));
  }

  /** A whole reclaim is one store call and one memory update per expired lease. */
  lemma {:induction false} ReclaimGoes(s: Snapshot, ids: seq<nat>)
    requires s.Live? && Reclaiming(s.mem.leased, s.clock, ids)
    ensures Goes(s, ReclaimSteps(ids),
                  s.(mem := Reclaimed(s.mem, ids), rows := ReclaimedStore(s.rows, s.mem.leased, ids)))
  {
    if ids == [] {
      ReclaimedNone(s.mem, s.rows);
    } else {
      var init, id := ids[..|ids| - 1], ids[|ids| - 1];
      assert ids == init + [id];
      ReclaimGoes(s, init);
      ReclaimedOne(s.mem, s.rows, init, id);
      assert id in ids && id !in init;
      var before := s.(mem := Reclaimed(s.mem, init), rows := ReclaimedStore(s.rows, s.mem.leased, init));
      ReclaimOneGoes(before, id);
      GoesOn(s, ReclaimSteps(init), before, Taken(BeginReclaim(id)),
              s.(mem := Reclaimed(s.mem, ids), rows := ReclaimedStore(s.rows, s.mem.leased, ids)));
    }
  }

  function PreparationSteps(order: seq<nat>, ids: seq<nat>): seq<Action> {
    [Promote(order)] + ReclaimSteps(ids)
  }

  /** Promotion, then reclaim: the first half of a claim. */
  function Prepared(s: Snapshot, order: seq<nat>, ids: seq<nat>): Snapshot
    requires s.Live? && (forall id :: id in order ==> id in s.mem.delayed)
    requires forall id :: id in ids ==> id in s.mem.leased
  {
    s.(mem := Reclaimed(Promoted(s.mem, order), ids), rows := ReclaimedStore(s.rows, s.mem.leased, ids))
  }

  lemma PreparationGoes(s: Snapshot, order: seq<nat>, ids: seq<nat>)
    requires s.Live? && DueOrder(s.mem.delayed, s.clock, order) && Reclaiming(s.mem.leased, s.clock, ids)
    ensures Goes(s, PreparationSteps(order, ids), Prepared(s, order, ids))
  {
    var promoted := s.(mem := Promoted(s.mem, order));
    PromoteGoes(s, order);
    ReclaimGoes(promoted, ids);
    GoesOn(s, [Promote(order)], promoted, ReclaimSteps(ids), Prepared(s, order, ids));
  }

  // ------------------------------------------------------------------ hydrate

  function IdsOf(loaded: seq<Record>): (ids: seq<nat>)
    ensures |ids| == |loaded|
  {
    seq(|loaded|, i requires 0 <= i < |loaded| => loaded[i].id)
  }

  lemma IdsOfIs(loaded: seq<Record>, store: Store)
    requires Lists(loaded, store) && DistinctIds(loaded)
    ensures SetOf(IdsOf(loaded)) == store.Keys && |loaded| == |store|
  {
    var ids := IdsOf(loaded);
    forall id
      ensures id in ids <==> id in store
    {
      if id in store {
        var i :| 0 <= i < |loaded| && loaded[i] == store[id];
        assert ids[i] == id;
      }
      if id in ids {
        var i :| 0 <= i < |ids| && ids[i] == id;
        assert loaded[i] in loaded;
      }
    }
    DistinctSize(ids);
  }

  lemma {:induction false} DistinctSize(ids: seq<nat>)
    requires forall i, j :: 0 <= i < j < |ids| ==> ids[i] != ids[j]
    ensures |SetOf(ids)| == |ids|
  {
    if ids != [] {
      var init, last := ids[..|ids| - 1], ids[|ids| - 1];
      DistinctSize(init);
      assert SetOf(ids) == SetOf(init) + {last};
      assert last !in init;
    }
  }

  /** The lease clearings for the first `n` loaded rows. */
  function Puts(loaded: seq<Record>, n: nat): seq<Action>
    requires n <= |loaded|
  {
    if n == 0 then [] else Puts(loaded, n - 1) + (if loaded[n - 1].lease.Some? then [HydratePut] else [])
  }

  /** Half a recovery: the leases of the first `n` loaded rows are cleared, the others still to do. */
  ghost predicate HalfWay(m: Machine, store: Store, now: real, cfg: Config, loaded: seq<Record>, n: nat)
    requires n <= |loaded|
  {
    && m.cfg == cfg && m.clock == now
    && m.phase == Hydrating(store, now, LeasedOnly(store, IdsOf(loaded)[n..]))
    && m.store == ClearedStore(store, loaded[..n])
  }

  lemma LeasedOnlyStep(loaded: seq<Record>, store: Store, n: nat)
    requires Lists(loaded, store) && n < |loaded|
    ensures LeasedOnly(store, IdsOf(loaded)[n..])
         == (if loaded[n].lease.Some? then [loaded[n].id] else []) + LeasedOnly(store, IdsOf(loaded)[n + 1..])
  {
    assert loaded[n] in loaded;
    assert IdsOf(loaded)[n..][1..] == IdsOf(loaded)[n + 1..];
  }

  /** The n-th row is still as it was loaded when its turn comes. */
  lemma NotYetCleared(store: Store, loaded: seq<Record>, n: nat)
    requires Recoverable(loaded, store) && n < |loaded|
    ensures loaded[n].id in ClearedStore(store, loaded[..n])
      && ClearedStore(store, loaded[..n])[loaded[n].id] == loaded[n]
    ensures ClearedStore(store, loaded[..n + 1])
         == if loaded[n].lease.Some? then ClearedStore(store, loaded[..n])[loaded[n].id := Cleared(loaded[n])]
            else ClearedStore(store, loaded[..n])
  {
    assert loaded[n] in loaded && forall r :: r in loaded[..n] ==> r in loaded;
    ClearedStoreKeepsLedger(store, loaded[..n]);
    assert loaded[n] !in loaded[..n];
    assert loaded[..n + 1][..n] == loaded[..n];
  }

  function PutIfLeased(m: Machine, rec: Record): Machine {
    if rec.lease.Some? then ExecHydratePut(m) else m
  }

  lemma PutStep(m: Machine, store: Store, now: real, cfg: Config, loaded: seq<Record>, n: nat)
    requires n < |loaded| && HalfWay(m, store, now, cfg, loaded, n)
    requires LeasedOnly(store, IdsOf(loaded)[n..])
          == (if loaded[n].lease.Some? then [loaded[n].id] else []) + LeasedOnly(store, IdsOf(loaded)[n + 1..])
    requires loaded[n].id in m.store && m.store[loaded[n].id] == loaded[n]
    requires ClearedStore(store, loaded[..n + 1])
          == if loaded[n].lease.Some? then m.store[loaded[n].id := Cleared(loaded[n])] else m.store
    ensures HalfWay(PutIfLeased(m, loaded[n]), store, now, cfg, loaded, n + 1)
  {
    var rest := LeasedOnly(store, IdsOf(loaded)[n + 1..]);
    assert [] + rest == rest && ([loaded[n].id] + rest)[1..] == rest;
  }

  lemma PutsRun(m: Machine, loaded: seq<Record>, n: nat)
    requires n < |loaded|
    ensures Run(m, Puts(loaded, n + 1)) == PutIfLeased(Run(m, Puts(loaded, n)), loaded[n])
  {
    if loaded[n].lease.Some? {
      RunThen(m, Puts(loaded, n), HydratePut);
    } else {
      assert Puts(loaded, n) + [] == Puts(loaded, n);
    }
  }

  lemma {:induction false} PutsAreRun(m: Machine, store: Store, now: real, cfg: Config, loaded: seq<Record>, n: nat)
    requires Recoverable(loaded, store) && n <= |loaded|
    requires HalfWay(m, store, now, cfg, loaded, 0)
    ensures HalfWay(Run(m, Puts(loaded, n)), store, now, cfg, loaded, n)
  {
    if n > 0 {
      var k: nat := n - 1;
      PutsAreRun(m, store, now, cfg, loaded, k);
      PutsRun(m, loaded, k);
      NextPut(Run(m, Puts(loaded, k)), Run(m, Puts(loaded, n)), store, now, cfg, loaded, k);
    }
  }

  lemma NextPut(m: Machine, m': Machine, store: Store, now: real, cfg: Config, loaded: seq<Record>, n: nat)
    requires Recoverable(loaded, store) && n < |loaded|
    requires HalfWay(m, store, now, cfg, loaded, n) && m' == PutIfLeased(m, loaded[n])
    ensures HalfWay(m', store, now, cfg, loaded, n + 1)
  {
    LeasedOnlyStep(loaded, store, n);
    NotYetCleared(store, loaded, n);
    PutStep(m, store, now, cfg, loaded, n);
  }

  function HydrateSteps(loaded: seq<Record>, n: nat): seq<Action>
    requires n <= |loaded|
  {
    [HydrateStart(IdsOf(loaded))] + Puts(loaded, n)
  }

  /** Recovery of a store whose rows were loaded in this order, up to the n-th row. */
  lemma HydrateStepsAreRun(m: Machine, loaded: seq<Record>, n: nat)
    requires m.phase.Down? && Recoverable(loaded, m.store) && n <= |loaded|
    requires m.cfg.unique ==> DistinctJobs(LedgerOf(m.store))
    ensures HalfWay(Run(m, HydrateSteps(loaded, n)), m.store, m.clock, m.cfg, loaded, n)
  {
    var start := HydrateStart(IdsOf(loaded));
    IdsOfIs(loaded, m.store);
    assert (set id | id in IdsOf(loaded)) == SetOf(IdsOf(loaded));
    assert IdsOf(loaded)[0..] == IdsOf(loaded) && loaded[..0] == [];
    RunOne(m, start);
    PutsAreRun(Exec(m, start), m.store, m.clock, m.cfg, loaded, n);
    RunConcat(m, [start], Puts(loaded, n));
  }

  /** The load is one that recovery goes through with. */
  ghost predicate CanRecover(s: Snapshot, loaded: seq<Record>) {
    Recoverable(loaded, s.rows) && (s.cfg.unique ==> DistinctJobs(LedgerOf(s.rows)))
  }

  /** What a recovery of the store leaves. */
  ghost function Recovered(s: Snapshot, loaded: seq<Record>): Snapshot
    requires s.cfg.unique ==> DistinctJobs(LedgerOf(s.rows))
  {
    Live(s.cfg, s.clock, ClearedStore(s.rows, loaded), HydratedMemory(s.rows, s.clock),
         if s.cfg.unique then IndexFor(LedgerOf(s.rows)) else map[])
  }

  function RecoverySteps(loaded: seq<Record>): seq<Action> {
    HydrateSteps(loaded, |loaded|) + [HydrateDone]
  }

  lemma HydrateIsRun(m: Machine, s: Snapshot, loaded: seq<Record>)
    requires s.Halted? && At(m, s) && CanRecover(s, loaded)
    ensures At(Run(m, RecoverySteps(loaded)), Recovered(s, loaded))
  {
    HydrateStepsAreRun(m, loaded, |loaded|);
    RunThen(m, HydrateSteps(loaded, |loaded|), HydrateDone);
    assert IdsOf(loaded)[|loaded|..] == [] && loaded[..|loaded|] == loaded;
    HydrateFinishes(Run(m, HydrateSteps(loaded, |loaded|)), s, loaded);
  }

  lemma HydrateFinishes(m: Machine, s: Snapshot, loaded: seq<Record>)
    requires m.phase == Hydrating(s.rows, s.clock, []) && m.store == ClearedStore(s.rows, loaded)
    requires m.cfg == s.cfg && m.clock == s.clock && (s.cfg.unique ==> DistinctJobs(LedgerOf(s.rows)))
    ensures At(Exec(m, HydrateDone), Recovered(s, loaded))
  {
  }

  /** A whole recovery ends where `Hydrate` does. */
  lemma HydrateLeads(s: Snapshot, loaded: seq<Record>)
    requires s.Halted? && CanRecover(s, loaded)
    ensures Leads(s, RecoverySteps(loaded), Recovered(s, loaded))
  {
    forall m | At(m, s) {
      HydrateIsRun(m, s, loaded);
    }
  }

  /** A recovery that failed after the n-th row, and with it the process. */
  lemma FailedHydrateLeads(s: Snapshot, loaded: seq<Record>, n: nat)
    requires s.Halted? && CanRecover(s, loaded) && n <= |loaded|
    ensures Leads(s, HydrateSteps(loaded, n) + [Crash], s.(rows := ClearedStore(s.rows, loaded[..n])))
  {
    forall m | At(m, s)
      ensures At(Run(m, HydrateSteps(loaded, n) + [Crash]), s.(rows := ClearedStore(s.rows, loaded[..n])))
    {
      HydrateStepsAreRun(m, loaded, n);
      RunThen(m, HydrateSteps(loaded, n), Crash);
    }
  }

  lemma CrashLeads(s: Snapshot)
    ensures Leads(s, [Crash], Halted(s.cfg, s.clock, s.rows))
  {
    forall m | At(m, s) {
      RunOne(m, Crash);
    }
  }

  /** Without leased rows there is nothing to clear. */
  lemma {:induction false} NothingToClear(store: Store, loaded: seq<Record>)
    requires forall rec :: rec in loaded ==> rec.lease.None?
    ensures ClearedStore(store, loaded) == store
  {
    if loaded != [] {
      NothingToClear(store, loaded[..|loaded| - 1]);
    }
  }

  lemma {:induction false} PutsArePlain(loaded: seq<Record>, n: nat)
    requires n <= |loaded|
    ensures NoResets(Puts(loaded, n)) && NoReschedules(Puts(loaded, n)) && NoAdmin(Puts(loaded, n))
  {
    if n > 0 {
      PutsArePlain(loaded, n - 1);
    }
  }

  /** A recovery, finished or given up, is careful. */
  lemma RecoveryIsPlain(loaded: seq<Record>, n: nat, last: Action)
    requires n <= |loaded| && (last.HydrateDone? || last.Crash?)
    ensures var steps := HydrateSteps(loaded, n) + [last]; NoResets(steps) && NoReschedules(steps) && NoAdmin(steps)
  {
    PutsArePlain(loaded, n);
  }
}
