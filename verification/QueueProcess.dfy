/** A queue in use: calls, timers, crashes and restarts in any order. Whatever they are, the
    queue and its store are those of a run of the state machine. */
module QueueProcesses {
  import opened Options
  import opened Records
  import opened PendingRows
  import opened QueueModel
  import opened QueueSteps
  import opened DurableMachine
  import opened Durability
  import opened CrashRecovery
  import opened LeaseFencing
  import opened Conservation
  import opened UniqueJobs
  import opened Hydrations
  import opened QueueParts
  import opened DelayedRows
  import opened QueueRuns
  import opened JobQueues
  import opened QueueSimulation

  // ---------------------------------------------------------------- recovery

  /** `loadAll`: the stored rows in whatever order. */
  method ListRows(store: Store) returns (loaded: seq<Record>)
    requires forall id :: id in store ==> store[id].id == id
    ensures Lists(loaded, store)
  {
    loaded := [];
    var todo := store;
    while todo != map[]
      invariant todo.Keys <= store.Keys && forall id :: id in todo ==> todo[id] == store[id]
      invariant forall rec :: rec in loaded ==> rec.id in store && store[rec.id] == rec
      invariant forall id :: id in store && id !in todo ==> store[id] in loaded
      decreases |todo|
    {
      var id :| id in todo;
      assert |todo - {id}| == |todo| - 1 by {
        assert (todo - {id}).Keys == todo.Keys - {id};
      }
      loaded := loaded + [todo[id]];
      todo := todo - {id};
    }
  }

  lemma AcceptedCanRecover(s: Snapshot, loaded: seq<Record>)
    requires Lists(loaded, s.rows) && Loadable(s.rows) && AcceptedUpTo(loaded, s.cfg.unique, |loaded|)
    ensures CanRecover(s, loaded) && OneBasedRecords(loaded)
  {
    AcceptedIff(loaded, s.cfg.unique);
    if s.cfg.unique {
      DistinctRecordsMeanDistinctJobs(loaded, s.rows);
    }
  }

  /** A recovery over rows that a queue has written. */
  method HydrateMoves(q: JobQueue, loaded: seq<Record>, ghost s: Snapshot) returns (outcome: Outcome)
    requires q.Shaped() && q.Timed() && q.clock >= 0.0 && s == SnapshotOf(q)
    requires Lists(loaded, q.store) && Loadable(q.store)
    modifies q, q.fifo, q.delayed, q.expiries
    ensures q.Shaped() && q.Timed()
    ensures outcome.Done? ==> q.Valid() && CanRecover(s, loaded) && SnapshotOf(q) == Recovered(s, loaded)
    ensures !outcome.Done? ==> SnapshotOf(q) == s.(rows := q.store)
    ensures !outcome.Done? && q.store != s.rows ==>
      s.mem.leased == map[] && CanRecover(s, loaded) && PartlyCleared(q.store, s.rows, loaded)
  {
    outcome := q.Hydrate(loaded);
    if outcome.Done? || q.store != s.rows {
      AcceptedCanRecover(s, loaded);
    }
  }

  // ----------------------------------------------- what snapshots of runs keep

  /** Memory and store agree; without memory, the store is one a queue may load. */
  ghost predicate Agrees(s: Snapshot) {
    match s
    case Live(_, clock, rows, mem, _) => Consistent(mem, rows, LedgerOf(rows), clock)
    case Halted(_, clock, rows) => clock >= 0.0 && Loadable(rows)
  }

  lemma {:induction false} RunKeeps(m: Machine, actions: seq<Action>)
    requires Inv(m) && CarefulRun(m, actions)
    ensures Inv(Run(m, actions))
  {
    if actions != [] {
      RunKeeps(m, actions[..|actions| - 1]);
      StepKeepsIff(Run(m, actions[..|actions| - 1]), actions[|actions| - 1]);
    }
  }

  lemma AtAgrees(m: Machine, s: Snapshot)
    requires Inv(m) && At(m, s)
    ensures Agrees(s)
  {
  }

  lemma AgreesMeansInv(s: Snapshot)
    requires Agrees(s)
    ensures Inv(MachineAt(s))
  {
  }

  /** Careful actions lead from the one snapshot to the other. */
  ghost predicate Moves(s: Snapshot, steps: seq<Action>, s': Snapshot) {
    Leads(s, steps, s') && Safely(s, steps)
  }

  lemma MovesOn(s: Snapshot, steps: seq<Action>, s': Snapshot, steps': seq<Action>, s'': Snapshot)
    requires Moves(s, steps, s') && Moves(s', steps', s'')
    ensures Moves(s, steps + steps', s'')
    ensures JobKeeping(s, steps) && JobKeeping(s', steps') ==> JobKeeping(s, steps + steps')
  {
    LeadsOn(s, steps, s', steps', s'');
    SafelyOn(s, steps, s', steps');
  }

  lemma MovesNowhere(s: Snapshot)
    ensures Moves(s, [], s) && JobKeeping(s, []) && SameProcess([]) && NoResets([]) && NoAdmin([])
  {
    LeadsNowhere(s);
    PlainIsSafe(s, []);
  }

  /** Agreement is kept wherever careful actions of a machine lead. */
  lemma AgreesOn(s: Snapshot, steps: seq<Action>, s': Snapshot)
    requires Agrees(s) && Moves(s, steps, s')
    ensures Agrees(s')
  {
    AgreesMeansInv(s);
    RunKeeps(MachineAt(s), steps);
    AtAgrees(Run(MachineAt(s), steps), s');
  }

  lemma NoStrayLeases(s: Snapshot)
    requires s.Live? && Agrees(s) && s.mem.leased == map[]
    ensures forall id :: id in s.rows ==> s.rows[id].lease.None?
  {
    forall id | id in s.rows
      ensures s.rows[id].lease.None?
    {
      assert id in LedgerOf(s.rows) && LedgerOf(s.rows)[id] == FromRecord(s.rows[id]);
    }
  }

  lemma AgreesMeansLoadable(s: Snapshot)
    requires Agrees(s)
    ensures Loadable(s.rows)
  {
    if s.Live? {
      ConsistentIsLoadable(s.mem, s.rows, LedgerOf(s.rows), s.clock);
    }
  }

  // ------------------------------------------------------- crash and recovery

  lemma RehydrateLeads(s: Snapshot, loaded: seq<Record>)
    requires CanRecover(s, loaded)
    ensures Moves(s, [Crash] + RecoverySteps(loaded), Recovered(s, loaded))
      && JobKeeping(s, [Crash] + RecoverySteps(loaded))
    ensures NoResets([Crash] + RecoverySteps(loaded)) && NoAdmin([Crash] + RecoverySteps(loaded))
  {
    RecoveryIsPlain(loaded, |loaded|, HydrateDone);
    PlainIsSafe(s, [Crash] + RecoverySteps(loaded));
    var halted := Halted(s.cfg, s.clock, s.rows);
    CrashLeads(s);
    HydrateLeads(halted, loaded);
    LeadsOn(s, [Crash], halted, RecoverySteps(loaded), Recovered(s, loaded));
  }

  /** Without leases a recovery that stopped half way has written nothing. */
  lemma NothingCleared(s: Snapshot, loaded: seq<Record>, rows: Store)
    requires s.Live? && Agrees(s) && s.mem.leased == map[] && Lists(loaded, s.rows)
      && PartlyCleared(rows, s.rows, loaded)
    ensures rows == s.rows
  {
    var n :| 0 <= n <= |loaded| && rows == ClearedStore(s.rows, loaded[..n]);
    NoStrayLeases(s);
    assert forall rec :: rec in loaded[..n] ==> rec in loaded;
    NothingToClear(s.rows, loaded[..n]);
  }

  /** `hydrate` on a queue in use is a crash and a recovery, or changes nothing. */
  method HydrateFollows(q: JobQueue) returns (outcome: Outcome, ghost steps: seq<Action>)
    requires q.Valid() && Agrees(SnapshotOf(q))
    modifies q, q.fifo, q.delayed, q.expiries
    ensures q.Valid() && Moves(old(SnapshotOf(q)), steps, SnapshotOf(q)) && JobKeeping(old(SnapshotOf(q)), steps)
    ensures NoResets(steps) && NoAdmin(steps)
  {
    ghost var s := SnapshotOf(q);
    AgreesMeansLoadable(s);
    var loaded := ListRows(q.store);
    outcome := HydrateMoves(q, loaded, s);
    if outcome.Done? {
      RehydrateLeads(s, loaded);
      steps := [Crash] + RecoverySteps(loaded);
    } else {
      if q.store != s.rows {
        NothingCleared(s, loaded, q.store);
      }
      MovesNowhere(s);
      steps := [];
    }
  }

  /** Recovery that failed and was given up with its process: some leases may be cleared. */
  lemma GivenUpLeads(s: Snapshot, loaded: seq<Record>, rows: Store) returns (steps: seq<Action>)
    requires s.Halted? && CanRecover(s, loaded) && PartlyCleared(rows, s.rows, loaded)
    ensures Moves(s, steps, s.(rows := rows)) && JobKeeping(s, steps) && NoResets(steps) && NoAdmin(steps)
  {
    var n :| 0 <= n <= |loaded| && rows == ClearedStore(s.rows, loaded[..n]);
    FailedHydrateLeads(s, loaded, n);
    steps := HydrateSteps(loaded, n) + [Crash];
    RecoveryIsPlain(loaded, n, Crash);
    PlainIsSafe(s, steps);
  }

  /** A new process over what an earlier one left. */
  method RestartFollows(cfg: Config, clock: real, rows: Store, reliable: bool)
      returns (q: JobQueue, outcome: Outcome, ghost steps: seq<Action>)
    requires clock >= 0.0 && Loadable(rows)
    ensures fresh(q) && fresh(q.fifo) && fresh(q.delayed) && fresh(q.expiries)
    ensures q.Shaped() && q.cfg == cfg && q.clock == clock
    ensures outcome.Done? ==> q.Valid() && Moves(Halted(cfg, clock, rows), steps, SnapshotOf(q))
    ensures !outcome.Done? ==> Moves(Halted(cfg, clock, rows), steps, Halted(cfg, clock, q.store))
    ensures JobKeeping(Halted(cfg, clock, rows), steps) && NoResets(steps) && NoAdmin(steps)
  {
    ghost var s := Halted(cfg, clock, rows);
    q := new JobQueue.Over(cfg, clock, rows, reliable);
    var loaded := ListRows(rows);
    ghost var born := SnapshotOf(q);
    outcome := HydrateMoves(q, loaded, born);
    if outcome.Done? {
      HydrateLeads(s, loaded);
      steps := RecoverySteps(loaded);
      RecoveryIsPlain(loaded, |loaded|, HydrateDone);
      PlainIsSafe(s, steps);
    } else if q.store != rows {
      steps := GivenUpLeads(s, loaded, q.store);
    } else {
      MovesNowhere(s);
      steps := [];
    }
  }

  // -------------------------------------------------------------------- calls

  /** What can happen to a queue: a call, a timer, time passing; its process ends, or starts again. */
  datatype Event =
    | Elapse(ms: real)
    | DelayTimer
    | LeaseTimer
    | Enqueue(item: Item, delayMs: real)
    | Claim
    | Dequeue
    | Ack(lease: LeasedRow)
    | Release(lease: LeasedRow)
    | ExtendLease(lease: LeasedRow, ttlMs: Option<real>)
    | Reschedule(lease: LeasedRow, item: Item, delayMs: real, attempt: Option<int>, handoff: Option<int>)
    | CancelJob(jobId: string)
    | RescheduleJob(jobId: string, delayMs: real)
    | PromoteJob(jobId: string)
    | Clear
    | ReplaceAll(items: seq<Item>)
    | Hydrate
    | Kill
    | Restart

  /** Attempts put in by a reschedule are at least 1, time does not run backwards, and a sequence of
      items is no longer than an array can be. */
  ghost predicate Proper(e: Event) {
    match e
    case Elapse(ms) => ms >= 0.0
    case Reschedule(lease, _, _, attempt, _) => (if attempt.Some? then attempt.value else lease.row.attempt) >= 1
    case ReplaceAll(items) => |items| <= ID_MAX
    case _ => true
  }

  /** Nothing here ends the process. */
  predicate KeepsProcess(e: Event) {
    !e.Hydrate? && !e.Kill? && !e.Restart?
  }

  /** Nothing here lets lease generations restart. */
  predicate KeepsGenerations(e: Event) {
    KeepsProcess(e) && !e.Clear? && !e.ReplaceAll?
  }

  /** A reschedule that takes effect keeps the application id of the row it replaces. */
  ghost predicate KeepsJob(s: Snapshot, e: Event) {
    e.Reschedule? && s.Live? && IsCurrent(s.mem.leased, e.lease) ==>
      JobIdOf(e.item) == JobIdOf(s.mem.leased[e.lease.row.id].row.item)
  }

  /** The event may cancel or move this row: it asks for the row's application id, or it resets. */
  ghost predicate Touches(s: Snapshot, e: Event, id: nat) {
    match e
    case CancelJob(jobId) => Concerns(s, jobId, id)
    case RescheduleJob(jobId, _) => Concerns(s, jobId, id)
    case PromoteJob(jobId) => Concerns(s, jobId, id)
    case Clear => true
    case ReplaceAll(_) => true
    case _ => false
  }

  /** Rows that the event does not touch are neither cancelled nor moved. */
  ghost predicate Touching(s: Snapshot, e: Event, steps: seq<Action>) {
    forall id :: !Touches(s, e, id) ==> Undisturbed(steps, id)
  }

  lemma PlainTouchesNothing(s: Snapshot, e: Event, steps: seq<Action>)
    requires NoResets(steps) && NoAdmin(steps)
    ensures Touching(s, e, steps)
  {
  }

  /** What serving one event within the process does. */
  ghost predicate Served(q: JobQueue, before: Snapshot, e: Event, steps: seq<Action>)
    reads q, q.fifo, q.delayed, q.expiries
  {
    && q.Valid() && Moves(before, steps, SnapshotOf(q)) && SameProcess(steps)
    && (KeepsGenerations(e) ==> NoResets(steps)) && (KeepsJob(before, e) ==> JobKeeping(before, steps))
    && Touching(before, e, steps)
  }

  lemma OrdinaryIsServed(q: JobQueue, before: Snapshot, e: Event, steps: seq<Action>)
    requires Follows(q, before, steps)
    ensures Served(q, before, e, steps)
  {
    PlainIsSafe(before, steps);
    PlainTouchesNothing(before, e, steps);
  }

  lemma JobCallIsServed(q: JobQueue, before: Snapshot, e: Event, jobId: string, steps: seq<Action>)
    requires FollowsForJob(q, before, jobId, steps)
    requires e == CancelJob(jobId) || (e.RescheduleJob? && e.jobId == jobId) || e == PromoteJob(jobId)
    ensures Served(q, before, e, steps)
  {
    PlainIsSafe(before, steps);
  }

  method ServeTimer(q: JobQueue, e: Event) returns (ghost steps: seq<Action>)
    requires q.Valid() && (e.Elapse? || e.DelayTimer? || e.LeaseTimer?) && Proper(e)
    modifies q, q.fifo, q.delayed, q.expiries
    ensures Follows(q, old(SnapshotOf(q)), steps)
  {
    match e
    case Elapse(ms) => steps := AdvanceFollows(q, ms);
    case DelayTimer => steps := PromoteFollows(q);
    case LeaseTimer => steps := LeaseTimerFollows(q);
  }

  predicate OnLease(e: Event) {
    e.Ack? || e.Release? || e.ExtendLease?
  }

  method ServeLease(q: JobQueue, e: Event) returns (outcome: Outcome, ghost steps: seq<Action>)
    requires q.Valid() && OnLease(e) && Proper(e)
    modifies q, q.fifo, q.delayed, q.expiries
    ensures Follows(q, old(SnapshotOf(q)), steps)
  {
    match e
    case Ack(lease) => outcome, steps := AckFollows(q, lease);
    case Release(lease) => outcome, steps := ReleaseFollows(q, lease);
    case ExtendLease(lease, ttlMs) => outcome, steps := ExtendFollows(q, lease, ttlMs);
  }

  predicate OnQueue(e: Event) {
    e.Enqueue? || e.Claim? || e.Dequeue?
  }

  predicate OnJob(e: Event) {
    e.CancelJob? || e.RescheduleJob? || e.PromoteJob?
  }

  method ServeQueue(q: JobQueue, e: Event) returns (outcome: Outcome, ghost steps: seq<Action>)
    requires q.Valid() && OnQueue(e)
    modifies q, q.fifo, q.delayed, q.expiries
    ensures Follows(q, old(SnapshotOf(q)), steps)
  {
    var item;
    match e
    case Enqueue(item, delayMs) => outcome, steps := EnqueueFollows(q, item, delayMs);
    case Claim => outcome, steps := ClaimFollows(q);
    case Dequeue => outcome, item, steps := DequeueFollows(q);
  }

  method ServeJob(q: JobQueue, e: Event) returns (outcome: Outcome, ghost steps: seq<Action>)
    requires q.Valid() && OnJob(e)
    modifies q, q.fifo, q.delayed, q.expiries
    ensures FollowsForJob(q, old(SnapshotOf(q)), e.jobId, steps)
  {
    match e
    case CancelJob(jobId) => outcome, steps := CancelFollows(q, jobId);
    case RescheduleJob(jobId, delayMs) => outcome, steps := RescheduleJobFollows(q, jobId, delayMs);
    case PromoteJob(jobId) => outcome, steps := PromoteJobFollows(q, jobId);
  }

  method ServeReschedule(q: JobQueue, e: Event) returns (outcome: Outcome, ghost steps: seq<Action>)
    requires q.Valid() && e.Reschedule? && Proper(e)
    modifies q, q.fifo, q.delayed, q.expiries
    ensures Served(q, old(SnapshotOf(q)), e, steps)
  {
    outcome, steps := RescheduleFollows(q, e.lease, e.item, e.delayMs, e.attempt, e.handoff);
    RescheduleIsServed(q, old(SnapshotOf(q)), e, steps);
  }

  lemma RescheduleIsServed(q: JobQueue, before: Snapshot, e: Event, steps: seq<Action>)
    requires q.Valid() && Moves(before, steps, SnapshotOf(q)) && SameProcess(steps) && NoResets(steps)
    requires NoAdmin(steps) && (KeepsJob(before, e) ==> JobKeeping(before, steps))
    ensures Served(q, before, e, steps)
  {
    PlainTouchesNothing(before, e, steps);
  }

  method ServeReset(q: JobQueue, e: Event) returns (outcome: Outcome, ghost steps: seq<Action>)
    requires q.Valid() && (e.Clear? || e.ReplaceAll?) && Proper(e)
    modifies q, q.fifo, q.delayed, q.expiries
    ensures Served(q, old(SnapshotOf(q)), e, steps)
  {
    if e.Clear? {
      outcome, steps := ClearFollows(q);
    } else {
      outcome, steps := ReplaceFollows(q, e.items);
    }
  }

  /** Any one call or timer of a running queue. */
  method Serve(q: JobQueue, e: Event) returns (ghost steps: seq<Action>)
    requires q.Valid() && KeepsProcess(e) && Proper(e)
    modifies q, q.fifo, q.delayed, q.expiries
    ensures Served(q, old(SnapshotOf(q)), e, steps)
  {
    var outcome;
    if e.Reschedule? {
      outcome, steps := ServeReschedule(q, e);
    } else if e.Clear? || e.ReplaceAll? {
      outcome, steps := ServeReset(q, e);
    } else if OnJob(e) {
      outcome, steps := ServeJob(q, e);
      JobCallIsServed(q, old(SnapshotOf(q)), e, e.jobId, steps);
    } else {
      steps := ServeOrdinary(q, e);
      OrdinaryIsServed(q, old(SnapshotOf(q)), e, steps);
    }
  }

  method ServeOrdinary(q: JobQueue, e: Event) returns (ghost steps: seq<Action>)
    requires q.Valid() && KeepsGenerations(e) && Proper(e) && !e.Reschedule? && !OnJob(e)
    modifies q, q.fifo, q.delayed, q.expiries
    ensures Follows(q, old(SnapshotOf(q)), steps)
  {
    var outcome;
    if OnLease(e) {
      outcome, steps := ServeLease(q, e);
    } else if OnQueue(e) {
      outcome, steps := ServeQueue(q, e);
    } else {
      steps := ServeTimer(q, e);
    }
  }

  /** The queue after some events of one process. */
  ghost predicate ServedSoFar(q: JobQueue, before: Snapshot, keeps: bool, steps: seq<Action>)
    reads q, q.fifo, q.delayed, q.expiries
  {
    q.Valid() && Moves(before, steps, SnapshotOf(q)) && SameProcess(steps) && (keeps ==> NoResets(steps))
  }

  lemma ServedThen(q: JobQueue, before: Snapshot, between: Snapshot, keeps: bool, e: Event, steps: seq<Action>,
                   more: seq<Action>)
    requires Moves(before, steps, between) && SameProcess(steps) && (keeps ==> NoResets(steps) && KeepsGenerations(e))
    requires Served(q, between, e, more)
    ensures ServedSoFar(q, before, keeps, steps + more)
  {
    MovesOn(before, steps, between, more, SnapshotOf(q));
  }

  /** Any number of them. */
  method ServeAll(q: JobQueue, events: seq<Event>) returns (ghost steps: seq<Action>)
    requires q.Valid() && forall e :: e in events ==> KeepsProcess(e) && Proper(e)
    modifies q, q.fifo, q.delayed, q.expiries
    ensures ServedSoFar(q, old(SnapshotOf(q)), forall e :: e in events ==> KeepsGenerations(e), steps)
  {
    steps := [];
    ghost var keeps := forall e :: e in events ==> KeepsGenerations(e);
    MovesNowhere(SnapshotOf(q));
    for i := 0 to |events|
      invariant ServedSoFar(q, old(SnapshotOf(q)), keeps, steps)
    {
      ghost var between := SnapshotOf(q);
      ghost var more := Serve(q, events[i]);
      ServedThen(q, old(SnapshotOf(q)), between, keeps, events[i], steps, more);
      steps := steps + more;
    }
  }

  // ----------------------------------------------------------------- fencing

  /** A generation that was handed out and belongs to no lease any more. */
  ghost predicate Gone(s: Snapshot, generation: nat)
    requires s.Live?
  {
    generation <= s.mem.generations && forall id :: id in s.mem.leased ==> s.mem.leased[id].generation != generation
  }

  lemma StaysInProcess(m: Machine, a: Action)
    requires m.phase.Up? && !a.Crash?
    ensures Exec(m, a).phase.Up?
  {
  }

  lemma {:induction false} DeadInProcess(m: Machine, steps: seq<Action>, generation: nat)
    requires Dead(m, generation) && !ResetInFlight(m) && SameProcess(steps) && NoResets(steps)
    ensures Dead(Run(m, steps), generation)
  {
    if steps != [] {
      var init, last := steps[..|steps| - 1], steps[|steps| - 1];
      DeadInProcess(m, init, generation);
      NoResetInRun(m, init);
      assert last in steps;
      StaysInProcess(Run(m, init), last);
      DeadStaysDead(Run(m, init), last, generation);
    }
  }

  lemma GoneStaysGone(s: Snapshot, steps: seq<Action>, s': Snapshot, generation: nat)
    requires s.Live? && s'.Live? && Leads(s, steps, s') && SameProcess(steps) && NoResets(steps) && Gone(s, generation)
    ensures Gone(s', generation)
  {
    DeadInProcess(MachineAt(s), steps, generation);
  }

  lemma EndedIsGone(s: Snapshot, s': Snapshot, lease: LeasedRow)
    requires s.Live? && s'.Live? && Agrees(s) && IsCurrent(s.mem.leased, lease)
    requires s'.mem.leased == s.mem.leased - {lease.row.id} && s'.mem.generations == s.mem.generations
    ensures Gone(s', lease.generation)
  {
  }

  /** A lease that was settled is refused by every later call in the same process, whatever
      else happens in between, including new claims of the same row. */
  method SettledStaysRefused(q: JobQueue, lease: LeasedRow, settle: Event, events: seq<Event>) returns (settled: bool)
    requires q.Valid() && Agrees(SnapshotOf(q)) && Proper(settle)
    requires settle == Ack(lease) || settle == Release(lease) || (settle.Reschedule? && settle.lease == lease)
    requires forall e :: e in events ==> KeepsGenerations(e) && Proper(e)
    modifies q, q.fifo, q.delayed, q.expiries
    ensures q.Valid() && (settled ==> !q.Current(lease))
  {
    ghost var s := SnapshotOf(q);
    settled := SettleWith(q, lease, settle);
    ghost var ended := SnapshotOf(q);
    if settled {
      EndedIsGone(s, ended, lease);
    }
    ghost var steps := ServeAll(q, events);
    if settled {
      GoneStaysGone(ended, steps, SnapshotOf(q), lease.generation);
    }
  }

  /** One of the three ways to end a lease. */
  method SettleWith(q: JobQueue, lease: LeasedRow, settle: Event) returns (settled: bool)
    requires q.Valid() && Proper(settle)
    requires settle == Ack(lease) || settle == Release(lease) || (settle.Reschedule? && settle.lease == lease)
    modifies q, q.fifo, q.delayed, q.expiries
    ensures q.Valid() && (settled ==> old(q.Current(lease)) && q.generations == old(q.generations))
    ensures settled ==> q.leased == old(q.leased) - {lease.row.id}
  {
    var outcome;
    if settle.Ack? {
      outcome := q.Ack(lease);
    } else if settle.Release? {
      outcome := q.Release(lease);
    } else {
      outcome := q.Reschedule(lease, settle.item, settle.delayMs, settle.attempt, settle.handoff);
    }
    settled := outcome.Done?;
  }

  // ---------------------------------------------------------------- processes

  /** What there is to see: the queue while its process is up, its store while it is down. */
  ghost function View(up: bool, q: JobQueue): Snapshot
    requires q.fifo.Aligned()
    reads q, q.fifo
  {
    if up then SnapshotOf(q) else Halted(q.cfg, q.clock, q.store)
  }

  /** While the process is down the object only stands for its store. */
  ghost predicate Working(up: bool, q: JobQueue)
    reads q, q.fifo, q.delayed, q.expiries
  {
    q.Shaped() && (up ==> q.Valid()) && Agrees(View(up, q))
  }

  /** Careful actions lead through the event; they keep application ids if it does, and they
      leave the rows alone that it does not touch. */
  ghost predicate Effects(s: Snapshot, e: Event, steps: seq<Action>, s': Snapshot) {
    Moves(s, steps, s') && (KeepsJob(s, e) ==> JobKeeping(s, steps)) && Touching(s, e, steps)
  }

  /** Only a restart does something now, and time passes. */
  method StepStopped(q: JobQueue, e: Event) returns (up': bool, q': JobQueue, ghost steps: seq<Action>)
    requires Working(false, q) && Proper(e)
    ensures q'.Shaped() && (up' ==> q'.Valid()) && Effects(View(false, q), e, steps, View(up', q'))
    ensures fresh(q') && fresh(q'.fifo) && fresh(q'.delayed) && fresh(q'.expiries)
  {
    if e.Restart? {
      var outcome;
      q', outcome, steps := RestartFollows(q.cfg, q.clock, q.store, q.reliable);
      up' := outcome.Done?;
    } else {
      var ms := if e.Elapse? then e.ms else 0.0;
      TickGoes(Halted(q.cfg, q.clock, q.store), ms);
      PlainIsSafe(Halted(q.cfg, q.clock, q.store), [Tick(ms)]);
      up' := false;
      q' := new JobQueue.Over(q.cfg, q.clock + ms, q.store, q.reliable);
      steps := [Tick(ms)];
    }
    PlainTouchesNothing(View(false, q), e, steps);
  }

  method StepServing(q: JobQueue, e: Event) returns (up': bool, ghost steps: seq<Action>)
    requires Working(true, q) && Proper(e)
    modifies q, q.fifo, q.delayed, q.expiries
    ensures q.Shaped() && (up' ==> q.Valid()) && Effects(old(View(true, q)), e, steps, View(up', q))
  {
    up' := !e.Kill?;
    if KeepsProcess(e) {
      steps := Serve(q, e);
    } else if e.Hydrate? {
      var outcome;
      outcome, steps := HydrateFollows(q);
      PlainTouchesNothing(old(View(true, q)), e, steps);
    } else if e.Kill? {
      CrashLeads(SnapshotOf(q));
      PlainIsSafe(SnapshotOf(q), [Crash]);
      steps := [Crash];
      PlainTouchesNothing(SnapshotOf(q), e, steps);
    } else {
      MovesNowhere(SnapshotOf(q));
      steps := [];
      PlainTouchesNothing(SnapshotOf(q), e, steps);
    }
  }

  method Step(up: bool, q: JobQueue, e: Event) returns (up': bool, q': JobQueue, ghost steps: seq<Action>)
    requires Working(up, q) && Proper(e)
    modifies q, q.fifo, q.delayed, q.expiries
    ensures Working(up', q') && Effects(old(View(up, q)), e, steps, View(up', q'))
    ensures q' == q || (fresh(q') && fresh(q'.fifo) && fresh(q'.delayed) && fresh(q'.expiries))
  {
    ghost var s := View(up, q);
    q' := q;
    if up {
      up', steps := StepServing(q, e);
    } else {
      up', q', steps := StepStopped(q, e);
    }
    AgreesOn(s, steps, View(up', q'));
  }

  ghost predicate Passes(s: Snapshot, e: Event, s': Snapshot) {
    exists steps :: Effects(s, e, steps, s')
  }

  /** One snapshot before each event, and one after the last. */
  ghost predicate Traced(trace: seq<Snapshot>, events: seq<Event>, n: nat)
    requires n <= |events|
  {
    |trace| == n + 1 && forall i :: 0 <= i < n ==> Passes(trace[i], events[i], trace[i + 1])
  }

  lemma TracedThen(trace: seq<Snapshot>, events: seq<Event>, n: nat, steps: seq<Action>, s': Snapshot)
    requires n < |events| && Traced(trace, events, n) && Effects(trace[n], events[n], steps, s')
    ensures Traced(trace + [s'], events, n + 1)
  {
    assert Passes(trace[n], events[n], s');
  }

  /** Any sequence of calls, timers, crashes and restarts, from any start, is a careful run of
      the state machine; what `Durability`, `CrashRecovery`, `LeaseFencing` and `Conservation`
      prove of runs holds of the queue and its store. */
  method RunEvents(up: bool, q: JobQueue, events: seq<Event>)
      returns (up': bool, q': JobQueue, ghost steps: seq<Action>, ghost trace: seq<Snapshot>)
    requires Working(up, q) && forall e :: e in events ==> Proper(e)
    modifies q, q.fifo, q.delayed, q.expiries
    ensures Working(up', q') && Moves(old(View(up, q)), steps, View(up', q'))
    ensures Traced(trace, events, |events|) && trace[0] == old(View(up, q)) && trace[|events|] == View(up', q')
    ensures q' == q || (fresh(q') && fresh(q'.fifo) && fresh(q'.delayed) && fresh(q'.expiries))
  {
    up', q', steps, trace := up, q, [], [View(up, q)];
    MovesNowhere(View(up, q));
    for i := 0 to |events|
      invariant Working(up', q') && Moves(old(View(up, q)), steps, View(up', q'))
      invariant Traced(trace, events, i) && trace[0] == old(View(up, q)) && trace[i] == View(up', q')
      invariant q' == q || (fresh(q') && fresh(q'.fifo) && fresh(q'.delayed) && fresh(q'.expiries))
    {
      ghost var between := View(up', q');
      ghost var more;
      up', q', more := Step(up', q', events[i]);
      MovesOn(old(View(up, q)), steps, between, more, View(up', q'));
      TracedThen(trace, events, i, more, View(up', q'));
      steps, trace := steps + more, trace + [View(up', q')];
    }
  }

  // --------------------------------------------------------------- unique jobs

  /** The index maps an application id to a row id exactly when that stored row carries it. */
  ghost predicate IndexRight(s: Snapshot) {
    s.Live? && s.cfg.unique ==> IndexAgrees(s.jobs, LedgerOf(s.rows))
  }

  lemma IndexOn(s: Snapshot, steps: seq<Action>, s': Snapshot)
    requires Agrees(s) && IndexRight(s) && Moves(s, steps, s') && JobKeeping(s, steps)
    ensures Agrees(s') && IndexRight(s')
  {
    AgreesMeansInv(s);
    RunKeepsIndex(MachineAt(s), steps);
    AtAgrees(Run(MachineAt(s), steps), s');
  }

  /** Where every reschedule keeps the application id, the index stays right. */
  lemma {:induction false} IndexStaysRight(trace: seq<Snapshot>, events: seq<Event>, n: nat)
    requires n <= |events| && Traced(trace, events, n) && Agrees(trace[0]) && IndexRight(trace[0])
    requires forall i :: 0 <= i < n ==> KeepsJob(trace[i], events[i])
    ensures Agrees(trace[n]) && IndexRight(trace[n])
  {
    if n > 0 {
      var k: nat := n - 1;
      assert forall i :: 0 <= i < n ==> trace[..n][i] == trace[i];
      IndexStaysRight(trace[..n], events, k);
      assert Passes(trace[k], events[k], trace[n]);
      var steps :| Effects(trace[k], events[k], steps, trace[n]);
      IndexOn(trace[k], steps, trace[n]);
    }
  }

  // ------------------------------------------------------ what follows for queues

  /** Everything is in memory and in the store alike: each stored row in one place under an id the
      counter has passed, and a process over the store, at any later time, would recover exactly
      the rows in memory. */
  ghost predicate Durable(s: Snapshot)
    requires s.Live?
  {
    && Size(s.mem) == |s.rows|
    && (forall id :: id in s.rows ==> InOnePlace(s.mem, id) && 1 <= id <= s.mem.counter)
    && (forall now :: now >= s.clock ==> Recovers(s.mem, LedgerOf(s.rows), now, HydratedMemory(s.rows, now)))
  }

  lemma AgreesMeansDurable(s: Snapshot)
    requires s.Live? && Agrees(s)
    ensures Durable(s)
  {
    var ledger := LedgerOf(s.rows);
    ConsistentCounts(s.mem, s.rows, ledger, s.clock);
    assert ledger.Keys == s.rows.Keys;
    forall now | now >= s.clock
      ensures Recovers(s.mem, ledger, now, HydratedMemory(s.rows, now))
    {
      ConsistentRecovers(s.mem, s.rows, ledger, s.clock, now);
    }
  }

  /** A new queue over an empty store, through any events. */
  method RunNewQueue(cfg: Config, clock: real, reliable: bool, events: seq<Event>)
      returns (up: bool, q: JobQueue, ghost actions: seq<Action>, ghost trace: seq<Snapshot>)
    requires clock >= 0.0 && forall e :: e in events ==> Proper(e)
    ensures Working(up, q) && At(Run(Started(cfg, clock), actions), View(up, q))
      && CarefulRun(Started(cfg, clock), actions)
    ensures up ==> Durable(SnapshotOf(q))
    ensures Traced(trace, events, |events|) && trace[|events|] == View(up, q)
    ensures (forall i :: 0 <= i < |events| ==> KeepsJob(trace[i], events[i])) ==> IndexRight(View(up, q))
  {
    q := new JobQueue(cfg, clock, reliable);
    NewQueueIsStarted(q);
    up, q, actions, trace := RunEvents(true, q, events);
    if up {
      AgreesMeansDurable(SnapshotOf(q));
    }
    if forall i :: 0 <= i < |events| ==> KeepsJob(trace[i], events[i]) {
      IndexStaysRight(trace, events, |events|);
    }
  }

  /** Within one process, whatever `clear` and `replaceAll` come in between, a new queue never
      holds more rows than `maxSize`. */
  method ServeNewQueue(cfg: Config, clock: real, reliable: bool, events: seq<Event>) returns (q: JobQueue)
    requires clock >= 0.0 && cfg.maxSize.Some? && forall e :: e in events ==> KeepsProcess(e) && Proper(e)
    ensures q.Valid() && Size(q.Mem()) <= cfg.maxSize.value
  {
    q := new JobQueue(cfg, clock, reliable);
    NewQueueIsStarted(q);
    ghost var steps := ServeAll(q, events);
    StaysWithinLimit(cfg, clock, steps, SnapshotOf(q));
  }

  lemma StaysWithinLimit(cfg: Config, clock: real, steps: seq<Action>, s: Snapshot)
    requires clock >= 0.0 && cfg.maxSize.Some? && SameProcess(steps) && CarefulRun(Started(cfg, clock), steps)
    requires s.Live? && At(Run(Started(cfg, clock), steps), s)
    ensures Size(s.mem) <= cfg.maxSize.value
  {
    NeverAboveMaxSize(cfg, clock, steps);
  }

  lemma NewQueueIsStarted(q: JobQueue)
    requires q.Valid() && q.store == map[] && q.index == map[] && q.Mem() == Memory([], map[], map[], 0, 0)
    ensures At(Started(q.cfg, q.clock), SnapshotOf(q)) && Agrees(SnapshotOf(q)) && IndexRight(SnapshotOf(q))
  {
    StartedIsStart(q.cfg, q.clock);
    EveryRunKeeps(Started(q.cfg, q.clock), []);
    AtAgrees(Started(q.cfg, q.clock), SnapshotOf(q));
  }
}
