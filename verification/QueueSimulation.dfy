/** The queue object follows the state machine: what a call does to a queue is where some
    actions lead, so any sequence of calls, timers, crashes and restarts is a run. */
module QueueSimulation {
  import opened Options
  import opened Records
  import opened PendingRows
  import opened QueueModel
  import opened DurableMachine
  import opened Durability
  import opened Hydrations
  import opened QueueParts
  import opened QueueRuns
  import opened QueueCalls
  import opened JobQueues

  ghost function SnapshotOf(q: JobQueue): Snapshot
    requires q.fifo.Aligned()
    reads q, q.fifo
  {
    Live(q.cfg, q.clock, q.store, q.Mem(), q.index)
  }

  /** The call moved the queue where these actions lead. */
  ghost predicate Follows(q: JobQueue, before: Snapshot, steps: seq<Action>)
    reads q, q.fifo, q.delayed, q.expiries
  {
    q.Valid() && Goes(before, steps, SnapshotOf(q))
  }

  // ------------------------------------------------------------------ timers

  method AdvanceFollows(q: JobQueue, elapsed: real) returns (ghost steps: seq<Action>)
    requires q.Valid() && elapsed >= 0.0
    modifies q
    ensures Follows(q, old(SnapshotOf(q)), steps)
  {
    TickGoes(SnapshotOf(q), elapsed);
    q.Advance(elapsed);
    steps := [Tick(elapsed)];
  }

  method PromoteFollows(q: JobQueue) returns (ghost steps: seq<Action>)
    requires q.Valid()
    modifies q, q.fifo, q.delayed
    ensures Follows(q, old(SnapshotOf(q)), steps)
  {
    ghost var s := SnapshotOf(q);
    ghost var order := q.Promote();
    assert SnapshotOf(q) == s.(mem := Promoted(s.mem, order));
    PromoteGoes(s, order);
    steps := [Promote(order)];
  }

  method LeaseTimerFollows(q: JobQueue) returns (ghost steps: seq<Action>)
    requires q.Valid()
    modifies q, q.fifo, q.expiries
    ensures Follows(q, old(SnapshotOf(q)), steps)
  {
    var ok;
    ghost var ids;
    ok, ids := q.LeaseTimerFires();
    ReclaimGoes(old(SnapshotOf(q)), ids);
    steps := ReclaimSteps(ids);
  }

  // -------------------------------------------------------- lease operations

  method AckFollows(q: JobQueue, lease: LeasedRow) returns (outcome: Outcome, ghost steps: seq<Action>)
    requires q.Valid()
    modifies q, q.expiries
    ensures Follows(q, old(SnapshotOf(q)), steps) && (outcome.Mismatch? <==> !old(q.Current(lease)))
    ensures outcome.Done? ==> steps == Taken(BeginAck(lease.row.id, lease.generation))
  {
    ghost var s := SnapshotOf(q);
    GoesNowhere(s);
    if q.Current(lease) {
      AckGoes(s, lease);
    }
    outcome := q.Ack(lease);
    steps := if outcome.Done? then Taken(BeginAck(lease.row.id, lease.generation)) else [];
    assert !outcome.Done? ==> SnapshotOf(q) == s;
  }

  method ReleaseFollows(q: JobQueue, lease: LeasedRow) returns (outcome: Outcome, ghost steps: seq<Action>)
    requires q.Valid()
    modifies q, q.fifo, q.expiries
    ensures Follows(q, old(SnapshotOf(q)), steps) && (outcome.Mismatch? <==> !old(q.Current(lease)))
    ensures outcome.Done? ==> steps == Taken(BeginRelease(lease.row.id, lease.generation))
  {
    ghost var s := SnapshotOf(q);
    GoesNowhere(s);
    if q.Current(lease) {
      ReleaseGoes(s, lease);
    }
    outcome := q.Release(lease);
    steps := if outcome.Done? then Taken(BeginRelease(lease.row.id, lease.generation)) else [];
    assert !outcome.Done? ==> SnapshotOf(q) == s;
  }

  /** The time to live an extension asks for, or else the queue's own. */
  function TtlOf(requestedTtlMs: Option<real>, cfg: Config): real {
    (if requestedTtlMs.Some? then requestedTtlMs else cfg.leaseTtl).GetOr(0.0)
  }

  lemma ExtendIsExtending(q: JobQueue, s: Snapshot, lease: LeasedRow, ttlMs: real, deadline: Option<real>,
                          outcome: Outcome)
    requires q.fifo.Aligned() && s.Live? && SnapshotOf(q) == s.(mem := q.Mem(), rows := q.store, jobs := q.index)
    requires deadline.Some? ==> ttlMs >= 1.0 && deadline.value == s.clock + ttlMs
    requires q.ExtendResult(outcome, lease, deadline, s.mem, s.rows, s.jobs)
    ensures Extending(s, SnapshotOf(q), lease, ttlMs, outcome)
  {
  }

  method ExtendFollows(q: JobQueue, lease: LeasedRow, requestedTtlMs: Option<real>)
      returns (outcome: Outcome, ghost steps: seq<Action>)
    requires q.Valid()
    modifies q, q.expiries
    ensures Follows(q, old(SnapshotOf(q)), steps)
  {
    ghost var s, ttlMs := SnapshotOf(q), TtlOf(requestedTtlMs, q.cfg);
    ghost var deadline := q.DeadlineAfter(requestedTtlMs, q.clock);
    outcome := q.ExtendLease(lease, requestedTtlMs);
    ExtendIsExtending(q, s, lease, ttlMs, deadline, outcome);
    ExtendingGoes(s, SnapshotOf(q), lease, ttlMs, outcome);
    steps := ExtendSteps(lease, ttlMs, outcome);
  }

  lemma RescheduleIsPutting(q: JobQueue, s: Snapshot, lease: LeasedRow, row: QueueRow, delayMs: real, outcome: Outcome)
    requires q.fifo.Aligned() && s.Live? && SnapshotOf(q) == s.(mem := q.Mem(), rows := q.store, jobs := q.index)
    requires s.clock >= 0.0 && row.id == lease.row.id
    requires q.RescheduleResult(outcome, row, delayMs, DueAt(s.clock, delayMs), IsCurrent(s.mem.leased, lease), s.mem,
                                s.rows, s.jobs)
    ensures PuttingAgain(s, SnapshotOf(q), lease, row, delayMs, outcome)
  {
  }

  /** Whatever the attempt. The queue stays fit for every call exactly when the actions are careful. */
  method RescheduleFollows(q: JobQueue, lease: LeasedRow, item: Item, delayMs: real, attempt: Option<int>,
                           handoff: Option<int>)
      returns (outcome: Outcome, ghost steps: seq<Action>)
    requires q.Valid()
    modifies q, q.fifo, q.delayed, q.expiries
    ensures q.Shaped() && q.Timed() && Leads(old(SnapshotOf(q)), steps, SnapshotOf(q))
    ensures SameProcess(steps) && NoResets(steps) && NoAdmin(steps)
    ensures q.Valid() <==> !outcome.Done? || Rescheduled(lease, item, attempt, handoff).attempt >= 1
    ensures q.Valid() <==> Safely(old(SnapshotOf(q)), steps)
    ensures outcome.Done? ==> old(q.Current(lease))
    ensures JobKeeping(old(SnapshotOf(q)), steps) <==>
      !outcome.Done? || (old(q.Current(lease)) && JobIdOf(item) == JobIdOf(old(q.leased)[lease.row.id].row.item))
  {
    ghost var s, row := SnapshotOf(q), Rescheduled(lease, item, attempt, handoff);
    outcome := q.Reschedule(lease, item, delayMs, attempt, handoff);
    RescheduleIsPutting(q, s, lease, row, delayMs, outcome);
    PuttingAgainLeads(s, SnapshotOf(q), lease, row, delayMs, outcome);
    steps := PutAgainSteps(s, lease, row, delayMs, outcome);
  }

  // ------------------------------------------------------------------ resets

  method ClearFollows(q: JobQueue) returns (outcome: Outcome, ghost steps: seq<Action>)
    requires q.Valid()
    modifies q, q.fifo, q.delayed, q.expiries
    ensures q.Valid() && Leads(old(SnapshotOf(q)), steps, SnapshotOf(q))
    ensures Safely(old(SnapshotOf(q)), steps) && JobKeeping(old(SnapshotOf(q)), steps) && SameProcess(steps)
  {
    ghost var s := SnapshotOf(q);
    LeadsNowhere(s);
    PlainIsSafe(s, []);
    ClearLeads(s);
    ResetIsSafe(s, BeginClear);
    outcome := q.Clear();
    steps := if outcome.Done? then Taken(BeginClear) else [];
    assert !outcome.Done? ==> SnapshotOf(q) == s;
  }

  lemma ReplaceIsReplacing(q: JobQueue, s: Snapshot, items: seq<Item>, outcome: Outcome)
    requires q.fifo.Aligned() && s.Live? && SnapshotOf(q) == s.(mem := q.Mem(), rows := q.store, jobs := q.index)
    requires |items| <= ID_MAX && q.ReplaceResult(outcome, items, s.mem, s.rows, s.jobs)
    ensures Replacing(s, SnapshotOf(q), items, outcome)
  {
  }

  method ReplaceFollows(q: JobQueue, items: seq<Item>) returns (outcome: Outcome, ghost steps: seq<Action>)
    requires q.Valid() && |items| <= ID_MAX
    modifies q, q.fifo, q.delayed, q.expiries
    ensures q.Valid() && Leads(old(SnapshotOf(q)), steps, SnapshotOf(q))
    ensures Safely(old(SnapshotOf(q)), steps) && JobKeeping(old(SnapshotOf(q)), steps) && SameProcess(steps)
  {
    ghost var s := SnapshotOf(q);
    outcome := q.ReplaceAll(items);
    ReplaceIsReplacing(q, s, items, outcome);
    ReplacingLeads(s, SnapshotOf(q), items, outcome);
    steps := ReplaceSteps(items, outcome);
  }

  // ------------------------------------------------------------------ enqueue

  lemma EnqueueIsEnqueuing(q: JobQueue, s: Snapshot, item: Item, delayMs: real, outcome: Outcome)
    requires q.fifo.Aligned() && s.Live? && SnapshotOf(q) == s.(mem := q.Mem(), rows := q.store, jobs := q.index)
    requires s.clock >= 0.0 && (outcome.InvalidOption? <==> delayMs < 0.0)
    requires outcome.IdSpaceExhausted? <==> delayMs >= 0.0 && s.mem.counter >= ID_MAX
    requires outcome.InvalidOption? || outcome.IdSpaceExhausted? ==> SnapshotOf(q) == s
    requires delayMs >= 0.0 && s.mem.counter < ID_MAX ==>
      q.EnqueueResult(outcome, Row(s.mem.counter + 1, item, 1, 0), DueAt(s.clock, delayMs), Spent(s.mem), s.rows,
                      s.jobs)
    ensures Enqueuing(s, SnapshotOf(q), item, delayMs, outcome)
  {
  }

  method EnqueueMoves(q: JobQueue, item: Item, delayMs: real) returns (outcome: Outcome)
    requires q.Valid()
    modifies q, q.fifo, q.delayed
    ensures q.Valid() && Enqueuing(old(SnapshotOf(q)), SnapshotOf(q), item, delayMs, outcome)
    ensures outcome.Done? ==>
      Arrives(q.Mem(), q.store, Row(old(q.ids.value) + 1, item, 1, 0), old(q.clock), delayMs)
  {
    ghost var s := SnapshotOf(q);
    outcome := q.Enqueue(item, delayMs);
    EnqueueIsEnqueuing(q, s, item, delayMs, outcome);
  }

  method EnqueueFollows(q: JobQueue, item: Item, delayMs: real) returns (outcome: Outcome, ghost steps: seq<Action>)
    requires q.Valid()
    modifies q, q.fifo, q.delayed
    ensures Follows(q, old(SnapshotOf(q)), steps)
    ensures outcome.Done? ==>
      Arrives(q.Mem(), q.store, Row(old(q.ids.value) + 1, item, 1, 0), old(q.clock), delayMs)
  {
    outcome := EnqueueMoves(q, item, delayMs);
    EnqueuingGoes(old(SnapshotOf(q)), SnapshotOf(q), item, delayMs, outcome);
    steps := EnqueueSteps(old(SnapshotOf(q)), item, delayMs, outcome);
  }

  // ----------------------------------------------------------- claim, dequeue

  method DequeueMoves(q: JobQueue, ghost s: Snapshot)
      returns (outcome: Outcome, item: Option<Item>, ghost order: seq<nat>)
    requires q.Valid() && s == SnapshotOf(q)
    modifies q, q.fifo, q.delayed
    ensures q.Valid() && DueOrder(s.mem.delayed, s.clock, order)
    ensures Dequeuing(s.(mem := Promoted(s.mem, order)), SnapshotOf(q), outcome)
  {
    outcome, item, order := q.TryDequeue();
  }

  method DequeueFollows(q: JobQueue) returns (outcome: Outcome, item: Option<Item>, ghost steps: seq<Action>)
    requires q.Valid()
    modifies q, q.fifo, q.delayed
    ensures Follows(q, old(SnapshotOf(q)), steps)
  {
    ghost var s, order := SnapshotOf(q), [];
    outcome, item, order := DequeueMoves(q, s);
    ghost var ready := s.(mem := Promoted(s.mem, order));
    PromoteGoes(s, order);
    DequeuingGoes(ready, SnapshotOf(q), outcome);
    steps := [Promote(order)] + HeadSteps(BeginDequeue, outcome);
    GoesOn(s, [Promote(order)], ready, HeadSteps(BeginDequeue, outcome), SnapshotOf(q));
  }

  lemma ClaimIsClaiming(q: JobQueue, s: Snapshot, deadline: Option<real>, prepared: bool, mem: Memory, rows: Store,
                        outcome: Outcome)
    requires q.fifo.Aligned() && s.Live? && SnapshotOf(q) == s.(mem := q.Mem(), rows := q.store)
    requires deadline == LeaseDeadline(s) && (prepared ==> q.ClaimResult(outcome, deadline, mem, rows))
    requires !prepared ==> outcome.StoreFailed? && q.Mem() == mem && q.store == rows
    ensures Claiming(s.(mem := mem, rows := rows), SnapshotOf(q), outcome)
  {
  }

  /** `ready` is where promotion and reclaim, the first half of a claim, lead. */
  method ClaimMoves(q: JobQueue, ghost s: Snapshot, ghost deadline: Option<real>)
      returns (outcome: Outcome, ghost order: seq<nat>, ghost ids: seq<nat>, ghost ready: Snapshot)
    requires q.Valid() && s == SnapshotOf(q) && deadline == q.LeaseDeadline() == LeaseDeadline(s)
    modifies q, q.fifo, q.delayed, q.expiries
    ensures q.Valid() && DueOrder(s.mem.delayed, s.clock, order) && Reclaiming(s.mem.leased, s.clock, ids)
    ensures ready == Prepared(s, order, ids) && Claiming(ready, SnapshotOf(q), outcome)
  {
    var lease;
    ghost var prepared, mem, rows;
    outcome, lease, order, ids, prepared, mem, rows := q.Claim();
    ClaimIsClaiming(q, s, deadline, prepared, mem, rows, outcome);
    ready := s.(mem := mem, rows := rows);
  }

  method ClaimFollows(q: JobQueue) returns (outcome: Outcome, ghost steps: seq<Action>)
    requires q.Valid()
    modifies q, q.fifo, q.delayed, q.expiries
    ensures Follows(q, old(SnapshotOf(q)), steps)
  {
    ghost var s, order, ids, ready := SnapshotOf(q), [], [], SnapshotOf(q);
    outcome, order, ids, ready := ClaimMoves(q, s, q.LeaseDeadline());
    PreparationGoes(s, order, ids);
    ClaimingGoes(ready, SnapshotOf(q), outcome);
    steps := PreparationSteps(order, ids) + ClaimSteps(ready, SnapshotOf(q), outcome);
    GoesOn(s, PreparationSteps(order, ids), ready, ClaimSteps(ready, SnapshotOf(q), outcome), SnapshotOf(q));
  }

  // ---------------------------------------------------------------- job admin

  /** A call for an application id moved the queue where these actions lead, and they leave the
      rows without that id alone. */
  ghost predicate FollowsForJob(q: JobQueue, before: Snapshot, jobId: string, steps: seq<Action>)
    reads q, q.fifo, q.delayed, q.expiries
  {
    q.Valid() && GoesForJob(before, jobId, steps, SnapshotOf(q))
  }

  method CancelFollows(q: JobQueue, jobId: string) returns (outcome: Outcome, ghost steps: seq<Action>)
    requires q.Valid()
    modifies q, q.fifo, q.delayed
    ensures FollowsForJob(q, old(SnapshotOf(q)), jobId, steps)
  {
    ghost var s := SnapshotOf(q);
    ghost var found;
    outcome, found := q.CancelJob(jobId);
    assert SnapshotOf(q) == s.(mem := q.Mem(), rows := q.store, jobs := q.index);
    GoesNowhereForJob(s, jobId);
    steps := [];
    if outcome.Done? {
      CancelLeads(s, q.FoundRow(found));
      steps := Taken(BeginCancel(q.FoundRow(found).id));
      TakenForJob(s, jobId, BeginCancel(q.FoundRow(found).id), SnapshotOf(q));
    }
  }

  method RescheduleJobFollows(q: JobQueue, jobId: string, delayMs: real)
      returns (outcome: Outcome, ghost steps: seq<Action>)
    requires q.Valid()
    modifies q, q.fifo, q.delayed
    ensures FollowsForJob(q, old(SnapshotOf(q)), jobId, steps)
  {
    ghost var s := SnapshotOf(q);
    ghost var found;
    outcome, found := q.RescheduleJob(jobId, delayMs);
    assert SnapshotOf(q) == s.(mem := q.Mem(), rows := q.store);
    GoesNowhereForJob(s, jobId);
    steps := [];
    if outcome.Done? {
      MoveLeads(s, q.FoundRow(found), delayMs);
      steps := Taken(BeginRescheduleJob(q.FoundRow(found).id, delayMs));
      TakenForJob(s, jobId, BeginRescheduleJob(q.FoundRow(found).id, delayMs), SnapshotOf(q));
    }
  }

  method PromoteJobFollows(q: JobQueue, jobId: string) returns (outcome: Outcome, ghost steps: seq<Action>)
    requires q.Valid()
    modifies q, q.fifo, q.delayed
    ensures FollowsForJob(q, old(SnapshotOf(q)), jobId, steps)
  {
    ghost var s := SnapshotOf(q);
    ghost var found;
    outcome, found := q.PromoteJob(jobId);
    assert SnapshotOf(q) == s.(mem := q.Mem(), rows := q.store);
    GoesNowhereForJob(s, jobId);
    steps := [];
    if outcome.Done? {
      PromoteJobLeads(s, q.FoundRow(found));
      steps := Taken(BeginPromoteJob(q.FoundRow(found).id));
      TakenForJob(s, jobId, BeginPromoteJob(q.FoundRow(found).id), SnapshotOf(q));
    }
  }
}
