/** What the calls with several outcomes do to a queue, as pairs of snapshots, and where
    the state machine gets to by the same actions. */
module QueueCalls {
  import opened Options
  import opened Records
  import opened PendingRows
  import opened QueueModel
  import opened DurableMachine
  import opened QueueParts
  import opened QueueRuns
  import opened JobQueues

  // ------------------------------------------------------------------- extend

  ghost predicate Extending(s: Snapshot, s': Snapshot, lease: LeasedRow, ttlMs: real, outcome: Outcome) {
    if outcome.Done? then
      && s.Live? && IsCurrent(s.mem.leased, lease) && ttlMs >= 1.0
      && s' == Prolonged(s, lease.row.id, Some(s.clock + ttlMs))
    else s' == s
  }

  function ExtendSteps(lease: LeasedRow, ttlMs: real, outcome: Outcome): seq<Action> {
    if outcome.Done? then Taken(BeginExtend(lease.row.id, lease.generation, ttlMs)) else []
  }

  lemma ExtendingGoes(s: Snapshot, s': Snapshot, lease: LeasedRow, ttlMs: real, outcome: Outcome)
    requires Extending(s, s', lease, ttlMs, outcome)
    ensures Goes(s, ExtendSteps(lease, ttlMs, outcome), s')
  {
    if outcome.Done? {
      QueueRuns.ExtendGoes(s, lease, ttlMs);
    } else {
      GoesNowhere(s);
    }
  }

  // --------------------------------------------------------------- reschedule

  ghost predicate PuttingAgain(s: Snapshot, s': Snapshot, lease: LeasedRow, row: QueueRow, delayMs: real,
                               outcome: Outcome) {
    if outcome.Done? then
      && s.Live? && s.clock >= 0.0 && IsCurrent(s.mem.leased, lease) && row.id == lease.row.id && delayMs >= 0.0
      && s' == PutAgain(s, row, DueAt(s.clock, delayMs))
    else s' == s
  }

  function PutAgainSteps(s: Snapshot, lease: LeasedRow, row: QueueRow, delayMs: real, outcome: Outcome): seq<Action> {
    if outcome.Done? then RescheduleSteps(s, lease, row, delayMs) else []
  }

  lemma PuttingAgainLeads(s: Snapshot, s': Snapshot, lease: LeasedRow, row: QueueRow, delayMs: real, outcome: Outcome)
    requires s.Live? && PuttingAgain(s, s', lease, row, delayMs, outcome)
    ensures var steps := PutAgainSteps(s, lease, row, delayMs, outcome);
      && Leads(s, steps, s') && SameProcess(steps) && NoResets(steps) && NoAdmin(steps)
      && (Safely(s, steps) <==> !outcome.Done? || row.attempt >= 1)
      && (JobKeeping(s, steps) <==>
          !outcome.Done? || JobIdOf(row.item) == JobIdOf(s.mem.leased[row.id].row.item))
  {
    if outcome.Done? {
      RescheduleLeads(s, lease, row, delayMs);
      RescheduleIsSafeIff(s, lease, row, delayMs);
    } else {
      LeadsNowhere(s);
      PlainIsSafe(s, []);
    }
  }

  // ------------------------------------------------------------------ enqueue

  ghost predicate Enqueuing(s: Snapshot, s': Snapshot, item: Item, delayMs: real, outcome: Outcome) {
    if outcome.InvalidOption? || outcome.IdSpaceExhausted? then s' == s
    else
      && s.Live? && s.clock >= 0.0 && delayMs >= 0.0 && s.mem.counter < ID_MAX
      && var row, spent := Row(s.mem.counter + 1, item, 1, 0), s.(mem := Spent(s.mem));
         match outcome
         case Done => !Refused(spent, row) && s' == Enqueued(spent, row, DueAt(s.clock, delayMs))
         case StoreFailed => !Refused(spent, row) && s' == spent
         case _ => Refused(spent, row) && s' == spent
  }

  /** An id is taken unless the options or the counter refuse it. */
  function EnqueueSteps(s: Snapshot, item: Item, delayMs: real, outcome: Outcome): seq<Action>
    requires s.Live?
  {
    var called, begin := [EnqueueCall(item, delayMs)], BeginEnqueue(s.mem.counter + 1);
    match outcome
    case InvalidOption => []
    case IdSpaceExhausted => []
    case Done => called + Taken(begin)
    case StoreFailed => called + GivenUp(begin)
    case _ => called + [begin]
  }

  lemma EnqueuingGoes(s: Snapshot, s': Snapshot, item: Item, delayMs: real, outcome: Outcome)
    requires s.Live? && Enqueuing(s, s', item, delayMs, outcome)
    ensures Goes(s, EnqueueSteps(s, item, delayMs, outcome), s')
  {
    var steps := EnqueueSteps(s, item, delayMs, outcome);
    if outcome.InvalidOption? || outcome.IdSpaceExhausted? {
      GoesNowhere(s);
    } else {
      var called, begin := [EnqueueCall(item, delayMs)], BeginEnqueue(s.mem.counter + 1);
      EnqueueGoes(s, item, delayMs);
      assert steps ==
        called + (if outcome.Done? then Taken(begin) else if outcome.StoreFailed? then GivenUp(begin) else [begin]);
    }
  }

  // ----------------------------------------------------------- claim, dequeue

  /** The actions of a claim or dequeue past its preparation. */
  function HeadSteps(begin: Action, outcome: Outcome): seq<Action> {
    match outcome
    case Done => Taken(begin)
    case StoreFailed => GivenUp(begin)
    case _ => []
  }

  ghost predicate Dequeuing(s: Snapshot, s': Snapshot, outcome: Outcome) {
    match outcome
    case Done => s.Live? && s.mem.ready != [] && s' == Dequeued(s)
    case StoreFailed => s.Live? && s.mem.ready != [] && s' == s.(mem := HeadToBack(s.mem))
    case _ => s' == s
  }

  lemma DequeuingGoes(s: Snapshot, s': Snapshot, outcome: Outcome)
    requires Dequeuing(s, s', outcome)
    ensures Goes(s, HeadSteps(BeginDequeue, outcome), s')
  {
    if outcome.Done? || outcome.StoreFailed? {
      DequeueGoes(s);
    } else {
      GoesNowhere(s);
    }
  }

  ghost predicate Claiming(s: Snapshot, s': Snapshot, outcome: Outcome) {
    match outcome
    case Done => s.Live? && s.mem.ready != [] && s' == Claimed(s)
    case StoreFailed => s.Live? && (s' == s || (s.mem.ready != [] && s' == Unclaimed(s)))
    case _ => s' == s
  }

  /** A store failure may have come before the head was taken. */
  ghost function ClaimSteps(s: Snapshot, s': Snapshot, outcome: Outcome): seq<Action> {
    if s' == s then [] else HeadSteps(BeginClaim, outcome)
  }

  lemma ClaimingGoes(s: Snapshot, s': Snapshot, outcome: Outcome)
    requires Claiming(s, s', outcome)
    ensures Goes(s, ClaimSteps(s, s', outcome), s')
  {
    if s' == s {
      GoesNowhere(s);
    } else {
      ClaimGoes(s);
    }
  }

  // ------------------------------------------------------------------ resets

  ghost predicate Replacing(s: Snapshot, s': Snapshot, items: seq<Item>, outcome: Outcome) {
    if outcome.Done? then
      && s.Live? && |items| <= ID_MAX && s.mem.leased == map[]
      && (s.cfg.maxSize.Some? ==> |items| <= s.cfg.maxSize.value) && (s.cfg.unique ==> DistinctItems(items))
      && s' == Replaced(s, items)
    else s' == s
  }

  function ReplaceSteps(items: seq<Item>, outcome: Outcome): seq<Action> {
    if outcome.Done? then Taken(BeginReplaceAll(items)) else []
  }

  lemma ReplacingLeads(s: Snapshot, s': Snapshot, items: seq<Item>, outcome: Outcome)
    requires Replacing(s, s', items, outcome)
    ensures var steps := ReplaceSteps(items, outcome);
      Leads(s, steps, s') && Safely(s, steps) && JobKeeping(s, steps) && SameProcess(steps)
  {
    if outcome.Done? {
      ReplaceLeads(s, items);
      ResetIsSafe(s, BeginReplaceAll(items));
    } else {
      LeadsNowhere(s);
    }
  }
}
