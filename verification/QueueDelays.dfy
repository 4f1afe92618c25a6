/** A delay holds: a row that a call put back or in with a delay is handed out by no later call
    before that much time has passed, through crashes and restarts too. */
module QueueDelays {
  import opened Records
  import opened PendingRows
  import opened QueueModel
  import opened DurableMachine
  import opened Durability
  import opened DelayedRows
  import opened DelayedRuns
  import opened QueueParts
  import opened QueueRuns
  import opened JobQueues
  import opened QueueSimulation
  import opened QueueProcesses

  /** The row waits for its time: in memory, or in the store while the process is down. */
  ghost predicate Waits(s: Snapshot, row: QueueRow, due: real) {
    match s
    case Live(_, _, _, mem, _) => row.id in mem.delayed && mem.delayed[row.id] == DelayedRow(row, due)
    case Halted(_, _, rows) => StoredUntil(rows, row, due)
  }

  /** No `clear` or `replaceAll`, and no administration of a job with the row's application id. */
  predicate Spares(e: Event, row: QueueRow) {
    !e.Clear? && !e.ReplaceAll? && (OnJob(e) && row.item.Job? ==> e.jobId != row.item.jobId)
  }

  lemma {:induction false} TimeGoesOn(m: Machine, steps: seq<Action>)
    ensures m.clock <= Run(m, steps).clock
  {
    if steps != [] {
      TimeGoesOn(m, steps[..|steps| - 1]);
      ClockNeverFalls(Run(m, steps[..|steps| - 1]), steps[|steps| - 1]);
    }
  }

  lemma SparedIsUntouched(s: Snapshot, e: Event, row: QueueRow, due: real)
    requires Waits(s, row, due) && Spares(e, row)
    ensures !Touches(s, e, row.id)
  {
  }

  lemma ClockPasses(s: Snapshot, e: Event, s': Snapshot)
    requires Passes(s, e, s')
    ensures s.clock <= s'.clock
  {
    var steps :| Effects(s, e, steps, s');
    TimeGoesOn(MachineAt(s), steps);
    assert At(Run(MachineAt(s), steps), s');
  }

  lemma WaitsOn(s: Snapshot, e: Event, s': Snapshot, row: QueueRow, due: real)
    requires Agrees(s) && Waits(s, row, due) && Spares(e, row) && Passes(s, e, s') && s'.clock < due
    ensures Agrees(s') && Waits(s', row, due)
  {
    var steps :| Effects(s, e, steps, s');
    AgreesOn(s, steps, s');
    AgreesMeansInv(s);
    SparedIsUntouched(s, e, row, due);
    assert At(Run(MachineAt(s), steps), s');
    DelayedUntilDue(MachineAt(s), steps, row, due);
  }

  /** Through any events that spare it the row waits until its time. */
  lemma {:induction false} DelayHolds(trace: seq<Snapshot>, events: seq<Event>, n: nat, row: QueueRow, due: real)
    requires n <= |events| && Traced(trace, events, n) && Agrees(trace[0]) && Waits(trace[0], row, due)
    requires forall i :: 0 <= i < n ==> Spares(events[i], row)
    requires trace[n].clock < due
    ensures Agrees(trace[n]) && Waits(trace[n], row, due)
  {
    if n > 0 {
      var k: nat := n - 1;
      assert forall i :: 0 <= i < n ==> trace[..n][i] == trace[i];
      assert Passes(trace[k], events[k], trace[n]);
      ClockPasses(trace[k], events[k], trace[n]);
      DelayHolds(trace[..n], events, k, row, due);
      WaitsOn(trace[k], events[k], trace[n], row, due);
    }
  }

  lemma WaitingIsNotTaken(s: Snapshot, row: QueueRow, due: real)
    requires s.Live? && Agrees(s) && Waits(s, row, due)
    ensures row.id !in s.mem.leased && forall r :: r in s.mem.ready ==> r.id != row.id
  {
  }

  lemma ArrivedWaits(q: JobQueue, row: QueueRow, now: real, delayMs: real)
    requires q.fifo.Aligned() && Arrives(q.Mem(), q.store, row, now, delayMs) && delayMs > 0.0
    ensures Waits(SnapshotOf(q), row, now + delayMs)
  {
  }

  method EnqueueDelayed(q: JobQueue, item: Item, delayMs: real) returns (outcome: Outcome)
    requires q.Valid() && Agrees(SnapshotOf(q)) && delayMs > 0.0
    modifies q, q.fifo, q.delayed
    ensures q.Valid() && Agrees(SnapshotOf(q))
    ensures outcome.Done? ==> Waits(SnapshotOf(q), Row(old(q.ids.value) + 1, item, 1, 0), old(q.clock) + delayMs)
  {
    ghost var row, now, before, steps := Row(q.ids.value + 1, item, 1, 0), q.clock, SnapshotOf(q), [];
    outcome, steps := EnqueueFollows(q, item, delayMs);
    PlainIsSafe(before, steps);
    AgreesOn(before, steps, SnapshotOf(q));
    if outcome.Done? {
      ArrivedWaits(q, row, now, delayMs);
    }
  }

  /** A row that waits is neither ready nor leased while its time has not come. */
  method RunWaiting(q: JobQueue, events: seq<Event>, ghost row: QueueRow, ghost due: real)
      returns (up: bool, q': JobQueue)
    requires q.Valid() && Agrees(SnapshotOf(q)) && Waits(SnapshotOf(q), row, due)
    requires forall e :: e in events ==> Proper(e) && Spares(e, row)
    modifies q, q.fifo, q.delayed, q.expiries
    ensures Working(up, q') && (q'.clock < due ==> Waits(View(up, q'), row, due))
    ensures up && q'.clock < due ==> row.id !in q'.leased && forall r :: r in q'.fifo.Contents() ==> r.id != row.id
  {
    ghost var steps, trace;
    up, q', steps, trace := RunEvents(true, q, events);
    if q'.clock < due {
      DelayHolds(trace, events, |events|, row, due);
      if up {
        WaitingIsNotTaken(View(up, q'), row, due);
      }
    }
  }

  /** What `enqueue` promises about a delay. After an accepted call, and through any later events
      that spare its row, the row is neither ready nor leased before the delay is over. */
  method EnqueueThenRun(q: JobQueue, item: Item, delayMs: real, events: seq<Event>)
      returns (outcome: Outcome, up: bool, q': JobQueue)
    requires q.Valid() && Agrees(SnapshotOf(q)) && delayMs > 0.0
    requires forall e :: e in events ==> Proper(e) && Spares(e, Row(q.ids.value + 1, item, 1, 0))
    modifies q, q.fifo, q.delayed, q.expiries
    ensures outcome.Done? ==> Working(up, q')
    ensures outcome.Done? && q'.clock < old(q.clock) + delayMs ==>
      Waits(View(up, q'), Row(old(q.ids.value) + 1, item, 1, 0), old(q.clock) + delayMs)
    ensures outcome.Done? && q'.clock < old(q.clock) + delayMs && up ==>
      && old(q.ids.value) + 1 !in q'.leased
      && forall r :: r in q'.fifo.Contents() ==> r.id != old(q.ids.value) + 1
  {
    ghost var row, due := Row(q.ids.value + 1, item, 1, 0), q.clock + delayMs;
    up, q' := true, q;
    outcome := EnqueueDelayed(q, item, delayMs);
    if outcome.Done? {
      up, q' := RunWaiting(q, events, row, due);
    }
  }
}
