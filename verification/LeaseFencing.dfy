/** Lease generations between restarts and resets: each settles at most once, and a settled
    or superseded lease token can change nothing. These laws need no care in the run: not even
    repeated row ids break them. */
module LeaseFencing {
  import opened Options
  import opened Records
  import opened PendingRows
  import opened QueueModel
  import opened QueueSteps
  import opened DurableMachine
  import opened Durability

  /** The generation an applied ack, release, reschedule or reclaim ends. */
  function Settles(m: Machine, a: Action): Option<nat> {
    if a.ApplyMemory? && Stands(m, true)
       && (m.phase.inflight.value.op.AckOp? || m.phase.inflight.value.op.ReleaseOp?
           || m.phase.inflight.value.op.RescheduleOp?)
    then Some(m.phase.mem.leased[OpId(m.phase.inflight.value.op)].generation)
    else None
  }

  /** A generation that was handed out, belongs to no lease, and to no claim in flight. */
  ghost predicate Dead(m: Machine, generation: nat) {
    && m.phase.Up?
    && generation <= m.phase.mem.generations
    && (forall id :: id in m.phase.mem.leased ==> m.phase.mem.leased[id].generation != generation)
    && (m.phase.inflight.Some? && m.phase.inflight.value.op.ClaimOp? ==>
        m.phase.inflight.value.op.generation != generation)
  }

  lemma AppliedLeases(op: Op, mem: Memory, id: nat)
    requires Enabled(op, mem) && !IsReset(op)
    ensures Applied(op, mem).generations == mem.generations
    ensures id in Applied(op, mem).leased ==>
      (id in mem.leased && Applied(op, mem).leased[id].generation == mem.leased[id].generation)
      || (op.ClaimOp? && Applied(op, mem).leased[id].generation == op.generation)
  {
  }

  lemma DeadStaysDeadOnApply(m: Machine, generation: nat)
    requires Dead(m, generation) && !Resets(m, ApplyMemory)
    ensures Dead(ExecApply(m), generation)
  {
    if Stands(m, true) {
      var op := m.phase.inflight.value.op;
      forall id | id in Applied(op, m.phase.mem).leased
        ensures Applied(op, m.phase.mem).leased[id].generation != generation
      {
        AppliedLeases(op, m.phase.mem, id);
      }
      AppliedLeases(op, m.phase.mem, 0);
    }
  }

  lemma DeadStaysDeadOnBegin(m: Machine, a: Action, generation: nat)
    requires Dead(m, generation)
    ensures Dead(ExecBegin(m, a), generation)
  {
  }

  /** A claim takes a generation above every dead one. */
  lemma DeadStaysDeadOnPop(m: Machine, generation: nat)
    requires Dead(m, generation)
    ensures Dead(ExecBeginClaim(m), generation) && Dead(ExecBeginDequeue(m), generation)
  {
  }

  lemma DeadStaysDeadOnStore(m: Machine, generation: nat)
    requires Dead(m, generation)
    ensures Dead(ExecStoreWrite(m), generation) && Dead(ExecStoreFail(m), generation)
  {
  }

  lemma DeadStaysDeadOnTimer(m: Machine, a: Action, generation: nat)
    requires Dead(m, generation) && Exec(m, a).phase.Up?
    requires a.Promote? || a.HydrateStart? || a.HydratePut? || a.HydrateDone? || a.Crash?
    ensures Dead(Exec(m, a), generation)
  {
  }

  lemma DeadStaysDeadOnCall(m: Machine, a: Action, generation: nat)
    requires Dead(m, generation)
    requires a.Tick? || a.EnqueueCall? || a.RescheduleCall? || a.BeginEnqueue? || a.BeginReschedule?
    ensures Dead(Exec(m, a), generation)
  {
  }

  lemma DeadStaysDead(m: Machine, a: Action, generation: nat)
    requires Dead(m, generation) && Exec(m, a).phase.Up? && !Resets(m, a)
    ensures Dead(Exec(m, a), generation)
  {
    if a.ApplyMemory? {
      DeadStaysDeadOnApply(m, generation);
    } else if a.BeginClaim? || a.BeginDequeue? {
      DeadStaysDeadOnPop(m, generation);
    } else if a.StoreWrite? || a.StoreFail? {
      DeadStaysDeadOnStore(m, generation);
    } else if a.Promote? || a.HydrateStart? || a.HydratePut? || a.HydrateDone? || a.Crash? {
      DeadStaysDeadOnTimer(m, a, generation);
    } else if a.Tick? || a.EnqueueCall? || a.RescheduleCall? || a.BeginEnqueue? || a.BeginReschedule? {
      DeadStaysDeadOnCall(m, a, generation);
    } else {
      assert Exec(m, a) == ExecBegin(m, a);
      DeadStaysDeadOnBegin(m, a, generation);
    }
  }

  lemma EndedGenerationIsGone(op: Op, mem: Memory)
    requires Enabled(op, mem) && Fenced(mem) && (op.AckOp? || op.ReleaseOp? || op.RescheduleOp?)
    ensures var generation := mem.leased[OpId(op)].generation;
      && generation <= Applied(op, mem).generations
      && forall id :: id in Applied(op, mem).leased ==> Applied(op, mem).leased[id].generation != generation
  {
  }

  /** Generations are distinct, none lies ahead of the sequence, and a claim in flight has the
      newest; this holds in every run whatsoever. */
  ghost predicate FencedInv(m: Machine) {
    m.phase.Up? ==>
      && Fenced(m.phase.mem)
      && (m.phase.inflight.Some? && m.phase.inflight.value.op.ClaimOp? ==>
          && 1 <= m.phase.inflight.value.op.generation == m.phase.mem.generations
          && forall id :: id in m.phase.mem.leased ==>
               m.phase.mem.leased[id].generation < m.phase.inflight.value.op.generation)
  }

  /** Leases end or keep their generation. */
  lemma FewerLeasesAreFenced(mem: Memory, mem': Memory)
    requires Fenced(mem) && mem'.generations == mem.generations
    requires forall id :: id in mem'.leased ==>
      id in mem.leased && mem'.leased[id].generation == mem.leased[id].generation
    ensures Fenced(mem')
  {
  }

  lemma AppliedIsFenced(op: Op, mem: Memory)
    requires Enabled(op, mem) && Fenced(mem)
    requires op.ClaimOp? ==>
      op.generation >= 1 && forall id :: id in mem.leased ==> mem.leased[id].generation < op.generation
    ensures Fenced(Applied(op, mem))
  {
    if !op.ClaimOp? && !IsReset(op) {
      forall id | id in Applied(op, mem).leased
        ensures id in mem.leased && Applied(op, mem).leased[id].generation == mem.leased[id].generation
      {
        AppliedLeases(op, mem, id);
      }
      AppliedLeases(op, mem, 0);
      FewerLeasesAreFenced(mem, Applied(op, mem));
    }
  }

  lemma ApplyKeepsFenced(m: Machine)
    requires FencedInv(m)
    ensures FencedInv(ExecApply(m))
  {
    if Stands(m, true) {
      AppliedIsFenced(m.phase.inflight.value.op, m.phase.mem);
    }
  }

  lemma ClaimKeepsFenced(m: Machine)
    requires FencedInv(m)
    ensures FencedInv(ExecBeginClaim(m))
  {
  }

  lemma BeginKeepsFenced(m: Machine, a: Action)
    requires FencedInv(m)
    ensures FencedInv(ExecBegin(m, a))
  {
  }

  lemma StoreStepKeepsFenced(m: Machine)
    requires FencedInv(m)
    ensures FencedInv(ExecStoreWrite(m)) && FencedInv(ExecStoreFail(m))
  {
  }

  lemma BesideKeepsFenced(m: Machine, a: Action)
    requires FencedInv(m)
    requires a.Tick? || a.EnqueueCall? || a.RescheduleCall? || a.Promote? || a.BeginEnqueue? || a.BeginReschedule?
             || a.BeginDequeue? || a.Crash? || a.HydrateStart? || a.HydratePut? || a.HydrateDone?
    ensures FencedInv(Exec(m, a))
  {
  }

  lemma StepKeepsFenced(m: Machine, a: Action)
    requires FencedInv(m)
    ensures FencedInv(Exec(m, a))
  {
    if a.ApplyMemory? {
      ApplyKeepsFenced(m);
    } else if a.StoreWrite? || a.StoreFail? {
      StoreStepKeepsFenced(m);
    } else if a.BeginClaim? {
      ClaimKeepsFenced(m);
    } else if a.Tick? || a.EnqueueCall? || a.RescheduleCall? || a.Promote? || a.BeginEnqueue? || a.BeginReschedule?
              || a.BeginDequeue? || a.Crash? || a.HydrateStart? || a.HydratePut? || a.HydrateDone? {
      BesideKeepsFenced(m, a);
    } else {
      BeginKeepsFenced(m, a);
    }
  }

  lemma {:induction false} EveryRunKeepsFenced(start: Machine, actions: seq<Action>)
    requires Start(start)
    ensures FencedInv(Run(start, actions))
  {
    if actions != [] {
      EveryRunKeepsFenced(start, actions[..|actions| - 1]);
      StepKeepsFenced(Run(start, actions[..|actions| - 1]), actions[|actions| - 1]);
    }
  }

  lemma AppliedIsDead(m: Machine)
    requires Settles(m, ApplyMemory).Some? && Fenced(m.phase.mem)
    ensures Dead(ExecApply(m), Settles(m, ApplyMemory).value)
  {
    EndedGenerationIsGone(m.phase.inflight.value.op, m.phase.mem);
  }

  /** No restart and no reset in this stretch of the run. */
  ghost predicate StaysUp(start: Machine, actions: seq<Action>, since: nat, until: nat)
    requires since <= until <= |actions|
  {
    && (forall k :: since <= k <= until ==> Run(start, actions[..k]).phase.Up?)
    && (forall k :: since <= k < until ==> !Resets(Run(start, actions[..k]), actions[k]))
  }

  lemma {:induction false} DeadUntil(start: Machine, actions: seq<Action>, since: nat, until: nat, generation: nat)
    requires since <= until <= |actions| && StaysUp(start, actions, since, until)
    requires Dead(Run(start, actions[..since]), generation)
    ensures Dead(Run(start, actions[..until]), generation)
    decreases until
  {
    if since < until {
      DeadUntil(start, actions, since, until - 1, generation);
      assert actions[..until][..until - 1] == actions[..until - 1];
      DeadStaysDead(Run(start, actions[..until - 1]), actions[until - 1], generation);
    }
  }

  /** Between restarts and resets no generation settles twice: two settlements are of two generations. */
  lemma GenerationSettlesOnce(start: Machine, actions: seq<Action>, i: nat, j: nat)
    requires Start(start) && i < j < |actions| && StaysUp(start, actions, i, j)
    requires Settles(Run(start, actions[..i]), actions[i]).Some?
    requires Settles(Run(start, actions[..j]), actions[j]).Some?
    ensures Settles(Run(start, actions[..i]), actions[i]) != Settles(Run(start, actions[..j]), actions[j])
  {
    SettledStaysDead(start, actions, i, j);
  }

  /** The machine without one call that waited to reschedule. */
  function Forgotten(m: Machine, call: Rescheduling): Machine
    requires m.phase.Up?
  {
    m.(phase := m.phase.(asked := m.phase.asked - multiset{call}))
  }

  /** A dead token has no effect: not on memory, not on the store, not on what is in flight.
      A reschedule that waited with it is forgotten when its turn comes. */
  lemma DeadTokenChangesNothing(m: Machine, generation: nat, id: nat, call: Rescheduling, ms: real)
    requires Dead(m, generation) && call.generation == generation
    ensures Exec(m, BeginAck(id, generation)) == m
    ensures Exec(m, BeginRelease(id, generation)) == m
    ensures Exec(m, BeginExtend(id, generation, ms)) == m
    ensures Exec(m, BeginReschedule(call)) in {m, Forgotten(m, call)}
  {
  }

  /** Once a lease has settled, its token is refused for the rest of the stretch. */
  lemma SettledTokenIsRefused(start: Machine, actions: seq<Action>, i: nat, j: nat, id: nat, call: Rescheduling,
                              ms: real)
    requires Start(start) && i < j <= |actions| && StaysUp(start, actions, i, j)
    requires Settles(Run(start, actions[..i]), actions[i]).Some?
    ensures var m, generation := Run(start, actions[..j]), Settles(Run(start, actions[..i]), actions[i]).value;
      && Exec(m, BeginAck(id, generation)) == m
      && Exec(m, BeginRelease(id, generation)) == m
      && Exec(m, BeginExtend(id, generation, ms)) == m
      && (call.generation == generation ==> Exec(m, BeginReschedule(call)) in {m, Forgotten(m, call)})
  {
    var generation := Settles(Run(start, actions[..i]), actions[i]).value;
    SettledStaysDead(start, actions, i, j);
    DeadTokenChangesNothing(Run(start, actions[..j]), generation, id, call.(generation := generation), ms);
  }

  lemma SettledIsDead(start: Machine, actions: seq<Action>, i: nat)
    requires Start(start) && i < |actions| && Settles(Run(start, actions[..i]), actions[i]).Some?
    ensures Dead(Exec(Run(start, actions[..i]), actions[i]), Settles(Run(start, actions[..i]), actions[i]).value)
  {
    EveryRunKeepsFenced(start, actions[..i]);
    AppliedIsDead(Run(start, actions[..i]));
  }

  lemma SettledStaysDead(start: Machine, actions: seq<Action>, i: nat, j: nat)
    requires Start(start) && i < j <= |actions| && StaysUp(start, actions, i, j)
    requires Settles(Run(start, actions[..i]), actions[i]).Some?
    ensures Dead(Run(start, actions[..j]), Settles(Run(start, actions[..i]), actions[i]).value)
  {
    var generation := Settles(Run(start, actions[..i]), actions[i]).value;
    SettledIsDead(start, actions, i);
    assert actions[..i + 1][..i] == actions[..i];
    DeadUntil(start, actions, i + 1, j, generation);
  }

  lemma GenerationsNeverFall(m: Machine, a: Action)
    requires m.phase.Up? && Exec(m, a).phase.Up? && !Resets(m, a)
    ensures Exec(m, a).phase.mem.generations >= m.phase.mem.generations
  {
    if a.ApplyMemory? && Stands(m, true) {
      AppliedLeases(m.phase.inflight.value.op, m.phase.mem, 0);
    }
  }

  /** Every claim takes a generation above all those handed out before it. */
  lemma {:induction false} ClaimsTakeNewGenerations(start: Machine, actions: seq<Action>, i: nat, j: nat)
    requires i <= j < |actions| && StaysUp(start, actions, i, j + 1)
    requires actions[j] == BeginClaim && Exec(Run(start, actions[..j]), BeginClaim) != Run(start, actions[..j])
    ensures var m := Run(start, actions[..j + 1]);
      && m.phase.inflight.Some? && m.phase.inflight.value.op.ClaimOp?
      && m.phase.inflight.value.op.generation > Run(start, actions[..i]).phase.mem.generations
  {
    assert actions[..j + 1][..j] == actions[..j];
    GenerationsUpTo(start, actions, i, j);
  }

  lemma {:induction false} GenerationsUpTo(start: Machine, actions: seq<Action>, i: nat, j: nat)
    requires i <= j <= |actions| && StaysUp(start, actions, i, j)
    ensures Run(start, actions[..j]).phase.mem.generations >= Run(start, actions[..i]).phase.mem.generations
    decreases j
  {
    if i < j {
      GenerationsUpTo(start, actions, i, j - 1);
      assert actions[..j][..j - 1] == actions[..j - 1];
      GenerationsNeverFall(Run(start, actions[..j - 1]), actions[j - 1]);
    }
  }
}
