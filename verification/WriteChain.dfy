/** The write chain that serialises durable operations
    (packages/queue/src/persist/write-chain.util.ts). */
module WriteChains {

  /** A pushed operation: not started, started, or settled either way. */
  datatype OpState = Waiting | Running | Settled(ok: bool)

  datatype ChainStep = Push | Start(op: nat) | Settle(op: nat, ok: bool)

  /** The promise an operation was chained on has settled; the first chains on a resolved one. */
  predicate PredecessorSettled(ops: seq<OpState>, i: nat)
    requires i < |ops|
  {
    i == 0 || ops[i - 1].Settled?
  }

  /** Each operation knows only the promise before it; a step that cannot happen changes nothing. */
  function Next(ops: seq<OpState>, step: ChainStep): seq<OpState> {
    match step
    case Push => ops + [Waiting]
    case Start(i) => if i < |ops| && ops[i].Waiting? && PredecessorSettled(ops, i) then ops[i := Running] else ops
    case Settle(i, ok) => if i < |ops| && ops[i].Running? then ops[i := Settled(ok)] else ops
  }

  function NextAll(ops: seq<OpState>, steps: seq<ChainStep>): seq<OpState> {
    if steps == [] then ops else Next(NextAll(ops, steps[..|steps| - 1]), steps[|steps| - 1])
  }

  /** Settled operations, then at most one that runs, then waiting ones. */
  ghost predicate Serial(ops: seq<OpState>) {
    exists n: nat :: SerialAt(ops, n)
  }

  ghost predicate SerialAt(ops: seq<OpState>, n: nat) {
    && n <= |ops|
    && (forall i :: 0 <= i < n ==> ops[i].Settled?)
    && (forall i :: n < i < |ops| ==> ops[i].Waiting?)
    && (n < |ops| ==> !ops[n].Settled?)
  }

  lemma StepKeepsSerial(ops: seq<OpState>, step: ChainStep)
    requires Serial(ops)
    ensures Serial(Next(ops, step))
  {
    var n: nat :| SerialAt(ops, n);
    var after := Next(ops, step);
    if step.Settle? && after != ops {
      assert step.op == n;
      assert SerialAt(after, n + 1);
    } else {
      assert step.Start? && after != ops ==> step.op == n;
      assert SerialAt(after, n);
    }
  }

  /** Knowing only its predecessor is enough: in every run operations start in the order
      they were pushed, never two at a time, and a failed one does not stop the next. */
  lemma {:induction false} EveryRunIsSerial(steps: seq<ChainStep>)
    ensures Serial(NextAll([], steps))
  {
    if steps == [] {
      assert SerialAt([], 0);
    } else {
      EveryRunIsSerial(steps[..|steps| - 1]);
      StepKeepsSerial(NextAll([], steps[..|steps| - 1]), steps[|steps| - 1]);
    }
  }

  lemma AtMostOneRuns(steps: seq<ChainStep>, i: nat, j: nat)
    requires var ops := NextAll([], steps); i < |ops| && j < |ops| && ops[i].Running? && ops[j].Running?
    ensures i == j
    ensures forall k :: 0 <= k < i ==> NextAll([], steps)[k].Settled?
  {
    EveryRunIsSerial(steps);
  }

  /** A flush waits for the last promise at its call; once that has settled, so has everything before it. */
  lemma FlushDrains(steps: seq<ChainStep>, later: seq<ChainStep>, i: nat)
    requires i < |NextAll([], steps)|
    ensures var n, ops := |NextAll([], steps)|, NextAll([], steps + later);
      n <= |ops| && (ops[n - 1].Settled? ==> ops[i].Settled?)
  {
    ChainOnlyGrows(steps, later);
    EveryRunIsSerial(steps + later);
    var ops := NextAll([], steps + later);
    var k: nat :| SerialAt(ops, k);
  }

  lemma {:induction false} ChainOnlyGrows(steps: seq<ChainStep>, later: seq<ChainStep>)
    ensures |NextAll([], steps)| <= |NextAll([], steps + later)|
  {
    if later == [] {
      assert steps + later == steps;
    } else {
      ChainOnlyGrows(steps, later[..|later| - 1]);
      assert (steps + later)[..|steps + later| - 1] == steps + later[..|later| - 1];
    }
  }

  /** The chain never blocks: while some operation has not settled, one can start or is running. */
  lemma SomeoneCanMove(steps: seq<ChainStep>) returns (i: nat)
    requires exists k :: 0 <= k < |NextAll([], steps)| && !NextAll([], steps)[k].Settled?
    ensures var ops := NextAll([], steps);
      i < |ops| && (ops[i].Running? || (ops[i].Waiting? && PredecessorSettled(ops, i)))
  {
    EveryRunIsSerial(steps);
    i :| SerialAt(NextAll([], steps), i);
  }

  /** Whatever has been pushed, the chain can come to its end: each operation started and settled. */
  lemma {:induction false} ChainDrains(ops: seq<OpState>, n: nat) returns (more: seq<ChainStep>)
    requires SerialAt(ops, n)
    ensures |NextAll(ops, more)| == |ops|
    ensures forall i :: 0 <= i < |ops| ==> NextAll(ops, more)[i].Settled? && (i < n ==> NextAll(ops, more)[i] == ops[i])
    decreases |ops| - n
  {
    more := [];
    if n < |ops| {
      var begun := Next(ops, Start(n));
      var settled := Next(begun, Settle(n, true));
      assert settled == ops[n := Settled(true)] && SerialAt(settled, n + 1);
      var rest := ChainDrains(settled, n + 1);
      more := [Start(n), Settle(n, true)] + rest;
      assert [Start(n), Settle(n, true)][..1] == [Start(n)] && [Start(n)][..0] == [];
      assert NextAll(ops, [Start(n)]) == begun;
      assert NextAll(ops, [Start(n), Settle(n, true)]) == settled;
      NextAllConcat(ops, [Start(n), Settle(n, true)], rest);
    }
  }

  lemma {:induction false} NextAllConcat(ops: seq<OpState>, a: seq<ChainStep>, b: seq<ChainStep>)
    ensures NextAll(ops, a + b) == NextAll(NextAll(ops, a), b)
  {
    if b == [] {
      assert a + b == a;
    } else {
      NextAllConcat(ops, a, b[..|b| - 1]);
      assert (a + b)[..|a + b| - 1] == a + b[..|b| - 1];
    }
  }

  class WriteChain {
    /** The promises handed out so far; `chain` is the last of them. */
    var ops: seq<OpState>

    constructor ()
      ensures ops == []
    {
      ops := [];
    }

    method Push() returns (op: nat)
      modifies this
      ensures ops == Next(old(ops), ChainStep.Push) && op == |ops| - 1 && ops[op].Waiting?
    {
      ops := ops + [Waiting];
      op := |ops| - 1;
    }

    /** `chain.then(op, op)` fires: whether the predecessor failed makes no difference. */
    method Start(op: nat) returns (started: bool)
      modifies this
      ensures ops == Next(old(ops), ChainStep.Start(op))
      ensures started <==> op < |old(ops)| && old(ops)[op].Waiting? && PredecessorSettled(old(ops), op)
    {
      started := op < |ops| && ops[op].Waiting? && (op == 0 || ops[op - 1].Settled?);
      if started {
        ops := ops[op := Running];
      }
    }

    method Settle(op: nat, ok: bool)
      requires op < |ops| && ops[op].Running?
      modifies this
      ensures ops == Next(old(ops), ChainStep.Settle(op, ok))
    {
      ops := ops[op := Settled(ok)];
    }
  }
}
