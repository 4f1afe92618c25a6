/** Row id allocation (packages/queue/src/queue/core/id-counter.util.ts). */
module IdCounters {
  import opened Options

  const ID_MAX: nat := 9007199254740991
  const ID_LOW_WATER: nat := 1000000

  /** `isSafeId`: a positive safe integer. */
  predicate SafeId(id: nat) {
    1 <= id <= ID_MAX
  }

  datatype Counter = Counter(value: nat, warned: bool)

  datatype CounterOp = Next | Fixup(maxId: nat) | Reset | ConsumeLowWaterWarning

  /** The id an operation hands out, and whether it reports the low-water warning. */
  function Issued(c: Counter, op: CounterOp): Option<nat> {
    if op.Next? && c.value < ID_MAX then Some(c.value + 1) else None
  }

  predicate Warns(c: Counter, op: CounterOp) {
    op.ConsumeLowWaterWarning? && !c.warned && ID_MAX - c.value <= ID_LOW_WATER
  }

  function After(c: Counter, op: CounterOp): Counter {
    match op
    case Next => if c.value < ID_MAX then c.(value := c.value + 1) else c
    case Fixup(maxId) => if maxId > c.value then c.(value := maxId) else c
    case Reset => Counter(0, false)
    case ConsumeLowWaterWarning => if Warns(c, op) then c.(warned := true) else c
  }

  function AfterAll(c: Counter, ops: seq<CounterOp>): Counter {
    if ops == [] then c else After(AfterAll(c, ops[..|ops| - 1]), ops[|ops| - 1])
  }

  /** Without a reset in between, an id is above every id issued or fixed up before it. */
  lemma {:induction false} IssuedIdIsNew(c: Counter, ops: seq<CounterOp>, i: nat, j: nat)
    requires i < j < |ops| && Reset !in ops[i..j]
    requires Issued(AfterAll(c, ops[..j]), ops[j]).Some?
    ensures var id := Issued(AfterAll(c, ops[..j]), ops[j]).value;
      && (Issued(AfterAll(c, ops[..i]), ops[i]).Some? ==> Issued(AfterAll(c, ops[..i]), ops[i]).value < id)
      && (ops[i].Fixup? ==> ops[i].maxId < id)
      && AfterAll(c, ops[..i]).value < id
  {
    assert ops[..i + 1][..i] == ops[..i];
    ValueNeverFalls(c, ops, i + 1, j);
    assert ops[i] in ops[i..j];
  }

  lemma {:induction false} ValueNeverFalls(c: Counter, ops: seq<CounterOp>, i: nat, j: nat)
    requires i <= j <= |ops| && Reset !in ops[i..j]
    ensures AfterAll(c, ops[..i]).value <= AfterAll(c, ops[..j]).value
    ensures AfterAll(c, ops[..i]).warned ==> AfterAll(c, ops[..j]).warned
  {
    if i < j {
      assert ops[i..j] == ops[i..j - 1] + [ops[j - 1]];
      ValueNeverFalls(c, ops, i, j - 1);
      assert ops[..j][..j - 1] == ops[..j - 1];
      assert ops[j - 1] in ops[i..j];
    }
  }

  /** Between resets the warning is reported at most once. */
  lemma WarnsAtMostOnce(c: Counter, ops: seq<CounterOp>, i: nat, j: nat)
    requires i < j < |ops| && Reset !in ops[i..j]
    requires Warns(AfterAll(c, ops[..i]), ops[i])
    ensures !Warns(AfterAll(c, ops[..j]), ops[j])
  {
    assert ops[..i + 1][..i] == ops[..i];
    assert Reset !in ops[i + 1..j] by {
      assert forall k :: i + 1 <= k < j ==> ops[k] in ops[i..j];
    }
    ValueNeverFalls(c, ops, i + 1, j);
  }

  /** The i-th operation reports the warning. */
  predicate WarnsAt(c: Counter, ops: seq<CounterOp>, i: nat) {
    i < |ops| && Warns(AfterAll(c, ops[..i]), ops[i])
  }

  /** Until a reset, a check warns exactly when at most a million ids are left and none warned before. */
  lemma WarnsIff(c: Counter, ops: seq<CounterOp>, j: nat)
    requires j < |ops| && Reset !in ops[..j] && ops[j] == ConsumeLowWaterWarning && !c.warned
    ensures WarnsAt(c, ops, j) <==>
      AfterAll(c, ops[..j]).value >= 9007199254740991 - 1000000 && forall i: nat :: i < j ==> !WarnsAt(c, ops, i)
  {
    WarnedIff(c, ops, j);
  }

  lemma {:induction false} WarnedIff(c: Counter, ops: seq<CounterOp>, j: nat)
    requires j <= |ops| && Reset !in ops[..j] && !c.warned
    ensures AfterAll(c, ops[..j]).warned <==> exists i: nat :: i < j && WarnsAt(c, ops, i)
  {
    if j > 0 {
      var k: nat := j - 1;
      assert ops[..j] == ops[..k] + [ops[k]];
      WarnedIff(c, ops, k);
      OneMoreCheck(c, ops, k);
    }
  }

  lemma OneMoreCheck(c: Counter, ops: seq<CounterOp>, k: nat)
    requires k < |ops| && ops[k] != Reset
    ensures AfterAll(c, ops[..k + 1]).warned <==> AfterAll(c, ops[..k]).warned || WarnsAt(c, ops, k)
  {
    assert ops[..k + 1][..k] == ops[..k];
  }

  class IdCounter {
    var counter: nat
    var lowWaterWarned: bool

    function State(): Counter
      reads this
    {
      Counter(counter, lowWaterWarned)
    }

    constructor (start: nat)
      ensures State() == Counter(start, false)
    {
      counter, lowWaterWarned := start, false;
    }

    /** The next id; none once the id space is exhausted. */
    method Next() returns (id: Option<nat>)
      modifies this
      ensures id == Issued(old(State()), CounterOp.Next) && State() == After(old(State()), CounterOp.Next)
    {
      if counter >= ID_MAX {
        return None;
      }
      counter := counter + 1;
      id := Some(counter);
    }

    method Fixup(maxId: nat)
      modifies this
      ensures State() == After(old(State()), CounterOp.Fixup(maxId))
    {
      if maxId > counter {
        counter := maxId;
      }
    }

    method Reset()
      modifies this
      ensures State() == After(old(State()), CounterOp.Reset)
    {
      counter, lowWaterWarned := 0, false;
    }

    method ConsumeLowWaterWarning() returns (warn: bool)
      modifies this
      ensures warn == Warns(old(State()), CounterOp.ConsumeLowWaterWarning)
      ensures State() == After(old(State()), CounterOp.ConsumeLowWaterWarning)
    {
      if lowWaterWarned {
        return false;
      }
      var remaining := ID_MAX - counter;
      if remaining > ID_LOW_WATER {
        return false;
      }
      lowWaterWarned := true;
      return true;
    }
  }
}
