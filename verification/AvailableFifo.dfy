/** The head-index FIFO of ready rows with lazily materialised metadata means a plain
    sequence of rows (packages/queue/src/queue/core/queue.ts, lines 283-297 and 431-612). */
module AvailableFifos {
  import opened Options
  import opened PendingRows
  import opened FifoSlots
  import opened Sequences

  // ----------------------------------------------------------------- lemmas

  lemma {:induction false} NonDefaultCounts(a: seq<int>, default: int)
    ensures NonDefault(a, default) >= 0
    ensures NonDefault(a, default) > 0 <==> exists i :: 0 <= i < |a| && a[i] != default
  {
    if a != [] {
      var init, last := a[..|a| - 1], a[|a| - 1];
      assert a == init + [last];
      NonDefaultCounts(init, default);
      if NonDefault(init, default) > 0 {
        var i :| 0 <= i < |init| && init[i] != default;
        assert a[i] != default;
      }
    }
  }

  /** Metadata arrays exist exactly while a live row needs them. */
  lemma MetadataPresence<T>(s: Slots<T>)
    requires OneBased(s)
    ensures s.attempts.Some? <==> exists r :: r in Rows(s) && r.attempt != 1
    ensures s.handoffs.Some? <==> exists r :: r in Rows(s) && r.handoff != 0
    ensures s.attempts.Some? ==> |s.attempts.value| == |s.items|
    ensures s.handoffs.Some? ==> |s.handoffs.value| == |s.items|
  {
    if s.attempts.Some? {
      var live := s.attempts.value[s.head..];
      NonDefaultCounts(live, 1);
      var i :| 0 <= i < |live| && live[i] != 1;
      assert Rows(s)[i] == RowAt(s, s.head + i) && live[i] == s.attempts.value[s.head + i];
      assert Rows(s)[i] in Rows(s) && Rows(s)[i].attempt != 1;
    }
    if s.handoffs.Some? {
      var live := s.handoffs.value[s.head..];
      NonDefaultCounts(live, 0);
      var i :| 0 <= i < |live| && live[i] != 0;
      assert Rows(s)[i] == RowAt(s, s.head + i) && live[i] == s.handoffs.value[s.head + i];
      assert Rows(s)[i] in Rows(s) && Rows(s)[i].handoff != 0;
    }
    forall r | r in Rows(s)
      ensures r.attempt != 1 ==> s.attempts.Some?
      ensures r.handoff != 0 ==> s.handoffs.Some?
    {
      var i :| 0 <= i < |Rows(s)| && Rows(s)[i] == r;
      assert r == RowAt(s, s.head + i);
    }
  }

  lemma AppendKeepsAligned(a: Option<seq<int>>, length: nat, head: nat, counter: int, default: int, value: int)
    requires head <= length && Aligned(a, length, head, counter, default)
    ensures var a' := PushedMetadata(a, length, value, default);
      && Aligned(a', length + 1, head, counter + (if value != default then 1 else 0), default)
      && Nth(a', length, default) == value
      && (forall i: nat :: i < length ==> Nth(a', i, default) == Nth(a, i, default))
      && (a'.Some? ==>
        NonDefault(a'.value[head..], default)
        == (if a.Some? then NonDefault(a.value[head..], default) else 0) + (if value != default then 1 else 0))
  {
    var a' := PushedMetadata(a, length, value, default);
    var live := if a.Some? then a.value else seq(length, _ => default);
    NonDefaultCounts(live[head..], default);
    if a'.Some? {
      assert a'.value[head..] == live[head..] + [value];
    }
  }

  lemma AppendedIsAligned<T>(s: Slots<T>, item: T, id: nat, attempt: int, handoff: nat)
    requires Valid(s)
    ensures var t := Appended(s, item, id, attempt, handoff);
      && Shape(t)
      && Aligned(t.attempts, |t.items|, t.head, t.retryCount, 1)
      && Aligned(t.handoffs, |t.items|, t.head, t.dlqCount, 0)
      && (t.handoffs.Some? ==> t.dlqCount == NonDefault(t.handoffs.value[t.head..], 0))
      && Leaked(t) == Leaked(s)
  {
    AppendKeepsAligned(s.attempts, |s.items|, s.head, s.retryCount, 1, attempt);
    AppendKeepsAligned(s.handoffs, |s.items|, s.head, s.dlqCount, 0, handoff);
  }

  lemma AppendedIsValid<T>(s: Slots<T>, item: T, id: nat, attempt: int, handoff: nat)
    requires Valid(s)
    ensures Valid(Appended(s, item, id, attempt, handoff))
    ensures Leaked(Appended(s, item, id, attempt, handoff)) == Leaked(s)
  {
    AppendedIsAligned(s, item, id, attempt, handoff);
  }

  /** Pushing appends one row at the tail. */
  lemma AppendedRows<T>(s: Slots<T>, item: T, id: nat, attempt: int, handoff: nat)
    requires Valid(s)
    ensures Rows(Appended(s, item, id, attempt, handoff)) ==
      Rows(s) + [Row(if s.track then id else 0, item, attempt, handoff)]
  {
    var s' := Appended(s, item, id, attempt, handoff);
    AppendedIsValid(s, item, id, attempt, handoff);
    var before, after := Rows(s), Rows(s');
    forall i: nat | i < |after|
      ensures after[i] == if i < |before| then before[i] else Row(if s.track then id else 0, item, attempt, handoff)
    {
      AppendedRowAt(s, item, id, attempt, handoff, s.head + i);
    }
  }

  lemma AppendedRowAt<T>(s: Slots<T>, item: T, id: nat, attempt: int, handoff: nat, i: nat)
    requires Valid(s) && Shape(Appended(s, item, id, attempt, handoff)) && s.head <= i <= |s.items|
    ensures RowAt(Appended(s, item, id, attempt, handoff), i)
         == if i < |s.items| then RowAt(s, i) else Row(if s.track then id else 0, item, attempt, handoff)
  {
    AppendKeepsAligned(s.attempts, |s.items|, s.head, s.retryCount, 1, attempt);
    AppendKeepsAligned(s.handoffs, |s.items|, s.head, s.dlqCount, 0, handoff);
  }

  lemma SettledRows<T>(s: Slots<T>)
    requires Shape(s)
    ensures Shape(Settled(s)) && Rows(Settled(s)) == Rows(s)
  {
    var before, after := Rows(s), Rows(Settled(s));
    forall i: nat | i < |after|
      ensures after[i] == before[i]
    {
      SettledRowAt(s, i);
    }
  }

  lemma SettledRowAt<T>(s: Slots<T>, i: nat)
    requires Shape(s) && s.head + i < |s.items|
    ensures Shape(Settled(s)) && Settled(s).head + i < |Settled(s).items|
    ensures RowAt(Settled(s), Settled(s).head + i) == RowAt(s, s.head + i)
  {
  }

  /** Compaction keeps every invariant, unless the FIFO emptied while its
      retry counter was still positive. */
  lemma SettledIsValid<T>(s: Slots<T>)
    requires Shape(s) && MetadataAligned(s) && Cleared(s)
    ensures Valid(Settled(s)) <==> !(s.count == 0 && s.head > 0 && Leaked(s) > 0)
    ensures Valid(Settled(s)) ==> Leaked(Settled(s)) == Leaked(s)
  {
    var t := Settled(s);
    if s.attempts.Some? && t.attempts.Some? {
      assert t.attempts.value[t.head..] == s.attempts.value[s.head..];
    }
    if s.handoffs.Some? && t.handoffs.Some? {
      assert t.handoffs.value[t.head..] == s.handoffs.value[s.head..];
    }
  }

  /** Alignment before the release of unneeded arrays: only presence may be off. */
  ghost predicate Countable<T>(s: Slots<T>)
    requires Shape(s)
  {
    && s.retryCount >= 0 && s.dlqCount >= 0
    && (s.attempts.Some? ==>
        |s.attempts.value| == |s.items| && s.retryCount >= NonDefault(s.attempts.value[s.head..], 1))
    && (s.attempts.None? ==> s.retryCount == 0)
    && (s.handoffs.Some? ==> |s.handoffs.value| == |s.items| && s.dlqCount == NonDefault(s.handoffs.value[s.head..], 0))
    && (s.handoffs.Some? ==> forall i :: 0 <= i < |s.handoffs.value| ==> s.handoffs.value[i] >= 0)
    && (s.handoffs.None? ==> s.dlqCount == 0)
  }

  lemma ReleasedIsAligned<T>(s: Slots<T>)
    requires Shape(s) && Countable(s)
    ensures MetadataAligned(Released(s)) && Rows(Released(s)) == Rows(s)
    ensures Leaked(Released(s)) == Leaked(s)
  {
    var t := Released(s);
    if s.attempts.Some? {
      NonDefaultCounts(s.attempts.value[s.head..], 1);
      assert t.attempts.None? ==> forall i :: s.head <= i < |s.items| ==>
        s.attempts.value[i] == s.attempts.value[s.head..][i - s.head] == 1;
    }
    if s.handoffs.Some? {
      NonDefaultCounts(s.handoffs.value[s.head..], 0);
      assert t.handoffs.None? ==> forall i :: s.head <= i < |s.items| ==>
        s.handoffs.value[i] == s.handoffs.value[s.head..][i - s.head] == 0;
    }
    var before, after := Rows(s), Rows(t);
    forall i: nat | i < |after|
      ensures after[i] == before[i]
    {
      assert after[i] == RowAt(t, t.head + i) && before[i] == RowAt(s, s.head + i);
    }
  }

  lemma ResetKeepsAligned(a: Option<seq<int>>, length: nat, head: nat, counter: int, default: int)
    requires head < length && Aligned(a, length, head, counter, default)
    ensures var a' := Reset(a, head, default);
      && (a'.Some? <==> a.Some?)
      && (a.Some? ==> |a'.value| == length)
      && (a.Some? ==>
        NonDefault(a'.value[head + 1..], default)
        == NonDefault(a.value[head..], default) - (if Nth(a, head, default) != default then 1 else 0))
  {
    if a.Some? {
      assert a.value[head..] == [a.value[head]] + Reset(a, head, default).value[head + 1..];
      NonDefaultCounts(a.value[head + 1..], default);
    }
  }

  lemma VacatedIsCountable<T>(s: Slots<T>)
    requires Valid(s) && s.count > 0
    ensures Shape(Vacated(s)) && Countable(Vacated(s)) && Cleared(Vacated(s))
    ensures Leaked(Vacated(s)) == Leaked(s) + (if Nth(s.attempts, s.head, 1) < 1 then 1 else 0)
  {
    ResetKeepsAligned(s.attempts, |s.items|, s.head, s.retryCount, 1);
    ResetKeepsAligned(s.handoffs, |s.items|, s.head, s.dlqCount, 0);
    NonDefaultBelow(s.attempts, s.head);
    NonDefaultBelow(Vacated(s).attempts, s.head + 1);
    NonDefaultBelow(Vacated(s).handoffs, s.head + 1);
  }

  lemma NonDefaultBelow(a: Option<seq<int>>, head: nat)
    requires a.Some? ==> head <= |a.value|
    ensures a.Some? ==> forall d :: NonDefault(a.value[head..], d) >= 0
  {
    if a.Some? {
      forall d
        ensures NonDefault(a.value[head..], d) >= 0
      {
        NonDefaultCounts(a.value[head..], d);
      }
    }
  }

  lemma VacatedRows<T>(s: Slots<T>)
    requires Valid(s) && s.count > 0
    ensures Shape(Vacated(s)) && Rows(Vacated(s)) == Rows(s)[1..]
    ensures Rows(s)[0] == RowAt(s, s.head)
  {
    var t := Vacated(s);
    assert Shape(t);
    var before, after := Rows(s), Rows(t);
    forall i: nat | i < |after|
      ensures after[i] == before[1..][i]
    {
      assert after[i] == RowAt(t, t.head + i) && before[i + 1] == RowAt(s, s.head + 1 + i);
    }
  }

  /** Popping removes exactly the head row. The FIFO stays valid unless it became
      empty after some row with an attempt below 1 had passed through it. */
  lemma ConsumedIsValid<T>(s: Slots<T>)
    requires Valid(s) && s.count > 0
    ensures Shape(Consumed(s)) && Rows(Consumed(s)) == Rows(s)[1..]
    ensures var leaked := Leaked(s) + (if Rows(s)[0].attempt < 1 then 1 else 0);
      && (Valid(Consumed(s)) <==> !(s.count == 1 && leaked > 0))
      && (Valid(Consumed(s)) ==> Leaked(Consumed(s)) == leaked)
  {
    VacatedIsCountable(s);
    VacatedRows(s);
    ReleasedIsAligned(Vacated(s));
    SettledIsValid(Released(Vacated(s)));
    SettledRows(Released(Vacated(s)));
  }

  lemma ExcisedIsCountable<T>(s: Slots<T>, i: nat)
    requires Valid(s) && s.head <= i < |s.items|
    ensures Shape(Excised(s, i)) && Countable(Excised(s, i)) && Cleared(Excised(s, i))
    ensures Leaked(Excised(s, i)) == Leaked(s) + (if Nth(s.attempts, i, 1) < 1 then 1 else 0)
  {
    SplicedCounts(s.attempts, s.head, i, 1);
    SplicedCounts(s.handoffs, s.head, i, 0);
  }

  lemma SplicedCounts(a: Option<seq<int>>, head: nat, i: nat, default: int)
    requires a.Some? ==> head <= i < |a.value|
    ensures var a' := SplicedMetadata(a, i);
      a.Some? ==>
        && NonDefault(a'.value[head..], default)
           == NonDefault(a.value[head..], default) - (if a.value[i] != default then 1 else 0)
        && NonDefault(a'.value[head..], default) >= 0
  {
    if a.Some? {
      var live := a.value[head..];
      assert live == live[..i - head] + [live[i - head]] + live[i - head + 1..];
      assert SplicedMetadata(a, i).value[head..] == live[..i - head] + live[i - head + 1..];
      NonDefaultCounts(SplicedMetadata(a, i).value[head..], default);
    }
  }

  lemma ExcisedRowAt<T>(s: Slots<T>, i: nat, k: nat)
    requires Valid(s) && s.head <= i < |s.items| && Shape(Excised(s, i)) && s.head <= k < |s.items| - 1
    ensures RowAt(Excised(s, i), k) == RowAt(s, if k < i then k else k + 1)
  {
    ExcisedNth(s.attempts, |s.items|, i, k, 1);
    ExcisedNth(s.handoffs, |s.items|, i, k, 0);
  }

  lemma ExcisedNth(a: Option<seq<int>>, length: nat, i: nat, k: nat, default: int)
    requires (a.Some? ==> |a.value| == length) && i < length && k < length - 1
    ensures Nth(SplicedMetadata(a, i), k, default) == Nth(a, if k < i then k else k + 1, default)
  {
  }

  lemma ExcisedRows<T>(s: Slots<T>, i: nat)
    requires Valid(s) && s.head <= i < |s.items|
    ensures Shape(Excised(s, i)) && Rows(Excised(s, i)) == Spliced(Rows(s), i - s.head)
    ensures Rows(s)[i - s.head] == RowAt(s, i)
  {
    ExcisedIsCountable(s, i);
    var t := Excised(s, i);
    var before, after := Rows(s), Rows(t);
    var expected := Spliced(before, i - s.head);
    forall k: nat | k < |after|
      ensures after[k] == expected[k]
    {
      ExcisedRowAt(s, i, t.head + k);
      assert after[k] == RowAt(t, t.head + k);
    }
  }

  /** Removing a slot deletes exactly that row. */
  lemma RemovedAtIsValid<T>(s: Slots<T>, i: nat)
    requires Valid(s) && s.head <= i < |s.items|
    ensures Shape(RemovedAt(s, i)) && Rows(RemovedAt(s, i)) == Spliced(Rows(s), i - s.head)
    ensures var leaked := Leaked(s) + (if Rows(s)[i - s.head].attempt < 1 then 1 else 0);
      && (Valid(RemovedAt(s, i)) <==> !(s.count == 1 && s.head > 0 && leaked > 0))
      && (Valid(RemovedAt(s, i)) ==> Leaked(RemovedAt(s, i)) == leaked)
  {
    ExcisedIsCountable(s, i);
    ExcisedRows(s, i);
    ReleasedIsAligned(Excised(s, i));
    SettledIsValid(Released(Excised(s, i)));
    SettledRows(Released(Excised(s, i)));
  }

  lemma PushRefines<T>(s: Slots<T>, op: FifoOp<T>)
    requires Valid(s) && op.Push?
    ensures Valid(Step(s, op)) && Leaked(Step(s, op)) == Leaked(s) && Rows(Step(s, op)) == RowStep(s.track, Rows(s), op)
  {
    AppendedIsValid(s, op.item, op.id, op.attempt, ActiveHandoff(op.handoff));
    AppendedRows(s, op.item, op.id, op.attempt, ActiveHandoff(op.handoff));
  }

  lemma PopRefines<T>(s: Slots<T>)
    requires OneBased(s)
    ensures OneBased(Popped(s)) && Rows(Popped(s)) == (if Rows(s) == [] then [] else Rows(s)[1..])
  {
    if s.count > 0 {
      assert Rows(s)[0] in Rows(s);
      ConsumedIsValid(s);
    }
  }

  lemma RemovedAtRefines<T>(s: Slots<T>, i: nat)
    requires OneBased(s) && s.head <= i < |s.items|
    ensures OneBased(RemovedAt(s, i)) && Rows(RemovedAt(s, i)) == Spliced(Rows(s), i - s.head)
  {
    assert Rows(s)[i - s.head] in Rows(s);
    RemovedAtIsValid(s, i);
    SplicedMembers(Rows(s), i - s.head);
  }

  lemma SplicedMembers<A>(a: seq<A>, i: nat)
    ensures forall x :: x in Spliced(a, i) ==> x in a
  {
  }

  lemma RemoveRefines<T>(s: Slots<T>, k: nat)
    requires OneBased(s)
    ensures OneBased(Without(s, k)) && Rows(Without(s, k)) == Spliced(Rows(s), k)
  {
    if s.head + k < |s.items| {
      RemovedAtRefines(s, s.head + k);
      assert Without(s, k) == RemovedAt(s, s.head + k);
    } else {
      assert Without(s, k) == s && Spliced(Rows(s), k) == Rows(s);
    }
  }

  /** One operation with a 1-based attempt refines the operation on the rows. */
  lemma StepRefines<T>(s: Slots<T>, op: FifoOp<T>)
    requires OneBased(s) && OneBasedPush(op)
    ensures OneBased(Step(s, op)) && Rows(Step(s, op)) == RowStep(s.track, Rows(s), op)
    ensures Step(s, op).track == s.track
  {
    match op
    case Push(_, _, _, _) => PushRefines(s, op);
    case Pop => PopRefines(s);
    case Remove(k) => RemoveRefines(s, k);
  }

  /** Over any run whose pushes carry 1-based attempts, the arrays mean the plain sequence. */
  lemma {:induction false} RunRefines<T>(s: Slots<T>, ops: seq<FifoOp<T>>)
    requires OneBased(s)
    requires forall op :: op in ops ==> OneBasedPush(op)
    ensures OneBased(Run(s, ops)) && Rows(Run(s, ops)) == RowRun(s.track, Rows(s), ops)
    decreases |ops|
  {
    if ops != [] {
      StepRefines(s, ops[0]);
      RunRefines(Step(s, ops[0]), ops[1..]);
    }
  }

  // ------------------------------------------- attempts below 1 misalign rows

  /** Emptied while the retry counter was positive: an empty attempts array
      survives although no metadata is recorded. */
  ghost predicate Misaligned<T>(s: Slots<T>) {
    && s.items == [] && s.head == 0 && s.ids == [] && s.count == 0
    && s.attempts == Some([]) && s.handoffs == None && !s.hasMetadata
  }

  ghost predicate Tainted<T>(s: Slots<T>)
    requires Valid(s)
  {
    Leaked(s) > 0 || !AllOneBased(Rows(s))
  }

  lemma LastPopMisaligns<T>(s: Slots<T>)
    requires Valid(s) && Tainted(s) && s.count == 1
    ensures Misaligned(Step(s, Pop)) && Step(s, Pop).track == s.track
  {
    VacatedIsCountable(s);
    VacatedRows(s);
    var t := Vacated(s);
    assert t.handoffs.Some? ==> t.handoffs.value[t.head..] == [];
    assert t.attempts.Some? ==> t.attempts.value[t.head..] == [];
    forall r | r in Rows(s)
      ensures r == RowAt(s, s.head)
    {
    }
  }

  lemma PopKeepsTaint<T>(s: Slots<T>)
    requires Valid(s) && Tainted(s) && s.count > 1
    ensures var t := Step(s, Pop); Valid(t) && Tainted(t) && t.count == s.count - 1 && t.track == s.track
  {
    ConsumedIsValid(s);
    if Leaked(s) == 0 && Rows(s)[0].attempt >= 1 {
      var r :| r in Rows(s) && r.attempt < 1;
      assert r in Rows(s)[1..];
    }
    assert |Rows(Consumed(s))| == s.count - 1;
  }

  function Pops<T>(n: nat): seq<FifoOp<T>> {
    seq(n, _ => Pop)
  }

  lemma {:induction false} DrainingMisaligns<T>(s: Slots<T>)
    requires Valid(s) && Tainted(s) && s.count > 0
    ensures Misaligned(Run(s, Pops(s.count))) && Run(s, Pops(s.count)).track == s.track
    decreases s.count
  {
    RunOfPops(s, s.count);
    if s.count == 1 {
      LastPopMisaligns(s);
    } else {
      PopKeepsTaint(s);
      DrainingMisaligns(Step(s, Pop));
    }
  }

  lemma RunOfPops<T>(s: Slots<T>, n: nat)
    requires n > 0
    ensures Run(s, Pops(n)) == Run(Step(s, Pop), Pops(n - 1))
    ensures n == 1 ==> Run(s, Pops(n)) == Step(s, Pop)
  {
    assert Pops<T>(n)[1..] == Pops(n - 1) && Pops<T>(n)[0] == Pop;
  }

  lemma {:induction false} RunOfConcat<T>(s: Slots<T>, a: seq<FifoOp<T>>, b: seq<FifoOp<T>>)
    ensures Run(s, a + b) == Run(Run(s, a), b)
    decreases |a|
  {
    if a == [] {
      assert a + b == b;
    } else {
      assert (a + b)[0] == a[0] && (a + b)[1..] == a[1..] + b;
      RunOfConcat(Step(s, a[0]), a[1..], b);
    }
  }

  lemma {:induction false} RowRunOfConcat<T>(track: bool, rows: seq<Row<T>>, a: seq<FifoOp<T>>, b: seq<FifoOp<T>>)
    ensures RowRun(track, rows, a + b) == RowRun(track, RowRun(track, rows, a), b)
    decreases |a|
  {
    if a == [] {
      assert a + b == b;
    } else {
      assert (a + b)[0] == a[0] && (a + b)[1..] == a[1..] + b;
      RowRunOfConcat(track, RowStep(track, rows, a[0]), a[1..], b);
    }
  }

  lemma {:induction false} PopsEmptyRows<T>(track: bool, rows: seq<Row<T>>)
    ensures RowRun(track, rows, Pops(|rows|)) == []
    decreases |rows|
  {
    if rows != [] {
      assert Pops<T>(|rows|)[1..] == Pops(|rows[1..]|);
      PopsEmptyRows(track, rows[1..]);
    }
  }

  /** Two ordinary pushes on a misaligned FIFO: the second row's attempt is read for the first row. */
  lemma PushesAfterMisalignment<T>(s: Slots<T>, item: T)
    requires Misaligned(s)
    ensures var t := Run(s, [Push(item, 1, 1, 0), Push(item, 1, 2, 0)]);
      Shape(t) && |Rows(t)| == 2 && Rows(t)[0].attempt == 2
  {
    var op1, op2 := Push(item, 1, 1, 0), Push(item, 1, 2, 0);
    var s1 := Step(s, op1);
    var s2 := Step(s1, op2);
    assert [] + [2] == [2];
    assert s2.attempts == Some([2]);
    assert Run(s, [op1, op2]) == Run(s1, [op2]) == s2 by {
      assert [op1, op2][1..] == [op2];
    }
    assert Rows(s2)[0] == RowAt(s2, 0);
  }

  ghost predicate ReadsBack<T>(s: Slots<T>, ops: seq<FifoOp<T>>)
    requires Shape(s)
  {
    var t := Run(s, ops);
    Shape(t) && Rows(t) == RowRun(s.track, Rows(s), ops)
  }

  /** Pushing a row is safe for every later run exactly when its attempt is 1-based. */
  lemma PushIsSafeIff<T>(s: Slots<T>, item: T, id: nat, attempt: int, handoff: int)
    requires OneBased(s)
    ensures (forall ops :: (forall op :: op in ops ==> OneBasedPush(op)) ==>
             ReadsBack(s, [Push(item, id, attempt, handoff)] + ops))
       <==> attempt >= 1
  {
    var op := Push(item, id, attempt, handoff);
    if attempt >= 1 {
      forall ops: seq<FifoOp<T>> | forall o :: o in ops ==> OneBasedPush(o)
        ensures ReadsBack(s, [op] + ops)
      {
        RunRefines(s, [op] + ops);
      }
    } else {
      var ops := UnsafeContinuation(s, op);
      assert !ReadsBack(s, [op] + ops);
    }
  }

  /** After a push with an attempt below 1: drain, then push two ordinary rows. */
  lemma UnsafeContinuation<T>(s: Slots<T>, op: FifoOp<T>) returns (ops: seq<FifoOp<T>>)
    requires OneBased(s) && op.Push? && op.attempt < 1
    ensures forall o :: o in ops ==> OneBasedPush(o)
    ensures !ReadsBack(s, [op] + ops)
  {
    var t := Step(s, op);
    PushTaints(s, op);
    ops := Pops(t.count) + TwoPushes(op.item);
    DrainedThenPushed(t, op.item);
    ReadsBackFirst(s, op, ops);
  }

  lemma ReadsBackFirst<T>(s: Slots<T>, op: FifoOp<T>, ops: seq<FifoOp<T>>)
    requires Shape(s) && Shape(Step(s, op)) && Step(s, op).track == s.track
    requires Rows(Step(s, op)) == RowStep(s.track, Rows(s), op)
    ensures ReadsBack(s, [op] + ops) <==> ReadsBack(Step(s, op), ops)
  {
    RunFirst(s, op, ops);
  }

  lemma PushTaints<T>(s: Slots<T>, op: FifoOp<T>)
    requires OneBased(s) && op.Push? && op.attempt < 1
    ensures var t := Step(s, op);
      Valid(t) && Tainted(t) && t.count > 0 && t.track == s.track && Rows(t) == RowStep(s.track, Rows(s), op)
  {
    PushRefines(s, op);
    assert Rows(Step(s, op))[|Rows(s)|].attempt == op.attempt;
  }

  lemma RunFirst<T>(s: Slots<T>, op: FifoOp<T>, ops: seq<FifoOp<T>>)
    ensures Run(s, [op] + ops) == Run(Step(s, op), ops)
    ensures forall rows :: RowRun(s.track, rows, [op] + ops) == RowRun(s.track, RowStep(s.track, rows, op), ops)
  {
    assert ([op] + ops)[1..] == ops && ([op] + ops)[0] == op;
  }

  function TwoPushes<T>(item: T): seq<FifoOp<T>> {
    [Push(item, 1, 1, 0), Push(item, 1, 2, 0)]
  }

  lemma DrainedThenPushed<T>(t: Slots<T>, item: T)
    requires Valid(t) && Tainted(t) && t.count > 0
    ensures !ReadsBack(t, Pops(t.count) + TwoPushes(item))
  {
    var drain, two := Pops<T>(t.count), TwoPushes(item);
    DrainingMisaligns(t);
    PushesAfterMisalignment(Run(t, drain), item);
    RunOfConcat(t, drain, two);
    DrainedRows(t.track, Rows(t), item);
  }

  lemma DrainedRows<T>(track: bool, rows: seq<Row<T>>, item: T)
    ensures var left := RowRun(track, rows, Pops(|rows|) + TwoPushes(item)); |left| == 2 && left[0].attempt == 1
  {
    RowRunOfConcat(track, rows, Pops(|rows|), TwoPushes(item));
    PopsEmptyRows(track, rows);
    TwoPushRows(track, item);
  }

  lemma TwoPushRows<T>(track: bool, item: T)
    ensures RowRun(track, [], [Push(item, 1, 1, 0), Push(item, 1, 2, 0)])
         == [Row(if track then 1 else 0, item, 1, 0), Row(if track then 1 else 0, item, 2, 0)]
  {
    var op1, op2 := Push(item, 1, 1, 0), Push(item, 1, 2, 0);
    assert [op1, op2][1..] == [op2];
    var row1, row2 := Row(if track then 1 else 0, item, 1, 0), Row(if track then 1 else 0, item, 2, 0);
    assert [] + [row1] == [row1];
    assert [row1] + [row2] == [row1, row2];
    calc {
      RowRun(track, [], [op1, op2]);
      RowRun(track, [row1], [op2]);
      RowRun(track, [row1, row2], []);
    }
  }

  // --------------------------------------------------------- compaction cost

  /** Slots copied by the compaction that ends one operation. */
  function CopiedBy<T>(s: Slots<T>): nat
    requires s.head <= |s.items|
  {
    if s.head > 0 && s.count > 0 && CompactionDue(s) then |s.items| - s.head else 0
  }

  function StepCost<T>(s: Slots<T>, op: FifoOp<T>): nat {
    if s.head > |s.items| || |s.ids| != (if s.track then |s.items| else 0) then 0
    else
      match op
      case Push(_, _, _, _) => CopiedBy(s)
      case Pop => PopCost(s)
      case Remove(k) => RemovalCost(s, k)
  }

  function PopCost<T>(s: Slots<T>): nat
    requires s.track ==> |s.ids| == |s.items|
  {
    if s.head < |s.items| then CopiedBy(Released(Vacated(s))) else 0
  }

  function RemovalCost<T>(s: Slots<T>, k: nat): nat
    requires s.track ==> |s.ids| == |s.items|
  {
    if s.head + k < |s.items| then CopiedBy(Released(Excised(s, s.head + k))) else 0
  }

  function RunCost<T>(s: Slots<T>, ops: seq<FifoOp<T>>): nat
    decreases |ops|
  {
    if ops == [] then 0 else StepCost(s, ops[0]) + RunCost(Step(s, ops[0]), ops[1..])
  }

  function PopCount<T>(ops: seq<FifoOp<T>>): nat {
    if ops == [] then 0 else (if ops[0].Pop? then 1 else 0) + PopCount(ops[1..])
  }

  /** Head and items alone, whatever the metadata arrays hold. */
  ghost predicate Spaced<T>(s: Slots<T>) {
    Shape(s) && !CompactionDue(s) && (s.count == 0 ==> s.head == 0)
  }

  lemma SettledIsSpaced<T>(s: Slots<T>)
    requires Shape(s)
    ensures Spaced(Settled(s)) && CopiedBy(s) + Settled(s).head <= s.head
  {
  }

  /** The operation keeps the spacing, and a pop at most pays for what was copied. */
  ghost predicate PaidFor<T>(s: Slots<T>, op: FifoOp<T>) {
    Spaced(Step(s, op)) && StepCost(s, op) + Step(s, op).head <= s.head + (if op.Pop? then 1 else 0)
  }

  lemma PushIsPaidFor<T>(s: Slots<T>, item: T, id: nat, attempt: int, handoff: int)
    requires Spaced(s)
    ensures Spaced(Pushed(s, item, id, attempt, handoff)) && Pushed(s, item, id, attempt, handoff).head == s.head
    ensures CopiedBy(s) == 0
  {
  }

  lemma PopIsPaidFor<T>(s: Slots<T>)
    requires Spaced(s)
    ensures Spaced(Popped(s)) && PopCost(s) + Popped(s).head <= s.head + 1
  {
    if s.head < |s.items| {
      SettledIsSpaced(Released(Vacated(s)));
    }
  }

  lemma ExcisedShape<T>(s: Slots<T>, i: nat)
    requires Shape(s) && s.head <= i < |s.items|
    ensures Shape(Released(Excised(s, i))) && Released(Excised(s, i)).head == s.head
  {
  }

  lemma RemovalIsPaidFor<T>(s: Slots<T>, k: nat)
    requires Spaced(s)
    ensures Spaced(Without(s, k)) && RemovalCost(s, k) + Without(s, k).head <= s.head
  {
    if s.head + k < |s.items| {
      ExcisedShape(s, s.head + k);
      SettledIsSpaced(Released(Excised(s, s.head + k)));
    }
  }

  lemma StepIsPaidFor<T>(s: Slots<T>, op: FifoOp<T>)
    requires Spaced(s)
    ensures PaidFor(s, op)
  {
    match op
    case Push(item, id, attempt, handoff) => PushIsPaidFor(s, item, id, attempt, handoff);
    case Pop => PopIsPaidFor(s);
    case Remove(k) => RemovalIsPaidFor(s, k);
  }

  /** Over any run, attempts below 1 included: compaction is paid for by pops, and dead slots
      stay below max(1024, live slots); the compaction test at the start of a push never fires. */
  lemma {:induction false} CompactionIsAmortised<T>(s: Slots<T>, ops: seq<FifoOp<T>>)
    requires Spaced(s)
    ensures RunCost(s, ops) + Run(s, ops).head <= s.head + PopCount(ops)
    ensures var t := Run(s, ops);
      && !CompactionDue(t)
      && (t.head == 0 || t.head < AVAILABLE_COMPACT_MIN || t.head < t.count)
    decreases |ops|
  {
    if ops != [] {
      StepIsPaidFor(s, ops[0]);
      CompactionIsAmortised(Step(s, ops[0]), ops[1..]);
    }
  }

  // ------------------------------------------------------------------- class

  class AvailableFifo<T> {
    const track: bool
    var items: seq<Option<T>>
    var head: nat
    var ids: seq<nat>
    var attempts: Option<seq<int>>
    var handoffs: Option<seq<int>>
    var retryCount: int
    var dlqCount: int
    var hasMetadata: bool
    var count: int

    function State(): Slots<T>
      reads this
    {
      Slots(track, items, head, ids, attempts, handoffs, retryCount, dlqCount, hasMetadata, count)
    }

    /** Aligned arrays, and no row with an attempt below 1 here or before. */
    ghost predicate Valid()
      reads this
    {
      OneBased(State())
    }

    /** Aligned arrays; a row with an attempt below 1 may be waiting, but none has left. */
    ghost predicate Aligned()
      reads this
    {
      FifoSlots.Valid(State()) && Leaked(State()) == 0
    }

    ghost function Contents(): seq<Row<T>>
      requires Shape(State())
      reads this
    {
      Rows(State())
    }

    constructor (track: bool)
      ensures Valid() && Contents() == [] && this.track == track
    {
      this.track := track;
      items, head, ids, attempts, handoffs := [], 0, [], None, None;
      retryCount, dlqCount, hasMetadata, count := 0, 0, false, 0;
    }

    method CompactAvailable()
      requires head <= |items| && (track ==> head <= |ids|)
      modifies this
      ensures State() == Compacted(old(State()))
    {
      if head == 0 {
        return;
      }
      if count == 0 {
        items, ids, head := [], [], 0;
        attempts := if attempts.Some? then Some([]) else None;
        handoffs := if handoffs.Some? then Some([]) else None;
        retryCount, dlqCount, hasMetadata := 0, 0, false;
        return;
      }
      if head < AVAILABLE_COMPACT_MIN || head * 2 < |items| {
        return;
      }
      items := items[head..];
      ids := if track then ids[head..] else ids;
      attempts := SliceFrom(attempts, head);
      handoffs := SliceFrom(handoffs, head);
      head := 0;
    }

    method ReleaseMetadata()
      modifies this
      ensures State() == Released(old(State()))
    {
      attempts := if retryCount == 0 then None else attempts;
      handoffs := if dlqCount == 0 then None else handoffs;
      hasMetadata := attempts.Some? || handoffs.Some?;
    }

    /** The end of every removal: drop unneeded metadata, compact when it pays. */
    method FinishRemoval()
      requires head <= |items| && (track ==> head <= |ids|)
      modifies this
      ensures State() == Settled(Released(old(State())))
    {
      ReleaseMetadata();
      if count == 0 || (head >= AVAILABLE_COMPACT_MIN && head * 2 >= |items|) {
        CompactAvailable();
      }
    }

    method ConsumeSlot()
      requires head < |items| && (track ==> head < |ids|)
      modifies this
      ensures State() == Consumed(old(State()))
    {
      var index := head;
      items := items[index := None];
      ids := if track then ids[index := 0] else ids;
      retryCount := retryCount - (if Nth(attempts, index, 1) > 1 then 1 else 0);
      attempts := Reset(attempts, index, 1);
      dlqCount := dlqCount - (if Nth(handoffs, index, 0) > 0 then 1 else 0);
      handoffs := Reset(handoffs, index, 0);
      head := head + 1;
      count := count - 1;
      assert State() == Vacated(old(State()));
      FinishRemoval();
    }

    method Push(item: T, id: nat, attempt: int, dlqHandoffAttempt: int)
      requires Shape(State())
      modifies this
      ensures State() == Pushed(old(State()), item, id, attempt, dlqHandoffAttempt)
      ensures old(Aligned()) ==>
        && Aligned()
        && Contents() ==
          old(Contents()) + [Row(if track then id else 0, item, attempt, ActiveHandoff(dlqHandoffAttempt))]
      ensures old(Valid()) && attempt >= 1 ==> Valid()
    {
      ghost var before := State();
      if head >= AVAILABLE_COMPACT_MIN && head * 2 >= |items| {
        CompactAvailable();
      }
      Append(item, id, attempt, ActiveHandoff(dlqHandoffAttempt));
      if FifoSlots.Valid(before) {
        PushRefines(before, FifoOp.Push(item, id, attempt, dlqHandoffAttempt));
      }
    }

    method Append(item: T, id: nat, attempt: int, handoff: nat)
      modifies this
      ensures State() == Appended(old(State()), item, id, attempt, handoff)
    {
      ids := if track then ids + [id] else ids;
      count := count + 1;
      if !hasMetadata && attempt == 1 && handoff == 0 {
        items := items + [Some(item)];
        return;
      }
      hasMetadata := true;
      attempts := PushedMetadata(attempts, |items|, attempt, 1);
      handoffs := PushedMetadata(handoffs, |items|, handoff, 0);
      items := items + [Some(item)];
      retryCount := retryCount + (if attempt != 1 then 1 else 0);
      dlqCount := dlqCount + (if handoff != 0 then 1 else 0);
    }

    method Pop() returns (row: Option<Row<T>>)
      requires Valid()
      modifies this
      ensures Valid() && State() == Step(old(State()), FifoOp.Pop)
      ensures row.None? <==> old(Contents()) == []
      ensures row.None? ==> Contents() == []
      ensures row.Some? ==> row.value == old(Contents())[0] && Contents() == old(Contents())[1..]
    {
      if count == 0 {
        return None;
      }
      StepRefines(State(), FifoOp.Pop);
      assert Contents()[0] == RowAt(State(), head);
      row := Some(Row(if track then ids[head] else 0, items[head].value,
                      Nth(attempts, head, 1), ActiveHandoff(Nth(handoffs, head, 0))));
      ConsumeSlot();
    }

    /** Removes the live slot at `index`; indices outside the live range do nothing. */
    method RemoveAt(index: nat)
      requires Valid()
      modifies this
      ensures Valid()
      ensures old(head) <= index < |old(items)| ==> Contents() == Spliced(old(Contents()), index - old(head))
      ensures !(old(head) <= index < |old(items)|) ==> Contents() == old(Contents())
    {
      if index < head || index >= |items| {
        return;
      }
      RemoveSlot(index);
    }

    method RemoveSlot(index: nat)
      requires Valid() && head <= index < |items|
      modifies this
      ensures Valid() && Contents() == Spliced(old(Contents()), index - old(head))
    {
      RemovedAtRefines(State(), index);
      Excise(index);
      FinishRemoval();
      assert State() == RemovedAt(old(State()), index);
    }

    method Excise(index: nat)
      requires Shape(State()) && head <= index < |items|
      modifies this
      ensures State() == Excised(old(State()), index)
    {
      retryCount := retryCount - (if Nth(attempts, index, 1) > 1 then 1 else 0);
      attempts := SplicedMetadata(attempts, index);
      dlqCount := dlqCount - (if Nth(handoffs, index, 0) > 0 then 1 else 0);
      handoffs := SplicedMetadata(handoffs, index);
      items := Spliced(items, index);
      ids := if track then Spliced(ids, index) else ids;
      count := count - 1;
    }

    method Clear()
      modifies this
      ensures Valid() && Contents() == []
    {
      items, head, ids, attempts, handoffs := [], 0, [], None, None;
      retryCount, dlqCount, hasMetadata, count := 0, 0, false, 0;
    }
  }
}
