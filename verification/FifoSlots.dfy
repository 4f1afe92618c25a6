/** The arrays of the head-index FIFO and the operations on them, as values
    (packages/queue/src/queue/core/queue.ts, lines 283-297 and 431-612). */
module FifoSlots {
  import opened Options
  import opened PendingRows
  import opened Sequences

  const AVAILABLE_COMPACT_MIN: nat := 1024

  /** The closure variables of the FIFO, as one value. A consumed slot holds None. */
  datatype Slots<T> = Slots(
    track: bool, items: seq<Option<T>>, head: nat, ids: seq<nat>,
    attempts: Option<seq<int>>, handoffs: Option<seq<int>>,
    retryCount: int, dlqCount: int, hasMetadata: bool, count: int)

  // ---------------------------------------------------------------- reading

  /** `array?.[i] ?? default` */
  function Nth(a: Option<seq<int>>, i: nat, default: int): int {
    if a.Some? && i < |a.value| then a.value[i] else default
  }

  predicate Shape<T>(s: Slots<T>) {
    && s.head <= |s.items|
    && s.count == |s.items| - s.head
    && (forall i :: s.head <= i < |s.items| ==> s.items[i].Some?)
    && |s.ids| == (if s.track then |s.items| else 0)
  }

  function RowAt<T>(s: Slots<T>, i: nat): Row<T>
    requires Shape(s) && s.head <= i < |s.items|
  {
    Row(if s.track then s.ids[i] else 0, s.items[i].value, Nth(s.attempts, i, 1), ActiveHandoff(Nth(s.handoffs, i, 0)))
  }

  /** The plain sequence of rows that the arrays stand for. */
  ghost function Rows<T>(s: Slots<T>): (rows: seq<Row<T>>)
    requires Shape(s)
    ensures |rows| == s.count
  {
    seq(|s.items| - s.head, i requires 0 <= i < |s.items| - s.head => RowAt(s, s.head + i))
  }

  // ------------------------------------------------------------- invariants

  /** How many entries differ from the default. */
  ghost function NonDefault(a: seq<int>, default: int): int {
    |a| - multiset(a)[default]
  }

  /** A metadata array exists exactly while its counter is positive; it is then
      aligned with the items and the counter is no less than the slots that need it. */
  ghost predicate Aligned(a: Option<seq<int>>, length: nat, head: nat, counter: int, default: int)
    requires head <= length
  {
    && (a.Some? <==> counter > 0)
    && (a.None? ==> counter == 0)
    && (a.Some? ==> |a.value| == length && counter >= NonDefault(a.value[head..], default))
  }

  /** Counted slots that no longer exist: rows that left with an attempt below 1. */
  ghost function Leaked<T>(s: Slots<T>): int
    requires s.attempts.Some? ==> s.head <= |s.attempts.value|
  {
    if s.attempts.Some? then s.retryCount - NonDefault(s.attempts.value[s.head..], 1) else 0
  }

  ghost predicate MetadataAligned<T>(s: Slots<T>)
    requires Shape(s)
  {
    && Aligned(s.attempts, |s.items|, s.head, s.retryCount, 1)
    && Aligned(s.handoffs, |s.items|, s.head, s.dlqCount, 0)
    && (s.handoffs.Some? ==>
      && s.dlqCount == NonDefault(s.handoffs.value[s.head..], 0)
      && forall i :: 0 <= i < |s.handoffs.value| ==> s.handoffs.value[i] >= 0)
    && s.hasMetadata == (s.attempts.Some? || s.handoffs.Some?)
  }

  ghost predicate Cleared<T>(s: Slots<T>) {
    forall i :: 0 <= i < s.head && i < |s.items| ==> s.items[i].None?
  }

  /** Consumed slots keep no payload, and are fewer than max(1024, live slots). */
  ghost predicate Compact<T>(s: Slots<T>) {
    && Cleared(s)
    && (s.head < AVAILABLE_COMPACT_MIN || 2 * s.head < |s.items|)
    && (s.count == 0 ==> s.head == 0)
  }

  ghost predicate Valid<T>(s: Slots<T>) {
    Shape(s) && MetadataAligned(s) && Compact(s)
  }

  /** Every row in the FIFO, now or before, had a 1-based attempt. */
  ghost predicate OneBased<T>(s: Slots<T>) {
    Valid(s) && Leaked(s) == 0 && forall r :: r in Rows(s) ==> r.attempt >= 1
  }

  // ------------------------------------------------------------ transitions

  function SliceFrom(a: Option<seq<int>>, from: nat): Option<seq<int>> {
    if a.None? then None else Some(if from <= |a.value| then a.value[from..] else [])
  }

  predicate CompactionDue<T>(s: Slots<T>) {
    s.head >= AVAILABLE_COMPACT_MIN && s.head * 2 >= |s.items|
  }

  function Compacted<T>(s: Slots<T>): Slots<T>
    requires s.head <= |s.items| && (s.track ==> s.head <= |s.ids|)
  {
    if s.head == 0 then s
    else if s.count == 0 then
      s.(items := [], ids := [], head := 0,
         attempts := if s.attempts.Some? then Some([]) else None,
         handoffs := if s.handoffs.Some? then Some([]) else None,
         retryCount := 0, dlqCount := 0, hasMetadata := false)
    else if !CompactionDue(s) then s
    else
      s.(items := s.items[s.head..], ids := if s.track then s.ids[s.head..] else s.ids, head := 0,
         attempts := SliceFrom(s.attempts, s.head), handoffs := SliceFrom(s.handoffs, s.head))
  }

  function Settled<T>(s: Slots<T>): Slots<T>
    requires s.head <= |s.items| && (s.track ==> s.head <= |s.ids|)
  {
    if s.count == 0 || CompactionDue(s) then Compacted(s) else s
  }

  function Released<T>(s: Slots<T>): Slots<T> {
    var attempts := if s.retryCount == 0 then None else s.attempts;
    var handoffs := if s.dlqCount == 0 then None else s.handoffs;
    s.(attempts := attempts, handoffs := handoffs, hasMetadata := attempts.Some? || handoffs.Some?)
  }

  /** One metadata array after a push: materialised when the value first matters. */
  function PushedMetadata(a: Option<seq<int>>, length: nat, value: int, default: int): Option<seq<int>> {
    if a.Some? then Some(a.value + [value])
    else if value != default then Some(seq(length, _ => default) + [value])
    else None
  }

  function Appended<T>(s: Slots<T>, item: T, id: nat, attempt: int, handoff: nat): Slots<T> {
    var s' := s.(items := s.items + [Some(item)], ids := if s.track then s.ids + [id] else s.ids, count := s.count + 1);
    if !s.hasMetadata && attempt == 1 && handoff == 0 then s'
    else
      s'.(hasMetadata := true,
          attempts := PushedMetadata(s.attempts, |s.items|, attempt, 1),
          handoffs := PushedMetadata(s.handoffs, |s.items|, handoff, 0),
          retryCount := s.retryCount + (if attempt != 1 then 1 else 0),
          dlqCount := s.dlqCount + (if handoff != 0 then 1 else 0))
  }

  function Pushed<T>(s: Slots<T>, item: T, id: nat, attempt: int, dlqHandoffAttempt: int): Slots<T>
    requires s.head <= |s.items| && (s.track ==> s.head <= |s.ids|)
  {
    Appended(if CompactionDue(s) then Compacted(s) else s, item, id, attempt, ActiveHandoff(dlqHandoffAttempt))
  }

  function Reset(a: Option<seq<int>>, i: nat, default: int): Option<seq<int>> {
    if a.Some? && i < |a.value| then Some(a.value[i := default]) else a
  }

  /** The head slot vacated: payload and metadata cleared, counters lowered. */
  function Vacated<T>(s: Slots<T>): Slots<T>
    requires s.head < |s.items| && (s.track ==> s.head < |s.ids|)
  {
    s.(items := s.items[s.head := None],
       ids := if s.track then s.ids[s.head := 0] else s.ids,
       attempts := Reset(s.attempts, s.head, 1),
       handoffs := Reset(s.handoffs, s.head, 0),
       retryCount := s.retryCount - (if Nth(s.attempts, s.head, 1) > 1 then 1 else 0),
       dlqCount := s.dlqCount - (if Nth(s.handoffs, s.head, 0) > 0 then 1 else 0),
       head := s.head + 1, count := s.count - 1)
  }

  function Consumed<T>(s: Slots<T>): Slots<T>
    requires s.head < |s.items| && (s.track ==> s.head < |s.ids|)
  {
    Settled(Released(Vacated(s)))
  }

  function SplicedMetadata(a: Option<seq<int>>, i: nat): Option<seq<int>> {
    if a.Some? then Some(Spliced(a.value, i)) else None
  }

  /** One live slot spliced out of every array, counters lowered. */
  function Excised<T>(s: Slots<T>, i: nat): Slots<T>
    requires s.head <= i < |s.items| && (s.track ==> |s.ids| == |s.items|)
  {
    s.(items := Spliced(s.items, i),
       ids := if s.track then Spliced(s.ids, i) else s.ids,
       attempts := SplicedMetadata(s.attempts, i),
       handoffs := SplicedMetadata(s.handoffs, i),
       retryCount := s.retryCount - (if Nth(s.attempts, i, 1) > 1 then 1 else 0),
       dlqCount := s.dlqCount - (if Nth(s.handoffs, i, 0) > 0 then 1 else 0),
       count := s.count - 1)
  }

  function RemovedAt<T>(s: Slots<T>, i: nat): Slots<T>
    requires s.head <= i < |s.items| && (s.track ==> |s.ids| == |s.items|)
  {
    Settled(Released(Excised(s, i)))
  }

  // ------------------------------------------------------------------- runs

  datatype FifoOp<T> = Push(item: T, id: nat, attempt: int, handoff: int) | Pop | Remove(position: nat)

  function Step<T>(s: Slots<T>, op: FifoOp<T>): Slots<T> {
    if s.head > |s.items| || |s.ids| != (if s.track then |s.items| else 0) then s
    else
      match op
      case Push(item, id, attempt, handoff) => Pushed(s, item, id, attempt, handoff)
      case Pop => Popped(s)
      case Remove(k) => Without(s, k)
  }

  /** A pop, and the removal of the k-th live row; both leave an absent row alone. */
  function Popped<T>(s: Slots<T>): Slots<T>
    requires s.track ==> |s.ids| == |s.items|
  {
    if s.head < |s.items| then Consumed(s) else s
  }

  function Without<T>(s: Slots<T>, k: nat): Slots<T>
    requires s.track ==> |s.ids| == |s.items|
  {
    if s.head + k < |s.items| then RemovedAt(s, s.head + k) else s
  }

  /** The same operation on the plain sequence of rows. */
  function RowStep<T>(track: bool, rows: seq<Row<T>>, op: FifoOp<T>): seq<Row<T>> {
    match op
    case Push(item, id, attempt, handoff) =>
      rows + [Row(if track then id else 0, item, attempt, ActiveHandoff(handoff))]
    case Pop => if rows == [] then [] else rows[1..]
    case Remove(k) => Spliced(rows, k)
  }

  function Run<T>(s: Slots<T>, ops: seq<FifoOp<T>>): Slots<T>
    decreases |ops|
  {
    if ops == [] then s else Run(Step(s, ops[0]), ops[1..])
  }

  function RowRun<T>(track: bool, rows: seq<Row<T>>, ops: seq<FifoOp<T>>): seq<Row<T>>
    decreases |ops|
  {
    if ops == [] then rows else RowRun(track, RowStep(track, rows, ops[0]), ops[1..])
  }

  ghost predicate OneBasedPush<T>(op: FifoOp<T>) {
    op.Push? ==> op.attempt >= 1
  }

  ghost predicate AllOneBased<T>(rows: seq<Row<T>>) {
    forall r :: r in rows ==> r.attempt >= 1
  }
}
