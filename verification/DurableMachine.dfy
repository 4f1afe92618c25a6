/** The durable queue as a state machine over its smallest steps: check, store write,
    memory update, timer, crash, hydrate (packages/queue/src/queue/core/queue.ts). */
module DurableMachine {
  import opened Options
  import opened Records
  import opened PendingRows
  import opened QueueModel
  import opened QueueSteps

  datatype Config = Config(maxSize: Option<nat>, leaseTtl: Option<real>, unique: bool)

  /** An accepted `enqueue` call that waits on the write chain with its id. */
  datatype Waiting = Waiting(item: Item, availableAt: real)

  /** A `reschedule` call that waits on the write chain; its due time was fixed by the call. */
  datatype Rescheduling = Rescheduling(row: QueueRow, generation: nat, availableAt: real)

  /** The operation at the head of the write chain; `before` is the store it found. */
  datatype Inflight = Inflight(op: Op, written: bool, before: Store)

  datatype Phase =
    | Up(mem: Memory, index: map<string, nat>, waiting: map<nat, Waiting>, asked: multiset<Rescheduling>,
         inflight: Option<Inflight>)
    | Down
    | Hydrating(loaded: Store, now: real, todo: seq<nat>)

  /** `ledger` is the logical contents acknowledged to callers; the two counters are
      the accepted and removed rows since the last start, clear or replaceAll. */
  datatype Machine = Machine(cfg: Config, store: Store, clock: real, phase: Phase, ledger: Ledger, accepted: int,
                             removed: int)

  datatype Action =
    | Tick(elapsed: real)
    | EnqueueCall(item: Item, delayMs: real)
    | BeginEnqueue(id: nat)
    | BeginClaim
    | BeginAck(id: nat, generation: nat)
    | BeginExtend(id: nat, generation: nat, ttlMs: real)
    | BeginRelease(id: nat, generation: nat)
    | BeginReclaim(id: nat)
    | RescheduleCall(id: nat, generation: nat, item: Item, delayMs: real, attempt: int, handoff: int)
    | BeginReschedule(call: Rescheduling)
    | BeginDequeue
    | BeginCancel(id: nat)
    | BeginRescheduleJob(id: nat, delayMs: real)
    | BeginPromoteJob(id: nat)
    | BeginClear
    | BeginReplaceAll(items: seq<Item>)
    | StoreWrite
    | StoreFail
    | ApplyMemory
    | Promote(order: seq<nat>)
    | Crash
    | HydrateStart(order: seq<nat>)
    | HydratePut
    | HydrateDone

  function Size(mem: Memory): nat {
    |mem.ready| + |mem.delayed| + |mem.leased|
  }

  function DueAt(clock: real, delayMs: real): real {
    if delayMs > 0.0 then clock + delayMs else 0.0
  }

  // ------------------------------------------------------- unique job index

  predicate DistinctJobs(ledger: Ledger) {
    forall a, b ::
      (a in ledger && b in ledger && ledger[a].item.Job? && ledger[b].item.Job?
       && ledger[a].item.jobId == ledger[b].item.jobId)
      ==> a == b
  }

  function IndexFor(ledger: Ledger): map<string, nat>
    requires DistinctJobs(ledger)
  {
    map id | id in ledger && ledger[id].item.Job? :: ledger[id].item.jobId := id
  }

  function Indexed(index: map<string, nat>, item: Item, id: nat): map<string, nat> {
    if item.Job? then index[item.jobId := id] else index
  }

  function Unindexed(index: map<string, nat>, item: Item, id: nat): map<string, nat> {
    if item.Job? && item.jobId in index && index[item.jobId] == id then index - {item.jobId} else index
  }

  /** `assertUniqueJob` */
  predicate JobIsFree(index: map<string, nat>, item: Item, id: nat) {
    item.Job? && item.jobId in index ==> index[item.jobId] == id
  }

  /** The rows indexed one after the other. */
  function IndexOf(rows: seq<QueueRow>): map<string, nat> {
    if rows == [] then map[]
    else Indexed(IndexOf(rows[..|rows| - 1]), rows[|rows| - 1].item, rows[|rows| - 1].id)
  }

  function JobIdOf(item: Item): Option<string> {
    if item.Job? then Some(item.jobId) else None
  }

  predicate SameJob(a: Item, b: Item) {
    a.Job? && b.Job? && a.jobId == b.jobId
  }

  predicate DistinctItems(items: seq<Item>) {
    forall i, j :: 0 <= i < j < |items| ==> !SameJob(items[i], items[j])
  }

  function IndexAfter(op: Op, mem: Memory, index: map<string, nat>): map<string, nat>
    requires Enabled(op, mem)
  {
    match op
    case EnqueueOp(row, _) => Indexed(index, row.item, row.id)
    case AckOp(id) => Unindexed(index, mem.leased[id].row.item, id)
    case DequeueOp(row) => Unindexed(index, row.item, row.id)
    case CancelOp(id) => Unindexed(index, PendingRow(mem, id).item, id)
    case ClearOp => map[]
    case ReplaceOp(items) => IndexOf(Planned(items))
    case _ => index
  }

  /** Without unique jobs there is no index. */
  function IndexNow(cfg: Config, op: Op, mem: Memory, index: map<string, nat>): map<string, nat>
    requires Enabled(op, mem)
  {
    if cfg.unique then IndexAfter(op, mem, index) else if IsReset(op) then map[] else index
  }

  // -------------------------------------------------------------- promotion

  /** An order in which the heap may release exactly the due rows. */
  ghost predicate DueOrder(delayed: map<nat, DelayedRow>, clock: real, order: seq<nat>) {
    && (forall i, j :: 0 <= i < j < |order| ==> order[i] != order[j])
    && (forall id :: id in order <==> id in delayed && delayed[id].availableAt <= clock)
    && (forall i, j :: 0 <= i < j < |order| && order[i] in delayed && order[j] in delayed ==>
         delayed[order[i]].availableAt <= delayed[order[j]].availableAt)
  }

  function RowsOf(delayed: map<nat, DelayedRow>, order: seq<nat>): (rows: seq<QueueRow>)
    requires forall id :: id in order ==> id in delayed
    ensures |rows| == |order|
  {
    seq(|order|, i requires 0 <= i < |order| => delayed[order[i]].row)
  }

  function Promoted(mem: Memory, order: seq<nat>): Memory
    requires forall id :: id in order ==> id in mem.delayed
  {
    mem.(ready := mem.ready + RowsOf(mem.delayed, order), delayed := mem.delayed - (set id | id in order))
  }

  // -------------------------------------------------------------- hydration

  ghost function MaxId(ids: set<nat>): (m: nat)
    ensures forall id :: id in ids ==> id <= m
    ensures ids == {} ==> m == 0
    ensures ids != {} ==> m in ids
  {
    if ids == {} then 0
    else
      var id :| id in ids;
      var rest := MaxId(ids - {id});
      assert forall x :: x in ids ==> x == id || x in ids - {id};
      if id > rest then id else rest
  }

  /** The members of a set up to a bound, in ascending order. */
  function Ascending(ids: set<nat>, bound: nat): seq<nat> {
    if bound == 0 then [] else Ascending(ids, bound - 1) + (if bound in ids then [bound] else [])
  }

  function ReadyIds(loaded: Store, now: real): set<nat> {
    set id | id in loaded && (loaded[id].lease.Some? || loaded[id].availableAt <= now)
  }

  function LoadedRows(loaded: Store, order: seq<nat>): (rows: seq<QueueRow>)
    requires forall id :: id in order ==> id in loaded
    ensures |rows| == |order|
  {
    seq(|order|, i requires 0 <= i < |order| => FromRecord(loaded[order[i]]))
  }

  lemma {:induction false} AscendingIs(ids: set<nat>, bound: nat)
    ensures forall id :: id in Ascending(ids, bound) <==> id in ids && 1 <= id <= bound
    ensures forall i, j :: 0 <= i < j < |Ascending(ids, bound)| ==> Ascending(ids, bound)[i] < Ascending(ids, bound)[j]
  {
    if bound > 0 {
      AscendingIs(ids, bound - 1);
      var below := Ascending(ids, bound - 1);
      assert forall i :: 0 <= i < |below| ==> below[i] in below;
    }
  }

  /** What `hydrate` rebuilds from the loaded rows, whatever order they came in. */
  ghost function HydratedMemory(loaded: Store, now: real): Memory
  {
    var bound := MaxId(loaded.Keys);
    AscendingIs(ReadyIds(loaded, now), bound);
    Memory(
      LoadedRows(loaded, Ascending(ReadyIds(loaded, now), bound)),
      map id | id in loaded && id !in ReadyIds(loaded, now) ::
        DelayedRow(FromRecord(loaded[id]), loaded[id].availableAt),
      map[], bound, 0)
  }

  /** The record that recovery writes back for a leased row. */
  function Cleared(rec: Record): Record {
    ToRecord(FromRecord(rec), 0.0, None, None)
  }

  function LeasedOnly(loaded: Store, order: seq<nat>): seq<nat> {
    if order == [] then []
    else
      var first := if order[0] in loaded && loaded[order[0]].lease.Some? then [order[0]] else [];
      first + LeasedOnly(loaded, order[1..])
  }

  /** Rows a queue may load: keyed by safe ids, attempts 1-based. */
  ghost predicate Loadable(store: Store) {
    forall id :: id in store ==> store[id].id == id && 1 <= id <= ID_MAX && FromRecord(store[id]).attempt >= 1
  }

  // ------------------------------------------------------------------ steps

  function Begin(m: Machine, mem: Memory, op: Op): Machine
    requires m.phase.Up?
  {
    m.(phase := m.phase.(mem := mem, inflight := Some(Inflight(op, false, m.store))))
  }

  predicate Idle(m: Machine) {
    m.phase.Up? && m.phase.inflight.None?
  }

  predicate LeaseIsLive(m: Machine, id: nat, generation: nat) {
    Idle(m) && id in m.phase.mem.leased && m.phase.mem.leased[id].generation == generation
  }

  function ExecEnqueueCall(m: Machine, item: Item, delayMs: real): Machine {
    if !m.phase.Up? || delayMs < 0.0 || m.phase.mem.counter >= ID_MAX then m
    else
      var id := m.phase.mem.counter + 1;
      m.(phase := m.phase.(mem := m.phase.mem.(counter := id),
                           waiting := m.phase.waiting[id := Waiting(item, DueAt(m.clock, delayMs))]))
  }

  predicate Rejected(m: Machine, id: nat, item: Item)
    requires m.phase.Up?
  {
    || (m.cfg.maxSize.Some? && Size(m.phase.mem) + 1 > m.cfg.maxSize.value)
    || (m.cfg.unique && !JobIsFree(m.phase.index, item, id))
  }

  function ExecBeginEnqueue(m: Machine, id: nat): Machine {
    if !Idle(m) || id !in m.phase.waiting then m
    else
      var w := m.phase.waiting[id];
      var m' := m.(phase := m.phase.(waiting := m.phase.waiting - {id}));
      if Rejected(m, id, w.item) then m'
      else Begin(m', m.phase.mem, EnqueueOp(Row(id, w.item, 1, 0), w.availableAt))
  }

  function ExecRescheduleCall(m: Machine, row: QueueRow, generation: nat, delayMs: real): Machine {
    if !m.phase.Up? || delayMs < 0.0 then m
    else
      var call := Rescheduling(row, generation, DueAt(m.clock, delayMs));
      m.(phase := m.phase.(asked := m.phase.asked + multiset{call}))
  }

  function ExecBeginReschedule(m: Machine, call: Rescheduling): Machine {
    if !Idle(m) || call !in m.phase.asked || call.availableAt < 0.0 then m
    else
      var m' := m.(phase := m.phase.(asked := m.phase.asked - multiset{call}));
      if !LeaseIsLive(m, call.row.id, call.generation) then m'
      else Begin(m', m.phase.mem, RescheduleOp(call.row, call.availableAt))
  }

  /** What `replaceAll` checks: the size limit and repeated application ids in its call,
      leases in its turn on the chain. */
  predicate MayReplace(m: Machine, items: seq<Item>) {
    && Idle(m) && |items| <= ID_MAX && m.phase.mem.leased == map[]
    && (m.cfg.maxSize.Some? ==> |items| <= m.cfg.maxSize.value)
    && (m.cfg.unique ==> DistinctItems(items))
  }

  function ExecBeginClaim(m: Machine): Machine {
    if !Idle(m) || m.phase.mem.ready == [] then m
    else
      var mem := m.phase.mem;
      var generation := mem.generations + 1;
      var expiresAt := if m.cfg.leaseTtl.Some? then Some(m.clock + m.cfg.leaseTtl.value) else None;
      Begin(m, mem.(ready := mem.ready[1..], generations := generation), ClaimOp(mem.ready[0], generation, expiresAt))
  }

  function ExecBeginDequeue(m: Machine): Machine {
    if !Idle(m) || m.phase.mem.ready == [] then m
    else Begin(m, m.phase.mem.(ready := m.phase.mem.ready[1..]), DequeueOp(m.phase.mem.ready[0]))
  }

  function ExecBegin(m: Machine, a: Action): Machine {
    match a
    case BeginAck(id, generation) =>
      if LeaseIsLive(m, id, generation) then Begin(m, m.phase.mem, AckOp(id)) else m
    case BeginExtend(id, generation, ttlMs) =>
      if LeaseIsLive(m, id, generation) && ttlMs >= 1.0
      then Begin(m, m.phase.mem, ExtendOp(id, Some(m.clock + ttlMs))) else m
    case BeginRelease(id, generation) =>
      if LeaseIsLive(m, id, generation) then Begin(m, m.phase.mem, ReleaseOp(id)) else m
    case BeginReclaim(id) =>
      if Idle(m) && id in m.phase.mem.leased && m.phase.mem.leased[id].expiresAt.Some?
         && m.phase.mem.leased[id].expiresAt.value <= m.clock
      then Begin(m, m.phase.mem, ReleaseOp(id)) else m
    case BeginCancel(id) =>
      if Idle(m) && IsPending(m.phase.mem, id) then Begin(m, m.phase.mem, CancelOp(id)) else m
    case BeginRescheduleJob(id, delayMs) =>
      if Idle(m) && IsPending(m.phase.mem, id) && delayMs >= 0.0 && m.clock >= 0.0 then
        Begin(m, m.phase.mem, MoveOp(id, DueAt(m.clock, delayMs)))
      else m
    case BeginPromoteJob(id) =>
      if Idle(m) && id in m.phase.mem.delayed then Begin(m, m.phase.mem, MoveOp(id, 0.0)) else m
    case BeginClear => if Idle(m) then Begin(m, m.phase.mem, ClearOp) else m
    case BeginReplaceAll(items) => if MayReplace(m, items) then Begin(m, m.phase.mem, ReplaceOp(items)) else m
    case _ => m
  }

  /** An operation of the chain that stands before its store call, or after it. */
  predicate Stands(m: Machine, written: bool) {
    && m.phase.Up? && m.phase.inflight.Some? && m.phase.inflight.value.written == written
    && Enabled(m.phase.inflight.value.op, m.phase.mem)
  }

  function ExecStoreWrite(m: Machine): Machine {
    if !Stands(m, false) then m
    else
      var fl := m.phase.inflight.value;
      m.(store := Written(fl.op, m.phase.mem, m.store), phase := m.phase.(inflight := Some(fl.(written := true))))
  }

  function ExecStoreFail(m: Machine): Machine {
    if !Stands(m, false) then m
    else m.(phase := m.phase.(mem := Abandoned(m.phase.inflight.value.op, m.phase.mem), inflight := None))
  }

  /** Rows accepted and removed, counted from the last reset on. */
  function AcceptedAfter(op: Op, accepted: int): int {
    match op
    case EnqueueOp(_, _) => accepted + 1
    case ClearOp => 0
    case ReplaceOp(items) => |items|
    case _ => accepted
  }

  function RemovedAfter(op: Op, removed: int): int {
    if IsReset(op) then 0 else if op.AckOp? || op.DequeueOp? || op.CancelOp? then removed + 1 else removed
  }

  function ExecApply(m: Machine): Machine {
    if !Stands(m, true) then m
    else
      var op := m.phase.inflight.value.op;
      m.(phase := m.phase.(
           mem := Applied(op, m.phase.mem),
           index := IndexNow(m.cfg, op, m.phase.mem, m.phase.index),
           inflight := None),
         ledger := LedgerAfter(op, m.ledger),
         accepted := AcceptedAfter(op, m.accepted), removed := RemovedAfter(op, m.removed))
  }

  /** The delay timer may fire at any time, except across an admin operation. */
  ghost function ExecPromote(m: Machine, order: seq<nat>): Machine {
    if !m.phase.Up? || !DueOrder(m.phase.mem.delayed, m.clock, order) then m
    else if m.phase.inflight.Some? && (m.phase.inflight.value.op.CancelOp? || m.phase.inflight.value.op.MoveOp?) then m
    else m.(phase := m.phase.(mem := Promoted(m.phase.mem, order)))
  }

  function ExecHydrateStart(m: Machine, order: seq<nat>): Machine {
    if !m.phase.Down? || (set id | id in order) != m.store.Keys || |order| != |m.store| then m
    else if m.cfg.unique && !DistinctJobs(LedgerOf(m.store)) then m
    else m.(phase := Hydrating(m.store, m.clock, LeasedOnly(m.store, order)))
  }

  function ExecHydratePut(m: Machine): Machine {
    if !m.phase.Hydrating? || m.phase.todo == [] || m.phase.todo[0] !in m.store then m
    else
      var id := m.phase.todo[0];
      m.(store := m.store[id := Cleared(m.store[id])], phase := m.phase.(todo := m.phase.todo[1..]))
  }

  ghost function ExecHydrateDone(m: Machine): Machine {
    if !m.phase.Hydrating? || m.phase.todo != [] then m
    else
      var loaded := LedgerOf(m.phase.loaded);
      var index := if m.cfg.unique && DistinctJobs(loaded) then IndexFor(loaded) else map[];
      m.(phase := Up(HydratedMemory(m.phase.loaded, m.phase.now), index, map[], multiset{}, None),
         accepted := |m.ledger|, removed := 0)
  }

  function ExecTick(m: Machine, elapsed: real): Machine {
    if elapsed >= 0.0 then m.(clock := m.clock + elapsed) else m
  }

  /** Memory is lost; what the store holds is what was accepted. */
  function ExecCrash(m: Machine): Machine {
    if m.phase.Down? then m else m.(phase := Down, ledger := LedgerOf(m.store))
  }

  /** A step that is not enabled changes nothing. */
  ghost function Exec(m: Machine, a: Action): Machine {
    match a
    case Tick(elapsed) => ExecTick(m, elapsed)
    case EnqueueCall(item, delayMs) => ExecEnqueueCall(m, item, delayMs)
    case BeginEnqueue(id) => ExecBeginEnqueue(m, id)
    case RescheduleCall(id, generation, item, delayMs, attempt, handoff) =>
      ExecRescheduleCall(m, Row(id, item, attempt, ActiveHandoff(handoff)), generation, delayMs)
    case BeginReschedule(call) => ExecBeginReschedule(m, call)
    case BeginClaim => ExecBeginClaim(m)
    case BeginDequeue => ExecBeginDequeue(m)
    case StoreWrite => ExecStoreWrite(m)
    case StoreFail => ExecStoreFail(m)
    case ApplyMemory => ExecApply(m)
    case Promote(order) => ExecPromote(m, order)
    case Crash => ExecCrash(m)
    case HydrateStart(order) => ExecHydrateStart(m, order)
    case HydratePut => ExecHydratePut(m)
    case HydrateDone => ExecHydrateDone(m)
    case _ => ExecBegin(m, a)
  }

  ghost function Run(m: Machine, actions: seq<Action>): Machine {
    if actions == [] then m else Exec(Run(m, actions[..|actions| - 1]), actions[|actions| - 1])
  }

  /** The memory update of a `clear` or `replaceAll` comes next. */
  predicate Resets(m: Machine, a: Action) {
    a.ApplyMemory? && Stands(m, true) && IsReset(m.phase.inflight.value.op)
  }

  /** No reset meets an enqueue that waits with its id, and no reschedule asks for an attempt below 1. */
  predicate Careful(m: Machine, a: Action) {
    && (Resets(m, a) ==> m.phase.waiting == map[])
    && (a.BeginReschedule? && ExecBeginReschedule(m, a.call) != m && LeaseIsLive(m, a.call.row.id, a.call.generation)
        ==> a.call.row.attempt >= 1)
  }

  ghost predicate CarefulRun(m: Machine, actions: seq<Action>) {
    actions == [] ||
    var init := actions[..|actions| - 1];
    CarefulRun(m, init) && Careful(Run(m, init), actions[|actions| - 1])
  }

  /** A started reschedule keeps the application id of the row it replaces. */
  predicate KeepsJobId(m: Machine, a: Action) {
    a.BeginReschedule? && LeaseIsLive(m, a.call.row.id, a.call.generation) ==>
      JobIdOf(a.call.row.item) == JobIdOf(m.phase.mem.leased[a.call.row.id].row.item)
  }

  ghost predicate JobKeepingRun(m: Machine, actions: seq<Action>) {
    actions == [] ||
    var init := actions[..|actions| - 1];
    JobKeepingRun(m, init) && KeepsJobId(Run(m, init), actions[|actions| - 1])
  }

  /** A queue built on an empty store. */
  ghost function Started(cfg: Config, clock: real): Machine {
    Machine(cfg, map[], clock, Up(Memory([], map[], map[], 0, 0), map[], map[], multiset{}, None), map[], 0, 0)
  }

  /** A queue about to hydrate from an existing store. */
  ghost function Restarted(cfg: Config, store: Store, clock: real): Machine {
    Machine(cfg, store, clock, Down, LedgerOf(store), 0, 0)
  }
}
