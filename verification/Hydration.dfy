/** How `hydrate` reads a loaded store: validation, the split into ready and delayed
    rows, the sort by row id (packages/queue/src/queue/core/queue.ts, lines 1917-2001). */
module Hydrations {
  import opened Options
  import opened Records
  import opened PendingRows
  import opened QueueModel
  import opened DurableMachine
  import opened Durability
  import IdCounters

  // ------------------------------------------------------------- validation

  datatype Verdict = Accepted | UnsafeId | RepeatedId | RepeatedJob

  /** The check of one record against those before it. */
  ghost function VerdictOn(loaded: seq<Record>, unique: bool, k: nat): Verdict
    requires k < |loaded|
  {
    if !(1 <= loaded[k].id <= ID_MAX) then UnsafeId
    else if exists j :: 0 <= j < k && loaded[j].id == loaded[k].id then RepeatedId
    else if unique && exists j :: 0 <= j < k && SameJob(loaded[j].item, loaded[k].item) then RepeatedJob
    else Accepted
  }

  ghost predicate AcceptedUpTo(loaded: seq<Record>, unique: bool, n: nat)
    requires n <= |loaded|
  {
    forall k :: 0 <= k < n ==> VerdictOn(loaded, unique, k) == Accepted
  }

  /** The first record that fails. */
  ghost predicate RefusedAt(loaded: seq<Record>, unique: bool, k: nat) {
    k < |loaded| && AcceptedUpTo(loaded, unique, k) && !VerdictOn(loaded, unique, k).Accepted?
  }

  /** Row ids seen so far, and application ids when they must be unique. */
  ghost predicate Seen(loaded: seq<Record>, unique: bool, n: nat, ids: set<nat>, jobs: set<string>)
    requires n <= |loaded|
  {
    && (forall id :: id in ids <==> exists j :: 0 <= j < n && loaded[j].id == id)
    && (unique ==> forall job :: job in jobs <==>
        exists j :: 0 <= j < n && loaded[j].item.Job? && loaded[j].item.jobId == job)
  }

  method CheckRecord(loaded: seq<Record>, unique: bool, n: nat, ids: set<nat>, jobs: set<string>)
      returns (verdict: Verdict, ids': set<nat>, jobs': set<string>)
    requires n < |loaded| && Seen(loaded, unique, n, ids, jobs)
    ensures verdict == VerdictOn(loaded, unique, n)
    ensures verdict.Accepted? ==> Seen(loaded, unique, n + 1, ids', jobs')
  {
    ids', jobs' := ids, jobs;
    var rec := loaded[n];
    if !IdCounters.SafeId(rec.id) {
      return UnsafeId, ids', jobs';
    }
    if rec.id in ids {
      return RepeatedId, ids', jobs';
    }
    ids' := ids + {rec.id};
    if unique && rec.item.Job? {
      if rec.item.jobId in jobs {
        var j :| 0 <= j < n && loaded[j].item.Job? && loaded[j].item.jobId == rec.item.jobId;
        assert SameJob(loaded[j].item, rec.item);
        return RepeatedJob, ids', jobs';
      }
      jobs' := jobs + {rec.item.jobId};
    }
    verdict := Accepted;
  }

  /** The first record that fails decides; otherwise the greatest id is found. */
  method Validate(loaded: seq<Record>, unique: bool) returns (verdict: Verdict, maxId: nat)
    ensures verdict.Accepted? ==> AcceptedUpTo(loaded, unique, |loaded|)
    ensures !verdict.Accepted? ==> exists k :: RefusedAt(loaded, unique, k) && VerdictOn(loaded, unique, k) == verdict
    ensures verdict.Accepted? ==> IsMaxId(loaded, maxId)
  {
    var ids, jobs, n := {}, {}, 0;
    maxId := 0;
    while n < |loaded|
      invariant 0 <= n <= |loaded| && Seen(loaded, unique, n, ids, jobs) && AcceptedUpTo(loaded, unique, n)
      invariant forall k :: 0 <= k < n ==> loaded[k].id <= maxId
      invariant maxId > 0 ==> exists k :: 0 <= k < n && loaded[k].id == maxId
    {
      verdict, ids, jobs := CheckRecord(loaded, unique, n, ids, jobs);
      if !verdict.Accepted? {
        assert RefusedAt(loaded, unique, n);
        return;
      }
      if loaded[n].id > maxId {
        maxId := loaded[n].id;
      }
      n := n + 1;
    }
    verdict := Accepted;
  }

  ghost predicate DistinctIds(loaded: seq<Record>) {
    forall i, j :: 0 <= i < j < |loaded| ==> loaded[i].id != loaded[j].id
  }

  ghost predicate DistinctJobRecords(loaded: seq<Record>) {
    forall i, j :: 0 <= i < j < |loaded| ==> !SameJob(loaded[i].item, loaded[j].item)
  }

  /** What acceptance means: safe distinct row ids, and distinct application ids where asked. */
  lemma AcceptedIff(loaded: seq<Record>, unique: bool)
    ensures AcceptedUpTo(loaded, unique, |loaded|) <==>
      && (forall rec :: rec in loaded ==> 1 <= rec.id <= ID_MAX)
      && DistinctIds(loaded) && (unique ==> DistinctJobRecords(loaded))
  {
    if AcceptedUpTo(loaded, unique, |loaded|) {
      forall i, j | 0 <= i < j < |loaded|
        ensures loaded[i].id != loaded[j].id && (unique ==> !SameJob(loaded[i].item, loaded[j].item))
      {
        assert VerdictOn(loaded, unique, j) == Accepted;
      }
      forall rec | rec in loaded
        ensures 1 <= rec.id <= ID_MAX
      {
        var k :| 0 <= k < |loaded| && loaded[k] == rec;
        assert VerdictOn(loaded, unique, k) == Accepted;
      }
    }
  }

  // ------------------------------------------------------------------ split

  predicate IsReady(rec: Record, now: real) {
    rec.lease.Some? || rec.availableAt <= now
  }

  /** A leased record is read back through the record that clears its lease. */
  function RowOf(rec: Record): QueueRow {
    if rec.lease.Some? then FromRecord(Cleared(rec)) else FromRecord(rec)
  }

  function ReadyOf(loaded: seq<Record>, now: real): seq<QueueRow> {
    if loaded == [] then []
    else
      var rec := loaded[|loaded| - 1];
      ReadyOf(loaded[..|loaded| - 1], now) + (if IsReady(rec, now) then [RowOf(rec)] else [])
  }

  function DelayedOf(loaded: seq<Record>, now: real): seq<DelayedRow> {
    if loaded == [] then []
    else
      var rec := loaded[|loaded| - 1];
      DelayedOf(loaded[..|loaded| - 1], now) +
        (if IsReady(rec, now) then [] else [DelayedRow(FromRecord(rec), rec.availableAt)])
  }

  /** The store after the leases of the loaded records were cleared one by one. */
  function ClearedStore(store: Store, loaded: seq<Record>): Store {
    if loaded == [] then store
    else
      var rec := loaded[|loaded| - 1];
      var before := ClearedStore(store, loaded[..|loaded| - 1]);
      if rec.lease.Some? then before[rec.id := Cleared(rec)] else before
  }

  /** The load call returned the stored rows, each under its own id. */
  ghost predicate Lists(loaded: seq<Record>, store: Store) {
    && (forall rec :: rec in loaded ==> rec.id in store && store[rec.id] == rec)
    && (forall id :: id in store ==> store[id].id == id && store[id] in loaded)
  }

  /** Recovery that stopped half way. */
  ghost predicate PartlyCleared(now: Store, store: Store, loaded: seq<Record>) {
    exists n :: 0 <= n <= |loaded| && now == ClearedStore(store, loaded[..n])
  }

  /** The rows that were read, ready ones first. */
  function RowsRead(loaded: seq<Record>, now: real): seq<QueueRow> {
    SortRows(ReadyOf(loaded, now)) + RowsIn(DelayedOf(loaded, now))
  }

  /** Memory as hydrate builds it from the loaded records. */
  function ReadMemory(loaded: seq<Record>, now: real, counter: nat): Memory {
    Memory(SortRows(ReadyOf(loaded, now)), ById(DelayedOf(loaded, now)), map[], counter, 0)
  }

  ghost predicate IsMaxId(loaded: seq<Record>, maxId: nat) {
    && (forall rec :: rec in loaded ==> rec.id <= maxId)
    && (maxId > 0 ==> exists rec :: rec in loaded && rec.id == maxId)
  }

  ghost predicate OneBasedRecords(loaded: seq<Record>) {
    forall rec :: rec in loaded ==> FromRecord(rec).attempt >= 1
  }

  /** A load that recovery can work with. */
  ghost predicate Recoverable(loaded: seq<Record>, store: Store) {
    Lists(loaded, store) && Loadable(store) && DistinctIds(loaded)
  }

  lemma {:induction false} ReadyOfIs(loaded: seq<Record>, now: real)
    ensures forall rec :: rec in loaded && IsReady(rec, now) ==> RowOf(rec) in ReadyOf(loaded, now)
    ensures forall row :: row in ReadyOf(loaded, now) ==>
      exists rec :: rec in loaded && IsReady(rec, now) && row == RowOf(rec)
  {
    if loaded != [] {
      var init, rec := loaded[..|loaded| - 1], loaded[|loaded| - 1];
      ReadyOfIs(init, now);
      assert forall r :: r in loaded <==> r in init || r == rec;
    }
  }

  lemma {:induction false} ReadyOfIsDistinct(loaded: seq<Record>, now: real)
    requires DistinctIds(loaded)
    ensures forall i, j :: 0 <= i < j < |ReadyOf(loaded, now)| ==>
      ReadyOf(loaded, now)[i].id != ReadyOf(loaded, now)[j].id
  {
    if loaded != [] {
      var init, rec := loaded[..|loaded| - 1], loaded[|loaded| - 1];
      ReadyOfIsDistinct(init, now);
      ReadyOfIs(init, now);
      var rows := ReadyOf(init, now);
      forall i | 0 <= i < |rows|
        ensures rows[i].id != rec.id
      {
        assert rows[i] in rows;
        var r :| r in init && rows[i] == RowOf(r);
        var k :| 0 <= k < |init| && init[k] == r;
        assert loaded[k] == r;
      }
    }
  }

  lemma {:induction false} DelayedOfIs(loaded: seq<Record>, now: real)
    ensures forall rec :: rec in loaded && !IsReady(rec, now) ==>
      DelayedRow(FromRecord(rec), rec.availableAt) in DelayedOf(loaded, now)
    ensures forall e :: e in DelayedOf(loaded, now) ==>
      exists rec :: rec in loaded && !IsReady(rec, now) && e == DelayedRow(FromRecord(rec), rec.availableAt)
  {
    if loaded != [] {
      var init, rec := loaded[..|loaded| - 1], loaded[|loaded| - 1];
      DelayedOfIs(init, now);
      assert forall r :: r in loaded <==> r in init || r == rec;
    }
  }

  lemma {:induction false} DelayedOfIsDistinct(loaded: seq<Record>, now: real)
    requires DistinctIds(loaded)
    ensures forall i, j :: 0 <= i < j < |DelayedOf(loaded, now)| ==>
      DelayedOf(loaded, now)[i].row.id != DelayedOf(loaded, now)[j].row.id
  {
    if loaded != [] {
      var init, rec := loaded[..|loaded| - 1], loaded[|loaded| - 1];
      DelayedOfIsDistinct(init, now);
      DelayedOfIs(init, now);
      var entries := DelayedOf(init, now);
      forall i | 0 <= i < |entries|
        ensures entries[i].row.id != rec.id
      {
        assert entries[i] in entries;
        var r :| r in init && entries[i] == DelayedRow(FromRecord(r), r.availableAt);
        var k :| 0 <= k < |init| && init[k] == r;
        assert loaded[k] == r;
      }
    }
  }

  // ------------------------------------------------------------------- sort

  predicate Ascends(rows: seq<QueueRow>) {
    forall i, j :: 0 <= i < j < |rows| ==> rows[i].id <= rows[j].id
  }

  ghost predicate StrictlyAscends(rows: seq<QueueRow>) {
    forall i, j :: 0 <= i < j < |rows| ==> rows[i].id < rows[j].id
  }

  function InsertRow(row: QueueRow, rows: seq<QueueRow>): (r: seq<QueueRow>)
    ensures multiset(r) == multiset(rows) + multiset{row}
  {
    if rows == [] || row.id < rows[0].id then [row] + rows
    else
      assert rows == [rows[0]] + rows[1..];
      [rows[0]] + InsertRow(row, rows[1..])
  }

  /** `sort((a, b) => a.id - b.id)` */
  function SortRows(rows: seq<QueueRow>): (r: seq<QueueRow>)
    ensures multiset(r) == multiset(rows)
  {
    if rows == [] then []
    else
      assert rows == rows[..|rows| - 1] + [rows[|rows| - 1]];
      InsertRow(rows[|rows| - 1], SortRows(rows[..|rows| - 1]))
  }

  lemma {:induction false} InsertAscends(row: QueueRow, rows: seq<QueueRow>)
    requires Ascends(rows)
    ensures Ascends(InsertRow(row, rows))
  {
    if rows != [] && row.id >= rows[0].id {
      InsertAscends(row, rows[1..]);
      var rest := InsertRow(row, rows[1..]);
      forall r | r in rest
        ensures rows[0].id <= r.id
      {
        assert r in multiset(rest);
        assert r == row || r in rows[1..];
      }
    }
  }

  lemma {:induction false} SortAscends(rows: seq<QueueRow>)
    ensures Ascends(SortRows(rows))
  {
    if rows != [] {
      SortAscends(rows[..|rows| - 1]);
      InsertAscends(rows[|rows| - 1], SortRows(rows[..|rows| - 1]));
    }
  }

  /** Strictly ascending rows are determined by which rows they are. */
  lemma {:induction false} AscendingIsUnique(a: seq<QueueRow>, b: seq<QueueRow>)
    requires StrictlyAscends(a) && StrictlyAscends(b)
    requires forall row :: row in a <==> row in b
    ensures a == b
  {
    assert b != [] ==> b[0] in a;
    if a != [] {
      assert a[0] in b;
      FirstIsLeast(a, b[0]);
      FirstIsLeast(b, a[0]);
      assert a[0] == b[0] by {
        var i :| 0 <= i < |b| && b[i] == a[0];
        assert i == 0;
      }
      TailRows(a);
      TailRows(b);
      AscendingIsUnique(a[1..], b[1..]);
      assert a == [a[0]] + a[1..] && b == [b[0]] + b[1..];
    }
  }

  lemma FirstIsLeast(a: seq<QueueRow>, row: QueueRow)
    requires StrictlyAscends(a) && row in a
    ensures a[0].id <= row.id
  {
  }

  lemma TailRows(a: seq<QueueRow>)
    requires StrictlyAscends(a) && a != []
    ensures StrictlyAscends(a[1..]) && forall row :: row in a[1..] <==> row in a && row != a[0]
  {
    forall row | row in a && row != a[0]
      ensures row in a[1..]
    {
      var i :| 0 <= i < |a| && a[i] == row;
      assert a[1..][i - 1] == row;
    }
  }

  // ----------------------------------------------------------- reconstruction

  lemma RowOfIsFromRecord(rec: Record)
    requires FromRecord(rec).attempt >= 1
    ensures RowOf(rec) == FromRecord(rec)
  {
    ClearedKeepsRow(rec);
  }

  /** Sorting what was read gives the recovered FIFO, whatever order the rows came in. */
  lemma SortedReadyIsHydrated(loaded: seq<Record>, store: Store, now: real)
    requires Lists(loaded, store) && Loadable(store) && DistinctIds(loaded)
    ensures SortRows(ReadyOf(loaded, now)) == HydratedMemory(store, now).ready
  {
    var rows, expected := ReadyOf(loaded, now), HydratedMemory(store, now).ready;
    var sorted := SortRows(rows);
    ReadyOfIsDistinct(loaded, now);
    DistinctIdsPermute(rows, sorted);
    SortAscends(rows);
    assert StrictlyAscends(sorted);
    HydratedReady(store, now);
    forall row
      ensures row in sorted <==> row in expected
    {
      assert row in sorted <==> row in multiset(sorted);
      assert row in rows <==> row in multiset(rows);
      ReadyOfMembers(loaded, store, now, row);
    }
    AscendingIsUnique(sorted, expected);
  }

  lemma ReadyOfMembers(loaded: seq<Record>, store: Store, now: real, row: QueueRow)
    requires Lists(loaded, store) && Loadable(store)
    ensures row in ReadyOf(loaded, now) <==> row.id in ReadyIds(store, now) && row == FromRecord(store[row.id])
  {
    ReadyOfIs(loaded, now);
    if row in ReadyOf(loaded, now) {
      var rec :| rec in loaded && IsReady(rec, now) && row == RowOf(rec);
      RowOfIsFromRecord(rec);
    }
    if row.id in ReadyIds(store, now) && row == FromRecord(store[row.id]) {
      var rec := store[row.id];
      assert rec in loaded;
      RowOfIsFromRecord(rec);
    }
  }

  /** Delayed entries by id. */
  function ById(entries: seq<DelayedRow>): map<nat, DelayedRow> {
    if entries == [] then map[]
    else
      var e := entries[|entries| - 1];
      ById(entries[..|entries| - 1])[e.row.id := e]
  }

  lemma {:induction false} ByIdIs(entries: seq<DelayedRow>)
    requires forall i, j :: 0 <= i < j < |entries| ==> entries[i].row.id != entries[j].row.id
    ensures forall e :: e in entries ==> e.row.id in ById(entries) && ById(entries)[e.row.id] == e
    ensures forall id :: id in ById(entries) ==> ById(entries)[id] in entries && ById(entries)[id].row.id == id
  {
    if entries != [] {
      var init, e := entries[..|entries| - 1], entries[|entries| - 1];
      ByIdIs(init);
      assert forall x :: x in entries <==> x in init || x == e;
    }
  }

  lemma DelayedByIdIsHydrated(loaded: seq<Record>, store: Store, now: real)
    requires Lists(loaded, store) && Loadable(store) && DistinctIds(loaded)
    ensures ById(DelayedOf(loaded, now)) == HydratedMemory(store, now).delayed
  {
    var entries, expected := DelayedOf(loaded, now), HydratedMemory(store, now).delayed;
    DelayedOfIsDistinct(loaded, now);
    ByIdIs(entries);
    forall id | id in ById(entries)
      ensures id in expected && expected[id] == ById(entries)[id]
    {
      DelayedOfMembers(loaded, store, now, ById(entries)[id]);
    }
    forall id | id in expected
      ensures id in ById(entries)
    {
      assert store[id].id == id;
      DelayedOfMembers(loaded, store, now, expected[id]);
    }
  }

  lemma DelayedOfMembers(loaded: seq<Record>, store: Store, now: real, e: DelayedRow)
    requires Lists(loaded, store)
    ensures e in DelayedOf(loaded, now) <==>
      var delayed := HydratedMemory(store, now).delayed; e.row.id in delayed && delayed[e.row.id] == e
  {
    DelayedOfIs(loaded, now);
    var delayed := HydratedMemory(store, now).delayed;
    if e in DelayedOf(loaded, now) {
      var rec :| rec in loaded && !IsReady(rec, now) && e == DelayedRow(FromRecord(rec), rec.availableAt);
      assert store[rec.id] == rec;
    }
    if e.row.id in delayed && delayed[e.row.id] == e {
      assert store[e.row.id] in loaded;
    }
  }

  /** The counter is set past every loaded id. */
  lemma MaxIdIsHydrated(loaded: seq<Record>, store: Store, now: real, maxId: nat)
    requires Lists(loaded, store) && IsMaxId(loaded, maxId)
    ensures HydratedMemory(store, now).counter == maxId
  {
    var m := MaxId(store.Keys);
    assert store.Keys != {} ==> store[m] in loaded;
    assert forall rec :: rec in loaded ==> rec.id in store.Keys;
  }

  // ------------------------------------------------------------- store writes

  /** Clearing leases changes no row: the logical contents stay as they were. */
  lemma {:induction false} ClearedStoreKeepsLedger(store: Store, loaded: seq<Record>)
    requires Loadable(store) && forall rec :: rec in loaded ==> rec.id in store && store[rec.id] == rec
    ensures LedgerOf(ClearedStore(store, loaded)) == LedgerOf(store) && Loadable(ClearedStore(store, loaded))
    ensures forall id :: id in store && (store[id].lease.None? || store[id] !in loaded) ==>
      id in ClearedStore(store, loaded) && ClearedStore(store, loaded)[id] == store[id]
    ensures forall rec :: rec in loaded && rec.lease.Some? ==>
      rec.id in ClearedStore(store, loaded) && ClearedStore(store, loaded)[rec.id] == Cleared(rec)
  {
    if loaded != [] {
      var init, rec := loaded[..|loaded| - 1], loaded[|loaded| - 1];
      ClearedStoreKeepsLedger(store, init);
      assert forall r :: r in loaded <==> r in init || r == rec;
      ClearedKeepsRow(rec);
      if rec.lease.Some? {
        assert FromRecord(store[rec.id]) == FromRecord(Cleared(rec));
      }
    }
  }

  // -------------------------------------------------------------------- index

  /** Indexing every row of contents with distinct jobs gives their index, in any order. */
  lemma {:induction false} IndexOfIs(rows: seq<QueueRow>, ledger: Ledger)
    requires DistinctJobs(ledger)
    requires forall row :: row in rows ==> row.id in ledger && ledger[row.id] == row
    ensures forall job :: job in IndexOf(rows) ==>
      job in IndexFor(ledger) && IndexOf(rows)[job] == IndexFor(ledger)[job]
    ensures forall row :: row in rows && row.item.Job? ==> row.item.jobId in IndexOf(rows)
  {
    if rows != [] {
      var init, row := rows[..|rows| - 1], rows[|rows| - 1];
      assert forall r :: r in rows <==> r in init || r == row;
      IndexOfIs(init, ledger);
      if row.item.Job? {
        assert row.id in ledger;
      }
    }
  }

  lemma IndexOfAllRows(rows: seq<QueueRow>, ledger: Ledger)
    requires DistinctJobs(ledger)
    requires forall row :: row in rows ==> row.id in ledger && ledger[row.id] == row
    requires forall id :: id in ledger ==> ledger[id] in rows
    ensures IndexOf(rows) == IndexFor(ledger)
  {
    IndexOfIs(rows, ledger);
    forall job | job in IndexFor(ledger)
      ensures job in IndexOf(rows)
    {
      var id := IndexFor(ledger)[job];
      assert id in ledger && ledger[id] in rows;
    }
  }

  lemma SameJobSameRecord(loaded: seq<Record>, i: nat, j: nat)
    requires DistinctJobRecords(loaded) && i < |loaded| && j < |loaded|
    ensures SameJob(loaded[i].item, loaded[j].item) ==> i == j
  {
    assert SameJob(loaded[i].item, loaded[j].item) ==> SameJob(loaded[j].item, loaded[i].item);
  }

  lemma DistinctRecordsMeanDistinctJobs(loaded: seq<Record>, store: Store)
    requires Lists(loaded, store) && DistinctJobRecords(loaded)
    ensures DistinctJobs(LedgerOf(store))
  {
    var ledger := LedgerOf(store);
    forall a, b | a in ledger && b in ledger && ledger[a].item.Job? && ledger[b].item.Job?
      && ledger[a].item.jobId == ledger[b].item.jobId
      ensures a == b
    {
      assert store[a] in loaded && store[b] in loaded;
      var i :| 0 <= i < |loaded| && loaded[i] == store[a];
      var j :| 0 <= j < |loaded| && loaded[j] == store[b];
      SameJobSameRecord(loaded, i, j);
    }
  }

  /** The rows of delayed entries. */
  function RowsIn(entries: seq<DelayedRow>): (rows: seq<QueueRow>)
    ensures |rows| == |entries|
  {
    seq(|entries|, i requires 0 <= i < |entries| => entries[i].row)
  }

  /** The rows that hydrate indexes, ready ones first, are those of the store. */
  lemma HydratedRowsAreLedger(loaded: seq<Record>, store: Store, now: real)
    requires Lists(loaded, store) && Loadable(store)
    ensures var rows, ledger := SortRows(ReadyOf(loaded, now)) + RowsIn(DelayedOf(loaded, now)), LedgerOf(store);
      && (forall row :: row in rows ==> row.id in ledger && ledger[row.id] == row)
      && (forall id :: id in ledger ==> ledger[id] in rows)
  {
    var ready, entries, ledger := SortRows(ReadyOf(loaded, now)), DelayedOf(loaded, now), LedgerOf(store);
    assert forall row :: row in ready <==> row in multiset(ready);
    assert forall row :: row in ReadyOf(loaded, now) <==> row in multiset(ReadyOf(loaded, now));
    forall row | row in ready
      ensures row.id in ledger && ledger[row.id] == row
    {
      ReadyOfMembers(loaded, store, now, row);
    }
    DelayedOfIs(loaded, now);
    forall row | row in RowsIn(entries)
      ensures row.id in ledger && ledger[row.id] == row
    {
      var i :| 0 <= i < |entries| && RowsIn(entries)[i] == row;
      assert entries[i] in entries;
    }
    forall id | id in ledger
      ensures ledger[id] in ready + RowsIn(entries)
    {
      var rec := store[id];
      assert rec in loaded;
      if IsReady(rec, now) {
        ReadyOfMembers(loaded, store, now, ledger[id]);
      } else {
        var i :| 0 <= i < |entries| && entries[i] == DelayedRow(FromRecord(rec), rec.availableAt);
        assert RowsIn(entries)[i] == ledger[id];
      }
    }
  }

  lemma NextEntry(ready: seq<QueueRow>, entries: seq<DelayedRow>, n: nat)
    requires n < |entries| && forall i, j :: 0 <= i < j < |entries| ==> entries[i].row.id != entries[j].row.id
    ensures entries[n].row.id !in ById(entries[..n])
    ensures ById(entries[..n + 1]) == ById(entries[..n])[entries[n].row.id := entries[n]]
    ensures IndexOf(ready + RowsIn(entries[..n + 1])) ==
      Indexed(IndexOf(ready + RowsIn(entries[..n])), entries[n].row.item, entries[n].row.id)
  {
    ByIdIs(entries[..n]);
    assert entries[..n + 1][..n] == entries[..n];
    var rows := ready + RowsIn(entries[..n + 1]);
    assert rows[..|rows| - 1] == ready + RowsIn(entries[..n]);
  }

  /** What was read is what the store determines, in whatever order it was loaded. */
  lemma RecoveredIs(loaded: seq<Record>, store: Store, now: real, unique: bool, maxId: nat)
    requires Lists(loaded, store) && OneBasedRecords(loaded) && DistinctIds(loaded) && IsMaxId(loaded, maxId)
    requires forall rec :: rec in loaded ==> 1 <= rec.id <= ID_MAX
    requires unique ==> DistinctJobRecords(loaded)
    ensures var mem := HydratedMemory(store, now); ReadMemory(loaded, now, maxId) == mem && Sound(mem)
    ensures Loadable(store) && LedgerOf(ClearedStore(store, loaded)) == LedgerOf(store)
    ensures unique ==> DistinctJobs(LedgerOf(store)) && IndexOf(RowsRead(loaded, now)) == IndexFor(LedgerOf(store))
  {
    ClearedStoreKeepsLedger(store, loaded);
    SortedReadyIsHydrated(loaded, store, now);
    DelayedByIdIsHydrated(loaded, store, now);
    MaxIdIsHydrated(loaded, store, now, maxId);
    HydratedShape(store, now);
    if unique {
      DistinctRecordsMeanDistinctJobs(loaded, store);
      HydratedRowsAreLedger(loaded, store, now);
      IndexOfAllRows(RowsRead(loaded, now), LedgerOf(store));
    }
  }
}
