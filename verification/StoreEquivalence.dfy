/** Laws that span the Web and memory row stores, legacy migration, and the key texts. */
module StoreEquivalence {
  import opened Options
  import opened Records
  import opened RowStoreSpec
  import opened Sequences
  import opened RowViews
  import opened IdCounters
  import opened WebStates
  import opened WebRowStores
  import MemoryRowStores

  function ApplyAll(rows: seq<Record>, ops: seq<StoreOp>): seq<Record> {
    if ops == [] then rows else Apply(ApplyAll(rows, ops[..|ops| - 1]), ops[|ops| - 1])
  }

  // --------------------------------------------------------------- safe rows

  /** The rows whose ids are positive safe integers. */
  function OnlySafe(rows: seq<Record>): seq<Record> {
    if rows == [] then []
    else if SafeId(rows[0].id) then [rows[0]] + OnlySafe(rows[1..])
    else OnlySafe(rows[1..])
  }

  lemma UpsertHead(rows: seq<Record>, rec: Record)
    requires rows != []
    ensures Upsert(rows, rec) == if rows[0].id == rec.id then [rec] + rows[1..] else [rows[0]] + Upsert(rows[1..], rec)
  {
    assert Ids(rows)[1..] == Ids(rows[1..]);
  }

  lemma SafeHead(head: Record, tail: seq<Record>)
    ensures OnlySafe([head] + tail) == if SafeId(head.id) then [head] + OnlySafe(tail) else OnlySafe(tail)
  {
    assert ([head] + tail)[1..] == tail;
  }

  lemma DeleteHead(head: Record, tail: seq<Record>, drop: set<nat>)
    ensures DeleteAll([head] + tail, drop) ==
      if head.id in drop then DeleteAll(tail, drop) else [head] + DeleteAll(tail, drop)
  {
    assert ([head] + tail)[1..] == tail;
  }

  lemma UpsertCons(head: Record, tail: seq<Record>, rec: Record)
    ensures Upsert([head] + tail, rec) == if head.id == rec.id then [rec] + tail else [head] + Upsert(tail, rec)
  {
    UpsertHead([head] + tail, rec);
    assert ([head] + tail)[1..] == tail;
  }

  lemma {:induction false} SafeUpsert(rows: seq<Record>, rec: Record)
    ensures OnlySafe(Upsert(rows, rec)) == if SafeId(rec.id) then Upsert(OnlySafe(rows), rec) else OnlySafe(rows)
  {
    if rows != [] {
      var head, tail := rows[0], rows[1..];
      assert rows == [head] + tail;
      SafeUpsert(tail, rec);
      UpsertCons(head, tail, rec);
      SafeHead(head, tail);
      SafeHead(rec, tail);
      SafeHead(head, Upsert(tail, rec));
      UpsertCons(head, OnlySafe(tail), rec);
    }
  }

  lemma {:induction false} SafeDelete(rows: seq<Record>, drop: set<nat>)
    ensures OnlySafe(DeleteAll(rows, drop)) == DeleteAll(OnlySafe(rows), drop)
  {
    if rows != [] {
      var head, tail := rows[0], rows[1..];
      assert rows == [head] + tail;
      SafeDelete(tail, drop);
      DeleteHead(head, tail, drop);
      SafeHead(head, tail);
      SafeHead(head, DeleteAll(tail, drop));
      DeleteHead(head, OnlySafe(tail), drop);
    }
  }

  lemma SafePut(v: View, rows: seq<Record>, rec: Record)
    requires Proper(v) && Full(v) && RowViews.Rows(v) == OnlySafe(rows)
    ensures RowViews.Rows(PutIn(v, rec)) == OnlySafe(Upsert(rows, rec))
  {
    SafeUpsert(rows, rec);
    if SafeId(rec.id) {
      PutRows(v, rec);
    }
  }

  lemma {:induction false} SafePutAll(v: View, rows: seq<Record>, batch: seq<Record>)
    requires Proper(v) && Full(v) && RowViews.Rows(v) == OnlySafe(rows)
    ensures RowViews.Rows(PutAllIn(v, batch)) == OnlySafe(UpsertAll(rows, batch))
  {
    if batch != [] {
      var init := batch[..|batch| - 1];
      SafePutAll(v, rows, init);
      PutAllInIsProper(v, init);
      SafePut(PutAllIn(v, init), UpsertAll(rows, init), batch[|batch| - 1]);
    }
  }

  lemma SafeDrop(v: View, rows: seq<Record>, drop: set<nat>)
    requires Proper(v) && RowViews.Rows(v) == OnlySafe(rows)
    ensures RowViews.Rows(DropFrom(v, drop)) == OnlySafe(DeleteAll(rows, drop))
  {
    DroppedRows(v.ids, v.table, drop);
    SafeDelete(rows, drop);
  }

  /** On a view without missing rows every operation acts on the safe rows as on the list. */
  lemma SafeApply(v: View, rows: seq<Record>, op: StoreOp)
    requires Proper(v) && Full(v) && RowViews.Rows(v) == OnlySafe(rows)
    ensures RowViews.Rows(ApplyTo(v, op)) == OnlySafe(Apply(rows, op))
  {
    match op
    case Put(rec) => SafePut(v, rows, rec);
    case PutBatch(recs) => SafePutAll(v, rows, recs);
    case Remove(id) => SafeDrop(v, rows, {id});
    case RemoveBatch(ids) => SafeDrop(v, rows, SetOf(ids));
    case ReplaceAll(recs) => SafePutAll(Empty, [], recs);
    case Clear =>
  }

  // ------------------------------------------------------------- both stores

  lemma DropNothing(v: View)
    ensures DropFrom(v, SetOf([])) == v
  {
    FilteredKeeps(v.ids);
    assert SetOf([]) == {};
    assert v.table - {} == v.table;
  }

  lemma {:induction false} FilteredKeeps(ids: seq<nat>)
    ensures Filtered(ids, {}) == ids
  {
    if ids != [] {
      FilteredKeeps(ids[1..]);
    }
  }

  /** One operation on a Web store that has nothing left to migrate. */
  method RunOnWeb(web: WebRowStore, op: StoreOp) returns (ok: bool)
    requires Valid(web.storage) && ActiveView(web.storage) == ViewOf(web.storage)
    modifies web
    ensures !web.faulty ==> ok
    ensures ok ==>
      && Valid(web.storage) && ActiveView(web.storage) == ViewOf(web.storage)
      && ViewOf(web.storage) == ApplyTo(old(ViewOf(web.storage)), op)
  {
    DropNothing(ViewOf(web.storage));
    match op
    case Put(rec) => ok := web.Put(rec);
    case PutBatch(recs) => ok := web.PutBatch(recs);
    case Remove(id) => ok := web.Remove(id);
    case RemoveBatch(ids) => ok := web.RemoveBatch(ids);
    case ReplaceAll(recs) => ok := web.ReplaceAll(recs);
    case Clear => ok := web.Clear();
  }

  method RunOnMemory(memory: MemoryRowStores.MemoryRowStore, op: StoreOp)
    requires memory.Valid()
    modifies memory
    ensures memory.Valid() && memory.Rows() == Apply(old(memory.Rows()), op)
  {
    match op
    case Put(rec) => memory.Put(rec);
    case PutBatch(recs) => memory.PutBatch(recs);
    case Remove(id) => memory.Remove(id);
    case RemoveBatch(ids) => memory.RemoveBatch(ids);
    case ReplaceAll(recs) => memory.ReplaceAll(recs);
    case Clear => memory.Clear();
  }

  /** The Web store shows the memory store's rows without those of unsafe ids. */
  ghost predicate Matching(web: WebRowStore, memory: MemoryRowStores.MemoryRowStore)
    reads web, memory
  {
    && memory.Valid() && Valid(web.storage) && ActiveView(web.storage) == ViewOf(web.storage)
    && Proper(ViewOf(web.storage)) && Full(ViewOf(web.storage))
    && RowViews.Rows(ViewOf(web.storage)) == OnlySafe(memory.Rows())
  }

  method RunOnBoth(web: WebRowStore, memory: MemoryRowStores.MemoryRowStore, op: StoreOp)
    requires Matching(web, memory) && !web.faulty
    modifies web, memory
    ensures Matching(web, memory) && memory.Rows() == Apply(old(memory.Rows()), op)
  {
    SafeApply(ViewOf(web.storage), memory.Rows(), op);
    ApplyToIsProper(ViewOf(web.storage), op);
    var ok := RunOnWeb(web, op);
    RunOnMemory(memory, op);
  }

  /** From empty storage, the same fault-free operations: the memory store loads the list the
      operations describe, the Web store the same list without the rows of unsafe ids. */
  method WebMatchesMemory(ops: seq<StoreOp>, canEnumerate: bool) returns (webRows: seq<Record>, memoryRows: seq<Record>)
    ensures memoryRows == ApplyAll([], ops) && webRows == OnlySafe(memoryRows)
  {
    var web := new WebRowStore(false, canEnumerate, map[]);
    var memory := new MemoryRowStores.MemoryRowStore();
    var i := 0;
    while i < |ops|
      invariant 0 <= i <= |ops|
      invariant Matching(web, memory) && memory.Rows() == ApplyAll([], ops[..i])
    {
      assert ops[..i + 1][..i] == ops[..i];
      RunOnBoth(web, memory, ops[i]);
      i := i + 1;
    }
    assert ops[..i] == ops;
    webRows := web.LoadAll();
    memoryRows := memory.LoadAll();
  }

  // ------------------------------------------------------ when the stores agree

  ghost predicate AllSafe(recs: seq<Record>) {
    forall rec :: rec in recs ==> 1 <= rec.id <= ID_MAX
  }

  /** The operation writes no row under an unsafe id. */
  ghost predicate WritesSafeIds(op: StoreOp) {
    match op
    case Put(rec) => 1 <= rec.id <= ID_MAX
    case PutBatch(recs) => AllSafe(recs)
    case ReplaceAll(recs) => AllSafe(recs)
    case _ => true
  }

  lemma {:induction false} OnlySafeIff(rows: seq<Record>)
    ensures OnlySafe(rows) == rows <==> AllSafe(rows)
    ensures |OnlySafe(rows)| <= |rows|
  {
    if rows != [] {
      OnlySafeIff(rows[1..]);
      assert rows == [rows[0]] + rows[1..];
    }
  }

  /** An upsert overwrites no row under another id. */
  lemma SafeAfterUpsertIff(rows: seq<Record>, rec: Record)
    ensures AllSafe(Upsert(rows, rec)) <==> AllSafe(rows) && SafeId(rec.id)
  {
    var k := Find(Ids(rows), rec.id);
    var after := Upsert(rows, rec);
    assert after[k] == rec && rec in after;
    forall r | r in rows && r.id != rec.id
      ensures r in after
    {
      var i :| 0 <= i < |rows| && rows[i] == r;
      assert after[i] == r;
    }
    assert forall r :: r in after ==> r == rec || r in rows;
  }

  lemma {:induction false} SafeAfterBatchIff(rows: seq<Record>, batch: seq<Record>)
    ensures AllSafe(UpsertAll(rows, batch)) <==> AllSafe(rows) && AllSafe(batch)
  {
    if batch != [] {
      var init, last := batch[..|batch| - 1], batch[|batch| - 1];
      SafeAfterBatchIff(rows, init);
      SafeAfterUpsertIff(UpsertAll(rows, init), last);
      assert forall rec :: rec in batch <==> rec in init || rec == last;
    }
  }

  /** From safe rows, an operation leaves safe rows exactly when it writes safe ids. */
  lemma StepStaysSafeIff(rows: seq<Record>, op: StoreOp)
    requires AllSafe(rows)
    ensures AllSafe(Apply(rows, op)) <==> WritesSafeIds(op)
  {
    match op
    case Put(rec) => SafeAfterUpsertIff(rows, rec);
    case PutBatch(recs) => SafeAfterBatchIff(rows, recs);
    case Remove(id) => DeleteAllMembers(rows, {id});
    case RemoveBatch(ids) => DeleteAllMembers(rows, SetOf(ids));
    case ReplaceAll(recs) => SafeAfterBatchIff([], recs);
    case Clear =>
  }

  /** The two stores load the same rows after each of the operations. */
  ghost predicate AgreeThroughout(ops: seq<StoreOp>) {
    && OnlySafe(ApplyAll([], ops)) == ApplyAll([], ops)
    && (ops != [] ==> AgreeThroughout(ops[..|ops| - 1]))
  }

  /** They do so exactly when every id written is a positive safe integer. */
  lemma {:induction false} StoresAgreeIff(ops: seq<StoreOp>)
    ensures AgreeThroughout(ops) <==> forall op :: op in ops ==> WritesSafeIds(op)
  {
    OnlySafeIff(ApplyAll([], ops));
    if ops != [] {
      var init, last := ops[..|ops| - 1], ops[|ops| - 1];
      StoresAgreeIff(init);
      assert forall op :: op in ops <==> op in init || op == last;
      if AgreeThroughout(init) {
        OnlySafeIff(ApplyAll([], init));
        StepStaysSafeIff(ApplyAll([], init), last);
      }
    }
  }

  /** A row put under id 0: the memory store has it, the Web storage that results shows nothing. */
  lemma RowZeroIsLost(rec: Record)
    requires rec.id == 0
    ensures var s: Storage := map[GenRow(1, 0) := RowValue(rec), Manifest := ManifestValue(1, [0])];
      Valid(s) && RowsOf(s) == [] && Apply([], StoreOp.Put(rec)) == [rec]
    ensures !AgreeThroughout([StoreOp.Put(rec)])
  {
    StoresAgreeIff([StoreOp.Put(rec)]);
    assert !WritesSafeIds([StoreOp.Put(rec)][0]);
    var s: Storage := map[GenRow(1, 0) := RowValue(rec), Manifest := ManifestValue(1, [0])];
    NormalizedIs([0]);
    assert LoadState(s).ids == [];
  }

  // --------------------------------------------- legacy order with a missing row

  /** The migration that the store performs keeps the rows exactly when no listed id without a
      legacy row has a leftover generation-1 row; only then can such a leftover come back. */
  lemma MigrationKeepsRowsIff(s: Storage)
    requires Valid(s) && LoadState(s).legacy
    ensures RowViews.Rows(ActiveView(s)) == RowsOf(s)
       <==> forall id :: id in LoadState(s).ids && GenRow(1, id) in s ==> LegacyRow(id) in s
  {
    var st := LoadState(s);
    ValidIsProper(s);
    SameRowsSameView(ViewOf(s), ActiveView(s));
    TableIs(s, st, st.ids);
    TableIs(s, Generation(1), st.ids);
    if forall id :: id in st.ids && GenRow(1, id) in s ==> LegacyRow(id) in s {
      assert ActiveView(s).table == ViewOf(s).table;
    } else {
      var id :| id in st.ids && GenRow(1, id) in s && LegacyRow(id) !in s;
      assert id in ActiveView(s).table && id !in ViewOf(s).table;
    }
  }

  /** Such a storage: the order names row 1, which only an earlier generation holds. */
  lemma MigrationCanRevive(rec: Record)
    requires rec.id == 1
    ensures var s: Storage := map[Order := OrderValue([1]), GenRow(1, 1) := RowValue(rec)];
      Valid(s) && LoadState(s).legacy && RowsOf(s) == [] && RowViews.Rows(ActiveView(s)) == [rec]
  {
    var s: Storage := map[Order := OrderValue([1]), GenRow(1, 1) := RowValue(rec)];
    NormalizedKeeps([1]);
    OneRowRevives(s, rec);
  }

  lemma OneRowRevives(s: Storage, rec: Record)
    requires WellTyped(s) && Manifest !in s && Order in s && s[Order] == OrderValue([1]) && Normalized([1]) == [1]
    requires LegacyRow(1) !in s && GenRow(1, 1) in s && s[GenRow(1, 1)] == RowValue(rec)
    ensures Valid(s) && LoadState(s).legacy && RowsOf(s) == [] && RowViews.Rows(ActiveView(s)) == [rec]
  {
    OneRowView(s);
    OneRowTable(s, LoadState(s));
    OneRowTable(s, Generation(1));
    OneRow(map[]);
    OneRow(map[1 := rec]);
    assert ActiveView(s).table == map[1 := rec];
  }

  lemma OneRow(table: map<nat, Record>)
    ensures RowsOver([1], table) == if 1 in table then [table[1]] else []
  {
    assert [1][1..] == [];
  }

  lemma OneRowView(s: Storage)
    requires Manifest !in s && Order in s && s[Order] == OrderValue([1]) && Normalized([1]) == [1]
    ensures LoadState(s) == StoreState(0, [1], true)
    ensures ActiveView(s) == View([1], Table(s, Generation(1), [1]) + Table(s, LoadState(s), [1]))
  {
  }

  lemma OneRowTable(s: Storage, st: StoreState)
    ensures Table(s, st, [1]) == if HasRow(s, st, 1) then map[1 := s[RowKey(st, 1)].rec] else map[]
  {
    TableIs(s, st, [1]);
  }

  // --------------------------------------------------------------- key texts

  function Digit(d: nat): char
    requires d < 10
  {
    "0123456789"[d]
  }

  function Decimal(n: nat): (text: string)
    ensures text != [] && forall c :: c in text ==> '0' <= c <= '9'
  {
    if n < 10 then [Digit(n)] else Decimal(n / 10) + [Digit(n % 10)]
  }

  lemma {:induction false} DecimalIsInjective(a: nat, b: nat)
    requires Decimal(a) == Decimal(b)
    ensures a == b
  {
    var x, y := Decimal(a), Decimal(b);
    assert x[|x| - 1] == Digit(a % 10) && y[|y| - 1] == Digit(b % 10);
    if a < 10 || b < 10 {
      assert |x| == 1;
    } else {
      assert Decimal(a / 10) == x[..|x| - 1] && Decimal(b / 10) == y[..|y| - 1];
      DecimalIsInjective(a / 10, b / 10);
    }
  }

  /** The text of a key: the user's prefix, then what tells the keys apart. */
  function Text(prefix: string, k: Key): string {
    prefix + Tail(k)
  }

  function Tail(k: Key): string {
    match k
    case Manifest => ":manifest"
    case Order => ":order"
    case LegacyRow(id) => ":row:" + Decimal(id)
    case GenRow(gen, id) => ":g" + RowText(gen, id)
  }

  /** The two `startsWith` tests of the orphan sweep. */
  predicate Swept(prefix: string, active: nat, text: string) {
    && prefix + ":g" <= text
    && !(prefix + ":g" + (Decimal(active) + ":row:") <= text)
  }

  function ColonAt(text: string): nat {
    if text == [] || text[0] == ':' then 0 else 1 + ColonAt(text[1..])
  }

  lemma {:induction false} ColonAfterDigits(digits: string, rest: string)
    requires forall c :: c in digits ==> '0' <= c <= '9'
    requires rest != [] && rest[0] == ':'
    ensures ColonAt(digits + rest) == |digits|
  {
    if digits == [] {
      assert digits + rest == rest;
    } else {
      assert digits[0] in digits && forall c :: c in digits[1..] ==> c in digits;
      assert (digits + rest)[1..] == digits[1..] + rest;
      ColonAfterDigits(digits[1..], rest);
    }
  }

  lemma {:induction false} ColonInPrefix(x: string, y: string)
    requires x <= y && ColonAt(x) < |x|
    ensures ColonAt(y) == ColonAt(x)
  {
    if x[0] != ':' {
      ColonInPrefix(x[1..], y[1..]);
    }
  }

  /** Digits followed by a colon can only be read one way. */
  lemma DigitsThenColon(a: string, b: string, restA: string, restB: string)
    requires forall c :: c in a ==> '0' <= c <= '9'
    requires forall c :: c in b ==> '0' <= c <= '9'
    requires restA != [] && restB != [] && restA[0] == ':' == restB[0]
    requires a + restA <= b + restB
    ensures a == b
  {
    ColonAfterDigits(a, restA);
    ColonAfterDigits(b, restB);
    ColonInPrefix(a + restA, b + restB);
    assert a == (a + restA)[..|a|] == (b + restB)[..|a|] == b;
  }

  lemma PrefixCancels(p: string, a: string, b: string)
    ensures p + a <= p + b <==> a <= b
  {
    if p + a <= p + b {
      assert a == (p + a)[|p|..] == (p + b)[|p|..][..|a|] == b[..|a|];
    }
  }

  lemma RowTextStartsIff(active: nat, gen: nat, id: nat)
    ensures Decimal(active) + ":row:" <= RowText(gen, id) <==> gen == active
  {
    if gen == active {
      assert RowText(gen, id) == (Decimal(active) + ":row:") + Decimal(id);
    } else if Decimal(active) + ":row:" <= RowText(gen, id) {
      DigitsThenColon(Decimal(active), Decimal(gen), ":row:", ":row:" + Decimal(id));
      DecimalIsInjective(active, gen);
    }
  }

  /** The sweep's text tests select exactly the row keys of other generations. */
  lemma SweepSelectsOtherGenerations(prefix: string, active: nat, k: Key)
    ensures Swept(prefix, active, Text(prefix, k)) <==> k.GenRow? && k.gen != active
  {
    PrefixCancels(prefix, ":g", Tail(k));
    if k.GenRow? {
      assert Text(prefix, k) == (prefix + ":g") + RowText(k.gen, k.id);
      PrefixCancels(prefix + ":g", Decimal(active) + ":row:", RowText(k.gen, k.id));
      RowTextStartsIff(active, k.gen, k.id);
    } else {
      assert Tail(k)[1] != 'g';
    }
  }

  /** Distinct keys have distinct texts, so one map entry stands for one storage key. */
  lemma TextIsInjective(prefix: string, k: Key, l: Key)
    requires Text(prefix, k) == Text(prefix, l)
    ensures k == l
  {
    assert Text(prefix, k)[|prefix|..] == Tail(k) && Text(prefix, l)[|prefix|..] == Tail(l);
    TailIsInjective(k, l);
  }

  lemma TailIsInjective(k: Key, l: Key)
    requires Tail(k) == Tail(l)
    ensures k == l
  {
    assert Tail(k)[1] == Tail(l)[1];
    match k
    case Manifest =>
    case Order =>
    case LegacyRow(id) =>
      assert Decimal(id) == Tail(k)[5..] == Tail(l)[5..] == Decimal(l.id);
      DecimalIsInjective(id, l.id);
    case GenRow(gen, id) =>
      assert RowText(gen, id) == Tail(k)[2..] == Tail(l)[2..] == RowText(l.gen, l.id);
      RowTextIsInjective(gen, id, l.gen, l.id);
  }

  function RowText(gen: nat, id: nat): string {
    Decimal(gen) + (":row:" + Decimal(id))
  }

  lemma RowTextIsInjective(gen: nat, id: nat, gen': nat, id': nat)
    requires RowText(gen, id) == RowText(gen', id')
    ensures gen == gen' && id == id'
  {
    DigitsThenColon(Decimal(gen), Decimal(gen'), ":row:" + Decimal(id), ":row:" + Decimal(id'));
    DecimalIsInjective(gen, gen');
    var m := |Decimal(gen)| + 5;
    assert RowText(gen, id)[m..] == Decimal(id) && RowText(gen', id')[m..] == Decimal(id');
    DecimalIsInjective(id, id');
  }
}
