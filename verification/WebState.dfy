/** What a key/value storage says to the generation-manifest row store, and what single
    key mutations do to it (packages/queue/src/persist/stores/web-storage.ts). */
module WebStates {
  import opened Options
  import opened Records
  import opened RowStoreSpec
  import opened RowViews
  import opened IdCounters

  datatype Key = Manifest | Order | LegacyRow(id: nat) | GenRow(gen: nat, id: nat)
  datatype Value = ManifestValue(generation: nat, ids: seq<nat>) | OrderValue(order: seq<nat>) | RowValue(rec: Record)
  type Storage = map<Key, Value>

  datatype StoreState = StoreState(generation: nat, ids: seq<nat>, legacy: bool)

  // ---------------------------------------------------------------- reading

  /** Every key holds a value of its own kind; a manifest generation is at least 1. */
  ghost predicate WellTyped(s: Storage) {
    && (Manifest in s ==> s[Manifest].ManifestValue? && s[Manifest].generation >= 1)
    && (Order in s ==> s[Order].OrderValue?)
    && (forall k :: k in s && (k.LegacyRow? || k.GenRow?) ==> s[k].RowValue? && s[k].rec.id == k.id)
  }

  /** The manifest's ids, or else the legacy order's; either list is normalized on reading. */
  function LoadState(s: Storage): StoreState {
    if Manifest in s && s[Manifest].ManifestValue? then
      StoreState(s[Manifest].generation, Normalized(s[Manifest].ids), false)
    else
      StoreState(0, if Order in s && s[Order].OrderValue? then Normalized(s[Order].order) else [], true)
  }

  function RowKey(st: StoreState, id: nat): Key {
    if st.legacy then LegacyRow(id) else GenRow(st.generation, id)
  }

  /** The rows found under the listed ids. */
  function Table(s: Storage, st: StoreState, ids: seq<nat>): map<nat, Record> {
    TableTo(s, st, ids, |ids|)
  }

  function TableTo(s: Storage, st: StoreState, ids: seq<nat>, n: nat): map<nat, Record>
    requires n <= |ids|
  {
    if n == 0 then map[]
    else if HasRow(s, st, ids[n - 1]) then TableTo(s, st, ids, n - 1)[ids[n - 1] := s[RowKey(st, ids[n - 1])].rec]
    else TableTo(s, st, ids, n - 1)
  }

  predicate HasRow(s: Storage, st: StoreState, id: nat) {
    RowKey(st, id) in s && s[RowKey(st, id)].RowValue?
  }

  /** What a storage says: the listed ids, and the rows found for them. */
  function ViewOf(s: Storage): View {
    View(LoadState(s).ids, Table(s, LoadState(s), LoadState(s).ids))
  }

  /** The rows a reload returns. */
  function RowsOf(s: Storage): seq<Record> {
    Rows(ViewOf(s))
  }

  /** No id is listed twice; a listed id may lack its row. */
  ghost predicate Valid(s: Storage) {
    WellTyped(s) && Distinct(LoadState(s).ids)
  }

  /** No generation but the current one has rows left. */
  ghost predicate NoOrphans(s: Storage) {
    forall k :: k in s && k.GenRow? ==> k.gen == LoadState(s).generation
  }

  /** A generation's row keys. */
  function Generation(n: nat): StoreState {
    StoreState(n, [], false)
  }

  /** What the current state becomes when a mutation first migrates a legacy layout to
      generation 1: the legacy rows, and for a listed id without one the generation-1 row
      that an earlier migration may have left. */
  function ActiveView(s: Storage): View {
    var st := LoadState(s);
    if st.legacy then View(st.ids, Table(s, Generation(1), st.ids) + Table(s, st, st.ids)) else ViewOf(s)
  }

  lemma ValidIsProper(s: Storage)
    requires Valid(s)
    ensures Proper(ViewOf(s)) && Proper(ActiveView(s))
  {
    var st := LoadState(s);
    NormalizedIs(if Manifest in s then s[Manifest].ids else if Order in s then s[Order].order else []);
    TableIs(s, st, st.ids);
    TableIs(s, Generation(1), st.ids);
  }

  // ------------------------------------------------------------------ tables

  lemma {:induction false} TableToIs(s: Storage, st: StoreState, ids: seq<nat>, n: nat)
    requires n <= |ids|
    ensures forall id :: id in TableTo(s, st, ids, n) <==> HasRow(s, st, id) && exists i :: 0 <= i < n && ids[i] == id
    ensures forall id :: id in TableTo(s, st, ids, n) ==>
      HasRow(s, st, id) && TableTo(s, st, ids, n)[id] == s[RowKey(st, id)].rec
  {
    if n > 0 {
      TableToIs(s, st, ids, n - 1);
    }
  }

  lemma TableIs(s: Storage, st: StoreState, ids: seq<nat>)
    ensures forall id :: id in Table(s, st, ids) <==> id in ids && HasRow(s, st, id)
    ensures forall id :: id in Table(s, st, ids) ==> HasRow(s, st, id) && Table(s, st, ids)[id] == s[RowKey(st, id)].rec
  {
    TableToIs(s, st, ids, |ids|);
  }

  lemma TableWrite(s: Storage, st: StoreState, ids: seq<nat>, ids': seq<nat>, rec: Record)
    requires forall id :: id in ids' <==> id in ids || id == rec.id
    ensures Table(s[RowKey(st, rec.id) := RowValue(rec)], st, ids') == Table(s, st, ids)[rec.id := rec]
  {
    TableIs(s, st, ids);
    TableIs(s[RowKey(st, rec.id) := RowValue(rec)], st, ids');
  }

  /** Tables that agree on the rows of the listed ids are equal. */
  lemma SameTable(s: Storage, t: Storage, st: StoreState, st': StoreState, ids: seq<nat>)
    requires forall id :: id in ids ==>
      (HasRow(s, st, id) <==> HasRow(t, st', id)) && (HasRow(s, st, id) ==> s[RowKey(st, id)] == t[RowKey(st', id)])
    ensures Table(s, st, ids) == Table(t, st', ids)
  {
    TableIs(s, st, ids);
    TableIs(t, st', ids);
  }

  lemma TableOther(s: Storage, st: StoreState, ids: seq<nat>, k: Key, v: Value)
    requires forall id :: id in ids ==> RowKey(st, id) != k
    ensures Table(s[k := v], st, ids) == Table(s, st, ids)
  {
    SameTable(s, s[k := v], st, st, ids);
  }

  lemma TableWithout(s: Storage, st: StoreState, ids: seq<nat>, k: Key)
    requires forall id :: id in ids ==> RowKey(st, id) != k
    ensures Table(s - {k}, st, ids) == Table(s, st, ids)
  {
    SameTable(s, s - {k}, st, st, ids);
  }

  lemma TableDrop(s: Storage, st: StoreState, ids: seq<nat>, rest: seq<nat>, drop: set<nat>)
    requires forall id :: id in rest <==> id in ids && id !in drop
    ensures Table(s, st, rest) == Table(s, st, ids) - drop
  {
    TableIs(s, st, ids);
    TableIs(s, st, rest);
  }

  lemma TableOfGeneration(s: Storage, st: StoreState, ids: seq<nat>)
    requires !st.legacy
    ensures Table(s, Generation(st.generation), ids) == Table(s, st, ids)
  {
    SameTable(s, s, Generation(st.generation), st, ids);
  }

  // ---------------------------------------------------- single key mutations

  /** Keys whose value a reload may look at. */
  ghost predicate Reachable(s: Storage, k: Key) {
    k == Manifest || (LoadState(s).legacy && k == Order)
    || exists id :: id in LoadState(s).ids && k == RowKey(LoadState(s), id)
  }

  lemma StateWithout(s: Storage, k: Key)
    requires WellTyped(s) && k != Manifest && (LoadState(s).legacy ==> k != Order)
    ensures WellTyped(s - {k}) && LoadState(s - {k}) == LoadState(s)
  {
    assert Manifest in s - {k} <==> Manifest in s;
  }

  /** Writing or removing a key no reload can reach changes nothing. */
  lemma UnreachableWrite(s: Storage, k: Key, v: Value)
    requires Valid(s) && !Reachable(s, k) && (k.LegacyRow? || k.GenRow?)
    requires v.RowValue? && v.rec.id == k.id
    ensures Valid(s[k := v]) && ViewOf(s[k := v]) == ViewOf(s) && LoadState(s[k := v]) == LoadState(s)
  {
    TableOther(s, LoadState(s), LoadState(s).ids, k, v);
  }

  lemma UnreachableRemoval(s: Storage, k: Key)
    requires Valid(s) && !Reachable(s, k)
    ensures Valid(s - {k}) && ViewOf(s - {k}) == ViewOf(s) && LoadState(s - {k}) == LoadState(s)
  {
    StateWithout(s, k);
    TableWithout(s, LoadState(s), LoadState(s).ids, k);
  }

  /** What publishing a list of ids under a generation would show. */
  function Staged(s: Storage, generation: nat, ids: seq<nat>): View {
    View(Normalized(ids), Table(s, Generation(generation), Normalized(ids)))
  }

  /** Publishing a manifest switches to what was staged; unsafe ids are lost on reading. */
  lemma PublishedView(s: Storage, generation: nat, ids: seq<nat>)
    requires WellTyped(s) && generation >= 1 && Distinct(ids)
    ensures var t := s[Manifest := ManifestValue(generation, ids)];
      Valid(t) && ViewOf(t) == Staged(s, generation, ids)
        && LoadState(t) == StoreState(generation, Normalized(ids), false)
  {
    NormalizedIsDistinct(ids);
    var t, st := s[Manifest := ManifestValue(generation, ids)], StoreState(generation, Normalized(ids), false);
    TableOther(s, st, Normalized(ids), Manifest, ManifestValue(generation, ids));
    TableOfGeneration(s, st, Normalized(ids));
  }

  /** Writing one row key acts on what is staged as a put. */
  lemma StagedWrite(s: Storage, generation: nat, ids: seq<nat>, rec: Record)
    ensures Staged(s[GenRow(generation, rec.id) := RowValue(rec)], generation, WithId(ids, rec.id))
         == PutIn(Staged(s, generation, ids), rec)
  {
    var st, before, after := Generation(generation), Normalized(ids), Normalized(WithId(ids, rec.id));
    NormalizedWithId(ids, rec.id);
    if SafeId(rec.id) {
      TableWrite(s, st, before, after, rec);
    } else {
      NormalizedIs(ids);
      TableOther(s, st, before, GenRow(generation, rec.id), RowValue(rec));
    }
  }

  /** An active state is its own staging. */
  lemma ActiveIsStaged(s: Storage)
    requires Valid(s) && !LoadState(s).legacy
    ensures var st := LoadState(s);
      && Normalized(st.ids) == st.ids && Staged(s, st.generation, st.ids) == ViewOf(s) == ActiveView(s)
      && Proper(ViewOf(s))
  {
    ValidIsProper(s);
    NormalizedKeeps(LoadState(s).ids);
    TableOfGeneration(s, LoadState(s), LoadState(s).ids);
  }

  /** Overwriting a listed row puts that row alone. */
  lemma ListedWrite(s: Storage, rec: Record)
    requires Valid(s) && !LoadState(s).legacy && rec.id in LoadState(s).ids
    ensures var t := s[GenRow(LoadState(s).generation, rec.id) := RowValue(rec)];
      Valid(t) && ViewOf(t) == PutIn(ViewOf(s), rec) && LoadState(t) == LoadState(s)
  {
    ValidIsProper(s);
    TableWrite(s, LoadState(s), LoadState(s).ids, LoadState(s).ids, rec);
  }

  // ------------------------------------------------------------ crash points

  /** A reload at any moment recorded since `from` finds one of the views. */
  ghost predicate Within(history: seq<Storage>, from: nat, views: set<View>) {
    && from <= |history|
    && forall i :: from <= i < |history| ==> Valid(history[i]) && ViewOf(history[i]) in views
  }

  /** At no moment recorded since `from` is an id listed whose row is missing. */
  ghost predicate NamesNoMissing(history: seq<Storage>, from: nat) {
    from <= |history| && forall i :: from <= i < |history| ==> Full(ViewOf(history[i]))
  }

  /** Migration leaves no listed id without its row, if none was. */
  lemma ActiveIsFull(s: Storage)
    requires Valid(s)
    ensures Full(ViewOf(s)) ==> Full(ActiveView(s))
  {
  }

  /** Every operation leaves no listed id without its row, if none was. */
  lemma AppliedIsFull(s: Storage, op: StoreOp)
    requires Valid(s)
    ensures Full(ViewOf(s)) ==> Full(ActiveView(s)) && Full(ApplyTo(ActiveView(s), op))
  {
    ValidIsProper(s);
    ActiveIsFull(s);
    ApplyToIsProper(ActiveView(s), op);
  }

  /** Two stretches of history, one after the other. */
  lemma Joined(early: seq<Storage>, late: seq<Storage>, from: nat, a: set<View>, b: set<View>, c: set<View>)
    requires Within(early, from, a) && early <= late && Within(late, |early|, b) && a <= c && b <= c
    ensures Within(late, from, c)
  {
    forall i | from <= i < |late|
      ensures Valid(late[i]) && ViewOf(late[i]) in c
    {
      assert i < |early| ==> late[i] == early[i];
    }
  }

  /** The old ids, and for each its old row or a version from the batch. */
  ghost predicate PartlyPut(v: View, base: View, batch: seq<Record>) {
    && v.ids == base.ids
    && (forall id :: id in base.table ==> id in v.table)
    && (forall id :: id in v.table ==> (id in base.table && v.table[id] == base.table[id]) || v.table[id] in batch)
  }

  /** A reload at any moment recorded since `from` finds the old ids, each row old or from the batch. */
  ghost predicate Overwriting(history: seq<Storage>, from: nat, base: View, batch: seq<Record>) {
    && from <= |history|
    && forall i :: from <= i < |history| ==> Valid(history[i]) && PartlyPut(ViewOf(history[i]), base, batch)
  }

  lemma OverwritingJoined(early: seq<Storage>, late: seq<Storage>, from: nat, base: View, batch: seq<Record>)
    requires Overwriting(early, from, base, batch) && early <= late && Overwriting(late, |early|, base, batch)
    ensures Overwriting(late, from, base, batch)
  {
    forall i | from <= i < |late|
      ensures Valid(late[i]) && PartlyPut(ViewOf(late[i]), base, batch)
    {
      assert i < |early| ==> late[i] == early[i];
    }
  }

  lemma PutAllStep(base: View, batch: seq<Record>, i: nat)
    requires i < |batch|
    ensures PutAllIn(base, batch[..i + 1]) == PutIn(PutAllIn(base, batch[..i]), batch[i])
  {
    assert batch[..i + 1][..i] == batch[..i];
  }

  /** Publishing the ids that remain shows the view without the others. */
  lemma RemainingIsDropped(s: Storage, drop: set<nat>)
    requires Valid(s) && !LoadState(s).legacy
    ensures var st := LoadState(s);
      && Staged(s, st.generation, Filtered(st.ids, drop)) == DropFrom(ViewOf(s), drop)
      && Normalized(Filtered(st.ids, drop)) == Filtered(st.ids, drop)
      && Distinct(Filtered(st.ids, drop)) && forall id :: id in Filtered(st.ids, drop) ==> id !in drop
  {
    var st := LoadState(s);
    ValidIsProper(s);
    FilteredIs(st.ids, drop);
    NormalizedKeeps(Filtered(st.ids, drop));
    TableDrop(s, st, st.ids, Filtered(st.ids, drop), drop);
    TableOfGeneration(s, st, Filtered(st.ids, drop));
  }
}
