/** A listed row store as a value: the ids it lists, in order, and the rows it holds for them.
    A listed id may lack its row; only safe ids are ever listed. */
module RowViews {
  import opened Records
  import opened RowStoreSpec
  import opened Sequences
  import opened IdCounters

  datatype View = View(ids: seq<nat>, table: map<nat, Record>)

  const Empty: View := View([], map[])

  /** `normalizeIds`: what is not a positive safe integer is dropped. */
  function Normalized(ids: seq<nat>): seq<nat> {
    NormalizedTo(ids, |ids|)
  }

  function NormalizedTo(ids: seq<nat>, n: nat): seq<nat>
    requires n <= |ids|
  {
    if n == 0 then [] else NormalizedTo(ids, n - 1) + (if SafeId(ids[n - 1]) then [ids[n - 1]] else [])
  }

  /** The `seen` set and id list of a batch: each id once, in first-seen order. */
  function WithId(ids: seq<nat>, id: nat): seq<nat> {
    if id in ids then ids else ids + [id]
  }

  function Filtered(ids: seq<nat>, drop: set<nat>): seq<nat> {
    if ids == [] then []
    else if ids[0] in drop then Filtered(ids[1..], drop)
    else [ids[0]] + Filtered(ids[1..], drop)
  }

  /** The rows of the listed ids that have one. */
  function RowsOver(ids: seq<nat>, table: map<nat, Record>): seq<Record> {
    if ids == [] then []
    else (if ids[0] in table then [table[ids[0]]] else []) + RowsOver(ids[1..], table)
  }

  function Rows(v: View): seq<Record> {
    RowsOver(v.ids, v.table)
  }

  /** Ids are listed once, and every row is listed under its own id. */
  ghost predicate Proper(v: View) {
    && Distinct(v.ids)
    && (forall id :: id in v.ids ==> SafeId(id))
    && (forall id :: id in v.table ==> id in v.ids && v.table[id].id == id)
  }

  ghost predicate Full(v: View) {
    forall id :: id in v.ids ==> id in v.table
  }

  // ------------------------------------------------------------- operations

  function PutIn(v: View, rec: Record): View {
    if SafeId(rec.id) then View(WithId(v.ids, rec.id), v.table[rec.id := rec]) else v
  }

  function PutAllIn(v: View, batch: seq<Record>): View {
    if batch == [] then v else PutIn(PutAllIn(v, batch[..|batch| - 1]), batch[|batch| - 1])
  }

  function DropFrom(v: View, drop: set<nat>): View {
    View(Filtered(v.ids, drop), v.table - drop)
  }

  function ApplyTo(v: View, op: StoreOp): View {
    match op
    case Put(rec) => PutIn(v, rec)
    case PutBatch(recs) => PutAllIn(v, recs)
    case Remove(id) => DropFrom(v, {id})
    case RemoveBatch(ids) => DropFrom(v, SetOf(ids))
    case ReplaceAll(recs) => PutAllIn(Empty, recs)
    case Clear => Empty
  }

  // ------------------------------------------------------------------- lists

  lemma {:induction false} NormalizedToPrefix(ids: seq<nat>, more: seq<nat>, n: nat)
    requires n <= |ids|
    ensures NormalizedTo(ids + more, n) == NormalizedTo(ids, n)
  {
    if n > 0 {
      NormalizedToPrefix(ids, more, n - 1);
    }
  }

  lemma NormalizedStep(ids: seq<nat>, id: nat)
    ensures Normalized(ids + [id]) == Normalized(ids) + (if SafeId(id) then [id] else [])
  {
    NormalizedToPrefix(ids, [id], |ids|);
  }

  lemma {:induction false} NormalizedToIs(ids: seq<nat>, n: nat)
    requires n <= |ids|
    ensures forall id :: id in NormalizedTo(ids, n) <==> SafeId(id) && exists i :: 0 <= i < n && ids[i] == id
  {
    if n > 0 {
      NormalizedToIs(ids, n - 1);
    }
  }

  lemma NormalizedIs(ids: seq<nat>)
    ensures forall id :: id in Normalized(ids) <==> id in ids && SafeId(id)
  {
    NormalizedToIs(ids, |ids|);
  }

  lemma {:induction false} NormalizedToIsDistinct(ids: seq<nat>, n: nat)
    requires n <= |ids| && Distinct(ids)
    ensures Distinct(NormalizedTo(ids, n))
  {
    if n > 0 {
      NormalizedToIsDistinct(ids, n - 1);
      NormalizedToIs(ids, n - 1);
      assert ids[n - 1] !in NormalizedTo(ids, n - 1);
    }
  }

  lemma NormalizedIsDistinct(ids: seq<nat>)
    requires Distinct(ids)
    ensures Distinct(Normalized(ids))
  {
    NormalizedToIsDistinct(ids, |ids|);
  }

  lemma {:induction false} NormalizedToKeeps(ids: seq<nat>, n: nat)
    requires n <= |ids| && forall i :: 0 <= i < n ==> SafeId(ids[i])
    ensures NormalizedTo(ids, n) == ids[..n]
  {
    if n > 0 {
      NormalizedToKeeps(ids, n - 1);
    }
  }

  lemma NormalizedKeeps(ids: seq<nat>)
    requires forall id :: id in ids ==> SafeId(id)
    ensures Normalized(ids) == ids
  {
    NormalizedToKeeps(ids, |ids|);
  }

  /** Listing one more id and normalizing go together. */
  lemma NormalizedWithId(ids: seq<nat>, id: nat)
    ensures Normalized(WithId(ids, id)) == if SafeId(id) then WithId(Normalized(ids), id) else Normalized(ids)
  {
    NormalizedStep(ids, id);
    NormalizedIs(ids);
  }

  lemma {:induction false} FilteredIs(ids: seq<nat>, drop: set<nat>)
    ensures forall id :: id in Filtered(ids, drop) <==> id in ids && id !in drop
    ensures Distinct(ids) ==> Distinct(Filtered(ids, drop))
    ensures |Filtered(ids, drop)| <= |ids|
    ensures |Filtered(ids, drop)| == |ids| ==> Filtered(ids, drop) == ids
  {
    if ids != [] {
      FilteredIs(ids[1..], drop);
      assert ids == [ids[0]] + ids[1..];
    }
  }

  lemma {:induction false} FilteredAtEnd(ids: seq<nat>, k: nat)
    requires k < |ids| && Distinct(ids)
    ensures Filtered(ids, {ids[k]}) == ids[..k] + ids[k + 1..]
  {
    if k == 0 {
      FilteredNone(ids[1..], ids[0]);
    } else {
      FilteredAtEnd(ids[1..], k - 1);
      assert ids[..k] == [ids[0]] + ids[1..][..k - 1];
      assert ids[1..][k..] == ids[k + 1..];
    }
  }

  lemma {:induction false} FilteredNone(ids: seq<nat>, id: nat)
    requires id !in ids
    ensures Filtered(ids, {id}) == ids
  {
    if ids != [] {
      FilteredNone(ids[1..], id);
    }
  }

  // -------------------------------------------------------------- operations

  lemma PutInIsProper(v: View, rec: Record)
    requires Proper(v)
    ensures Proper(PutIn(v, rec)) && (Full(v) ==> Full(PutIn(v, rec)))
  {
  }

  lemma {:induction false} PutAllInIsProper(v: View, batch: seq<Record>)
    requires Proper(v)
    ensures Proper(PutAllIn(v, batch)) && (Full(v) ==> Full(PutAllIn(v, batch)))
  {
    if batch != [] {
      PutAllInIsProper(v, batch[..|batch| - 1]);
      PutInIsProper(PutAllIn(v, batch[..|batch| - 1]), batch[|batch| - 1]);
    }
  }

  lemma DropFromIsProper(v: View, drop: set<nat>)
    requires Proper(v)
    ensures Proper(DropFrom(v, drop)) && (Full(v) ==> Full(DropFrom(v, drop)))
  {
    FilteredIs(v.ids, drop);
  }

  lemma ApplyToIsProper(v: View, op: StoreOp)
    requires Proper(v)
    ensures Proper(ApplyTo(v, op)) && (Full(v) ==> Full(ApplyTo(v, op)))
  {
    match op
    case Put(rec) => PutInIsProper(v, rec);
    case PutBatch(recs) => PutAllInIsProper(v, recs);
    case Remove(id) => DropFromIsProper(v, {id});
    case RemoveBatch(ids) => DropFromIsProper(v, SetOf(ids));
    case ReplaceAll(recs) => PutAllInIsProper(Empty, recs);
    case Clear =>
  }

  // -------------------------------------------------------------------- rows

  lemma {:induction false} RowsOverMembers(ids: seq<nat>, table: map<nat, Record>)
    requires forall id :: id in table ==> table[id].id == id
    ensures forall row :: row in RowsOver(ids, table) <==> row.id in ids && row.id in table && table[row.id] == row
  {
    if ids != [] {
      RowsOverMembers(ids[1..], table);
      assert ids == [ids[0]] + ids[1..];
    }
  }

  /** Under the same ids, the rows determine the table. */
  lemma SameRowsSameView(v: View, w: View)
    requires Proper(v) && Proper(w) && v.ids == w.ids
    ensures Rows(v) == Rows(w) <==> v == w
  {
    RowsOverMembers(v.ids, v.table);
    RowsOverMembers(w.ids, w.table);
    if Rows(v) == Rows(w) {
      forall id
        ensures id in v.table <==> id in w.table
        ensures id in v.table && id in w.table ==> v.table[id] == w.table[id]
      {
        assert id in v.table ==> v.table[id] in Rows(v);
        assert id in w.table ==> w.table[id] in Rows(w);
      }
    }
  }

  lemma {:induction false} FullRows(ids: seq<nat>, table: map<nat, Record>)
    requires forall id :: id in ids ==> id in table
    ensures |RowsOver(ids, table)| == |ids|
    ensures forall i :: 0 <= i < |ids| ==> RowsOver(ids, table)[i] == table[ids[i]]
  {
    if ids != [] {
      FullRows(ids[1..], table);
    }
  }

  /** Dropping ids deletes their rows, whether or not every listed id has one. */
  lemma {:induction false} DroppedRows(ids: seq<nat>, table: map<nat, Record>, drop: set<nat>)
    requires forall id :: id in table ==> table[id].id == id
    ensures RowsOver(Filtered(ids, drop), table - drop) == DeleteAll(RowsOver(ids, table), drop)
  {
    if ids != [] {
      DroppedRows(ids[1..], table, drop);
      var first := if ids[0] in table then [table[ids[0]]] else [];
      var rest := RowsOver(ids[1..], table);
      assert first != [] ==> (first + rest)[1..] == rest;
      assert first == [] ==> first + rest == rest;
      if ids[0] !in drop {
        var kept := Filtered(ids[1..], drop);
        assert ([ids[0]] + kept)[1..] == kept;
      }
    }
  }

  /** Where no listed id lacks its row, putting a safe record is an upsert of the rows. */
  lemma PutRows(v: View, rec: Record)
    requires Proper(v) && Full(v) && SafeId(rec.id)
    ensures Rows(PutIn(v, rec)) == Upsert(Rows(v), rec)
  {
    var w := PutIn(v, rec);
    FullRows(v.ids, v.table);
    FullRows(w.ids, w.table);
    var rows, after := Rows(v), Rows(w);
    assert Ids(rows) == v.ids;
    var k := Find(v.ids, rec.id);
    assert |after| == |Upsert(rows, rec)|;
    forall i | 0 <= i < |after|
      ensures after[i] == Upsert(rows, rec)[i]
    {
      assert i < |v.ids| ==> w.ids[i] == v.ids[i] && v.ids[i] in v.ids;
      if i < |v.ids| && v.ids[i] == rec.id {
        assert v.ids[k] == rec.id && i == k;
      }
    }
  }
}
