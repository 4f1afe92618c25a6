/** What every row store means: an insertion-ordered list of records with distinct ids. */
module RowStoreSpec {
  import opened Options
  import opened Records
  import opened Sequences

  function Ids(rows: seq<Record>): (ids: seq<nat>)
    ensures |ids| == |rows|
    ensures forall i :: 0 <= i < |rows| ==> ids[i] == rows[i].id
  {
    seq(|rows|, i requires 0 <= i < |rows| => rows[i].id)
  }

  ghost predicate Distinct(ids: seq<nat>) {
    forall i, j :: 0 <= i < j < |ids| ==> ids[i] != ids[j]
  }

  /** Position of an id, or the length when it is absent. */
  function Find(ids: seq<nat>, id: nat): (k: nat)
    ensures k <= |ids|
    ensures k < |ids| ==> ids[k] == id
    ensures id !in ids[..k]
    ensures k == |ids| <==> id !in ids
  {
    if ids == [] then 0 else if ids[0] == id then 0 else 1 + Find(ids[1..], id)
  }

  /** Overwrite in place, or append. */
  function Upsert(rows: seq<Record>, rec: Record): seq<Record> {
    var k := Find(Ids(rows), rec.id);
    if k < |rows| then rows[k := rec] else rows + [rec]
  }

  function UpsertAll(rows: seq<Record>, batch: seq<Record>): seq<Record> {
    if batch == [] then rows else Upsert(UpsertAll(rows, batch[..|batch| - 1]), batch[|batch| - 1])
  }

  lemma SetOfExtend(ids: seq<nat>, n: nat)
    requires n < |ids|
    ensures SetOf(ids[..n + 1]) == SetOf(ids[..n]) + {ids[n]}
  {
    assert ids[..n + 1] == ids[..n] + [ids[n]];
  }

  /** The records a table holds under the listed ids. */
  function Listed(order: seq<nat>, table: map<nat, Record>): (rows: seq<Record>)
    requires forall id :: id in order ==> id in table
    ensures |rows| == |order|
  {
    seq(|order|, i requires 0 <= i < |order| => table[order[i]])
  }

  /** Drop every row whose id is listed. */
  function DeleteAll(rows: seq<Record>, ids: set<nat>): seq<Record> {
    if rows == [] then []
    else if rows[0].id in ids then DeleteAll(rows[1..], ids)
    else [rows[0]] + DeleteAll(rows[1..], ids)
  }

  datatype StoreOp =
    | Put(record: Record)
    | PutBatch(records: seq<Record>)
    | Remove(id: nat)
    | RemoveBatch(ids: seq<nat>)
    | ReplaceAll(records: seq<Record>)
    | Clear

  function Apply(rows: seq<Record>, op: StoreOp): seq<Record> {
    match op
    case Put(rec) => Upsert(rows, rec)
    case PutBatch(recs) => UpsertAll(rows, recs)
    case Remove(id) => DeleteAll(rows, {id})
    case RemoveBatch(ids) => DeleteAll(rows, SetOf(ids))
    case ReplaceAll(recs) => UpsertAll([], recs)
    case Clear => []
  }

  /** Deleting keeps exactly the unlisted ids, in order. */
  lemma {:induction false} DeleteAllMembers(rows: seq<Record>, ids: set<nat>)
    ensures forall r :: r in DeleteAll(rows, ids) <==> r in rows && r.id !in ids
    ensures |DeleteAll(rows, ids)| <= |rows|
  {
    if rows != [] {
      DeleteAllMembers(rows[1..], ids);
    }
  }

  lemma {:induction false} DeleteNothing(rows: seq<Record>, ids: set<nat>)
    requires forall r :: r in rows ==> r.id !in ids
    ensures DeleteAll(rows, ids) == rows
  {
    if rows != [] {
      DeleteNothing(rows[1..], ids);
    }
  }

  lemma TailIsDistinct(ids: seq<nat>)
    requires ids != [] && Distinct(ids)
    ensures Distinct(ids[1..]) && ids[0] !in ids[1..]
  {
  }

  lemma NotInTail(rows: seq<Record>)
    requires rows != [] && Distinct(Ids(rows))
    ensures forall r :: r in rows[1..] ==> r.id != rows[0].id
  {
    forall r | r in rows[1..]
      ensures r.id != rows[0].id
    {
      var k :| 0 <= k < |rows[1..]| && rows[1..][k] == r;
      assert Ids(rows)[k + 1] == r.id;
    }
  }

  lemma SpliceTail(rows: seq<Record>, k: nat)
    requires k + 1 < |rows|
    ensures rows[..k + 1] + rows[k + 2..] == [rows[0]] + (rows[1..][..k] + rows[1..][k + 1..])
  {
  }

  /** Deleting one id splices its row out. */
  lemma {:induction false} DeleteOne(rows: seq<Record>, id: nat)
    requires Distinct(Ids(rows))
    ensures var k := Find(Ids(rows), id);
      DeleteAll(rows, {id}) == if k < |rows| then rows[..k] + rows[k + 1..] else rows
  {
    if rows != [] {
      assert Ids(rows)[1..] == Ids(rows[1..]);
      TailIsDistinct(Ids(rows));
      if rows[0].id == id {
        NotInTail(rows);
        DeleteNothing(rows[1..], {id});
      } else {
        DeleteOne(rows[1..], id);
        var k := Find(Ids(rows[1..]), id);
        if k < |rows| - 1 {
          SpliceTail(rows, k);
        }
      }
    }
  }

  lemma {:induction false} DeleteTwice(rows: seq<Record>, a: set<nat>, b: set<nat>)
    ensures DeleteAll(DeleteAll(rows, a), b) == DeleteAll(rows, a + b)
  {
    if rows != [] {
      DeleteTwice(rows[1..], a, b);
    }
  }
}
