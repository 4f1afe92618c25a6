/** The in-process row store (packages/queue/src/persist/stores/memory.ts): a
    JavaScript Map, that is, a table plus its insertion order. */
module MemoryRowStores {
  import opened Options
  import opened Records
  import opened RowStoreSpec
  import opened Sequences

  lemma SplicedKeepsOthers(order: seq<nat>, k: nat)
    requires k < |order| && Distinct(order)
    ensures Distinct(Spliced(order, k))
    ensures forall id :: id in Spliced(order, k) <==> id in order && id != order[k]
  {
    var rest := Spliced(order, k);
    forall i | 0 <= i < |rest|
      ensures rest[i] in order && rest[i] != order[k]
    {
      assert rest[i] == order[if i < k then i else i + 1];
    }
    forall id | id in order && id != order[k]
      ensures id in rest
    {
      var j :| 0 <= j < |order| && order[j] == id;
      assert rest[if j < k then j else j - 1] == id;
    }
  }

  lemma SplicedLists(order: seq<nat>, table: map<nat, Record>, k: nat)
    requires k < |order| && Distinct(order)
    requires forall id :: id in order ==> id in table
    ensures forall id :: id in Spliced(order, k) ==> id in table - {order[k]}
    ensures Listed(Spliced(order, k), table - {order[k]}) == Listed(order, table)[..k] + Listed(order, table)[k + 1..]
  {
    SplicedKeepsOthers(order, k);
  }

  class MemoryRowStore {
    var order: seq<nat>
    var table: map<nat, Record>

    ghost predicate Valid()
      reads this
    {
      && Distinct(order)
      && (forall id :: id in order <==> id in table)
      && (forall id :: id in table ==> table[id].id == id)
    }

    ghost function Rows(): (rows: seq<Record>)
      requires Valid()
      reads this
      ensures Ids(rows) == order
    {
      Listed(order, table)
    }

    constructor ()
      ensures Valid() && Rows() == []
    {
      order, table := [], map[];
    }

    /** `Map.set`: an existing key keeps its position. */
    method Put(rec: Record)
      requires Valid()
      modifies this
      ensures Valid() && Rows() == Apply(old(Rows()), StoreOp.Put(rec))
    {
      if rec.id !in table {
        order := order + [rec.id];
      }
      table := table[rec.id := rec];
      ghost var rows := old(Rows());
      assert Rows() == Upsert(rows, rec);
    }

    /** `Map.delete` */
    method Remove(id: nat)
      requires Valid()
      modifies this
      ensures Valid() && Rows() == Apply(old(Rows()), StoreOp.Remove(id))
    {
      ghost var rows := Rows();
      var k := Find(order, id);
      DeleteOne(rows, id);
      if k < |order| {
        SplicedKeepsOthers(order, k);
        SplicedLists(order, table, k);
        order, table := Spliced(order, k), table - {id};
      }
    }

    method Clear()
      requires Valid()
      modifies this
      ensures Valid() && Rows() == Apply(old(Rows()), StoreOp.Clear)
    {
      order, table := [], map[];
    }

    method PutBatch(records: seq<Record>)
      requires Valid()
      modifies this
      ensures Valid() && Rows() == Apply(old(Rows()), StoreOp.PutBatch(records))
    {
      var i := 0;
      while i < |records|
        invariant 0 <= i <= |records|
        invariant Valid() && Rows() == UpsertAll(old(Rows()), records[..i])
      {
        Put(records[i]);
        i := i + 1;
        assert records[..i][..i - 1] == records[..i - 1];
      }
      assert records[..i] == records;
    }

    method RemoveBatch(ids: seq<nat>)
      requires Valid()
      modifies this
      ensures Valid() && Rows() == Apply(old(Rows()), StoreOp.RemoveBatch(ids))
    {
      ghost var rows := Rows();
      DeleteNothing(rows, SetOf(ids[..0]));
      var i := 0;
      while i < |ids|
        invariant 0 <= i <= |ids|
        invariant Valid() && Rows() == DeleteAll(rows, SetOf(ids[..i]))
      {
        DeleteTwice(rows, SetOf(ids[..i]), {ids[i]});
        SetOfExtend(ids, i);
        Remove(ids[i]);
        i := i + 1;
      }
      assert ids[..i] == ids;
    }

    method ReplaceAll(records: seq<Record>)
      requires Valid()
      modifies this
      ensures Valid() && Rows() == Apply(old(Rows()), StoreOp.ReplaceAll(records))
    {
      Clear();
      PutBatch(records);
    }

    method LoadAll() returns (rows: seq<Record>)
      requires Valid()
      ensures rows == Rows()
    {
      rows := Listed(order, table);
    }
  }
}
