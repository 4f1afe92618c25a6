/** The generation-manifest row store over a key/value storage
    (packages/queue/src/persist/stores/web-storage.ts). */
module WebRowStores {
  import opened Options
  import opened Records
  import opened RowStoreSpec
  import opened Sequences
  import opened RowViews
  import opened WebStates

  class WebRowStore {
    /** Whether a storage call may throw, and whether the storage can list its keys. */
    const faulty: bool
    const canEnumerate: bool
    var storage: Storage
    /** The storage after every key mutation: the points where a crash can strike. */
    ghost var history: seq<Storage>

    constructor (faulty: bool, canEnumerate: bool, storage: Storage)
      ensures this.storage == storage && this.faulty == faulty && history == []
    {
      this.faulty, this.canEnumerate, this.storage, this.history := faulty, canEnumerate, storage, [];
    }

    ghost predicate Extends(was: seq<Storage>)
      reads this
    {
      was <= history
    }

    /** The storage may differ, but not in what a reload finds. */
    ghost predicate Shows(st: StoreState, v: View)
      reads this
    {
      Valid(storage) && LoadState(storage) == st && ViewOf(storage) == v
    }

    /** `setItem`: takes effect, or throws and leaves the storage as it was. */
    method SetItem(k: Key, v: Value) returns (ok: bool)
      modifies this
      ensures !faulty ==> ok
      ensures storage == if ok then old(storage)[k := v] else old(storage)
      ensures history == old(history) + [storage]
    {
      ok := *;
      ok := ok || !faulty;
      if ok {
        storage := storage[k := v];
      }
      history := history + [storage];
    }

    /** `removeItem` inside `try`/`catch`: best effort. */
    method RemoveItem(k: Key)
      modifies this
      ensures storage == old(storage) - {k} || (faulty && storage == old(storage))
      ensures history == old(history) + [storage]
    {
      var ok: bool := *;
      if ok || !faulty {
        storage := storage - {k};
      }
      history := history + [storage];
    }

    /** Removes a key that no reload reaches. */
    method Discard(k: Key)
      requires Valid(storage) && !Reachable(storage, k)
      modifies this
      ensures Shows(old(LoadState(storage)), old(ViewOf(storage)))
      ensures storage.Keys <= old(storage).Keys && (!faulty ==> k !in storage)
      ensures history == old(history) + [storage]
    {
      UnreachableRemoval(storage, k);
      RemoveItem(k);
    }

    method CleanupKeys(st: StoreState)
      requires Valid(storage)
      requires forall id :: id in st.ids ==> !Reachable(storage, RowKey(st, id))
      requires st.legacy ==> !Reachable(storage, Order)
      modifies this
      ensures Shows(old(LoadState(storage)), old(ViewOf(storage)))
      ensures Extends(old(history)) && Within(history, |old(history)|, {ViewOf(storage)})
      ensures !faulty ==> forall id :: id in st.ids ==> RowKey(st, id) !in storage
      ensures !faulty && st.legacy ==> Order !in storage
    {
      var i := 0;
      while i < |st.ids|
        invariant 0 <= i <= |st.ids|
        invariant Shows(old(LoadState(storage)), old(ViewOf(storage)))
        invariant Extends(old(history)) && Within(history, |old(history)|, {ViewOf(storage)})
        invariant !faulty ==> forall j :: 0 <= j < i ==> RowKey(st, st.ids[j]) !in storage
      {
        assert st.ids[i] in st.ids;
        Discard(RowKey(st, st.ids[i]));
        i := i + 1;
      }
      if st.legacy {
        Discard(Order);
      }
    }

    /** Removes generation rows outside the active generation. */
    method CleanupOrphanGenerations(active: nat)
      requires Valid(storage) && active == LoadState(storage).generation
      modifies this
      ensures Shows(old(LoadState(storage)), old(ViewOf(storage)))
      ensures Extends(old(history)) && Within(history, |old(history)|, {ViewOf(storage)})
      ensures old(Full(ViewOf(storage))) ==> NamesNoMissing(history, |old(history)|)
      ensures canEnumerate && !faulty ==> NoOrphans(storage)
    {
      if !canEnumerate {
        return;
      }
      var keys := set k | k in storage.Keys && k.GenRow? && k.gen != active;
      while keys != {}
        invariant forall k :: k in keys ==> k.GenRow? && k.gen != active
        invariant !faulty ==> forall k :: k in storage && k.GenRow? && k.gen != active ==> k in keys
        invariant Shows(old(LoadState(storage)), old(ViewOf(storage)))
        invariant Extends(old(history)) && Within(history, |old(history)|, {ViewOf(storage)})
        decreases |keys|
      {
        var k :| k in keys;
        Discard(k);
        keys := keys - {k};
      }
    }

    method WriteRecord(rec: Record, generation: nat) returns (ok: bool)
      requires generation >= 1
      modifies this
      ensures !faulty ==> ok
      ensures storage == if ok then old(storage)[GenRow(generation, rec.id) := RowValue(rec)] else old(storage)
      ensures history == old(history) + [storage]
    {
      ok := SetItem(if generation == 0 then LegacyRow(rec.id) else GenRow(generation, rec.id), RowValue(rec));
    }

    /** A row write under a key no reload reaches: nothing shows, but publishing would. */
    method StageRow(st: StoreState, generation: nat, ids: seq<nat>, rec: Record) returns (ok: bool)
      requires Valid(storage) && st == LoadState(storage) && generation >= 1
      requires !Reachable(storage, GenRow(generation, rec.id))
      modifies this
      ensures !faulty ==> ok
      ensures Shows(st, old(ViewOf(storage)))
      ensures if ok then
        Staged(storage, generation, WithId(ids, rec.id)) == PutIn(old(Staged(storage, generation, ids)), rec)
              else storage == old(storage)
      ensures Extends(old(history)) && Within(history, |old(history)|, {ViewOf(storage)})
    {
      UnreachableWrite(storage, GenRow(generation, rec.id), RowValue(rec));
      StagedWrite(storage, generation, ids, rec);
      ok := WriteRecord(rec, generation);
    }

    /** The commit point: one manifest write makes what is staged the current state. */
    method Publish(generation: nat, ids: seq<nat>) returns (ok: bool)
      requires Valid(storage) && generation >= 1 && Distinct(ids)
      modifies this
      ensures !faulty ==> ok
      ensures if ok then Shows(StoreState(generation, Normalized(ids), false), old(Staged(storage, generation, ids)))
              else storage == old(storage)
      ensures Extends(old(history)) && Within(history, |old(history)|, {ViewOf(storage)})
    {
      PublishedView(storage, generation, ids);
      ok := SetItem(Manifest, ManifestValue(generation, ids));
    }

    /** Publish new rows, then clean up the state they replace. */
    method Commit(previous: StoreState, generation: nat, ids: seq<nat>) returns (ok: bool)
      requires Valid(storage) && generation >= 1 && Distinct(ids)
      requires previous.legacy || previous.generation != generation || ids == []
      modifies this
      ensures !faulty ==> ok
      ensures Valid(storage) && (ok ==> !LoadState(storage).legacy)
      ensures ViewOf(storage) == if ok then old(Staged(storage, generation, ids)) else old(ViewOf(storage))
      ensures Extends(old(history))
      ensures Within(history, |old(history)|, {old(ViewOf(storage)), old(Staged(storage, generation, ids))})
      ensures canEnumerate && !faulty ==> NoOrphans(storage)
    {
      ok := Publish(generation, ids);
      if !ok {
        return;
      }
      CleanupAfter(previous, generation);
    }

    /** What a published state replaced goes, best effort. */
    method CleanupAfter(previous: StoreState, generation: nat)
      requires Valid(storage) && LoadState(storage).generation == generation && !LoadState(storage).legacy
      requires forall id :: id in previous.ids ==> !Reachable(storage, RowKey(previous, id))
      modifies this
      ensures Shows(old(LoadState(storage)), old(ViewOf(storage)))
      ensures Extends(old(history)) && Within(history, |old(history)|, {ViewOf(storage)})
      ensures canEnumerate && !faulty ==> NoOrphans(storage)
    {
      CleanupKeys(previous);
      ghost var mid := history;
      CleanupOrphanGenerations(generation);
      Joined(mid, history, |old(history)|, {ViewOf(storage)}, {ViewOf(storage)}, {ViewOf(storage)});
    }

    // ------------------------------------------------------------ migration

    /** One legacy row copied to generation 1, where no reload looks yet. */
    method CopyRow(st: StoreState, rec: Record) returns (ok: bool)
      requires Valid(storage) && st == LoadState(storage) && st.legacy && rec.id in st.ids
      modifies this
      ensures !faulty ==> ok
      ensures Shows(st, old(ViewOf(storage)))
      ensures ok ==> Table(storage, Generation(1), st.ids) == old(Table(storage, Generation(1), st.ids))[rec.id := rec]
      ensures Extends(old(history)) && Within(history, |old(history)|, {ViewOf(storage)})
    {
      UnreachableWrite(storage, GenRow(1, rec.id), RowValue(rec));
      TableWrite(storage, Generation(1), st.ids, st.ids, rec);
      ok := WriteRecord(rec, 1);
    }

    /** The legacy rows that exist, copied to generation 1. */
    method CopyRows(st: StoreState) returns (ok: bool)
      requires Valid(storage) && st == LoadState(storage) && st.legacy
      modifies this
      ensures !faulty ==> ok
      ensures Shows(st, old(ViewOf(storage)))
      ensures ok ==>
        Table(storage, Generation(1), st.ids) ==
          old(Table(storage, Generation(1), st.ids)) + old(Table(storage, st, st.ids))
      ensures Extends(old(history)) && Within(history, |old(history)|, {ViewOf(storage)})
    {
      var found := storage;
      ok := true;
      var i := 0;
      while i < |st.ids|
        invariant 0 <= i <= |st.ids| && ok
        invariant Shows(st, old(ViewOf(storage)))
        invariant Table(storage, Generation(1), st.ids)
               == old(Table(storage, Generation(1), st.ids)) + TableTo(found, st, st.ids, i)
        invariant Extends(old(history)) && Within(history, |old(history)|, {ViewOf(storage)})
      {
        if HasRow(found, st, st.ids[i]) {
          ghost var mid := history;
          ok := CopyRow(st, found[RowKey(st, st.ids[i])].rec);
          Joined(mid, history, |old(history)|, {ViewOf(storage)}, {ViewOf(storage)}, {ViewOf(storage)});
          if !ok {
            return;
          }
        }
        i := i + 1;
      }
    }

    /** Loads the state, migrating the legacy layout to generation 1 first. */
    method EnsureActiveState() returns (ok: bool, st: StoreState)
      requires Valid(storage)
      modifies this
      ensures !faulty ==> ok
      ensures ok ==> Shows(st, old(ActiveView(storage))) && !st.legacy && st.generation >= 1
      ensures !ok ==> Valid(storage) && ViewOf(storage) == old(ViewOf(storage))
      ensures Extends(old(history))
      ensures Within(history, |old(history)|, {old(ViewOf(storage)), old(ActiveView(storage))})
      ensures old(Full(ViewOf(storage))) ==> NamesNoMissing(history, |old(history)|)
    {
      ActiveIsFull(storage);
      st := LoadState(storage);
      if !st.legacy {
        return true, st;
      }
      ok, st := Migrate(st);
    }

    method Migrate(state: StoreState) returns (ok: bool, st: StoreState)
      requires Valid(storage) && state == LoadState(storage) && state.legacy
      modifies this
      ensures !faulty ==> ok
      ensures ok ==> Shows(st, old(ActiveView(storage))) && !st.legacy && st.generation == 1
      ensures !ok ==> Valid(storage) && ViewOf(storage) == old(ViewOf(storage))
      ensures Extends(old(history))
      ensures Within(history, |old(history)|, {old(ViewOf(storage)), old(ActiveView(storage))})
    {
      st := StoreState(1, state.ids, false);
      ValidIsProper(storage);
      NormalizedKeeps(state.ids);
      ok := CopyRows(state);
      if !ok {
        return;
      }
      ok := Publish(1, st.ids);
      if !ok {
        return;
      }
      CleanupKeys(state);
    }

    /** The listed rows that exist, in order; cleaning up changes nothing a reload finds. */
    method LoadAll() returns (rows: seq<Record>)
      requires Valid(storage)
      modifies this
      ensures rows == old(RowsOf(storage))
      ensures Shows(old(LoadState(storage)), old(ViewOf(storage)))
      ensures Extends(old(history)) && Within(history, |old(history)|, {ViewOf(storage)})
      ensures old(Full(ViewOf(storage))) ==> NamesNoMissing(history, |old(history)|)
      ensures canEnumerate && !faulty ==> NoOrphans(storage)
    {
      rows := RowsOf(storage);
      CleanupOrphanGenerations(LoadState(storage).generation);
    }

    // ------------------------------------------------------------ one row

    /** At every crash point a reload finds the old state, the migrated one, or that with
        the row put. A record whose id is not safe is written but never listed. */
    method Put(rec: Record) returns (ok: bool)
      requires Valid(storage)
      modifies this
      ensures !faulty ==> ok
      ensures Valid(storage) && (ok ==> !LoadState(storage).legacy)
      ensures if ok then ViewOf(storage) == PutIn(old(ActiveView(storage)), rec)
              else ViewOf(storage) in {old(ViewOf(storage)), old(ActiveView(storage))}
      ensures Extends(old(history))
      ensures Within(history, |old(history)|,
                     {old(ViewOf(storage)), old(ActiveView(storage)), PutIn(old(ActiveView(storage)), rec)})
      ensures old(Full(ViewOf(storage))) ==> NamesNoMissing(history, |old(history)|)
      ensures canEnumerate && !faulty ==> NoOrphans(storage)
    {
      AppliedIsFull(storage, StoreOp.Put(rec));
      var st;
      ok, st := EnsureActiveState();
      if !ok {
        return;
      }
      if rec.id in st.ids {
        ok := PutKnown(st, rec);
      } else {
        ok := PutNew(st, rec);
      }
    }

    /** A row that the manifest names is overwritten in place. */
    method PutKnown(st: StoreState, rec: Record) returns (ok: bool)
      requires Valid(storage) && st == LoadState(storage) && !st.legacy && st.generation >= 1 && rec.id in st.ids
      modifies this
      ensures !faulty ==> ok
      ensures Shows(st, if ok then PutIn(old(ViewOf(storage)), rec) else old(ViewOf(storage)))
      ensures Extends(old(history))
      ensures Within(history, |old(history)|, {old(ViewOf(storage)), PutIn(old(ViewOf(storage)), rec)})
      ensures canEnumerate && !faulty ==> NoOrphans(storage)
    {
      ListedWrite(storage, rec);
      ok := WriteRecord(rec, st.generation);
      if !ok {
        return;
      }
      CleanupOrphanGenerations(st.generation);
    }

    /** A new row is written first and named by the manifest second. */
    method PutNew(st: StoreState, rec: Record) returns (ok: bool)
      requires Valid(storage) && st == LoadState(storage) && !st.legacy && st.generation >= 1 && rec.id !in st.ids
      modifies this
      ensures !faulty ==> ok
      ensures Valid(storage) && !LoadState(storage).legacy
      ensures ViewOf(storage) == if ok then PutIn(old(ViewOf(storage)), rec) else old(ViewOf(storage))
      ensures Extends(old(history))
      ensures Within(history, |old(history)|, {old(ViewOf(storage)), PutIn(old(ViewOf(storage)), rec)})
      ensures canEnumerate && !faulty ==> NoOrphans(storage)
    {
      ActiveIsStaged(storage);
      ok := StageRow(st, st.generation, st.ids, rec);
      if !ok {
        return;
      }
      ok := Publish(st.generation, WithId(st.ids, rec.id));
      if !ok {
        return;
      }
      CleanupOrphanGenerations(st.generation);
    }

    method Clear() returns (ok: bool)
      requires Valid(storage)
      modifies this
      ensures !faulty ==> ok
      ensures Valid(storage) && (ok ==> !LoadState(storage).legacy)
      ensures if ok then ViewOf(storage) == Empty
              else ViewOf(storage) in {old(ViewOf(storage)), old(ActiveView(storage))}
      ensures Extends(old(history))
      ensures Within(history, |old(history)|, {old(ViewOf(storage)), old(ActiveView(storage)), Empty})
      ensures old(Full(ViewOf(storage))) ==> NamesNoMissing(history, |old(history)|)
      ensures canEnumerate && !faulty ==> NoOrphans(storage)
    {
      AppliedIsFull(storage, StoreOp.Clear);
      var st;
      ok, st := EnsureActiveState();
      if !ok {
        return;
      }
      assert Staged(storage, st.generation, []) == Empty;
      ok := Commit(st, st.generation, []);
    }

    method Remove(id: nat) returns (ok: bool)
      requires Valid(storage)
      modifies this
      ensures !faulty ==> ok
      ensures Valid(storage) && (ok ==> !LoadState(storage).legacy)
      ensures if ok then ViewOf(storage) == DropFrom(old(ActiveView(storage)), {id})
              else ViewOf(storage) in {old(ViewOf(storage)), old(ActiveView(storage))}
      ensures Extends(old(history))
      ensures Within(history, |old(history)|,
                     {old(ViewOf(storage)), old(ActiveView(storage)), DropFrom(old(ActiveView(storage)), {id})})
      ensures old(Full(ViewOf(storage))) ==> NamesNoMissing(history, |old(history)|)
    {
      AppliedIsFull(storage, StoreOp.Remove(id));
      var st;
      ok, st := EnsureActiveState();
      if !ok {
        return;
      }
      ok := RemoveActive(st, id);
    }

    /** A removal from a storage that needs no migration. */
    method RemoveActive(st: StoreState, id: nat) returns (ok: bool)
      requires Valid(storage) && st == LoadState(storage) && !st.legacy && st.generation >= 1
      modifies this
      ensures !faulty ==> ok
      ensures Valid(storage) && !LoadState(storage).legacy
      ensures var after := DropFrom(old(ViewOf(storage)), {id});
        && ViewOf(storage) == (if ok then after else old(ViewOf(storage)))
        && Extends(old(history)) && Within(history, |old(history)|, {old(ViewOf(storage)), after})
    {
      ok := true;
      var index := Find(st.ids, id);
      if index == |st.ids| {
        ValidIsProper(storage);
        FilteredNone(st.ids, id);
        return;
      }
      ok := RemoveAt(st, index);
    }

    /** The manifest drops the id first; the row itself is deleted after that. */
    method RemoveAt(st: StoreState, index: nat) returns (ok: bool)
      requires Valid(storage) && st == LoadState(storage) && !st.legacy && st.generation >= 1 && index < |st.ids|
      modifies this
      ensures !faulty ==> ok
      ensures Valid(storage) && !LoadState(storage).legacy
      ensures var after := DropFrom(old(ViewOf(storage)), {st.ids[index]});
        && ViewOf(storage) == (if ok then after else old(ViewOf(storage)))
        && Extends(old(history)) && Within(history, |old(history)|, {old(ViewOf(storage)), after})
    {
      var id := st.ids[index];
      var nextIds := st.ids[..index] + st.ids[index + 1..];
      FilteredAtEnd(st.ids, index);
      RemainingIsDropped(storage, {id});
      ok := Publish(st.generation, nextIds);
      if !ok {
        return;
      }
      Discard(GenRow(st.generation, id));
      CleanupOrphanGenerations(st.generation);
    }

    // ------------------------------------------------------------ batches

    method RemoveBatch(batchIds: seq<nat>) returns (ok: bool)
      requires Valid(storage)
      modifies this
      ensures !faulty ==> ok
      ensures Valid(storage) && (|batchIds| == 0 ==> storage == old(storage))
      ensures |batchIds| > 0 && ok ==>
        !LoadState(storage).legacy && ViewOf(storage) == DropFrom(old(ActiveView(storage)), SetOf(batchIds))
      ensures !ok ==> ViewOf(storage) in {old(ViewOf(storage)), old(ActiveView(storage))}
      ensures Extends(old(history))
      ensures Within(history, |old(history)|,
                     {old(ViewOf(storage)), old(ActiveView(storage)),
                      DropFrom(old(ActiveView(storage)), SetOf(batchIds))})
      ensures old(Full(ViewOf(storage))) ==> NamesNoMissing(history, |old(history)|)
    {
      AppliedIsFull(storage, StoreOp.RemoveBatch(batchIds));
      if |batchIds| == 0 {
        return true;
      }
      var st;
      ok, st := EnsureActiveState();
      if !ok {
        return;
      }
      ok := RemoveListed(st, SetOf(batchIds));
    }

    method RemoveListed(st: StoreState, drop: set<nat>) returns (ok: bool)
      requires Valid(storage) && st == LoadState(storage) && !st.legacy && st.generation >= 1
      modifies this
      ensures !faulty ==> ok
      ensures Valid(storage) && !LoadState(storage).legacy
      ensures ViewOf(storage) == if ok then DropFrom(old(ViewOf(storage)), drop) else old(ViewOf(storage))
      ensures Extends(old(history))
      ensures Within(history, |old(history)|, {old(ViewOf(storage)), DropFrom(old(ViewOf(storage)), drop)})
    {
      var remaining := Filtered(st.ids, drop);
      FilteredIs(st.ids, drop);
      RemainingIsDropped(storage, drop);
      ok := true;
      if |remaining| == |st.ids| {
        ActiveIsStaged(storage);
        return;
      }
      ok := Publish(st.generation, remaining);
      if !ok {
        return;
      }
      DiscardListed(st, drop);
      CleanupOrphanGenerations(st.generation);
    }

    method DiscardListed(st: StoreState, drop: set<nat>)
      requires Valid(storage) && !st.legacy && forall id :: id in LoadState(storage).ids ==> id !in drop
      modifies this
      ensures Shows(old(LoadState(storage)), old(ViewOf(storage)))
      ensures Extends(old(history)) && Within(history, |old(history)|, {ViewOf(storage)})
    {
      var i := 0;
      while i < |st.ids|
        invariant 0 <= i <= |st.ids|
        invariant Shows(old(LoadState(storage)), old(ViewOf(storage)))
        invariant Extends(old(history)) && Within(history, |old(history)|, {ViewOf(storage)})
      {
        if st.ids[i] in drop {
          Discard(GenRow(st.generation, st.ids[i]));
        }
        i := i + 1;
      }
    }

    /** New ids appear all together; until then a crash may show some rows in a batch version. */
    method PutBatch(batch: seq<Record>) returns (ok: bool)
      requires Valid(storage)
      modifies this
      ensures !faulty ==> ok
      ensures Valid(storage) && (|batch| == 0 ==> storage == old(storage))
      ensures |batch| > 0 && ok ==>
        !LoadState(storage).legacy && ViewOf(storage) == PutAllIn(old(ActiveView(storage)), batch)
      ensures !ok ==>
        ViewOf(storage) == old(ViewOf(storage)) || PartlyPut(ViewOf(storage), old(ActiveView(storage)), batch)
      ensures Extends(old(history))
      ensures forall i :: |old(history)| <= i < |history| ==>
        && Valid(history[i])
        && (ViewOf(history[i]) in {old(ViewOf(storage)), PutAllIn(old(ActiveView(storage)), batch)}
            || PartlyPut(ViewOf(history[i]), old(ActiveView(storage)), batch))
      ensures old(Full(ViewOf(storage))) ==> NamesNoMissing(history, |old(history)|)
    {
      AppliedIsFull(storage, StoreOp.PutBatch(batch));
      if |batch| == 0 {
        return true;
      }
      var st;
      ok, st := EnsureActiveState();
      if !ok {
        return;
      }
      ok := PutRows(st, batch);
    }

    method PutRows(st: StoreState, batch: seq<Record>) returns (ok: bool)
      requires Valid(storage) && st == LoadState(storage) && !st.legacy && st.generation >= 1
      modifies this
      ensures !faulty ==> ok
      ensures Valid(storage) && !LoadState(storage).legacy && Extends(old(history))
      ensures if ok then ViewOf(storage) == PutAllIn(old(ViewOf(storage)), batch)
              else PartlyPut(ViewOf(storage), old(ViewOf(storage)), batch)
      ensures forall i :: |old(history)| <= i < |history| ==>
        && Valid(history[i])
        && (ViewOf(history[i]) == PutAllIn(old(ViewOf(storage)), batch)
            || PartlyPut(ViewOf(history[i]), old(ViewOf(storage)), batch))
    {
      var ids;
      ok, ids := WriteBatch(st, batch);
      if !ok {
        return;
      }
      ok := PublishBatch(st, ids);
      if !ok {
        return;
      }
      CleanupOrphanGenerations(st.generation);
    }

    /** The manifest changes only when the batch brought in new ids. */
    method PublishBatch(st: StoreState, ids: seq<nat>) returns (ok: bool)
      requires Valid(storage) && st == LoadState(storage) && !st.legacy && st.generation >= 1
      requires Distinct(ids) && st.ids <= ids
      modifies this
      ensures !faulty ==> ok
      ensures Valid(storage) && !LoadState(storage).legacy && LoadState(storage).generation == st.generation
      ensures ViewOf(storage) == if ok then old(Staged(storage, st.generation, ids)) else old(ViewOf(storage))
      ensures Extends(old(history)) && Within(history, |old(history)|, {ViewOf(storage)})
    {
      ok := true;
      if |ids| != |st.ids| {
        ok := Publish(st.generation, ids);
      } else {
        assert ids == st.ids;
        ActiveIsStaged(storage);
      }
    }

    /** A batch half written: `ids` with the first `i` records is what publishing would show. */
    ghost predicate Progress(st: StoreState, generation: nat, base: View, batch: seq<Record>, i: nat, ids: seq<nat>)
      reads this
    {
      && i <= |batch|
      && Valid(storage) && LoadState(storage) == st
      && Distinct(ids) && Staged(storage, generation, ids) == PutAllIn(base, batch[..i])
    }

    method OverwriteOne(st: StoreState, ghost base: View, batch: seq<Record>, i: nat, ids: seq<nat>) returns (ok: bool)
      requires i < |batch| && !st.legacy && st.generation >= 1
      requires Progress(st, st.generation, base, batch, i, ids) && PartlyPut(ViewOf(storage), base, batch)
      modifies this
      ensures !faulty ==> ok
      ensures if ok
        then Progress(st, st.generation, base, batch, i + 1, WithId(ids, batch[i].id))
        else storage == old(storage)
      ensures PartlyPut(ViewOf(storage), base, batch)
      ensures Extends(old(history)) && Overwriting(history, |old(history)|, base, batch)
    {
      PutAllStep(base, batch, i);
      if batch[i].id in st.ids {
        ok := RewriteRow(st, ids, batch[i]);
      } else {
        ok := StageRow(st, st.generation, ids, batch[i]);
      }
    }

    /** A listed row is overwritten, which shows at once. */
    method RewriteRow(st: StoreState, ids: seq<nat>, rec: Record) returns (ok: bool)
      requires Valid(storage) && st == LoadState(storage) && !st.legacy && st.generation >= 1 && rec.id in st.ids
      modifies this
      ensures !faulty ==> ok
      ensures Shows(st, if ok then PutIn(old(ViewOf(storage)), rec) else old(ViewOf(storage)))
      ensures if ok then
                Staged(storage, st.generation, WithId(ids, rec.id)) ==
                  PutIn(old(Staged(storage, st.generation, ids)), rec)
              else storage == old(storage)
      ensures Extends(old(history)) && Within(history, |old(history)|, {ViewOf(storage)})
    {
      ListedWrite(storage, rec);
      StagedWrite(storage, st.generation, ids, rec);
      ok := WriteRecord(rec, st.generation);
    }

    /** The row writes of `putBatch`; the manifest is not touched. */
    method WriteBatch(st: StoreState, batch: seq<Record>) returns (ok: bool, ids: seq<nat>)
      requires Valid(storage) && LoadState(storage) == st && !st.legacy && st.generation >= 1
      modifies this
      ensures !faulty ==> ok
      ensures Valid(storage) && LoadState(storage) == st && PartlyPut(ViewOf(storage), old(ViewOf(storage)), batch)
      ensures ok ==>
        Distinct(ids) && st.ids <= ids && Staged(storage, st.generation, ids) == PutAllIn(old(ViewOf(storage)), batch)
      ensures Extends(old(history)) && Overwriting(history, |old(history)|, old(ViewOf(storage)), batch)
    {
      ghost var base := ViewOf(storage);
      ActiveIsStaged(storage);
      ok, ids := true, st.ids;
      var i := 0;
      while i < |batch|
        invariant 0 <= i <= |batch| && ok && st.ids <= ids
        invariant Progress(st, st.generation, base, batch, i, ids) && PartlyPut(ViewOf(storage), base, batch)
        invariant Extends(old(history)) && Overwriting(history, |old(history)|, base, batch)
      {
        ghost var mid := history;
        ok := OverwriteOne(st, base, batch, i, ids);
        OverwritingJoined(mid, history, |old(history)|, base, batch);
        if !ok {
          return;
        }
        ids := WithId(ids, batch[i].id);
        i := i + 1;
      }
      assert batch[..i] == batch;
    }

    // ------------------------------------------------------------ replaceAll

    method StageOne(generation: nat, st: StoreState, batch: seq<Record>, i: nat, ids: seq<nat>) returns (ok: bool)
      requires i < |batch| && generation >= 1 && (st.legacy || generation != st.generation)
      requires Progress(st, generation, Empty, batch, i, ids)
      modifies this
      ensures !faulty ==> ok
      ensures if ok
        then Progress(st, generation, Empty, batch, i + 1, WithId(ids, batch[i].id))
        else storage == old(storage)
      ensures Shows(st, old(ViewOf(storage)))
      ensures Extends(old(history)) && Within(history, |old(history)|, {ViewOf(storage)})
    {
      PutAllStep(Empty, batch, i);
      ok := StageRow(st, generation, ids, batch[i]);
    }

    /** The row writes of `replaceAll`, under a generation no reload sees yet. */
    method WriteNext(generation: nat, batch: seq<Record>) returns (ok: bool, nextIds: seq<nat>)
      requires Valid(storage) && generation >= 1
      requires LoadState(storage).legacy || generation != LoadState(storage).generation
      modifies this
      ensures !faulty ==> ok
      ensures Shows(old(LoadState(storage)), old(ViewOf(storage)))
      ensures ok ==> Distinct(nextIds) && Staged(storage, generation, nextIds) == PutAllIn(Empty, batch)
      ensures Extends(old(history)) && Within(history, |old(history)|, {ViewOf(storage)})
    {
      ghost var st := LoadState(storage);
      ok, nextIds := true, [];
      assert Staged(storage, generation, []) == Empty;
      var i := 0;
      while i < |batch|
        invariant 0 <= i <= |batch| && ok
        invariant Progress(st, generation, Empty, batch, i, nextIds) && Shows(st, old(ViewOf(storage)))
        invariant Extends(old(history)) && Within(history, |old(history)|, {ViewOf(storage)})
      {
        ok := StageOne(generation, LoadState(storage), batch, i, nextIds);
        if !ok {
          return;
        }
        nextIds := WithId(nextIds, batch[i].id);
        i := i + 1;
      }
      assert batch[..i] == batch;
    }

    /** No migration comes first: a reload finds the old state or the whole new list. */
    method ReplaceAll(batch: seq<Record>) returns (ok: bool)
      requires Valid(storage)
      modifies this
      ensures !faulty ==> ok
      ensures Valid(storage) && (ok ==> !LoadState(storage).legacy)
      ensures ViewOf(storage) == if ok then PutAllIn(Empty, batch) else old(ViewOf(storage))
      ensures Extends(old(history))
      ensures Within(history, |old(history)|,
                     {old(ViewOf(storage)), PutAllIn(Empty, batch)})
      ensures old(Full(ViewOf(storage))) ==> NamesNoMissing(history, |old(history)|)
      ensures canEnumerate && !faulty ==> NoOrphans(storage)
    {
      AppliedIsFull(storage, StoreOp.ReplaceAll(batch));
      var previous := LoadState(storage);
      var generation := if previous.legacy then 1 else previous.generation + 1;
      var nextIds;
      ok, nextIds := WriteNext(generation, batch);
      if !ok {
        return;
      }
      ok := Commit(previous, generation, nextIds);
    }
  }
}
