/** The item-service as it runs: a session whose rows are updated in place, committed at the end of
    a request and rolled back when the request raises. */
module ItemService {
  import opened Domain
  import opened ItemAggregate

  class Session {
    var items: map<ItemId, Item>
    var history: seq<HistoryEntry>
    var outbox: seq<Envelope>

    var db: ItemStore

    constructor ()
      ensures IsClean() && db == NO_ITEMS
    {
      items, history, outbox := map[], [], [];
      db := NO_ITEMS;
    }

    function Working(): ItemStore
      reads this
    {
      ItemStore(items, history, outbox)
    }

    predicate IsClean()
      reads this
    {
      Working() == db
    }

    method Commit()
      modifies this`db
      ensures IsClean() && db == Working()
    {
      db := Working();
    }

    method Rollback()
      modifies this`items, this`history, this`outbox
      ensures IsClean()
    {
      items, history, outbox := db.items, db.history, db.outbox;
    }

    method RecordStatusHistory(id: ItemId, from: Option<ItemStatus>, to: ItemStatus)
      modifies this`history
      ensures history == old(history) + [HistoryEntry(id, from, to)]
    {
      history := history + [HistoryEntry(id, from, to)];
    }

    method RecordItemEvent(id: ItemId, kind: EventType)
      requires id in items
      modifies this`outbox
      ensures outbox == old(outbox) + [Envelope(|old(outbox)|, kind, items[id].id, items[id].version, items[id])]
    {
      var item := items[id];
      outbox := outbox + [Envelope(|outbox|, kind, item.id, item.version, item)];
    }

    method CreateItem(id: ItemId, draft: Draft) returns (r: Result<Item, ItemError>)
      requires IsClean()
      modifies this
      ensures IsClean()
      ensures (db, r) == Create(old(db), id, draft)
    {
      if id in items {
        return Err(DuplicateItem);
      }
      items := items[id := Item(id, draft.classification, draft.title, draft.description, draft.category, draft.color,
                                draft.location, draft.date, draft.reporter, AVAILABLE, 1)];
      RecordStatusHistory(id, None, AVAILABLE);
      RecordItemEvent(id, ItemCreated);
      Commit();
      r := Ok(items[id]);
    }

    /** A field counts as changed only if it is given and differs. */
    static method SetField<T(==)>(given: Option<T>, current: T) returns (value: T, changed: bool)
      ensures value == OrElse(given, current)
      ensures changed <==> value != current
    {
      value, changed := current, false;
      if given.Some? && current != given.value {
        value, changed := given.value, true;
      }
    }

    static method ApplyChanges(item: Item, patch: Patch) returns (item': Item, hasEffectiveChange: bool)
      ensures item' == Patched(item, patch)
      ensures hasEffectiveChange <==> item' != item
    {
      var title, c1 := SetField(patch.title, item.title);
      var description, c2 := SetField(patch.description, item.description);
      var category, c3 := SetField(patch.category, item.category);
      var color, c4 := SetField(patch.color, item.color);
      var location, c5 := SetField(patch.location, item.location);
      var date, c6 := SetField(patch.date, item.date);
      var reporter, c7 := SetField(patch.reporter, item.reporter);
      item' := item.(title := title, description := description, category := category, color := color,
                     location := location, date := date, reporter := reporter);
      hasEffectiveChange := c1 || c2 || c3 || c4 || c5 || c6 || c7;
    }

    method UpdateItem(id: ItemId, patch: Patch) returns (r: Result<Item, ItemError>)
      requires IsClean()
      modifies this
      ensures IsClean()
      ensures (db, r) == Update(old(db), id, patch)
    {
      if id !in items {
        return Err(ItemNotFound);
      }
      if patch == EMPTY_PATCH {
        return Err(NoFieldGiven);
      }
      var item, hasEffectiveChange := ApplyChanges(items[id], patch);
      if !hasEffectiveChange {
        return Err(NoEffectiveChange);
      }
      items := items[id := item.(id := id, version := item.version + 1)];
      RecordItemEvent(id, ItemUpdated);
      Commit();
      r := Ok(items[id]);
    }

    /** Leaves the session dirty on success; the caller commits. */
    method ApplyStatusTransition(id: ItemId, target: ItemStatus, mode: TransitionMode)
      returns (refusal: Option<ItemError>)
      requires id in items
      modifies this`items, this`history, this`outbox
      ensures var t := Transition(old(Working()), id, target, mode);
        if refusal.None? then t == Ok(Working()) else t == Err(refusal.value) && Working() == old(Working())
    {
      var current := items[id].status;
      if current == target {
        return Some(SameStatus);
      }
      refusal := ValidateTransition(current, target, mode);
      if refusal.None? {
        items := items[id := items[id].(id := id, status := target, version := items[id].version + 1)];
        RecordStatusHistory(id, Some(current), target);
        RecordItemEvent(id, ItemUpdated);
      }
    }

    method UpdateItemStatus(id: ItemId, target: ItemStatus) returns (r: Result<Item, ItemError>)
      requires IsClean()
      modifies this
      ensures IsClean()
      ensures (db, r) == SetStatus(old(db), id, target)
    {
      if id !in items {
        return Err(ItemNotFound);
      }
      if target == IN_RECOVERY || target == RECOVERED {
        return Err(ReservedForRecovery);
      }
      var refusal := ApplyStatusTransition(id, target, Public);
      if refusal.Some? {
        return Err(refusal.value);
      }
      Commit();
      r := Ok(items[id]);
    }

    method UniqueIds(ids: seq<ItemId>) returns (unique: seq<ItemId>)
      ensures unique == Dedup(ids)
    {
      unique := [];
      var n := 0;
      while n < |ids|
        invariant 0 <= n <= |ids|
        invariant unique == Dedup(ids[..n])
      {
        assert ids[..n + 1][..n] == ids[..n];
        if ids[n] !in unique {
          unique := unique + [ids[n]];
        }
        n := n + 1;
      }
      assert ids[..n] == ids;
    }

    /** The loop shared by the three recovery endpoints; it stops at the first refused transition,
        leaving the earlier ones in the session. */
    method ApplyAll(unique: seq<ItemId>, target: ItemStatus, mode: TransitionMode) returns (refusal: Option<ItemError>)
      requires forall id :: id in unique ==> id in items
      modifies this`items, this`history, this`outbox
      ensures MoveAll(old(Working()), unique, target, mode) ==
              if refusal.None? then Ok(Working()) else Err(refusal.value)
    {
      refusal := None;
      ghost var start := Working();
      var n := 0;
      while n < |unique|
        invariant 0 <= n <= |unique|
        invariant refusal.None?
        invariant items.Keys == start.items.Keys
        invariant MoveAll(start, unique[..n], target, mode) == Ok(Working())
      {
        ghost var before := Working();
        MoveAllNext(start, unique, n, target, mode);
        refusal := ApplyStatusTransition(unique[n], target, mode);
        assert MoveAll(start, unique[..n + 1], target, mode) == Transition(before, unique[n], target, mode);
        if refusal.Some? {
          RefusalStopsBatch(start, unique, n + 1, target, mode);
          return;
        }
        n := n + 1;
      }
      assert unique[..n] == unique;
    }

    method TransitionBatch(ids: seq<ItemId>, target: ItemStatus, mode: TransitionMode)
      returns (r: Result<seq<Item>, ItemError>)
      requires IsClean()
      modifies this
      ensures IsClean()
      ensures (db, r) == Batch(old(db), ids, target, mode)
    {
      var unique := UniqueIds(ids);
      if !AllExist(Working(), unique) {
        return Err(ItemNotFound);
      }
      var refusal := ApplyAll(unique, target, mode);
      if refusal.Some? {
        Rollback();
        return Err(refusal.value);
      }
      Commit();
      r := Ok(ItemsAt(db, unique));
    }

    method OpenRecovery(ids: seq<ItemId>) returns (r: Result<seq<Item>, ItemError>)
      requires IsClean()
      modifies this
      ensures IsClean()
      ensures (db, r) == ItemAggregate.OpenRecovery(old(db), ids)
    {
      r := TransitionBatch(ids, IN_RECOVERY, InternalOpen);
    }

    method CancelRecovery(ids: seq<ItemId>, target: ItemStatus) returns (r: Result<seq<Item>, ItemError>)
      requires IsClean()
      modifies this
      ensures IsClean()
      ensures (db, r) == ItemAggregate.CancelRecovery(old(db), ids, target)
    {
      r := TransitionBatch(ids, target, InternalCancel);
    }

    method CompleteRecovery(ids: seq<ItemId>) returns (r: Result<seq<Item>, ItemError>)
      requires IsClean()
      modifies this
      ensures IsClean()
      ensures (db, r) == ItemAggregate.CompleteRecovery(old(db), ids)
    {
      r := TransitionBatch(ids, RECOVERED, InternalComplete);
    }
  }

  lemma MoveAllNext(s: ItemStore, ids: seq<ItemId>, n: nat, target: ItemStatus, mode: TransitionMode)
    requires n < |ids| && (forall id :: id in ids ==> id in s.items)
    requires MoveAll(s, ids[..n], target, mode).Ok?
    ensures MoveAll(s, ids[..n + 1], target, mode) ==
            Transition(MoveAll(s, ids[..n], target, mode).value, ids[n], target, mode)
  {
    assert ids[..n + 1][..n] == ids[..n];
  }

  /** Once a prefix of the batch is refused, the whole batch is, with the same error. */
  lemma {:induction false} RefusalStopsBatch(s: ItemStore, ids: seq<ItemId>, n: nat, target: ItemStatus,
                                             mode: TransitionMode)
    requires n <= |ids| && (forall id :: id in ids ==> id in s.items)
    requires MoveAll(s, ids[..n], target, mode).Err?
    ensures MoveAll(s, ids, target, mode) == MoveAll(s, ids[..n], target, mode)
  {
    if n == |ids| {
      assert ids[..n] == ids;
    } else {
      assert ids[..|ids| - 1][..n] == ids[..n];
      RefusalStopsBatch(s, ids[..|ids| - 1], n, target, mode);
    }
  }
}
