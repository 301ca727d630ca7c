/** Recovery batches: all or nothing over the distinct ids, one version each, in order. */
module ItemBatches {
  import opened Domain
  import opened Seqs
  import opened ItemAggregate
  import opened ItemHistory

  /** Every item of the batch may make the transition. */
  ghost predicate AllMovable(s: ItemStore, ids: seq<ItemId>, target: ItemStatus, mode: TransitionMode) {
    forall id :: id in ids ==> id in s.items && Allowed(s.items[id].status, target, mode)
  }

  /** The store after moving distinct items in order: each moved once, one history entry and one
      event per item appended in order, nothing else touched. */
  ghost predicate MovedExactly(s: ItemStore, s': ItemStore, ids: seq<ItemId>, target: ItemStatus)
    requires forall id :: id in ids ==> id in s.items
  {
    && s'.items.Keys == s.items.Keys
    && (forall id :: id in s.items ==>
          s'.items[id] == if id in ids then MovedItem(s.items[id], target).(id := id) else s.items[id])
    && s.history <= s'.history && |s'.history| == |s.history| + |ids|
    && (forall k :: 0 <= k < |ids| ==>
          s'.history[|s.history| + k] == HistoryEntry(ids[k], Some(s.items[ids[k]].status), target))
    && s.outbox <= s'.outbox && |s'.outbox| == |s.outbox| + |ids|
    && (forall k :: 0 <= k < |ids| ==>
          && s'.outbox[|s.outbox| + k].payload == s'.items[ids[k]]
          && s'.outbox[|s.outbox| + k].eventType == ItemUpdated)
  }

  lemma MoveOneMore(s: ItemStore, s1: ItemStore, ids: seq<ItemId>, id: ItemId, target: ItemStatus)
    requires id in s.items && id !in ids && (forall x :: x in ids ==> x in s.items)
    requires MovedExactly(s, s1, ids, target)
    ensures MovedExactly(s, Move(s1, id, target), ids + [id], target)
  {
    var s2 := Move(s1, id, target);
    var all := ids + [id];
    assert forall x :: x in all ==> x in s.items;
    forall k | 0 <= k < |all|
      ensures s2.history[|s.history| + k] == HistoryEntry(all[k], Some(s.items[all[k]].status), target)
      ensures s2.outbox[|s.outbox| + k].payload == s2.items[all[k]]
      ensures s2.outbox[|s.outbox| + k].eventType == ItemUpdated
    {
      if k < |ids| {
        assert all[k] == ids[k] && ids[k] in ids;
        assert s2.history[|s.history| + k] == s1.history[|s.history| + k];
        assert s2.outbox[|s.outbox| + k] == s1.outbox[|s.outbox| + k];
      }
    }
  }

  lemma MovableOneMore(s: ItemStore, ids: seq<ItemId>, id: ItemId, target: ItemStatus, mode: TransitionMode)
    ensures AllMovable(s, ids + [id], target, mode) <==>
            AllMovable(s, ids, target, mode) && id in s.items && Allowed(s.items[id].status, target, mode)
  {
    assert id in ids + [id];
    assert forall x :: x in ids ==> x in ids + [id];
  }

  lemma MoveAllUnfolds(s: ItemStore, ids: seq<ItemId>, id: ItemId, target: ItemStatus, mode: TransitionMode)
    requires id in s.items && (forall x :: x in ids ==> x in s.items)
    ensures forall x :: x in ids + [id] ==> x in s.items
    ensures var earlier := MoveAll(s, ids, target, mode);
      MoveAll(s, ids + [id], target, mode) ==
        if earlier.Ok? then Transition(earlier.value, id, target, mode) else earlier
  {
    assert (ids + [id])[..|ids|] == ids;
  }

  lemma {:induction false} MoveAllSucceedsIff(s: ItemStore, ids: seq<ItemId>, target: ItemStatus, mode: TransitionMode)
    requires Distinct(ids) && (forall id :: id in ids ==> id in s.items)
    ensures MoveAll(s, ids, target, mode).Ok? <==> AllMovable(s, ids, target, mode)
    ensures MoveAll(s, ids, target, mode).Ok? ==>
              forall id :: id in s.items && id !in ids ==> MoveAll(s, ids, target, mode).value.items[id] == s.items[id]
  {
    if ids != [] {
      var before, id := ids[..|ids| - 1], ids[|ids| - 1];
      assert id !in before && ids == before + [id];
      MoveAllSucceedsIff(s, before, target, mode);
      MoveAllUnfolds(s, before, id, target, mode);
      MovableOneMore(s, before, id, target, mode);
    }
  }

  lemma {:induction false} MoveAllMeaning(s: ItemStore, ids: seq<ItemId>, target: ItemStatus, mode: TransitionMode)
    requires Distinct(ids) && (forall id :: id in ids ==> id in s.items)
    requires MoveAll(s, ids, target, mode).Ok?
    ensures MovedExactly(s, MoveAll(s, ids, target, mode).value, ids, target)
  {
    if ids != [] {
      var before, id := ids[..|ids| - 1], ids[|ids| - 1];
      assert id !in before && ids == before + [id];
      MoveAllMeaning(s, before, target, mode);
      MoveOneMore(s, MoveAll(s, before, target, mode).value, before, id, target);
    }
  }

  lemma DedupMovable(s: ItemStore, ids: seq<ItemId>, target: ItemStatus, mode: TransitionMode)
    ensures AllMovable(s, Dedup(ids), target, mode) <==> AllMovable(s, ids, target, mode)
    ensures AllMovable(s, ids, target, mode) ==> AllExist(s, Dedup(ids))
  {
    assert forall id :: id in Dedup(ids) <==> id in ids;
  }

  /** MAIN: a batch over any id list, with repeats, succeeds exactly when every listed item exists
      and may make the transition; then every distinct item moves by one version with one history
      entry and one event, in order of first occurrence; otherwise the committed store is unchanged. */
  lemma BatchIsAtomic(s: ItemStore, ids: seq<ItemId>, target: ItemStatus, mode: TransitionMode)
    ensures var (s', r) := Batch(s, ids, target, mode);
      && (r.Ok? <==> AllMovable(s, ids, target, mode))
      && (r.Err? ==> s' == s)
      && (r.Ok? ==>
            && (forall id :: id in Dedup(ids) ==> id in s.items)
            && MovedExactly(s, s', Dedup(ids), target)
            && |r.value| == |Dedup(ids)|
            && forall k :: 0 <= k < |r.value| ==> r.value[k] == s'.items[Dedup(ids)[k]])
  {
    var unique := Dedup(ids);
    DedupMovable(s, ids, target, mode);
    if AllExist(s, unique) {
      MoveAllSucceedsIff(s, unique, target, mode);
      if MoveAll(s, unique, target, mode).Ok? { MoveAllMeaning(s, unique, target, mode); }
    }
  }

  // ---- Repetitions ----

  lemma {:induction false} DistinctIsItsOwnDedup(ids: seq<ItemId>)
    requires Distinct(ids)
    ensures Dedup(ids) == ids
  {
    if ids != [] {
      DistinctIsItsOwnDedup(ids[..|ids| - 1]);
      assert ids == ids[..|ids| - 1] + [ids[|ids| - 1]];
    }
  }

  /** Repeating ids changes nothing: the batch equals the batch over the distinct ids. */
  lemma RepeatsDoNotMatter(s: ItemStore, ids: seq<ItemId>, target: ItemStatus, mode: TransitionMode)
    ensures Batch(s, ids, target, mode) == Batch(s, Dedup(ids), target, mode)
  {
    DistinctIsItsOwnDedup(Dedup(ids));
  }

  ghost predicate FirstAt(ids: seq<ItemId>, id: ItemId, i: nat) {
    i < |ids| && ids[i] == id && id !in ids[..i]
  }

  /** Positions in the deduplicated list follow first occurrences in the original. */
  lemma {:induction false} DedupKeepsFirsts(ids: seq<ItemId>, a: nat, b: nat, i: nat, j: nat)
    requires a < b < |Dedup(ids)|
    requires FirstAt(ids, Dedup(ids)[a], i) && FirstAt(ids, Dedup(ids)[b], j)
    ensures i < j
  {
    var before, last := ids[..|ids| - 1], ids[|ids| - 1];
    var earlier := Dedup(before);
    assert ids == before + [last];
    if b < |earlier| {
      assert Dedup(ids)[a] == earlier[a] && Dedup(ids)[b] == earlier[b];
      assert earlier[a] in before && earlier[b] in before;
      StillFirst(before, last, earlier[a], i);
      StillFirst(before, last, earlier[b], j);
      DedupKeepsFirsts(before, a, b, i, j);
    } else {
      assert Dedup(ids)[b] == last && last !in before;
      assert j == |before|;
      assert Dedup(ids)[a] == earlier[a] && earlier[a] in before;
      StillFirst(before, last, earlier[a], i);
    }
  }

  lemma StillFirst(before: seq<ItemId>, last: ItemId, id: ItemId, i: nat)
    requires id in before && FirstAt(before + [last], id, i)
    ensures FirstAt(before, id, i)
  {
    assert (before + [last])[..|before|] == before;
    if i < |before| {
      assert (before + [last])[..i] == before[..i];
    }
  }

  // ---- Opening and cancelling ----

  /** A batch seen through one item. */
  lemma BatchOnItem(s: ItemStore, ids: seq<ItemId>, target: ItemStatus, mode: TransitionMode, id: ItemId)
    ensures var (s', r) := Batch(s, ids, target, mode);
      && (r.Ok? <==> AllMovable(s, ids, target, mode))
      && (r.Ok? && id in ids ==>
            id in s.items && id in s'.items && s'.items[id] == MovedItem(s.items[id], target).(id := id))
  {
    BatchIsAtomic(s, ids, target, mode);
    assert id in ids <==> id in Dedup(ids);
  }

  lemma OpenedAreCancellable(s: ItemStore, ids: seq<ItemId>, target: ItemStatus)
    requires OpenRecovery(s, ids).1.Ok? && (target.AVAILABLE? || target.MATCHED?)
    ensures AllMovable(OpenRecovery(s, ids).0, ids, target, InternalCancel)
  {
    forall x | x in ids
      ensures var s1 := OpenRecovery(s, ids).0; x in s1.items && Allowed(s1.items[x].status, target, InternalCancel)
    {
      BatchOnItem(s, ids, IN_RECOVERY, InternalOpen, x);
    }
  }

  /** A recovery that was opened can be cancelled at once. The cancelled items carry the
      requested status two versions later and are otherwise what they were, so cancelling restores an
      item exactly when the requested status is the one it had before. */
  lemma CancelUndoesOpenIff(s: ItemStore, ids: seq<ItemId>, target: ItemStatus, id: ItemId)
    requires OpenRecovery(s, ids).1.Ok? && (target.AVAILABLE? || target.MATCHED?)
    requires id in ids && s.items[id].id == id
    ensures var (s2, r) := CancelRecovery(OpenRecovery(s, ids).0, ids, target);
      && r.Ok?
      && id in s2.items
      && s2.items[id] == s.items[id].(status := target, version := s.items[id].version + 2)
      && (s2.items[id] == s.items[id].(version := s.items[id].version + 2) <==> target == s.items[id].status)
  {
    OpenedAreCancellable(s, ids, target);
    BatchOnItem(s, ids, IN_RECOVERY, InternalOpen, id);
    BatchOnItem(OpenRecovery(s, ids).0, ids, target, InternalCancel, id);
  }

  // ---- With anything in between ----

  /** The command ends the item's recovery. */
  predicate EndsRecovery(s: ItemStore, c: ItemCommand, id: ItemId) {
    || (c.Cancel? && id in c.ids && CancelRecovery(s, c.ids, c.target).1.Ok?)
    || (c.Complete? && id in c.ids && CompleteRecovery(s, c.ids).1.Ok?)
  }

  predicate PatchesItem(c: ItemCommand, id: ItemId) {
    c.UpdateItem? && c.id == id
  }

  /** No command after `start` ends the recovery of an item of the batch. */
  ghost predicate NothingEnds(start: seq<ItemCommand>, between: seq<ItemCommand>, ids: seq<ItemId>) {
    between != [] ==>
      var before := between[..|between| - 1];
      && NothingEnds(start, before, ids)
      && forall id :: id in ids ==> !EndsRecovery(PerformAll(start + before), between[|between| - 1], id)
  }

  predicate PatchesNone(commands: seq<ItemCommand>, id: ItemId) {
    forall k :: 0 <= k < |commands| ==> !PatchesItem(commands[k], id)
  }

  predicate IsInRecovery(s: ItemStore, id: ItemId) {
    id in s.items && s.items[id].status.IN_RECOVERY?
  }

  /** A batch leaves an item it does not list as it was, and refuses one it may not move. */
  lemma BatchLeavesItem(s: ItemStore, ids: seq<ItemId>, target: ItemStatus, mode: TransitionMode, id: ItemId)
    requires id in s.items
    requires id in ids && Allowed(s.items[id].status, target, mode) ==> Batch(s, ids, target, mode).1.Err?
    ensures var s' := Batch(s, ids, target, mode).0; id in s'.items && s'.items[id] == s.items[id]
  {
    BatchIsAtomic(s, ids, target, mode);
    assert id in ids <==> id in Dedup(ids);
  }

  /** Only the end of a recovery takes an item out of it, and only a patch changes it meanwhile. */
  lemma CommandLeavesInRecovery(s: ItemStore, c: ItemCommand, id: ItemId)
    requires StoreOk(s) && IsInRecovery(s, id) && !EndsRecovery(s, c, id)
    ensures IsInRecovery(Perform(s, c), id)
    ensures !PatchesItem(c, id) ==> Perform(s, c).items[id] == s.items[id]
  {
    assert ItemOk(s, id);
    match c
    case CreateItem(_, _) =>
    case UpdateItem(_, _) =>
    case UpdateStatus(_, _) =>
    case Open(ids) => BatchLeavesItem(s, ids, IN_RECOVERY, InternalOpen, id);
    case Cancel(ids, target) => BatchLeavesItem(s, ids, target, InternalCancel, id);
    case Complete(ids) => BatchLeavesItem(s, ids, RECOVERED, InternalComplete, id);
  }

  lemma {:induction false} StaysInRecovery(start: seq<ItemCommand>, between: seq<ItemCommand>, ids: seq<ItemId>,
                                           id: ItemId)
    requires IsInRecovery(PerformAll(start), id) && id in ids && NothingEnds(start, between, ids)
    ensures IsInRecovery(PerformAll(start + between), id)
    ensures PatchesNone(between, id) ==>
              PerformAll(start + between).items[id] == PerformAll(start).items[id]
  {
    if between == [] {
      assert start + between == start;
    } else {
      var before, c := between[..|between| - 1], between[|between| - 1];
      assert (start + between)[..|start + between| - 1] == start + before;
      assert PerformAll(start + between) == Perform(PerformAll(start + before), c);
      StaysInRecovery(start, before, ids, id);
      RunsKeepLogs(start + before);
      CommandLeavesInRecovery(PerformAll(start + before), c, id);
    }
  }

  lemma OpenedIsInRecovery(run: seq<ItemCommand>, ids: seq<ItemId>, id: ItemId)
    requires OpenRecovery(PerformAll(run), ids).1.Ok? && id in ids
    ensures var s, s1 := PerformAll(run), PerformAll(run + [Open(ids)]);
      && id in s.items && IsInRecovery(s1, id)
      && s1.items[id] == s.items[id].(status := IN_RECOVERY, version := s.items[id].version + 1)
  {
    assert (run + [Open(ids)])[..|run|] == run;
    RunsKeepLogs(run);
    BatchOnItem(PerformAll(run), ids, IN_RECOVERY, InternalOpen, id);
    assert ItemOk(PerformAll(run), id);
  }

  /** Cancelling items in recovery, `was` being one of them before it was opened. */
  lemma CancelWhileInRecovery(s: ItemStore, ids: seq<ItemId>, target: ItemStatus, id: ItemId, was: Item)
    requires StoreOk(s) && (target.AVAILABLE? || target.MATCHED?) && id in ids
    requires forall x :: x in ids ==> IsInRecovery(s, x)
    ensures var (s', r) := CancelRecovery(s, ids, target);
      && r.Ok? && id in s'.items
      && s'.items[id] == s.items[id].(status := target, version := s.items[id].version + 1)
      && (s.items[id] == was.(status := IN_RECOVERY, version := was.version + 1) ==>
            (s'.items[id] == was.(version := was.version + 2) <==> target == was.status))
  {
    assert ItemOk(s, id);
    BatchOnItem(s, ids, target, InternalCancel, id);
  }

  /** What the run makes of one opened item before the cancellation. */
  lemma OpenedUntilCancel(run: seq<ItemCommand>, ids: seq<ItemId>, between: seq<ItemCommand>, id: ItemId)
    requires OpenRecovery(PerformAll(run), ids).1.Ok?
    requires NothingEnds(run + [Open(ids)], between, ids) && id in ids
    ensures var s, s2 := PerformAll(run), PerformAll(run + [Open(ids)] + between);
      && id in s.items && IsInRecovery(s2, id)
      && (PatchesNone(between, id) ==>
            s2.items[id] == s.items[id].(status := IN_RECOVERY, version := s.items[id].version + 1))
  {
    OpenedIsInRecovery(run, ids, id);
    StaysInRecovery(run + [Open(ids)], between, ids, id);
  }

  lemma AllOpenedUntilCancel(run: seq<ItemCommand>, ids: seq<ItemId>, between: seq<ItemCommand>)
    requires OpenRecovery(PerformAll(run), ids).1.Ok? && NothingEnds(run + [Open(ids)], between, ids)
    ensures var s2 := PerformAll(run + [Open(ids)] + between);
      StoreOk(s2) && forall x :: x in ids ==> IsInRecovery(s2, x)
  {
    RunsKeepLogs(run + [Open(ids)] + between);
    forall x | x in ids ensures IsInRecovery(PerformAll(run + [Open(ids)] + between), x) {
      OpenedUntilCancel(run, ids, between, x);
    }
  }

  /** MAIN: an opened recovery can be cancelled at any later time, whatever commands came in between, as
      long as none ended it. The cancelled items take the requested status and are otherwise as patches
      left them; unpatched ones are restored, two versions later, exactly when the requested status is
      the one they had. */
  lemma LaterCancelUndoesOpenIff(run: seq<ItemCommand>, ids: seq<ItemId>, between: seq<ItemCommand>, target: ItemStatus,
                                 id: ItemId)
    requires OpenRecovery(PerformAll(run), ids).1.Ok? && (target.AVAILABLE? || target.MATCHED?)
    requires NothingEnds(run + [Open(ids)], between, ids) && id in ids
    ensures var s, s2 := PerformAll(run), PerformAll(run + [Open(ids)] + between);
      var (s3, r) := CancelRecovery(s2, ids, target);
      && r.Ok? && id in s.items && id in s2.items && id in s3.items
      && s3.items[id] == s2.items[id].(status := target, version := s2.items[id].version + 1)
      && (PatchesNone(between, id) ==>
            (s3.items[id] == s.items[id].(version := s.items[id].version + 2) <==> target == s.items[id].status))
  {
    AllOpenedUntilCancel(run, ids, between);
    OpenedUntilCancel(run, ids, between, id);
    CancelWhileInRecovery(PerformAll(run + [Open(ids)] + between), ids, target, id, PerformAll(run).items[id]);
  }

  lemma DefaultCancelLeavesMatched(s: ItemStore, id: ItemId)
    requires id in s.items && s.items[id].id == id && s.items[id].status.AVAILABLE?
    ensures var s2 := CancelRecovery(OpenRecovery(s, [id]).0, [id], MATCHED).0;
      id in s2.items && s2.items[id] == s.items[id].(status := MATCHED, version := s.items[id].version + 2)
  {
    assert AllMovable(s, [id], IN_RECOVERY, InternalOpen);
    BatchOnItem(s, [id], IN_RECOVERY, InternalOpen, id);
    CancelUndoesOpenIff(s, [id], MATCHED, id);
  }

  lemma ThreeCommands(a: ItemCommand, b: ItemCommand, c: ItemCommand)
    ensures PerformAll([a, b, c]) == Perform(Perform(Perform(NO_ITEMS, a), b), c)
  {
    var run := [a, b, c];
    assert run[..2] == [a, b] && run[..2][..1] == [a] && run[..2][..1][..0] == [];
    assert PerformAll(run[..2][..1]) == Perform(NO_ITEMS, a);
    assert PerformAll(run[..2]) == Perform(Perform(NO_ITEMS, a), b);
  }

  /** A run in which cancelling does not restore: an item is created, and so AVAILABLE; it is opened,
      and cancelled with MATCHED, the status a cancellation requests by default. */
  lemma DefaultCancelDoesNotRestore(d: Draft)
    ensures Perform(NO_ITEMS, CreateItem(1, d)).items == map[1 := FromDraft(1, d)]
    ensures var s := PerformAll([CreateItem(1, d), Open([1]), Cancel([1], MATCHED)]);
      1 in s.items && s.items[1] == FromDraft(1, d).(status := MATCHED, version := 3)
  {
    ThreeCommands(CreateItem(1, d), Open([1]), Cancel([1], MATCHED));
    DefaultCancelLeavesMatched(Perform(NO_ITEMS, CreateItem(1, d)), 1);
  }
}
