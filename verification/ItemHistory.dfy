/** What every run of the item-service keeps: a gap-free event stream per item, a status history
    that is a path of the status machine, and batches that move all of their items or none. */
module ItemHistory {
  import opened Domain
  import opened Seqs
  import opened ItemAggregate

  function OfItem(id: ItemId): Envelope -> bool {
    (e: Envelope) => e.aggregateId == id
  }

  function OfHistory(id: ItemId): HistoryEntry -> bool {
    (h: HistoryEntry) => h.itemId == id
  }

  function EventsOf(s: ItemStore, id: ItemId): seq<Envelope> {
    Filter(s.outbox, OfItem(id))
  }

  function HistoryOf(s: ItemStore, id: ItemId): seq<HistoryEntry> {
    Filter(s.history, OfHistory(id))
  }

  // ---- The event stream of one item ----

  /** The k-th event carries version k; the first says created and the rest updated; every envelope
      repeats its payload's id and version; the newest payload is the item as stored. */
  ghost predicate StreamOk(events: seq<Envelope>, item: Item) {
    && 0 < |events| == item.version
    && (forall k :: 0 <= k < |events| ==>
          && events[k].aggregateId == events[k].payload.id == item.id
          && events[k].aggregateVersion == events[k].payload.version == k + 1
          && events[k].eventType == (if k == 0 then ItemCreated else ItemUpdated))
    && events[|events| - 1].payload == item
  }

  // ---- The status history of one item ----

  predicate LegalMove(a: ItemStatus, b: ItemStatus) {
    || Allowed(a, b, Public)
    || Allowed(a, b, InternalOpen) || Allowed(a, b, InternalCancel) || Allowed(a, b, InternalComplete)
  }

  ghost predicate ChainOk(entries: seq<HistoryEntry>, status: ItemStatus) {
    && entries != []
    && entries[0].from.None? && entries[0].to.AVAILABLE?
    && (forall k :: 1 <= k < |entries| ==>
          entries[k].from == Some(entries[k - 1].to) && LegalMove(entries[k - 1].to, entries[k].to))
    && entries[|entries| - 1].to == status
  }

  // ---- The two logs agree ----

  function StatusOf(): Envelope -> ItemStatus {
    (e: Envelope) => e.payload.status
  }

  function TargetOf(): HistoryEntry -> ItemStatus {
    (h: HistoryEntry) => h.to
  }

  /** Consecutive repetitions collapsed. */
  function Destutter(xs: seq<ItemStatus>): seq<ItemStatus> {
    if xs == [] then []
    else
      var earlier := Destutter(xs[..|xs| - 1]);
      var last := xs[|xs| - 1];
      if |xs| > 1 && xs[|xs| - 2] == last then earlier else earlier + [last]
  }

  lemma DestutterAppend(xs: seq<ItemStatus>, x: ItemStatus)
    ensures Destutter(xs + [x]) ==
            if xs != [] && xs[|xs| - 1] == x then Destutter(xs) else Destutter(xs) + [x]
  {
    assert (xs + [x])[..|xs|] == xs;
  }

  /** The history is the event stream seen through its status changes. */
  ghost predicate LogsAgree(entries: seq<HistoryEntry>, events: seq<Envelope>) {
    Map(entries, TargetOf()) == Destutter(Map(events, StatusOf()))
  }

  ghost predicate ItemOk(s: ItemStore, id: ItemId) {
    if id in s.items then
      && s.items[id].id == id
      && StreamOk(EventsOf(s, id), s.items[id])
      && ChainOk(HistoryOf(s, id), s.items[id].status)
      && LogsAgree(HistoryOf(s, id), EventsOf(s, id))
    else
      EventsOf(s, id) == [] && HistoryOf(s, id) == []
  }

  ghost predicate StoreOk(s: ItemStore) {
    && (forall id: ItemId :: ItemOk(s, id))
    && (forall i :: 0 <= i < |s.outbox| ==> s.outbox[i].eventId == i)
  }

  // ---- Each kind of step keeps it ----

  /** The step's effect on one item's logs. */
  lemma EmitFilters(s: ItemStore, item: Item, kind: EventType, id: ItemId)
    ensures EventsOf(Emit(s, item, kind), id) ==
            EventsOf(s, id) + (if id == item.id then [ItemEvent(s, item, kind)] else [])
    ensures HistoryOf(Emit(s, item, kind), id) == HistoryOf(s, id)
  {
    FilterAppend(s.outbox, ItemEvent(s, item, kind), OfItem(id));
  }

  lemma LogFilters(s: ItemStore, entry: HistoryEntry, id: ItemId)
    ensures HistoryOf(Log(s, entry), id) == HistoryOf(s, id) + (if id == entry.itemId then [entry] else [])
    ensures EventsOf(Log(s, entry), id) == EventsOf(s, id)
  {
    FilterAppend(s.history, entry, OfHistory(id));
  }

  lemma FirstLogs(id: ItemId, e: Envelope, entry: HistoryEntry)
    requires e.aggregateId == id == e.payload.id && e.aggregateVersion == 1 == e.payload.version
    requires e.eventType.ItemCreated?
    requires entry == HistoryEntry(id, None, AVAILABLE) && e.payload.status.AVAILABLE?
    ensures StreamOk([e], e.payload) && ChainOk([entry], AVAILABLE) && LogsAgree([entry], [e])
  {
    assert Map([entry], TargetOf()) == [AVAILABLE];
    assert Map([e], StatusOf()) == [] + [AVAILABLE];
  }

  lemma CreateKeepsItem(s: ItemStore, id: ItemId, d: Draft, x: ItemId)
    requires id !in s.items && ItemOk(s, x)
    ensures ItemOk(Create(s, id, d).0, x)
  {
    var entry := HistoryEntry(id, None, AVAILABLE);
    var s1 := Log(s, entry);
    LogFilters(s, entry, x);
    EmitFilters(s1, FromDraft(id, d), ItemCreated, x);
    if x == id {
      var e := ItemEvent(s1, FromDraft(id, d), ItemCreated);
      FirstLogs(id, e, entry);
      assert EventsOf(Create(s, id, d).0, x) == [e] && HistoryOf(Create(s, id, d).0, x) == [entry];
    }
  }

  lemma CreateKeepsOk(s: ItemStore, id: ItemId, d: Draft)
    requires StoreOk(s)
    ensures StoreOk(Create(s, id, d).0)
  {
    if id !in s.items {
      forall x: ItemId | true ensures ItemOk(Create(s, id, d).0, x) {
        CreateKeepsItem(s, id, d, x);
      }
    }
  }

  lemma StreamGrows(events: seq<Envelope>, item: Item, e: Envelope, item': Item)
    requires StreamOk(events, item)
    requires item'.id == item.id && item'.version == item.version + 1
    requires e.aggregateId == item'.id && e.aggregateVersion == item'.version
    requires e.payload == item' && e.eventType.ItemUpdated?
    ensures StreamOk(events + [e], item')
  {
    var events' := events + [e];
    assert forall k :: 0 <= k < |events| ==> events'[k] == events[k];
  }

  lemma ChainGrows(entries: seq<HistoryEntry>, status: ItemStatus, entry: HistoryEntry)
    requires ChainOk(entries, status) && entry.from == Some(status) && LegalMove(status, entry.to)
    ensures ChainOk(entries + [entry], entry.to)
  {
    var entries' := entries + [entry];
    assert forall k :: 0 <= k < |entries| ==> entries'[k] == entries[k];
  }

  /** An event that repeats the status adds nothing to the history; one that changes it adds an entry. */
  lemma LogsGrow(entries: seq<HistoryEntry>, events: seq<Envelope>, item: Item, e: Envelope, entry: HistoryEntry)
    requires LogsAgree(entries, events) && StreamOk(events, item) && entry.to == e.payload.status
    ensures if e.payload.status == item.status then LogsAgree(entries, events + [e])
            else LogsAgree(entries + [entry], events + [e])
  {
    MapAppend(events, e, StatusOf());
    MapAppend(entries, entry, TargetOf());
    DestutterAppend(Map(events, StatusOf()), e.payload.status);
  }

  lemma RewriteKeepsItem(s: ItemStore, item: Item, x: ItemId)
    requires ItemOk(s, x) && item.id in s.items
    requires item.version == s.items[item.id].version + 1 && item.status == s.items[item.id].status
    ensures ItemOk(Emit(s, item, ItemUpdated), x)
  {
    EmitFilters(s, item, ItemUpdated, x);
    if x == item.id {
      var e := ItemEvent(s, item, ItemUpdated);
      StreamGrows(EventsOf(s, x), s.items[x], e, item);
      LogsGrow(HistoryOf(s, x), EventsOf(s, x), s.items[x], e, HistoryEntry(x, None, item.status));
    }
  }

  lemma RewriteKeepsOk(s: ItemStore, item: Item)
    requires StoreOk(s) && item.id in s.items
    requires item.version == s.items[item.id].version + 1 && item.status == s.items[item.id].status
    ensures StoreOk(Emit(s, item, ItemUpdated))
  {
    forall x: ItemId | true ensures ItemOk(Emit(s, item, ItemUpdated), x) {
      RewriteKeepsItem(s, item, x);
    }
  }

  lemma UpdateKeepsOk(s: ItemStore, id: ItemId, p: Patch)
    requires StoreOk(s)
    ensures StoreOk(Update(s, id, p).0)
  {
    var (s', r) := Update(s, id, p);
    if r.Ok? {
      assert s' == Emit(s, r.value, ItemUpdated);
      RewriteKeepsOk(s, r.value);
    }
  }

  lemma MoveKeepsItem(s: ItemStore, id: ItemId, target: ItemStatus, mode: TransitionMode, x: ItemId)
    requires ItemOk(s, x) && id in s.items && Allowed(s.items[id].status, target, mode)
    ensures ItemOk(Move(s, id, target), x)
  {
    var entry := HistoryEntry(id, Some(s.items[id].status), target);
    var item := MovedItem(s.items[id], target).(id := id);
    LogFilters(s, entry, x);
    EmitFilters(Log(s, entry), item, ItemUpdated, x);
    if x == id {
      var e := ItemEvent(s, item, ItemUpdated);
      StreamGrows(EventsOf(s, x), s.items[x], e, item);
      ChainGrows(HistoryOf(s, x), s.items[x].status, entry);
      LogsGrow(HistoryOf(s, x), EventsOf(s, x), s.items[x], e, entry);
    }
  }

  lemma MoveKeepsOk(s: ItemStore, id: ItemId, target: ItemStatus, mode: TransitionMode)
    requires StoreOk(s) && id in s.items && Allowed(s.items[id].status, target, mode)
    ensures StoreOk(Move(s, id, target))
  {
    forall x: ItemId | true ensures ItemOk(Move(s, id, target), x) {
      MoveKeepsItem(s, id, target, mode, x);
    }
  }

  lemma {:induction false} MoveAllKeepsOk(s: ItemStore, ids: seq<ItemId>, target: ItemStatus, mode: TransitionMode)
    requires StoreOk(s) && (forall id :: id in ids ==> id in s.items)
    requires MoveAll(s, ids, target, mode).Ok?
    ensures StoreOk(MoveAll(s, ids, target, mode).value)
  {
    if ids != [] {
      var before := ids[..|ids| - 1];
      MoveAllKeepsOk(s, before, target, mode);
      MoveKeepsOk(MoveAll(s, before, target, mode).value, ids[|ids| - 1], target, mode);
    }
  }

  lemma BatchKeepsOk(s: ItemStore, ids: seq<ItemId>, target: ItemStatus, mode: TransitionMode)
    requires StoreOk(s)
    ensures StoreOk(Batch(s, ids, target, mode).0)
  {
    var unique := Dedup(ids);
    if AllExist(s, unique) && MoveAll(s, unique, target, mode).Ok? {
      MoveAllKeepsOk(s, unique, target, mode);
    }
  }

  lemma PerformKeepsOk(s: ItemStore, c: ItemCommand)
    requires StoreOk(s)
    ensures StoreOk(Perform(s, c))
  {
    match c
    case CreateItem(id, draft) => CreateKeepsOk(s, id, draft);
    case UpdateItem(id, patch) => UpdateKeepsOk(s, id, patch);
    case UpdateStatus(id, target) =>
      if SetStatus(s, id, target).1.Ok? { MoveKeepsOk(s, id, target, Public); }
    case Open(ids) => BatchKeepsOk(s, ids, IN_RECOVERY, InternalOpen);
    case Cancel(ids, target) => BatchKeepsOk(s, ids, target, InternalCancel);
    case Complete(ids) => BatchKeepsOk(s, ids, RECOVERED, InternalComplete);
  }

  /** MAIN: after any sequence of commands every item's events are versions 1..version without gap,
      its history is a path of the status machine from AVAILABLE to its current status, and the
      history is exactly the sequence of status changes its events show. */
  lemma {:induction false} RunsKeepLogs(commands: seq<ItemCommand>)
    ensures StoreOk(PerformAll(commands))
  {
    if commands == [] {
      assert forall id: ItemId :: ItemOk(NO_ITEMS, id);
    } else {
      RunsKeepLogs(commands[..|commands| - 1]);
      PerformKeepsOk(PerformAll(commands[..|commands| - 1]), commands[|commands| - 1]);
    }
  }

  // ---- What the history shows ----

  /** MAIN: in every history, CANCELLED and CLOSED are last, RECOVERED comes only after IN_RECOVERY,
      and IN_RECOVERY only after AVAILABLE or MATCHED. */
  lemma HistoryFacts(commands: seq<ItemCommand>, id: ItemId, k: nat)
    requires id in PerformAll(commands).items
    requires k < |HistoryOf(PerformAll(commands), id)|
    ensures var h := HistoryOf(PerformAll(commands), id);
      && (IsTerminal(h[k].to) ==> k == |h| - 1)
      && (h[k].to.RECOVERED? ==> k > 0 && h[k - 1].to.IN_RECOVERY?)
      && (h[k].to.IN_RECOVERY? ==> k > 0 && (h[k - 1].to.AVAILABLE? || h[k - 1].to.MATCHED?))
      && (k > 0 ==> h[k].from == Some(h[k - 1].to) && h[k].to != h[k - 1].to)
  {
    RunsKeepLogs(commands);
    var h := HistoryOf(PerformAll(commands), id);
    assert ItemOk(PerformAll(commands), id);
    if k + 1 < |h| {
      assert LegalMove(h[k + 1 - 1].to, h[k + 1].to);
    }
  }

  // ---- What a version number counts ----

  /** 1 if the command is a patch of the item that changed it, else 0. */
  function PatchTook(s: ItemStore, c: ItemCommand, id: ItemId): nat {
    if c.UpdateItem? && c.id == id && Update(s, id, c.patch).1.Ok? then 1 else 0
  }

  function EffectivePatches(commands: seq<ItemCommand>, id: ItemId): nat {
    if commands == [] then 0
    else
      var before := commands[..|commands| - 1];
      EffectivePatches(before, id) + PatchTook(PerformAll(before), commands[|commands| - 1], id)
  }

  function VersionOrZero(s: ItemStore, id: ItemId): int {
    if id in s.items then s.items[id].version else 0
  }

  /** Versions above history entries; every transition adds one to both. */
  function Surplus(s: ItemStore, id: ItemId): int {
    VersionOrZero(s, id) - |HistoryOf(s, id)|
  }

  lemma MoveKeepsSurplus(s: ItemStore, moved: ItemId, target: ItemStatus, id: ItemId)
    requires moved in s.items
    ensures Surplus(Move(s, moved, target), id) == Surplus(s, id)
  {
    var entry := HistoryEntry(moved, Some(s.items[moved].status), target);
    LogFilters(s, entry, id);
    EmitFilters(Log(s, entry), MovedItem(s.items[moved], target).(id := moved), ItemUpdated, id);
  }

  lemma {:induction false} MoveAllKeepsSurplus(s: ItemStore, ids: seq<ItemId>, target: ItemStatus,
                                               mode: TransitionMode, id: ItemId)
    requires forall x :: x in ids ==> x in s.items
    requires MoveAll(s, ids, target, mode).Ok?
    ensures Surplus(MoveAll(s, ids, target, mode).value, id) == Surplus(s, id)
  {
    if ids != [] {
      var before := ids[..|ids| - 1];
      MoveAllKeepsSurplus(s, before, target, mode, id);
      MoveKeepsSurplus(MoveAll(s, before, target, mode).value, ids[|ids| - 1], target, id);
    }
  }

  lemma BatchKeepsSurplus(s: ItemStore, ids: seq<ItemId>, target: ItemStatus, mode: TransitionMode, id: ItemId)
    ensures Surplus(Batch(s, ids, target, mode).0, id) == Surplus(s, id)
  {
    var unique := Dedup(ids);
    if AllExist(s, unique) && MoveAll(s, unique, target, mode).Ok? {
      MoveAllKeepsSurplus(s, unique, target, mode, id);
    }
  }

  lemma PerformAddsPatches(s: ItemStore, c: ItemCommand, id: ItemId)
    ensures Surplus(Perform(s, c), id) == Surplus(s, id) + PatchTook(s, c, id)
  {
    match c
    case CreateItem(x, draft) =>
      if x !in s.items {
        LogFilters(s, HistoryEntry(x, None, AVAILABLE), id);
        EmitFilters(Log(s, HistoryEntry(x, None, AVAILABLE)), FromDraft(x, draft), ItemCreated, id);
      }
    case UpdateItem(x, patch) =>
      var (s', r) := Update(s, x, patch);
      if r.Ok? { EmitFilters(s, r.value, ItemUpdated, id); }
    case UpdateStatus(x, target) =>
      if SetStatus(s, x, target).1.Ok? { MoveKeepsSurplus(s, x, target, id); }
    case Open(ids) => BatchKeepsSurplus(s, ids, IN_RECOVERY, InternalOpen, id);
    case Cancel(ids, target) => BatchKeepsSurplus(s, ids, target, InternalCancel, id);
    case Complete(ids) => BatchKeepsSurplus(s, ids, RECOVERED, InternalComplete, id);
  }

  /** MAIN: an item's version is the length of its history plus the number of effective patches. */
  lemma {:induction false} VersionCounts(commands: seq<ItemCommand>, id: ItemId)
    ensures VersionOrZero(PerformAll(commands), id) ==
            |HistoryOf(PerformAll(commands), id)| + EffectivePatches(commands, id)
  {
    if commands == [] {
    } else {
      var before := commands[..|commands| - 1];
      VersionCounts(before, id);
      PerformAddsPatches(PerformAll(before), commands[|commands| - 1], id);
    }
  }

  // ---- Patches ----

  /** Status and classification, and every field the request leaves out, are as they were. */
  predicate OnlyGivenChanged(item: Item, p: Patch, item': Item) {
    && item'.status == item.status && item'.classification == item.classification
    && (p.title.None? ==> item'.title == item.title)
    && (p.description.None? ==> item'.description == item.description)
    && (p.category.None? ==> item'.category == item.category)
    && (p.color.None? ==> item'.color == item.color)
    && (p.location.None? ==> item'.location == item.location)
    && (p.date.None? ==> item'.date == item.date)
    && (p.reporter.None? ==> item'.reporter == item.reporter)
  }

  /** MAIN: an update succeeds exactly when the item exists and some given field differs. It changes
      only the given fields and the version, and repeating it is refused and changes nothing. */
  lemma PatchIsIdempotent(s: ItemStore, id: ItemId, p: Patch)
    requires StoreOk(s)
    ensures var (s', r) := Update(s, id, p);
      && (r.Ok? <==> id in s.items && exists field: nat :: Differs(s.items[id], p, field))
      && (r.Err? ==> s' == s)
      && (r.Ok? ==>
            && s'.items == s.items[id := r.value]
            && r.value.id == id && r.value.version == s.items[id].version + 1
            && OnlyGivenChanged(s.items[id], p, r.value)
            && (forall field: nat :: !Differs(r.value, p, field))
            && Update(s', id, p) == (s', Err(NoEffectiveChange)))
  {
    if id in s.items {
      assert ItemOk(s, id);
      var item := s.items[id];
      if Patched(item, p) != item {
        assert Differs(item, p, 0) || Differs(item, p, 1) || Differs(item, p, 2) || Differs(item, p, 3)
            || Differs(item, p, 4) || Differs(item, p, 5) || Differs(item, p, 6);
      }
    }
  }

  /** Whether the n-th field of the request is given and differs from the item's. */
  predicate Differs(item: Item, p: Patch, field: nat) {
    match field
    case 0 => p.title.Some? && p.title.value != item.title
    case 1 => p.description.Some? && p.description.value != item.description
    case 2 => p.category.Some? && p.category.value != item.category
    case 3 => p.color.Some? && p.color.value != item.color
    case 4 => p.location.Some? && p.location.value != item.location
    case 5 => p.date.Some? && p.date.value != item.date
    case 6 => p.reporter.Some? && p.reporter.value != item.reporter
    case _ => false
  }
}
