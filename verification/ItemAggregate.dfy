/** What the item-service stores, and what each of its transactions does to it. */
module ItemAggregate {
  import opened Domain
  import opened Seqs

  datatype HistoryEntry = HistoryEntry(itemId: ItemId, from: Option<ItemStatus>, to: ItemStatus)

  // An event's id is its position in the outbox: rows are inserted, never deleted.
  datatype ItemStore = ItemStore(
    items: map<ItemId, Item>,
    history: seq<HistoryEntry>,
    outbox: seq<Envelope>)

  const NO_ITEMS := ItemStore(map[], [], [])

  datatype ItemError =
    | ItemNotFound
    | DuplicateItem
    | NoFieldGiven
    | NoEffectiveChange
    | ReservedForRecovery
    | SameStatus
    | TerminalItem
    | TransitionNotAllowed

  datatype TransitionMode = Public | InternalOpen | InternalCancel | InternalComplete

  /** The fields of a creation request. */
  datatype Draft = Draft(
    classification: Classification,
    title: string,
    description: string,
    category: string,
    color: string,
    location: string,
    date: int,
    reporter: UserId)

  /** The fields of an update request; absent ones are left alone. */
  datatype Patch = Patch(
    title: Option<string>,
    description: Option<string>,
    category: Option<string>,
    color: Option<string>,
    location: Option<string>,
    date: Option<int>,
    reporter: Option<UserId>)

  const EMPTY_PATCH := Patch(None, None, None, None, None, None, None)

  // ---- The status machine ----

  predicate IsTerminal(status: ItemStatus) {
    status.CANCELLED? || status.CLOSED?
  }

  function PublicTransitions(status: ItemStatus): set<ItemStatus> {
    match status
    case AVAILABLE => {MATCHED, CANCELLED, CLOSED}
    case MATCHED => {AVAILABLE, CANCELLED, CLOSED}
    case IN_RECOVERY => {}
    case RECOVERED => {CLOSED}
    case CANCELLED => {}
    case CLOSED => {}
  }

  function ValidateTransition(current: ItemStatus, target: ItemStatus, mode: TransitionMode): Option<ItemError> {
    if IsTerminal(current) then Some(TerminalItem)
    else
      var allowed :=
        match mode
        case Public => target in PublicTransitions(current)
        case InternalOpen => (current.AVAILABLE? || current.MATCHED?) && target.IN_RECOVERY?
        case InternalCancel => current.IN_RECOVERY? && (target.AVAILABLE? || target.MATCHED?)
        case InternalComplete => current.IN_RECOVERY? && target.RECOVERED?;
      if allowed then None else Some(TransitionNotAllowed)
  }

  predicate Allowed(current: ItemStatus, target: ItemStatus, mode: TransitionMode) {
    current != target && ValidateTransition(current, target, mode).None?
  }

  // ---- Single-item transactions ----

  function ItemEvent(s: ItemStore, item: Item, kind: EventType): Envelope {
    Envelope(|s.outbox|, kind, item.id, item.version, item)
  }

  /** Stores an item and enqueues its event. */
  function Emit(s: ItemStore, item: Item, kind: EventType): ItemStore {
    s.(items := s.items[item.id := item], outbox := s.outbox + [ItemEvent(s, item, kind)])
  }

  function Log(s: ItemStore, entry: HistoryEntry): ItemStore {
    s.(history := s.history + [entry])
  }

  function FromDraft(id: ItemId, d: Draft): Item {
    Item(id, d.classification, d.title, d.description, d.category, d.color, d.location, d.date, d.reporter,
         AVAILABLE, 1)
  }

  function Create(s: ItemStore, id: ItemId, d: Draft): (ItemStore, Result<Item, ItemError>) {
    if id in s.items then (s, Err(DuplicateItem))
    else (Emit(Log(s, HistoryEntry(id, None, AVAILABLE)), FromDraft(id, d), ItemCreated), Ok(FromDraft(id, d)))
  }

  function OrElse<T>(field: Option<T>, current: T): T {
    if field.Some? then field.value else current
  }

  function Patched(item: Item, p: Patch): Item {
    item.(title := OrElse(p.title, item.title),
          description := OrElse(p.description, item.description),
          category := OrElse(p.category, item.category),
          color := OrElse(p.color, item.color),
          location := OrElse(p.location, item.location),
          date := OrElse(p.date, item.date),
          reporter := OrElse(p.reporter, item.reporter))
  }

  function Update(s: ItemStore, id: ItemId, p: Patch): (ItemStore, Result<Item, ItemError>) {
    if id !in s.items then (s, Err(ItemNotFound))
    else if p == EMPTY_PATCH then (s, Err(NoFieldGiven))
    else
      var item := s.items[id];
      if Patched(item, p) == item then (s, Err(NoEffectiveChange))
      else
        var item' := Patched(item, p).(id := id, version := item.version + 1);
        (Emit(s, item', ItemUpdated), Ok(item'))
  }

  function MovedItem(item: Item, target: ItemStatus): Item {
    item.(status := target, version := item.version + 1)
  }

  function Move(s: ItemStore, id: ItemId, target: ItemStatus): ItemStore
    requires id in s.items
  {
    var item := s.items[id];
    Emit(Log(s, HistoryEntry(id, Some(item.status), target)), MovedItem(item, target).(id := id), ItemUpdated)
  }

  function Transition(s: ItemStore, id: ItemId, target: ItemStatus, mode: TransitionMode):
    (r: Result<ItemStore, ItemError>)
    requires id in s.items
    ensures r.Ok? <==> Allowed(s.items[id].status, target, mode)
    ensures r.Ok? ==> r.value.items.Keys == s.items.Keys
  {
    var current := s.items[id].status;
    if current == target then Err(SameStatus)
    else
      var refusal := ValidateTransition(current, target, mode);
      if refusal.Some? then Err(refusal.value) else Ok(Move(s, id, target))
  }

  function SetStatus(s: ItemStore, id: ItemId, target: ItemStatus): (ItemStore, Result<Item, ItemError>) {
    if id !in s.items then (s, Err(ItemNotFound))
    else if target.IN_RECOVERY? || target.RECOVERED? then (s, Err(ReservedForRecovery))
    else
      match Transition(s, id, target, Public)
      case Err(e) => (s, Err(e))
      case Ok(s') => (s', Ok(s'.items[id]))
  }

  // ---- Recovery batches ----

  /** Repetitions dropped, first occurrences kept in order. */
  function Dedup(ids: seq<ItemId>): (unique: seq<ItemId>)
    ensures forall id :: id in unique <==> id in ids
    ensures Distinct(unique)
  {
    if ids == [] then []
    else
      var last := ids[|ids| - 1];
      var earlier := Dedup(ids[..|ids| - 1]);
      assert ids == ids[..|ids| - 1] + [last];
      if last in earlier then earlier else earlier + [last]
  }

  /** The transitions of a batch, one after the other in one session. */
  function MoveAll(s: ItemStore, ids: seq<ItemId>, target: ItemStatus, mode: TransitionMode):
    (r: Result<ItemStore, ItemError>)
    requires forall id :: id in ids ==> id in s.items
    ensures r.Ok? ==> r.value.items.Keys == s.items.Keys
  {
    if ids == [] then Ok(s)
    else
      match MoveAll(s, ids[..|ids| - 1], target, mode)
      case Err(e) => Err(e)
      case Ok(s') => Transition(s', ids[|ids| - 1], target, mode)
  }

  function ItemsAt(s: ItemStore, ids: seq<ItemId>): (items: seq<Item>)
    requires forall id :: id in ids ==> id in s.items
    ensures |items| == |ids|
  {
    seq(|ids|, i requires 0 <= i < |ids| => s.items[ids[i]])
  }

  predicate AllExist(s: ItemStore, ids: seq<ItemId>) {
    forall id :: id in ids ==> id in s.items
  }

  /** A whole batch transaction: committed if every transition is allowed, else rolled back. */
  function Batch(s: ItemStore, ids: seq<ItemId>, target: ItemStatus, mode: TransitionMode):
    (ItemStore, Result<seq<Item>, ItemError>)
  {
    var unique := Dedup(ids);
    if !AllExist(s, unique) then (s, Err(ItemNotFound))
    else
      match MoveAll(s, unique, target, mode)
      case Err(e) => (s, Err(e))
      case Ok(s') => (s', Ok(ItemsAt(s', unique)))
  }

  function OpenRecovery(s: ItemStore, ids: seq<ItemId>): (ItemStore, Result<seq<Item>, ItemError>) {
    Batch(s, ids, IN_RECOVERY, InternalOpen)
  }

  function CancelRecovery(s: ItemStore, ids: seq<ItemId>, target: ItemStatus):
    (ItemStore, Result<seq<Item>, ItemError>)
  {
    Batch(s, ids, target, InternalCancel)
  }

  function CompleteRecovery(s: ItemStore, ids: seq<ItemId>): (ItemStore, Result<seq<Item>, ItemError>) {
    Batch(s, ids, RECOVERED, InternalComplete)
  }

  // ---- Runs ----

  datatype ItemCommand =
    | CreateItem(id: ItemId, draft: Draft)
    | UpdateItem(id: ItemId, patch: Patch)
    | UpdateStatus(id: ItemId, target: ItemStatus)
    | Open(ids: seq<ItemId>)
    | Cancel(ids: seq<ItemId>, target: ItemStatus)
    | Complete(ids: seq<ItemId>)

  function Perform(s: ItemStore, c: ItemCommand): ItemStore {
    match c
    case CreateItem(id, draft) => Create(s, id, draft).0
    case UpdateItem(id, patch) => Update(s, id, patch).0
    case UpdateStatus(id, target) => SetStatus(s, id, target).0
    case Open(ids) => OpenRecovery(s, ids).0
    case Cancel(ids, target) => CancelRecovery(s, ids, target).0
    case Complete(ids) => CompleteRecovery(s, ids).0
  }

  function PerformAll(commands: seq<ItemCommand>): ItemStore {
    if commands == [] then NO_ITEMS
    else Perform(PerformAll(commands[..|commands| - 1]), commands[|commands| - 1])
  }
}
