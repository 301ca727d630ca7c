/** Items, their outbox, the publisher, the broker and the match index in one system. Events may be
    published out of order, sent twice, delivered in any order and any number of times; the
    projections and the suggestions still converge to what the item-service holds. */
module EndToEnd {
  import opened Domain
  import opened Seqs
  import opened ItemAggregate
  import opened ItemHistory
  import opened ItemBatches
  import opened Outbox
  import MatchIndex
  import Progress = PublisherProgress
  import ItemOutcomes
  import opened IndexExactness
  import opened MatchConfluence

  /** `sent` is every message the broker has accepted, `consumed` every message delivered to the
      matching-service. Row i of the publisher's table is event i of the item-service's outbox. */
  datatype System = System(
    items: ItemStore,
    rows: seq<Row>,
    sent: set<Envelope>,
    consumed: set<Envelope>,
    matching: MatchIndex.MatchStore)

  const INITIAL := System(NO_ITEMS, [], {}, {}, MatchIndex.EMPTY_STORE)

  datatype Action =
    | Command(command: ItemCommand, stamps: seq<(real, real)>)
    | Publish(now: real, selected: seq<nat>, outcomes: seq<Outcome>)
    | Deliver(event: Envelope, candidates: seq<ItemId>)
    | Decision(id: MatchIndex.MatchId, decision: MatchIndex.Decision, user: Option<UserId>)

  function NewRows(events: seq<Envelope>, stamps: seq<(real, real)>): seq<Row>
    requires |events| == |stamps|
  {
    seq(|events|, i requires 0 <= i < |events| => NewRow(events[i], stamps[i].0, stamps[i].1))
  }

  function NewEvents(before: ItemStore, after: ItemStore): seq<Envelope> {
    if |before.outbox| <= |after.outbox| then after.outbox[|before.outbox|..] else []
  }

  /** Whether the broker got the k-th selected message of a batch that published n. */
  predicate Reached(outcomes: seq<Outcome>, n: nat, k: nat) {
    k < |outcomes| && (k < n || (k == n && outcomes[k].Failed? && outcomes[k].reachedBroker))
  }

  function MessagesSent(rows: seq<Row>, selected: seq<nat>, outcomes: seq<Outcome>, n: nat): set<Envelope>
    requires AllBelow(selected, |rows|)
  {
    set k: nat | k < |selected| && Reached(outcomes, n, k) :: rows[selected[k]].event
  }

  ghost predicate Enabled(settings: Settings, s: System, a: Action) {
    match a
    case Command(c, stamps) => |stamps| == |NewEvents(s.items, Perform(s.items, c))|
    case Publish(now, selected, outcomes) =>
      PendingQuery(s.rows, now, settings.batchSize, selected) && |outcomes| == |selected|
    case Deliver(e, candidates) => e in s.sent && MatchIndex.Enabled(s.matching, MatchIndex.Delivery(e, candidates))
    case Decision(_, _, _) => true
  }

  function Step(settings: Settings, s: System, a: Action): System {
    match a
    case Command(c, stamps) =>
      var items' := Perform(s.items, c);
      var events := NewEvents(s.items, items');
      s.(items := items', rows := s.rows + (if |stamps| == |events| then NewRows(events, stamps) else []))
    case Publish(now, selected, outcomes) =>
      if |selected| <= |outcomes| && AllBelow(selected, |s.rows|) then
        var (rows', n) := BatchResult(settings, s.rows, selected, outcomes);
        s.(rows := rows', sent := s.sent + MessagesSent(s.rows, selected, outcomes, n))
      else s
    case Deliver(e, candidates) =>
      s.(consumed := s.consumed + {e}, matching := MatchIndex.Consume(s.matching, e, candidates).0)
    case Decision(id, d, user) => s.(matching := MatchIndex.Decide(s.matching, id, d, user).0)
  }

  function After(settings: Settings, run: seq<Action>): System {
    if run == [] then INITIAL else Step(settings, After(settings, run[..|run| - 1]), run[|run| - 1])
  }

  ghost predicate ValidRun(settings: Settings, run: seq<Action>) {
    run != [] ==>
      var before := run[..|run| - 1];
      ValidRun(settings, before) && Enabled(settings, After(settings, before), run[|run| - 1])
  }

  // ---- The item-service's events are well formed ----

  function EventSet(items: ItemStore): set<Envelope> {
    set i | 0 <= i < |items.outbox| :: items.outbox[i]
  }

  /** An event sits in its item's stream at the position its version names. */
  lemma EventInStream(items: ItemStore, e: Envelope)
    requires StoreOk(items) && e in EventSet(items)
    ensures e.aggregateId in items.items
    ensures var events := EventsOf(items, e.aggregateId);
      && 1 <= e.aggregateVersion <= |events| && events[e.aggregateVersion - 1] == e
      && e.payload.id == e.aggregateId && e.payload.version == e.aggregateVersion
      && e.aggregateVersion <= items.items[e.aggregateId].version == |events|
      && !e.eventType.OtherEvent?
  {
    var x := e.aggregateId;
    FilterKeeps(items.outbox, e, OfItem(x));
    assert ItemOk(items, x);
    var events := EventsOf(items, x);
    var k :| 0 <= k < |events| && events[k] == e;
  }

  lemma StoredEventsAreWellFormed(items: ItemStore)
    requires StoreOk(items)
    ensures WellFormed(EventSet(items))
  {
    var events := EventSet(items);
    forall e | e in events
      ensures e.payload.id == e.aggregateId && e.payload.version == e.aggregateVersion
    {
      EventInStream(items, e);
    }
    forall e, f | e in events && f in events && SameVersion(e, f) ensures e.payload == f.payload {
      EventInStream(items, e);
      EventInStream(items, f);
    }
    forall e, f | e in events && f in events && e.eventId == f.eventId ensures e == f {
      var i :| 0 <= i < |items.outbox| && items.outbox[i] == e;
      var j :| 0 <= j < |items.outbox| && items.outbox[j] == f;
    }
  }

  // ---- What a command appends ----

  /** The log only grows, and each new event shows an item as it now stands. */
  ghost predicate Appends(before: ItemStore, after: ItemStore) {
    && before.outbox <= after.outbox
    && before.items.Keys <= after.items.Keys
    && (forall i :: |before.outbox| <= i < |after.outbox| ==>
          && after.outbox[i].aggregateId in after.items
          && after.outbox[i].payload == after.items[after.outbox[i].aggregateId])
  }

  lemma BatchAppends(s: ItemStore, ids: seq<ItemId>, target: ItemStatus, mode: TransitionMode)
    requires StoreOk(s)
    ensures Appends(s, Batch(s, ids, target, mode).0)
  {
    var s' := Batch(s, ids, target, mode).0;
    BatchIsAtomic(s, ids, target, mode);
    BatchKeepsOk(s, ids, target, mode);
    if Batch(s, ids, target, mode).1.Ok? {
      var unique := Dedup(ids);
      forall i | |s.outbox| <= i < |s'.outbox|
        ensures s'.outbox[i].aggregateId in s'.items && s'.outbox[i].payload == s'.items[s'.outbox[i].aggregateId]
      {
        var id := unique[i - |s.outbox|];
        assert id in unique;
        assert s'.outbox[|s.outbox| + (i - |s.outbox|)].payload == s'.items[id];
        assert ItemOk(s', id);
        assert s'.outbox[i] in EventSet(s');
        EventInStream(s', s'.outbox[i]);
      }
    }
  }

  lemma CommandAppends(s: ItemStore, c: ItemCommand)
    requires StoreOk(s)
    ensures Appends(s, Perform(s, c))
  {
    match c
    case CreateItem(id, draft) =>
    case UpdateItem(id, patch) =>
    case UpdateStatus(id, target) =>
    case Open(ids) => BatchAppends(s, ids, IN_RECOVERY, InternalOpen);
    case Cancel(ids, target) => BatchAppends(s, ids, target, InternalCancel);
    case Complete(ids) => BatchAppends(s, ids, RECOVERED, InternalComplete);
  }

  // ---- The system invariant ----

  ghost predicate SystemOk(s: System) {
    && StoreOk(s.items)
    && |s.rows| == |s.items.outbox|
    && (forall i :: 0 <= i < |s.rows| ==> s.rows[i].event == s.items.outbox[i])
    && s.sent <= EventSet(s.items)
    && (forall i :: 0 <= i < |s.rows| && s.rows[i].status.PUBLISHED? ==> s.rows[i].event in s.sent)
    && s.consumed <= s.sent
    && Reflects(s.matching, s.consumed)
    && Exact(s.matching)
  }

  lemma EventSetGrows(before: ItemStore, after: ItemStore)
    requires before.outbox <= after.outbox
    ensures EventSet(before) <= EventSet(after)
  {
    forall e | e in EventSet(before) ensures e in EventSet(after) {
      var i :| 0 <= i < |before.outbox| && before.outbox[i] == e;
      assert after.outbox[i] == e;
    }
  }

  lemma AppendedRowsFit(s: System, items': ItemStore, stamps: seq<(real, real)>)
    requires SystemOk(s) && StoreOk(items') && Appends(s.items, items')
    requires |stamps| == |NewEvents(s.items, items')|
    ensures SystemOk(s.(items := items', rows := s.rows + NewRows(NewEvents(s.items, items'), stamps)))
  {
    EventSetGrows(s.items, items');
    var rows' := s.rows + NewRows(NewEvents(s.items, items'), stamps);
    forall i | 0 <= i < |rows'|
      ensures rows'[i].event == items'.outbox[i]
      ensures rows'[i].status.PUBLISHED? ==> rows'[i].event in s.sent
    {
      if i < |s.rows| { assert rows'[i] == s.rows[i] && s.items.outbox[i] == items'.outbox[i]; }
    }
  }

  lemma CommandKeepsOk(settings: Settings, s: System, c: ItemCommand, stamps: seq<(real, real)>)
    requires SystemOk(s) && Enabled(settings, s, Command(c, stamps))
    ensures SystemOk(Step(settings, s, Command(c, stamps)))
  {
    var items' := Perform(s.items, c);
    PerformKeepsOk(s.items, c);
    CommandAppends(s.items, c);
    AppendedRowsFit(s, items', stamps);
  }

  lemma SentIsStored(s: System, selected: seq<nat>, outcomes: seq<Outcome>, n: nat)
    requires SystemOk(s) && AllBelow(selected, |s.rows|)
    ensures MessagesSent(s.rows, selected, outcomes, n) <= EventSet(s.items)
  {
    forall e | e in MessagesSent(s.rows, selected, outcomes, n) ensures e in EventSet(s.items) {
      var k: nat :| k < |selected| && Reached(outcomes, n, k) && s.rows[selected[k]].event == e;
      assert s.items.outbox[selected[k]] == e;
    }
  }

  lemma PublishKeepsOk(settings: Settings, s: System, now: real, selected: seq<nat>, outcomes: seq<Outcome>)
    requires SystemOk(s) && Enabled(settings, s, Publish(now, selected, outcomes))
    ensures SystemOk(Step(settings, s, Publish(now, selected, outcomes)))
  {
    var s' := Step(settings, s, Publish(now, selected, outcomes));
    var n := BatchResult(settings, s.rows, selected, outcomes).1;
    BatchPublishesPrefix(settings, s.rows, now, selected, outcomes);
    SentIsStored(s, selected, outcomes, n);
    forall i | 0 <= i < |s'.rows|
      ensures s'.rows[i].event == s.rows[i].event
      ensures s'.rows[i].status.PUBLISHED? ==> s'.rows[i].event in s'.sent
    {
      if i in selected {
        var k :| 0 <= k < |selected| && selected[k] == i;
        if k < n { assert Reached(outcomes, n, k); }
      }
    }
  }

  lemma DeliveryIsReflected(s: System, e: Envelope, candidates: seq<ItemId>)
    requires StoreOk(s.items) && s.consumed <= EventSet(s.items) && e in EventSet(s.items)
    requires Reflects(s.matching, s.consumed)
    ensures Reflects(MatchIndex.Consume(s.matching, e, candidates).0, s.consumed + {e})
  {
    StoredEventsAreWellFormed(s.items);
    SubsetIsWellFormed(s.consumed + {e}, EventSet(s.items));
    EventInStream(s.items, e);
    DeliveryReflected(s.matching, s.consumed, e, candidates);
  }

  lemma DeliveryIsExact(s: MatchIndex.MatchStore, e: Envelope, candidates: seq<ItemId>)
    requires Exact(s) && MatchIndex.Enabled(s, MatchIndex.Delivery(e, candidates))
    ensures Exact(MatchIndex.Consume(s, e, candidates).0)
  {
    ApplyKeepsExact(s, MatchIndex.Delivery(e, candidates));
  }

  lemma DeliverKeepsOk(settings: Settings, s: System, e: Envelope, candidates: seq<ItemId>)
    requires SystemOk(s) && Enabled(settings, s, Deliver(e, candidates))
    ensures SystemOk(Step(settings, s, Deliver(e, candidates)))
  {
    DeliveryIsReflected(s, e, candidates);
    DeliveryIsExact(s.matching, e, candidates);
  }

  lemma StepKeepsOk(settings: Settings, s: System, a: Action)
    requires SystemOk(s) && Enabled(settings, s, a)
    ensures SystemOk(Step(settings, s, a))
  {
    match a
    case Command(c, stamps) => CommandKeepsOk(settings, s, c, stamps);
    case Publish(now, selected, outcomes) => PublishKeepsOk(settings, s, now, selected, outcomes);
    case Deliver(e, candidates) => DeliverKeepsOk(settings, s, e, candidates);
    case Decision(id, d, user) =>
      DecideKeepsExact(s.matching, id, d, user);
      DecisionsLeaveProjections(s.matching, id, d, user);
  }

  lemma {:induction false} RunsKeepSystem(settings: Settings, run: seq<Action>)
    requires ValidRun(settings, run)
    ensures SystemOk(After(settings, run))
  {
    if run == [] {
      RunsKeepLogs([]);
    } else {
      RunsKeepSystem(settings, run[..|run| - 1]);
      StepKeepsOk(settings, After(settings, run[..|run| - 1]), run[|run| - 1]);
    }
  }

  // ---- Projections are past states of the items ----

  /** The item-service held exactly this item at some point of the run. */
  ghost predicate WasHeld(settings: Settings, run: seq<Action>, item: Item) {
    exists k :: 0 <= k <= |run| && HeldAfter(settings, run[..k], item)
  }

  predicate HeldAfter(settings: Settings, run: seq<Action>, item: Item) {
    var items := After(settings, run).items.items;
    item.id in items && items[item.id] == item
  }

  lemma WasHeldEarlier(settings: Settings, run: seq<Action>, item: Item)
    requires run != [] && WasHeld(settings, run[..|run| - 1], item)
    ensures WasHeld(settings, run, item)
  {
    var before := run[..|run| - 1];
    var k :| 0 <= k <= |before| && HeldAfter(settings, before[..k], item);
    assert before[..k] == run[..k];
  }

  lemma NewEventShowsItem(before: ItemStore, after: ItemStore, e: Envelope)
    requires StoreOk(after) && Appends(before, after)
    requires e in EventSet(after) && e !in EventSet(before)
    ensures e.payload.id in after.items && after.items[e.payload.id] == e.payload
  {
    var i :| 0 <= i < |after.outbox| && after.outbox[i] == e;
    if i < |before.outbox| { assert before.outbox[i] == e; }
    EventInStream(after, e);
  }

  /** Only commands change the items. */
  lemma ItemsAfterStep(settings: Settings, s: System, a: Action)
    requires SystemOk(s)
    ensures a.Command? ==> Step(settings, s, a).items == Perform(s.items, a.command)
    ensures a.Command? ==> Appends(s.items, Step(settings, s, a).items)
    ensures !a.Command? ==> Step(settings, s, a).items == s.items
  {
    if a.Command? { CommandAppends(s.items, a.command); }
  }

  lemma {:induction false} EventsShowPastStates(settings: Settings, run: seq<Action>, e: Envelope)
    requires ValidRun(settings, run) && e in EventSet(After(settings, run).items)
    ensures WasHeld(settings, run, e.payload)
  {
    if run != [] {
      var before, a := run[..|run| - 1], run[|run| - 1];
      var s := After(settings, before);
      RunsKeepSystem(settings, before);
      RunsKeepSystem(settings, run);
      ItemsAfterStep(settings, s, a);
      if e in EventSet(s.items) {
        EventsShowPastStates(settings, before, e);
        WasHeldEarlier(settings, run, e.payload);
      } else {
        NewEventShowsItem(s.items, After(settings, run).items, e);
        assert run[..|run|] == run;
        assert HeldAfter(settings, run[..|run|], e.payload);
      }
    }
  }

  /** MAIN: at every moment of every run, whatever was published or delivered in whatever order, each
      projection is the item exactly as the item-service held it at some earlier point, at a version
      not above its current one. */
  lemma ProjectionsArePastStates(settings: Settings, run: seq<Action>, x: ItemId)
    requires ValidRun(settings, run) && x in After(settings, run).matching.projections
    ensures var s := After(settings, run); var p := s.matching.projections[x];
      && p.id == x && x in s.items.items
      && p.version <= s.items.items[x].version
      && WasHeld(settings, run, p)
  {
    RunsKeepSystem(settings, run);
    var s := After(settings, run);
    var e :| e in s.consumed && e.aggregateId == x && e.payload == s.matching.projections[x];
    EventInStream(s.items, e);
    EventsShowPastStates(settings, run, e);
  }

  // ---- What projections say of their items ----

  /** Items are never removed or reclassified. */
  lemma StepKeepsClassification(settings: Settings, s: System, a: Action, x: ItemId)
    requires SystemOk(s) && x in s.items.items
    ensures var items' := Step(settings, s, a).items.items;
      x in items' && items'[x].classification == s.items.items[x].classification
  {
    if a.Command? { ItemOutcomes.CommandKeepsFields(s.items, a.command, x); }
  }

  lemma {:induction false} ClassificationStays(settings: Settings, run: seq<Action>, k: nat, x: ItemId)
    requires ValidRun(settings, run) && k <= |run| && x in After(settings, run[..k]).items.items
    ensures var items := After(settings, run).items.items;
      x in items && items[x].classification == After(settings, run[..k]).items.items[x].classification
  {
    if k == |run| {
      assert run[..k] == run;
    } else {
      var before := run[..|run| - 1];
      assert before[..k] == run[..k];
      ClassificationStays(settings, before, k, x);
      RunsKeepSystem(settings, before);
      StepKeepsClassification(settings, After(settings, before), run[|run| - 1], x);
    }
  }

  /** MAIN: a projection always has the classification its item was created with: once item x was created
      from a draft, whatever follows, a LOST report is never matched as a FOUND one. */
  lemma ProjectionsKeepClassification(settings: Settings, run: seq<Action>, k: nat, x: ItemId, d: Draft,
                                      stamps: seq<(real, real)>)
    requires ValidRun(settings, run) && k < |run| && run[k] == Command(CreateItem(x, d), stamps)
    requires x !in After(settings, run[..k]).items.items
    ensures var s := After(settings, run);
      && x in s.items.items && s.items.items[x].classification == d.classification
      && (x in s.matching.projections ==> s.matching.projections[x].classification == d.classification)
  {
    var s := After(settings, run);
    assert run[..k + 1][..k] == run[..k];
    ItemOutcomes.CreationOutcome(After(settings, run[..k]).items, x, d);
    assert After(settings, run[..k + 1]) == Step(settings, After(settings, run[..k]), run[k]);
    ClassificationStays(settings, run, k + 1, x);
    if x in s.matching.projections {
      ProjectionsArePastStates(settings, run, x);
      var p := s.matching.projections[x];
      var i :| 0 <= i <= |run| && HeldAfter(settings, run[..i], p);
      ClassificationStays(settings, run, i, x);
    }
  }

  /** Each new event is enqueued as a row that waits for its first attempt. */
  lemma NewRowsWait(settings: Settings, s: System, c: ItemCommand, stamps: seq<(real, real)>, k: nat)
    requires Enabled(settings, s, Command(c, stamps)) && k < |stamps|
    ensures var rows' := Step(settings, s, Command(c, stamps)).rows;
      && |rows'| == |s.rows| + |stamps|
      && rows'[|s.rows| + k] ==
           Row(NewEvents(s.items, Perform(s.items, c))[k], stamps[k].0, PENDING, stamps[k].1, 0, None, None)
  {
  }

  lemma DeliveryNeverGoesBack(s: MatchIndex.MatchStore, e: Envelope, candidates: seq<ItemId>, x: ItemId)
    requires !e.eventType.OtherEvent? && e.payload.id == e.aggregateId && e.payload.version == e.aggregateVersion
    requires x in s.projections
    ensures var p' := MatchIndex.Consume(s, e, candidates).0.projections;
      && x in p' && s.projections[x].version <= p'[x].version
      && (s.projections[x].version == p'[x].version ==> p'[x] == s.projections[x])
  {
    if e.eventId !in s.processed {
      UpsertStoresPayload(s.projections, e);
      ProjectionsAfterDelivery(s, e, candidates);
    }
  }

  /** MAIN: a projection never goes back to an earlier version, nor changes within one. */
  lemma ProjectionsNeverGoBack(settings: Settings, run: seq<Action>, a: Action, x: ItemId)
    requires ValidRun(settings, run) && Enabled(settings, After(settings, run), a)
    requires x in After(settings, run).matching.projections
    ensures var s := After(settings, run); var p := s.matching.projections;
      var p' := Step(settings, s, a).matching.projections;
      x in p' && p[x].version <= p'[x].version && (p[x].version == p'[x].version ==> p'[x] == p[x])
  {
    RunsKeepSystem(settings, run);
    var s := After(settings, run);
    match a
    case Deliver(e, candidates) =>
      EventInStream(s.items, e);
      DeliveryNeverGoesBack(s.matching, e, candidates, x);
    case Decision(id, d, user) => DecisionsLeaveProjections(s.matching, id, d, user);
    case Command(_, _) =>
    case Publish(_, _, _) =>
  }

  // ---- Convergence ----

  /** The event of the item's current version has been delivered. */
  ghost predicate CaughtUp(s: System, x: ItemId) {
    && x in s.items.items
    && exists e :: e in s.consumed && e.aggregateId == x && e.aggregateVersion == s.items.items[x].version
  }

  lemma NewestEventShowsItem(items: ItemStore, e: Envelope)
    requires StoreOk(items) && e in EventSet(items)
    requires e.aggregateId in items.items && e.aggregateVersion == items.items[e.aggregateId].version
    ensures e.payload == items.items[e.aggregateId]
  {
    EventInStream(items, e);
    assert ItemOk(items, e.aggregateId);
  }

  lemma CaughtUpMeansCurrent(s: System, x: ItemId)
    requires SystemOk(s) && CaughtUp(s, x)
    ensures x in s.matching.projections && s.matching.projections[x] == s.items.items[x]
  {
    var e :| e in s.consumed && e.aggregateId == x && e.aggregateVersion == s.items.items[x].version;
    assert x in s.matching.projections && e.aggregateVersion <= s.matching.projections[x].version;
    var f :| f in s.consumed && f.aggregateId == x && f.payload == s.matching.projections[x];
    EventInStream(s.items, f);
    NewestEventShowsItem(s.items, f);
  }

  /** Everything published and everything sent delivered at least once. */
  ghost predicate Drained(s: System) {
    && (forall i :: 0 <= i < |s.rows| ==> s.rows[i].status.PUBLISHED?)
    && s.sent <= s.consumed
  }

  lemma DrainedMeansCaughtUp(s: System, x: ItemId)
    requires SystemOk(s) && Drained(s) && x in s.items.items
    ensures CaughtUp(s, x)
  {
    assert ItemOk(s.items, x);
    var events := EventsOf(s.items, x);
    var e := events[|events| - 1];
    assert e in events;
    assert e in s.items.outbox;
    var i :| 0 <= i < |s.items.outbox| && s.items.outbox[i] == e;
    assert s.rows[i].event == e;
  }

  lemma CurrentMeansCaughtUp(s: System, x: ItemId)
    requires SystemOk(s) && x in s.items.items
    requires x in s.matching.projections && s.matching.projections[x] == s.items.items[x]
    ensures CaughtUp(s, x)
  {
    var e :| e in s.consumed && e.aggregateId == x && e.payload == s.matching.projections[x];
    EventInStream(s.items, e);
  }

  /** MAIN: a projection equals the item exactly when the event of the item's current version was
      delivered, whatever happened to the earlier ones. */
  lemma ProjectionsCatchUp(settings: Settings, run: seq<Action>, x: ItemId)
    requires ValidRun(settings, run) && x in After(settings, run).items.items
    ensures var s := After(settings, run);
      CaughtUp(s, x) <==> x in s.matching.projections && s.matching.projections[x] == s.items.items[x]
  {
    RunsKeepSystem(settings, run);
    var s := After(settings, run);
    if CaughtUp(s, x) { CaughtUpMeansCurrent(s, x); }
    if x in s.matching.projections && s.matching.projections[x] == s.items.items[x] { CurrentMeansCaughtUp(s, x); }
  }

  /** MAIN: once every item's current event was delivered, the projections are the items, and the
      suggested pairs are exactly the pairs of current items the matching rule accepts, less the
      decided ones. */
  lemma SystemConverges(settings: Settings, run: seq<Action>)
    requires ValidRun(settings, run)
    requires forall x :: x in After(settings, run).items.items ==> CaughtUp(After(settings, run), x)
    ensures var s := After(settings, run);
      && s.matching.projections == s.items.items
      && SuggestedPairs(s.matching) == CandidatePairs(s.items.items) - DecidedPairs(s.matching)
  {
    RunsKeepSystem(settings, run);
    var s := After(settings, run);
    forall x | x in s.items.items ensures x in s.matching.projections && s.matching.projections[x] == s.items.items[x] {
      CaughtUpMeansCurrent(s, x);
    }
    forall x | x in s.matching.projections ensures x in s.items.items {
      var e :| e in s.consumed && e.aggregateId == x && e.payload == s.matching.projections[x];
      EventInStream(s.items, e);
    }
    ExactMeansRecomputed(s.matching);
  }

  /** MAIN: publishing the whole outbox and delivering every message at least once is enough. */
  lemma DrainedSystemConverges(settings: Settings, run: seq<Action>)
    requires ValidRun(settings, run) && Drained(After(settings, run))
    ensures var s := After(settings, run);
      && s.matching.projections == s.items.items
      && SuggestedPairs(s.matching) == CandidatePairs(s.items.items) - DecidedPairs(s.matching)
  {
    RunsKeepSystem(settings, run);
    var s := After(settings, run);
    forall x | x in s.items.items ensures CaughtUp(s, x) { DrainedMeansCaughtUp(s, x); }
    SystemConverges(settings, run);
  }

  // ---- Publication order per item ----

  /** Rows i and j carry two versions of one item, i the earlier one. */
  predicate VersionsOf(rows: seq<Row>, x: ItemId, i: nat, j: nat) {
    && i < |rows| && j < |rows|
    && rows[i].event.aggregateId == x == rows[j].event.aggregateId
    && rows[i].event.aggregateVersion < rows[j].event.aggregateVersion
  }

  /** Versions of an item are enqueued in order. */
  lemma EarlierVersionComesFirst(s: System, x: ItemId, i: nat, j: nat)
    requires SystemOk(s) && VersionsOf(s.rows, x, i, j)
    ensures i < j
  {
    assert ItemOk(s.items, x);
    if j < i {
      var a, b := FilterKeepsOrder(s.items.outbox, j, i, OfItem(x));
    }
  }

  /** Somewhere in the run the later version was published and the earlier one was not. */
  ghost predicate Overtaken(settings: Settings, run: seq<Action>, i: nat, j: nat) {
    || (Progress.IsPublished(After(settings, run).rows, j) && !Progress.IsPublished(After(settings, run).rows, i))
    || (run != [] && Overtaken(settings, run[..|run| - 1], i, j))
  }

  /** The action publishes row j while row i, unpublished, is not due. */
  predicate PassesOver(settings: Settings, rows: seq<Row>, a: Action, i: nat, j: nat) {
    && a.Publish?
    && Progress.Publishes(settings, rows, Progress.Batch(a.now, a.selected, a.outcomes), j)
    && i < |rows| && !Progress.IsPublished(rows, i) && !IsDue(rows[i], a.now)
  }

  ghost predicate PassedOver(settings: Settings, run: seq<Action>, i: nat, j: nat) {
    run != [] &&
    var before := run[..|run| - 1];
    PassedOver(settings, before, i, j) || PassesOver(settings, After(settings, before).rows, run[|run| - 1], i, j)
  }

  /** What an action does to rows that exist already. */
  lemma RowsAfterStep(settings: Settings, s: System, a: Action)
    requires SystemOk(s) && Enabled(settings, s, a)
    ensures var rows' := Step(settings, s, a).rows;
      if a.Publish? then rows' == Progress.After(settings, s.rows, Progress.Batch(a.now, a.selected, a.outcomes))
      else s.rows <= rows' && forall k :: |s.rows| <= k < |rows'| ==> rows'[k].status.PENDING?
  {
  }

  lemma StepOvertakesIff(settings: Settings, s: System, a: Action, i: nat, j: nat)
    requires SystemOk(s) && Enabled(settings, s, a) && Progress.Older(s.rows, i, j)
    ensures var rows' := Step(settings, s, a).rows; var passed := PassesOver(settings, s.rows, a, i, j);
      && Progress.Older(rows', i, j) && rows'[i].event == s.rows[i].event && rows'[j].event == s.rows[j].event
      && (Progress.IsPublished(rows', j) && !Progress.IsPublished(rows', i) ==>
            passed || (Progress.IsPublished(s.rows, j) && !Progress.IsPublished(s.rows, i)))
      && (passed ==> Progress.IsPublished(rows', j) && !Progress.IsPublished(rows', i))
  {
    RowsAfterStep(settings, s, a);
    if a.Publish? {
      var step := Progress.Batch(a.now, a.selected, a.outcomes);
      Progress.StepKeepsTimes(settings, s.rows, step, i);
      Progress.StepKeepsTimes(settings, s.rows, step, j);
      Progress.StepOvertakesIff(settings, s.rows, step, i, j);
    }
  }

  lemma {:induction false} NotYetEnqueued(settings: Settings, run: seq<Action>, i: nat, j: nat)
    requires ValidRun(settings, run) && j >= |After(settings, run).rows|
    ensures !Overtaken(settings, run, i, j) && !PassedOver(settings, run, i, j)
  {
    if run != [] {
      var before, a := run[..|run| - 1], run[|run| - 1];
      var s := After(settings, before);
      RunsKeepSystem(settings, before);
      RowsAfterStep(settings, s, a);
      if a.Publish? { BatchPublishesPrefix(settings, s.rows, a.now, a.selected, a.outcomes); }
      NotYetEnqueued(settings, before, i, j);
    }
  }

  lemma {:induction false} RowsOvertakenIff(settings: Settings, run: seq<Action>, i: nat, j: nat)
    requires ValidRun(settings, run) && i < j && Progress.Older(After(settings, run).rows, i, j)
    ensures Overtaken(settings, run, i, j) <==> PassedOver(settings, run, i, j)
  {
    var before, a := run[..|run| - 1], run[|run| - 1];
    var s := After(settings, before);
    RunsKeepSystem(settings, before);
    RowsAfterStep(settings, s, a);
    if a.Publish? { BatchPublishesPrefix(settings, s.rows, a.now, a.selected, a.outcomes); }
    if j < |s.rows| {
      OlderBefore(settings, s, a, i, j);
      RowsOvertakenIff(settings, before, i, j);
      StepOvertakesIff(settings, s, a, i, j);
    } else {
      NotYetEnqueued(settings, before, i, j);
    }
  }

  lemma OlderBefore(settings: Settings, s: System, a: Action, i: nat, j: nat)
    requires SystemOk(s) && Enabled(settings, s, a) && i < |s.rows| && j < |s.rows|
    requires Progress.Older(Step(settings, s, a).rows, i, j)
    ensures Progress.Older(s.rows, i, j)
  {
    RowsAfterStep(settings, s, a);
    if a.Publish? {
      var step := Progress.Batch(a.now, a.selected, a.outcomes);
      Progress.StepKeepsTimes(settings, s.rows, step, i);
      Progress.StepKeepsTimes(settings, s.rows, step, j);
    }
  }

  /** MAIN: over every run of the whole system, of two versions of one item with different times, the
      later is published without the earlier if and only if a batch published it while the earlier one
      was not due. */
  lemma VersionsOvertakenIff(settings: Settings, run: seq<Action>, x: ItemId, i: nat, j: nat)
    requires ValidRun(settings, run)
    requires VersionsOf(After(settings, run).rows, x, i, j) && Progress.Older(After(settings, run).rows, i, j)
    ensures Overtaken(settings, run, i, j) <==> PassedOver(settings, run, i, j)
  {
    RunsKeepSystem(settings, run);
    EarlierVersionComesFirst(After(settings, run), x, i, j);
    RowsOvertakenIff(settings, run, i, j);
  }

  // ---- A run that publishes out of order ----

  const RETRY_SETTINGS := Settings(10, 5.0, 3)

  function OvertakingRun(d: Draft): seq<Action> {
    [ Command(CreateItem(1, d), [(0.0, 0.0)]),
      Command(UpdateStatus(1, MATCHED), [(1.0, 1.0)]),
      Publish(2.0, [0, 1], [Failed("not confirmed", 2.0, false), Delivered(2.0)]),
      Publish(3.0, [1], [Delivered(3.0)]) ]
  }

  lemma AfterTwoCommands(d: Draft)
    ensures var run := OvertakingRun(d)[..2]; var s := After(RETRY_SETTINGS, run);
      var item := FromDraft(1, d); var moved := MovedItem(item, MATCHED);
      && ValidRun(RETRY_SETTINGS, run)
      && s == System(s.items,
                     [ NewRow(Envelope(0, ItemCreated, 1, 1, item), 0.0, 0.0),
                       NewRow(Envelope(1, ItemUpdated, 1, 2, moved), 1.0, 1.0) ],
                     {}, {}, MatchIndex.EMPTY_STORE)
      && s.items.items == map[1 := moved]
  {
    var run := OvertakingRun(d)[..2];
    assert run[..1][..0] == [] && run[..1] == [run[0]];
    var s0, s1 := After(RETRY_SETTINGS, run[..1][..0]), After(RETRY_SETTINGS, run[..1]);
    assert s0 == INITIAL;
    var created := FromDraft(1, d);
    assert NewEvents(s0.items, Perform(s0.items, CreateItem(1, d))) == [Envelope(0, ItemCreated, 1, 1, created)];
    assert s1 == Step(RETRY_SETTINGS, s0, run[0]);
    var moved := MovedItem(FromDraft(1, d), MATCHED);
    assert NewEvents(s1.items, Perform(s1.items, UpdateStatus(1, MATCHED))) == [Envelope(1, ItemUpdated, 1, 2, moved)];
  }

  /** A batch of two due rows whose first publication fails. */
  lemma HeadFails(first: Row, second: Row)
    requires first.status.PENDING? && first.attempts == 0 && first.occurredAt == 0.0 == first.availableAt
    requires second.status.PENDING? && second.occurredAt == 1.0 == second.availableAt
    ensures var rows, outcomes := [first, second], [Failed("not confirmed", 2.0, false), Delivered(2.0)];
      && PendingQuery(rows, 2.0, 10, [0, 1])
      && BatchResult(RETRY_SETTINGS, rows, [0, 1], outcomes) ==
           ([MarkFailed(first, "not confirmed", 7.0), second], 0)
      && MessagesSent(rows, [0, 1], outcomes, 0) == {}
  {
    var rows := [first, second];
    var row := MarkFailed(first, "not confirmed", 7.0);
    assert Pow2(0) == 1;
    assert Delay(RETRY_SETTINGS, 0) == 5.0;
    assert rows[0 := row] == [row, second];
  }

  /** The next batch, while the first row waits. */
  lemma SecondIsPublished(first: Row, second: Row)
    requires first.status.FAILED? && first.availableAt == 7.0
    requires second.status.PENDING? && second.availableAt == 1.0
    ensures var rows := [first, second];
      && PendingQuery(rows, 3.0, 10, [1])
      && BatchResult(RETRY_SETTINGS, rows, [1], [Delivered(3.0)]) == ([first, MarkPublished(second, 3.0)], 1)
      && MessagesSent(rows, [1], [Delivered(3.0)], 1) == {second.event}
  {
    var rows := [first, second];
    assert rows[1 := MarkPublished(second, 3.0)] == [first, MarkPublished(second, 3.0)];
    assert PublishFrom(RETRY_SETTINGS, rows[1 := MarkPublished(second, 3.0)], [1], [Delivered(3.0)], 1).1 == 1;
    assert Reached([Delivered(3.0)], 1, 0);
  }

  /** MAIN: publication order per item is not kept. An item is created and updated; the first event's
      publication fails once. The next batch publishes version 2 while version 1 still waits. */
  lemma LaterVersionIsPublishedFirst(d: Draft)
    ensures var run := OvertakingRun(d); var s := After(RETRY_SETTINGS, run);
      && ValidRun(RETRY_SETTINGS, run)
      && |s.rows| == 2
      && s.rows[0].event.aggregateId == s.rows[1].event.aggregateId == 1
      && s.rows[0].event.aggregateVersion == 1 && s.rows[0].status.FAILED?
      && s.rows[1].event.aggregateVersion == 2 && s.rows[1].status.PUBLISHED?
      && s.sent == {s.rows[1].event}
  {
    var run := OvertakingRun(d);
    AfterTwoCommands(d);
    assert run[..3][..2] == run[..2] && run[..4] == run;
    var s2, s3 := After(RETRY_SETTINGS, run[..2]), After(RETRY_SETTINGS, run[..3]);
    HeadFails(s2.rows[0], s2.rows[1]);
    assert s3 == Step(RETRY_SETTINGS, s2, run[2]);
    SecondIsPublished(s3.rows[0], s3.rows[1]);
    assert After(RETRY_SETTINGS, run) == Step(RETRY_SETTINGS, s3, run[3]);
  }
}
