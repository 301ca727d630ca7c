/** Duplication and reordering of item events do not matter: the projections, and with them the
    suggestions, depend only on which events were delivered and which pairs were decided. */
module MatchConfluence {
  import opened Domain
  import opened MatchIndex
  import opened IndexExactness

  /** Events as the item-service writes them: the envelope repeats the payload's id and version, an
      event id names one event, and (item, version) determines the payload. */
  ghost predicate WellFormed(events: set<Envelope>) {
    && (forall e :: e in events ==> e.payload.id == e.aggregateId && e.payload.version == e.aggregateVersion)
    && (forall e, f :: e in events && f in events && e.eventId == f.eventId ==> e == f)
    && (forall e, f :: e in events && f in events && SameVersion(e, f) ==> e.payload == f.payload)
  }

  predicate SameVersion(e: Envelope, f: Envelope) {
    e.aggregateId == f.aggregateId && e.aggregateVersion == f.aggregateVersion
  }

  lemma SubsetIsWellFormed(some: set<Envelope>, all: set<Envelope>)
    requires some <= all && WellFormed(all)
    ensures WellFormed(some)
  {
  }

  /** The item events among the deliveries of a run. */
  function DeliveredEvents(run: seq<MatchAction>): set<Envelope> {
    set i | 0 <= i < |run| && run[i].Delivery? && !run[i].event.eventType.OtherEvent? :: run[i].event
  }

  lemma DeliveredByLast(run: seq<MatchAction>)
    requires run != []
    ensures var before := DeliveredEvents(run[..|run| - 1]); var last := run[|run| - 1];
      DeliveredEvents(run) ==
        if last.Delivery? && !last.event.eventType.OtherEvent? then before + {last.event} else before
  {
    var before := run[..|run| - 1];
    assert forall i :: 0 <= i < |before| ==> run[i] == before[i];
    forall e | e in DeliveredEvents(run) && e !in DeliveredEvents(before) ensures e == run[|run| - 1].event {
      var i :| 0 <= i < |run| && run[i].Delivery? && run[i].event == e && !e.eventType.OtherEvent?;
      if i < |before| { assert before[i] == run[i]; }
    }
    forall e | e in DeliveredEvents(before) ensures e in DeliveredEvents(run) {
      var i :| 0 <= i < |before| && before[i].Delivery? && before[i].event == e && !e.eventType.OtherEvent?;
      assert run[i] == before[i];
    }
  }

  /** The projections are the newest payloads among the events. */
  ghost predicate NewestOf(p: Projections, events: set<Envelope>) {
    && (forall e :: e in events ==> e.aggregateId in p && e.aggregateVersion <= p[e.aggregateId].version)
    && (forall x :: x in p ==> exists e :: e in events && e.aggregateId == x && e.payload == p[x])
  }

  lemma SameNewest(p: Projections, p': Projections, events: set<Envelope>, x: ItemId)
    requires WellFormed(events) && NewestOf(p, events) && NewestOf(p', events)
    requires x in p
    ensures x in p' && p'[x] == p[x]
  {
    var e :| e in events && e.aggregateId == x && e.payload == p[x];
    assert x in p';
    var f :| f in events && f.aggregateId == x && f.payload == p'[x];
    assert e.aggregateVersion == p[x].version && f.aggregateVersion == p'[x].version;
    assert SameVersion(e, f);
  }

  lemma NewestIsUnique(p: Projections, p': Projections, events: set<Envelope>)
    requires WellFormed(events) && NewestOf(p, events) && NewestOf(p', events)
    ensures p == p'
  {
    forall x | x in p ensures x in p' && p'[x] == p[x] { SameNewest(p, p', events, x); }
    forall x | x in p' ensures x in p { SameNewest(p', p, events, x); }
  }

  /** What the guard does to the projections: nothing for a stale event, else the payload is stored. */
  function AfterUpsert(p: Projections, e: Envelope): Projections {
    var u := UpsertProjection(p, e);
    if u.Applied? then u.projections else p
  }

  lemma UpsertStoresPayload(p: Projections, e: Envelope)
    requires e.payload.id == e.aggregateId
    ensures var u := UpsertProjection(p, e);
      && !u.Collision? && u.id == e.aggregateId
      && AfterUpsert(p, e) ==
           if e.aggregateId in p && e.aggregateVersion <= p[e.aggregateId].version then p
           else p[e.aggregateId := e.payload]
  {
  }

  lemma UpsertKeepsNewest(p: Projections, events: set<Envelope>, e: Envelope)
    requires e.payload.id == e.aggregateId && e.payload.version == e.aggregateVersion
    requires NewestOf(p, events)
    ensures NewestOf(AfterUpsert(p, e), events + {e})
  {
    UpsertStoresPayload(p, e);
    var p' := AfterUpsert(p, e);
    forall x | x in p' ensures exists f :: f in events + {e} && f.aggregateId == x && f.payload == p'[x] {
      if x in p && p'[x] == p[x] {
        var f :| f in events && f.aggregateId == x && f.payload == p[x];
        assert f in events + {e};
      } else {
        assert e in events + {e} && p'[x] == e.payload;
      }
    }
  }

  lemma ProjectionsAfterDelivery(s: MatchStore, e: Envelope, candidates: seq<ItemId>)
    requires !e.eventType.OtherEvent? && e.eventId !in s.processed
    ensures var s' := Consume(s, e, candidates).0; var u := UpsertProjection(s.projections, e);
      && s'.projections == AfterUpsert(s.projections, e)
      && (!u.Collision? ==> s'.processed == s.processed + {e.eventId})
  {
    var u := UpsertProjection(s.projections, e);
    if u.Applied? {
      var expired := s.(projections := u.projections, rows := ExpireInvalid(u.projections, u.id, s.rows));
      GenerationTouchesOnlyRows(expired, u.id, candidates);
    }
  }

  lemma {:induction false} GenerationTouchesOnlyRows(s: MatchStore, x: ItemId, candidates: seq<ItemId>)
    requires x in s.projections
    ensures GenerateAll(s, x, candidates).processed == s.processed
  {
    if candidates != [] {
      GenerationTouchesOnlyRows(s, x, candidates[..|candidates| - 1]);
    }
  }

  function EventIds(events: set<Envelope>): set<EventId> {
    set e | e in events :: e.eventId
  }

  /** The processed ids are those of the delivered events, and the projections their newest payloads. */
  ghost predicate Reflects(s: MatchStore, events: set<Envelope>) {
    NewestOf(s.projections, events) && s.processed == EventIds(events)
  }

  lemma EventIdsGrow(events: set<Envelope>, e: Envelope)
    ensures EventIds(events + {e}) == EventIds(events) + {e.eventId}
  {
    assert e in events + {e};
    forall id | id in EventIds(events) ensures id in EventIds(events + {e}) {
      var f :| f in events && f.eventId == id;
      assert f in events + {e};
    }
  }

  lemma NewDeliveryReflected(s: MatchStore, events: set<Envelope>, e: Envelope, candidates: seq<ItemId>)
    requires !e.eventType.OtherEvent? && e.eventId !in s.processed
    requires e.payload.id == e.aggregateId && e.payload.version == e.aggregateVersion
    requires Reflects(s, events)
    ensures Reflects(Consume(s, e, candidates).0, events + {e})
  {
    UpsertStoresPayload(s.projections, e);
    UpsertKeepsNewest(s.projections, events, e);
    ProjectionsAfterDelivery(s, e, candidates);
    EventIdsGrow(events, e);
  }

  lemma DeliveryReflected(s: MatchStore, events: set<Envelope>, e: Envelope, candidates: seq<ItemId>)
    requires !e.eventType.OtherEvent?
    requires Reflects(s, events) && WellFormed(events + {e})
    ensures Reflects(Consume(s, e, candidates).0, events + {e})
  {
    assert e in events + {e};
    if e.eventId in s.processed {
      var f :| f in events && f.eventId == e.eventId;
      assert f in events + {e};
      assert events + {e} == events;
    } else {
      NewDeliveryReflected(s, events, e, candidates);
    }
  }

  lemma {:induction false} RunsReflectEvents(run: seq<MatchAction>)
    requires WellFormed(DeliveredEvents(run))
    ensures Reflects(Exec(run), DeliveredEvents(run))
  {
    if run != [] {
      var before, last := run[..|run| - 1], run[|run| - 1];
      DeliveredByLast(run);
      SubsetIsWellFormed(DeliveredEvents(before), DeliveredEvents(run));
      RunsReflectEvents(before);
      if last.Delivery? && !last.event.eventType.OtherEvent? {
        DeliveryReflected(Exec(before), DeliveredEvents(before), last.event, last.candidates);
      } else if last.Decided? {
        DecisionsLeaveProjections(Exec(before), last.id, last.decision, last.user);
      }
    }
  }

  lemma DecisionsLeaveProjections(s: MatchStore, id: MatchId, d: Decision, user: Option<UserId>)
    ensures var s' := Decide(s, id, d, user).0;
      s'.projections == s.projections && s'.processed == s.processed
  {
  }

  /** MAIN: two runs that delivered the same set of events, in whatever orders, with whatever
      repetitions and interleaved decisions, have the same projections; if they also decided the
      same pairs, they suggest the same pairs. */
  lemma Confluence(run1: seq<MatchAction>, run2: seq<MatchAction>)
    requires ValidRun(run1) && ValidRun(run2)
    requires DeliveredEvents(run1) == DeliveredEvents(run2) && WellFormed(DeliveredEvents(run1))
    ensures Exec(run1).projections == Exec(run2).projections
    ensures DecidedPairs(Exec(run1)) == DecidedPairs(Exec(run2)) ==>
              SuggestedPairs(Exec(run1)) == SuggestedPairs(Exec(run2))
  {
    RunsReflectEvents(run1);
    RunsReflectEvents(run2);
    NewestIsUnique(Exec(run1).projections, Exec(run2).projections, DeliveredEvents(run1));
    IndexEqualsRecomputation(run1);
    IndexEqualsRecomputation(run2);
  }
}
