/** Accepted matches: when an item has several, and that each acceptance is announced once. */
module AcceptedMatches {
  import opened Domain
  import opened Seqs
  import opened MatchIndex
  import opened IndexExactness
  import opened MatchLifecycle

  // ---- At most one accepted match per item ----

  predicate IsAccepted(s: MatchStore, i: nat) {
    i < |s.rows| && s.rows[i].status.ACCEPTED?
  }

  predicate SharesItem(a: Suggestion, b: Suggestion) {
    a.lost == b.lost || a.found == b.found || a.lost == b.found || a.found == b.lost
  }

  ghost predicate OneAcceptedPerItem(s: MatchStore) {
    forall i: nat, j: nat :: i < j && IsAccepted(s, i) && IsAccepted(s, j) ==> !SharesItem(s.rows[i], s.rows[j])
  }

  /** The step accepts a SUGGESTED row one of whose items has an accepted match already. */
  ghost predicate Doubles(s: MatchStore, a: MatchAction) {
    && a.Decided? && a.decision.Accept? && IsSuggested(s, a.id)
    && exists i: nat :: IsAccepted(s, i) && SharesItem(s.rows[i], s.rows[a.id])
  }

  lemma {:induction false} GenerateAllAcceptsNone(s: MatchStore, x: ItemId, candidates: seq<ItemId>, i: nat)
    requires x in s.projections
    ensures IsAccepted(GenerateAll(s, x, candidates), i) ==> IsAccepted(s, i)
  {
    if candidates != [] {
      GenerateAllAcceptsNone(s, x, candidates[..|candidates| - 1], i);
    }
  }

  lemma DeliveryAcceptsNone(s: MatchStore, a: MatchAction, i: nat)
    requires a.Delivery?
    ensures IsAccepted(Apply(s, a), i) ==> IsAccepted(s, i)
  {
    var u := UpsertProjection(s.projections, a.event);
    if u.Applied? && Apply(s, a) != s {
      var expired := s.(projections := u.projections, rows := ExpireInvalid(u.projections, u.id, s.rows));
      GenerateAllAcceptsNone(expired, u.id, a.candidates, i);
    }
  }

  /** A step accepts at most the row it names, and that only if it was SUGGESTED. */
  lemma AcceptedByStep(s: MatchStore, a: MatchAction, i: nat)
    requires Exact(s)
    ensures IsAccepted(s, i) ==> IsAccepted(Apply(s, a), i) && Apply(s, a).rows[i] == s.rows[i]
    ensures IsAccepted(Apply(s, a), i) && !IsAccepted(s, i) ==>
              && a.Decided? && a.decision.Accept? && a.id == i && IsSuggested(s, i)
              && SamePair(Apply(s, a).rows[i], s.rows[i])
    ensures a.Decided? && a.decision.Accept? && a.id == i && IsSuggested(s, i) ==>
              IsAccepted(Apply(s, a), i) && SamePair(Apply(s, a).rows[i], s.rows[i])
  {
    if IsAccepted(s, i) { ApplyKeepsDecided(s, a, i); }
    if a.Delivery? { DeliveryAcceptsNone(s, a, i); }
  }

  /** A step gives an item a second accepted match exactly when it accepts a suggestion of an item that
      has one. */
  lemma OneAcceptedKeptIff(s: MatchStore, a: MatchAction)
    requires Exact(s) && OneAcceptedPerItem(s)
    ensures OneAcceptedPerItem(Apply(s, a)) <==> !Doubles(s, a)
  {
    var s' := Apply(s, a);
    if Doubles(s, a) {
      var i: nat :| IsAccepted(s, i) && SharesItem(s.rows[i], s.rows[a.id]);
      AcceptedByStep(s, a, i);
      AcceptedByStep(s, a, a.id);
      var low, high := if i < a.id then i else a.id, if i < a.id then a.id else i;
      assert IsAccepted(s', low) && IsAccepted(s', high) && SharesItem(s'.rows[low], s'.rows[high]);
    } else {
      forall i: nat, j: nat | i < j && IsAccepted(s', i) && IsAccepted(s', j)
        ensures !SharesItem(s'.rows[i], s'.rows[j])
      {
        AcceptedByStep(s, a, i);
        AcceptedByStep(s, a, j);
      }
    }
  }

  lemma OneAcceptedBefore(s: MatchStore, a: MatchAction)
    requires Exact(s) && OneAcceptedPerItem(Apply(s, a))
    ensures OneAcceptedPerItem(s)
  {
    forall i: nat, j: nat | i < j && IsAccepted(s, i) && IsAccepted(s, j) ensures !SharesItem(s.rows[i], s.rows[j]) {
      AcceptedByStep(s, a, i);
      AcceptedByStep(s, a, j);
    }
  }

  /** No step of the run accepts a suggestion of an item that has an accepted match already. */
  ghost predicate NeverDoubles(run: seq<MatchAction>) {
    run != [] ==>
      var before := run[..|run| - 1];
      NeverDoubles(before) && !Doubles(Exec(before), run[|run| - 1])
  }

  /** MAIN: over every run, no item ends up in two accepted matches if and only if no step accepted a
      suggestion of an item that had an accepted match already. The service does not check this. */
  lemma {:induction false} OneAcceptedPerItemIff(run: seq<MatchAction>)
    requires ValidRun(run)
    ensures OneAcceptedPerItem(Exec(run)) <==> NeverDoubles(run)
  {
    if run != [] {
      var before, a := run[..|run| - 1], run[|run| - 1];
      OneAcceptedPerItemIff(before);
      RunsAreExact(before);
      if OneAcceptedPerItem(Exec(before)) {
        OneAcceptedKeptIff(Exec(before), a);
      } else if OneAcceptedPerItem(Exec(run)) {
        OneAcceptedBefore(Exec(before), a);
      }
    }
  }

  // ---- A run with two ----

  function Sample(id: ItemId, c: Classification, text: string): Item {
    Item(id, c, text, text, text, text, text, 0, 9, AVAILABLE, 1)
  }

  function SampleEvent(id: ItemId, c: Classification, text: string): Envelope {
    Envelope(id, ItemCreated, id, 1, Sample(id, c, text))
  }

  function SampleRun(text: string): seq<MatchAction> {
    [ Delivery(SampleEvent(1, LOST, text), []),
      Delivery(SampleEvent(2, FOUND, text), [1]),
      Delivery(SampleEvent(3, FOUND, text), [1]) ]
  }

  lemma SamplesAreCandidates(p: Projections, x: ItemId, text: string)
    requires 1 in p && p[1] == Sample(1, LOST, text) && x in p && p[x] == Sample(x, FOUND, text)
    ensures Candidate(p, 1, x)
  {
  }

  /** Generating for a new found item while item 1 is the only lost one inserts one row. */
  lemma GenerationInserts(s: MatchStore, x: ItemId)
    requires x in s.projections && s.projections[x].classification.FOUND?
    requires Candidate(s.projections, 1, x)
    requires forall i :: 0 <= i < |s.rows| ==> !Touches(s.rows[i], x)
    ensures var a := AssessIds(s.projections, 1, x);
      GenerateAll(s, x, [1]) == Suggest(s, 1, x, a)
  {
    assert FindPair(s.rows, 1, x).None?;
    assert [1][..0] == [];
    assert GenerateAll(s, x, [1][..0]) == s;
  }

  lemma FoundIsSuggested(s: MatchStore, x: ItemId, text: string)
    requires x != 1 && x !in s.projections && x !in s.processed
    requires 1 in s.projections && s.projections[1] == Sample(1, LOST, text)
    requires forall y :: y in s.projections && y != 1 ==> s.projections[y].classification.FOUND?
    requires forall i :: 0 <= i < |s.rows| ==> !Touches(s.rows[i], x)
    ensures var d := Delivery(SampleEvent(x, FOUND, text), [1]); var s' := Apply(s, d);
      && Enabled(s, d)
      && s'.projections == s.projections[x := Sample(x, FOUND, text)] && s'.processed == s.processed + {x}
      && var a := AssessIds(s'.projections, 1, x);
         s'.rows == s.rows + [Suggestion(1, x, a.score, a.snapshot, SUGGESTED, None)]
  {
    var e := SampleEvent(x, FOUND, text);
    var p := s.projections[x := Sample(x, FOUND, text)];
    var s1 := s.(projections := p);
    assert UpsertProjection(s.projections, e) == Applied(x, p);
    assert ExpireInvalid(p, x, s.rows) == s.rows;
    SamplesAreCandidates(p, x, text);
    GenerationInserts(s1, x);
    assert Reindex(s, x, p, [1]) == Suggest(s1, 1, x, AssessIds(p, 1, x));
  }

  lemma LostIsStored(text: string)
    ensures var d := Delivery(SampleEvent(1, LOST, text), []); var s := Apply(EMPTY_STORE, d);
      && Enabled(EMPTY_STORE, d)
      && s.projections == map[1 := Sample(1, LOST, text)] && s.rows == [] && s.processed == {1}
  {
    var p := map[1 := Sample(1, LOST, text)];
    assert UpsertProjection(map[], SampleEvent(1, LOST, text)) == Applied(1, p);
    assert ExpireInvalid(p, 1, []) == [];
  }

  lemma RunExtends(run: seq<MatchAction>, a: MatchAction)
    requires ValidRun(run) && Enabled(Exec(run), a)
    ensures ValidRun(run + [a]) && Exec(run + [a]) == Apply(Exec(run), a)
  {
    assert (run + [a])[..|run|] == run;
  }

  lemma LostIsDelivered(text: string)
    ensures var run := SampleRun(text)[..1]; var s := Exec(run);
      && ValidRun(run)
      && s.projections == map[1 := Sample(1, LOST, text)] && s.rows == [] && s.processed == {1}
  {
    LostIsStored(text);
    RunExtends([], Delivery(SampleEvent(1, LOST, text), []));
    assert [] + [Delivery(SampleEvent(1, LOST, text), [])] == SampleRun(text)[..1];
  }

  /** The store after the second delivery, from the one after the first. */
  lemma AfterFirstFound(s: MatchStore, text: string)
    requires s.projections == map[1 := Sample(1, LOST, text)] && s.rows == [] && s.processed == {1}
    ensures var d := Delivery(SampleEvent(2, FOUND, text), [1]); var s' := Apply(s, d);
      && Enabled(s, d) && |s'.rows| == 1
      && s'.projections == map[1 := Sample(1, LOST, text), 2 := Sample(2, FOUND, text)] && s'.processed == {1, 2}
      && s'.rows[0].lost == 1 && s'.rows[0].found == 2 && s'.rows[0].status.SUGGESTED?
  {
    FoundIsSuggested(s, 2, text);
  }

  lemma FirstSuggestion(text: string)
    ensures var run := SampleRun(text)[..2]; var s := Exec(run);
      && ValidRun(run) && |s.rows| == 1
      && s.projections == map[1 := Sample(1, LOST, text), 2 := Sample(2, FOUND, text)] && s.processed == {1, 2}
      && s.rows[0].lost == 1 && s.rows[0].found == 2 && s.rows[0].status.SUGGESTED?
  {
    var run, found := SampleRun(text)[..1], Delivery(SampleEvent(2, FOUND, text), [1]);
    LostIsDelivered(text);
    AfterFirstFound(Exec(run), text);
    RunExtends(run, found);
    assert run + [found] == SampleRun(text)[..2];
  }

  lemma SampleSuggestions(text: string)
    ensures var s := Exec(SampleRun(text));
      && ValidRun(SampleRun(text)) && |s.rows| == 2
      && s.rows[0].lost == 1 == s.rows[1].lost && s.rows[0].found == 2 && s.rows[1].found == 3
      && s.rows[0].status.SUGGESTED? && s.rows[1].status.SUGGESTED?
  {
    FirstSuggestion(text);
    FoundIsSuggested(Exec(SampleRun(text)[..2]), 3, text);
    RunExtends(SampleRun(text)[..2], Delivery(SampleEvent(3, FOUND, text), [1]));
    assert SampleRun(text)[..2] + [Delivery(SampleEvent(3, FOUND, text), [1])] == SampleRun(text);
  }

  /** Right after one acceptance, another suggestion can be accepted exactly when it was SUGGESTED,
      whether or not they share an item. */
  lemma AcceptsDoNotCompete(run: seq<MatchAction>, a: MatchId, b: MatchId, userA: Option<UserId>, userB: Option<UserId>)
    requires ValidRun(run) && a != b
    requires a < |Exec(run).rows| && Exec(run).rows[a].status.SUGGESTED?
    ensures var s := Exec(run); var s1 := Decide(s, a, Accept, userA).0; var (s2, r) := Decide(s1, b, Accept, userB);
      && (r.Ok? <==> b < |s.rows| && s.rows[b].status.SUGGESTED?)
      && a < |s2.rows| && s2.rows[a].status.ACCEPTED?
      && (r.Ok? ==> b < |s2.rows| && s2.rows[b].status.ACCEPTED?)
  {
    var accept := Decided(a, Accept, userA);
    var longer := run + [accept];
    assert longer[..|longer| - 1] == run;
    assert Exec(longer) == Apply(Exec(run), accept);
    RecheckNeverFires(run, a, Accept, userA);
    RecheckNeverFires(longer, b, Accept, userB);
  }

  lemma BothAreAccepted(run: seq<MatchAction>, a: MatchId, b: MatchId)
    requires ValidRun(run) && a != b && a < |Exec(run).rows| && b < |Exec(run).rows|
    requires Exec(run).rows[a].status.SUGGESTED? && Exec(run).rows[b].status.SUGGESTED?
    ensures var longer := run + [Decided(a, Accept, None)] + [Decided(b, Accept, None)]; var s := Exec(longer);
      && ValidRun(longer) && a < |s.rows| && b < |s.rows|
      && s.rows[a].status.ACCEPTED? && SamePair(s.rows[a], Exec(run).rows[a])
      && s.rows[b].status.ACCEPTED? && SamePair(s.rows[b], Exec(run).rows[b])
  {
    AcceptsDoNotCompete(run, a, b, None, None);
    RunExtends(run, Decided(a, Accept, None));
    RunExtends(run + [Decided(a, Accept, None)], Decided(b, Accept, None));
  }

  /** A run in which one lost item ends up in two accepted matches. */
  lemma OneItemTwoAccepted(text: string)
    ensures var run := SampleRun(text) + [Decided(0, Accept, None)] + [Decided(1, Accept, None)]; var s := Exec(run);
      && ValidRun(run) && |s.rows| >= 2
      && s.rows[0].lost == s.rows[1].lost && s.rows[0].found != s.rows[1].found
      && s.rows[0].status.ACCEPTED? && s.rows[1].status.ACCEPTED?
      && !OneAcceptedPerItem(s)
  {
    var run := SampleRun(text) + [Decided(0, Accept, None)] + [Decided(1, Accept, None)];
    SampleSuggestions(text);
    BothAreAccepted(SampleRun(text), 0, 1);
    assert IsAccepted(Exec(run), 0) && IsAccepted(Exec(run), 1);
  }

  // ---- Acceptances are announced once ----

  /** An acceptance is the last event about its row. */
  lemma AcceptanceIsLast(events: seq<MatchEvent>, row: Suggestion, k: nat)
    requires Announced(events, row) && k < |events| && events[k].kind.MatchAccepted?
    ensures k == |events| - 1 && row.status.ACCEPTED? && events[k].payload == row
  {
  }

  lemma AcceptanceFitsRow(s: MatchStore, i: nat)
    requires AllAnnounced(s) && i < |s.outbox| && s.outbox[i].kind.MatchAccepted?
    ensures IsAccepted(s, s.outbox[i].matchId) && s.outbox[i].payload == s.rows[s.outbox[i].matchId]
  {
    var id := s.outbox[i].matchId;
    var events := EventsAbout(s.outbox, id);
    FilterKeeps(s.outbox, s.outbox[i], About(id));
    var k: nat :| k < |events| && events[k] == s.outbox[i];
    assert id < |s.rows|;
    AcceptanceIsLast(events, s.rows[id], k);
  }

  lemma NoSecondAcceptance(s: MatchStore, i: nat, j: nat)
    requires AllAnnounced(s) && i < j < |s.outbox| && s.outbox[i].kind.MatchAccepted?
    ensures s.outbox[j].matchId != s.outbox[i].matchId
  {
    var id := s.outbox[i].matchId;
    if s.outbox[j].matchId == id {
      AcceptanceFitsRow(s, i);
      var a, b := FilterKeepsOrder(s.outbox, i, j, About(id));
      AcceptanceIsLast(EventsAbout(s.outbox, id), s.rows[id], a);
    }
  }

  /** MAIN: over every run, two MatchAccepted events of one suggestion are one and the same entry of
      the outbox, and it carries the row as it stands. */
  lemma AcceptedOnce(run: seq<MatchAction>, i: nat, j: nat)
    requires i < |Exec(run).outbox| && j < |Exec(run).outbox|
    requires Exec(run).outbox[i].kind.MatchAccepted? && Exec(run).outbox[j].kind.MatchAccepted?
    requires Exec(run).outbox[i].matchId == Exec(run).outbox[j].matchId
    ensures i == j
    ensures var s := Exec(run); var e := s.outbox[i];
      IsAccepted(s, e.matchId) && e.payload == s.rows[e.matchId]
  {
    LifecycleHolds(run);
    AcceptanceFitsRow(Exec(run), i);
    if i < j { NoSecondAcceptance(Exec(run), i, j); }
    if j < i { NoSecondAcceptance(Exec(run), j, i); }
  }
}
