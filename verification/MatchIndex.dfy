/** What the matching-service stores, and what each of its transactions does to it. */
module MatchIndex {
  import opened Domain
  import opened Scoring
  import opened Seqs

  datatype MatchStatus = SUGGESTED | ACCEPTED | REJECTED | EXPIRED

  // A suggestion's id is its position in the table: rows are inserted, never deleted.
  type MatchId = nat

  datatype Suggestion = Suggestion(
    lost: ItemId,
    found: ItemId,
    score: nat,
    snapshot: Snapshot,
    status: MatchStatus,
    decidedBy: Option<UserId>)

  datatype MatchEventType = MatchSuggested | MatchAccepted | MatchRejected

  datatype MatchEvent = MatchEvent(kind: MatchEventType, matchId: MatchId, payload: Suggestion)

  type Projections = map<ItemId, Item>

  datatype MatchStore = MatchStore(
    projections: Projections,
    rows: seq<Suggestion>,
    processed: set<EventId>,
    outbox: seq<MatchEvent>)

  const EMPTY_STORE := MatchStore(map[], [], {}, [])

  datatype MatchError =
    | UnsupportedEvent
    | DuplicateProjection
    | MatchNotFound
    | AlreadyRejected
    | AlreadyAccepted
    | AlreadyExpired
    | NotEligibleForDecision

  function AssessIds(p: Projections, lost: ItemId, found: ItemId): Assessment {
    Assess(Lookup(p, lost), Lookup(p, found))
  }

  predicate Candidate(p: Projections, lost: ItemId, found: ItemId) {
    AssessIds(p, lost, found).isCandidate
  }

  // ---- Consuming an item event ----

  datatype Upsert =
    | Stale(id: ItemId)
    | Applied(id: ItemId, projections: Projections)
    | Collision

  /** The version guard. A row is looked up by the envelope's aggregate but inserted under the
      payload's id; an existing row keeps its id. */
  function UpsertProjection(p: Projections, e: Envelope): Upsert {
    if e.aggregateId in p then
      if e.aggregateVersion <= p[e.aggregateId].version then Stale(e.aggregateId)
      else Applied(e.aggregateId, p[e.aggregateId := e.payload.(id := e.aggregateId)])
    else if e.payload.id in p then Collision
    else Applied(e.payload.id, p[e.payload.id := e.payload])
  }

  predicate Touches(row: Suggestion, x: ItemId) {
    row.lost == x || row.found == x
  }

  function Expired(row: Suggestion): Suggestion {
    row.(status := EXPIRED)
  }

  function ExpireRow(p: Projections, x: ItemId, row: Suggestion): Suggestion {
    if row.status.SUGGESTED? && Touches(row, x) && !Candidate(p, row.lost, row.found) then Expired(row) else row
  }

  function ExpireInvalid(p: Projections, x: ItemId, rows: seq<Suggestion>): (rows': seq<Suggestion>)
    ensures |rows'| == |rows|
    ensures forall i :: 0 <= i < |rows| ==> rows'[i] == ExpireRow(p, x, rows[i])
  {
    seq(|rows|, i requires 0 <= i < |rows| => ExpireRow(p, x, rows[i]))
  }

  /** Position of the first row for a pair. */
  function FindPair(rows: seq<Suggestion>, lost: ItemId, found: ItemId): (at: Option<MatchId>)
    ensures at.Some? ==> at.value < |rows| && rows[at.value].lost == lost && rows[at.value].found == found
    ensures at.None? ==> forall i :: 0 <= i < |rows| ==> rows[i].lost != lost || rows[i].found != found
  {
    if rows == [] then None
    else
      var last := |rows| - 1;
      var earlier := FindPair(rows[..last], lost, found);
      if earlier.Some? then earlier
      else if rows[last].lost == lost && rows[last].found == found then Some(last)
      else None
  }

  function Opposite(c: Classification): Classification {
    if c.LOST? then FOUND else LOST
  }

  /** What the candidate query may return: every projection of the opposite classification except
      the item itself, each once, in whatever order. */
  ghost predicate CandidateQuery(p: Projections, x: ItemId, candidates: seq<ItemId>)
    requires x in p
  {
    && Distinct(candidates)
    && (forall c :: c in candidates <==>
          c in p && c != x && p[c].classification == Opposite(p[x].classification))
  }

  /** The pair (lost, found) made of the touched item and a candidate. */
  function NormalizePair(p: Projections, x: ItemId, c: ItemId): (ItemId, ItemId)
    requires x in p
  {
    if p[x].classification.LOST? then (x, c) else (c, x)
  }

  function Suggest(s: MatchStore, lost: ItemId, found: ItemId, a: Assessment): MatchStore {
    var row := Suggestion(lost, found, a.score, a.snapshot, SUGGESTED, None);
    s.(rows := s.rows + [row], outbox := s.outbox + [MatchEvent(MatchSuggested, |s.rows|, row)])
  }

  function Refresh(s: MatchStore, at: MatchId, a: Assessment): MatchStore
    requires at < |s.rows|
  {
    s.(rows := s.rows[at := s.rows[at].(score := a.score, snapshot := a.snapshot)])
  }

  function Revive(s: MatchStore, at: MatchId, a: Assessment): MatchStore
    requires at < |s.rows|
  {
    var row := s.rows[at].(status := SUGGESTED, score := a.score, snapshot := a.snapshot, decidedBy := None);
    s.(rows := s.rows[at := row], outbox := s.outbox + [MatchEvent(MatchSuggested, at, row)])
  }

  function Expire(s: MatchStore, at: MatchId): MatchStore
    requires at < |s.rows|
  {
    s.(rows := s.rows[at := Expired(s.rows[at])])
  }

  /** One iteration of the generation loop. */
  function GenerateOne(s: MatchStore, x: ItemId, c: ItemId): (s': MatchStore)
    requires x in s.projections
    ensures s'.projections == s.projections
  {
    var (lost, found) := NormalizePair(s.projections, x, c);
    var a := AssessIds(s.projections, lost, found);
    match FindPair(s.rows, lost, found)
    case None => if a.isCandidate then Suggest(s, lost, found, a) else s
    case Some(at) =>
      match s.rows[at].status
      case SUGGESTED => if a.isCandidate then Refresh(s, at, a) else Expire(s, at)
      case EXPIRED => if a.isCandidate then Revive(s, at, a) else s
      case ACCEPTED => s
      case REJECTED => s
  }

  function GenerateAll(s: MatchStore, x: ItemId, candidates: seq<ItemId>): (s': MatchStore)
    requires x in s.projections
    ensures s'.projections == s.projections
  {
    if candidates == [] then s
    else
      var last := |candidates| - 1;
      GenerateOne(GenerateAll(s, x, candidates[..last]), x, candidates[last])
  }

  /** A newer event: upsert, expire, and regenerate when the item is eligible. */
  function Reindex(s: MatchStore, x: ItemId, p: Projections, candidates: seq<ItemId>): MatchStore
    requires x in p
  {
    var expired := s.(projections := p, rows := ExpireInvalid(p, x, s.rows));
    if IsItemEligible(Some(p[x])) then GenerateAll(expired, x, candidates) else expired
  }

  /** Ids of the SUGGESTED rows of an item, oldest first. */
  function SuggestedFor(rows: seq<Suggestion>, x: ItemId): (ids: seq<MatchId>)
    ensures forall id: MatchId :: id in ids <==> id < |rows| && rows[id].status.SUGGESTED? && Touches(rows[id], x)
    ensures forall i, j :: 0 <= i < j < |ids| ==> ids[i] < ids[j]
  {
    if rows == [] then []
    else
      var last: MatchId := |rows| - 1;
      var earlier := SuggestedFor(rows[..last], x);
      assert forall i :: 0 <= i < |earlier| ==> earlier[i] in earlier;
      if rows[last].status.SUGGESTED? && Touches(rows[last], x) then earlier + [last] else earlier
  }

  /** The transaction. `candidates` is what the candidate query returned, if it was asked. */
  function Consume(s: MatchStore, e: Envelope, candidates: seq<ItemId>):
    (MatchStore, Result<seq<MatchId>, MatchError>)
  {
    if e.eventType.OtherEvent? then (s, Err(UnsupportedEvent))
    else if e.eventId in s.processed then (s, Ok([]))
    else
      match UpsertProjection(s.projections, e)
      case Collision => (s, Err(DuplicateProjection))
      case Stale(x) => (s.(processed := s.processed + {e.eventId}), Ok(SuggestedFor(s.rows, x)))
      case Applied(x, p) =>
        var s' := Reindex(s, x, p, candidates);
        (s'.(processed := s'.processed + {e.eventId}), Ok(SuggestedFor(s'.rows, x)))
  }

  // ---- Deciding a suggestion ----

  datatype Decision = Accept | Reject

  function DecidedStatus(d: Decision): MatchStatus {
    if d.Accept? then ACCEPTED else REJECTED
  }

  function DecisionEvent(d: Decision): MatchEventType {
    if d.Accept? then MatchAccepted else MatchRejected
  }

  function Decide(s: MatchStore, id: MatchId, d: Decision, user: Option<UserId>):
    (MatchStore, Result<Suggestion, MatchError>)
  {
    if id >= |s.rows| then (s, Err(MatchNotFound))
    else
      match s.rows[id].status
      case REJECTED => (s, Err(AlreadyRejected))
      case ACCEPTED => (s, Err(AlreadyAccepted))
      case EXPIRED => (s, Err(AlreadyExpired))
      case SUGGESTED =>
        if !Candidate(s.projections, s.rows[id].lost, s.rows[id].found) then
          (Expire(s, id), Err(NotEligibleForDecision))
        else
          var row := s.rows[id].(status := DecidedStatus(d), decidedBy := user);
          (s.(rows := s.rows[id := row], outbox := s.outbox + [MatchEvent(DecisionEvent(d), id, row)]), Ok(row))
  }

  // ---- Runs ----

  datatype MatchAction =
    | Delivery(event: Envelope, candidates: seq<ItemId>)
    | Decided(id: MatchId, decision: Decision, user: Option<UserId>)

  /** Whether the transaction asks the database for candidates. */
  predicate AsksForCandidates(s: MatchStore, e: Envelope) {
    && !e.eventType.OtherEvent?
    && e.eventId !in s.processed
    && var u := UpsertProjection(s.projections, e);
       u.Applied? && IsItemEligible(Lookup(u.projections, u.id))
  }

  /** The query reply in an action must be one the database can give. */
  ghost predicate Enabled(s: MatchStore, a: MatchAction) {
    a.Delivery? && AsksForCandidates(s, a.event) ==>
      var u := UpsertProjection(s.projections, a.event);
      CandidateQuery(u.projections, u.id, a.candidates)
  }

  function Apply(s: MatchStore, a: MatchAction): MatchStore {
    match a
    case Delivery(e, candidates) => Consume(s, e, candidates).0
    case Decided(id, d, user) => Decide(s, id, d, user).0
  }

  function Exec(run: seq<MatchAction>): MatchStore {
    if run == [] then EMPTY_STORE else Apply(Exec(run[..|run| - 1]), run[|run| - 1])
  }

  ghost predicate ValidRun(run: seq<MatchAction>) {
    run != [] ==>
      var before := run[..|run| - 1];
      ValidRun(before) && Enabled(Exec(before), run[|run| - 1])
  }
}
