/** The outbox table, and what a publisher batch does to it. */
module Outbox {
  import opened Domain
  import opened Seqs

  datatype RowStatus = PENDING | FAILED | PUBLISHED | EXHAUSTED

  /** A row's values at one moment. Times are seconds. */
  datatype Row = Row(
    event: Envelope,
    occurredAt: real,
    status: RowStatus,
    availableAt: real,
    attempts: nat,
    publishedAt: Option<real>,
    lastError: Option<string>)

  datatype Settings = Settings(batchSize: nat, retryDelay: real, maxAttempts: int)

  const MAX_RETRY_DELAY := 60.0

  /** What one `exchange.publish` did. A failure may have reached the broker all the same, when only
      the confirmation was lost. */
  datatype Outcome =
    | Delivered(at: real)
    | Failed(error: string, at: real, reachedBroker: bool)

  function NewRow(event: Envelope, occurredAt: real, availableAt: real): Row {
    Row(event, occurredAt, PENDING, availableAt, 0, None, None)
  }

  function Pow2(n: nat): (p: nat)
    ensures p >= 1
  {
    if n == 0 then 1 else 2 * Pow2(n - 1)
  }

  function MinReal(a: real, b: real): real {
    if a <= b then a else b
  }

  function Backoff(settings: Settings, attempts: nat): real {
    settings.retryDelay * (Pow2(attempts) as real)
  }

  /** Seconds until the next attempt, after a failure with `attempts` earlier ones. */
  function Delay(settings: Settings, attempts: nat): real {
    MinReal(MAX_RETRY_DELAY, Backoff(settings, attempts))
  }

  // ---- Row updates ----

  function MarkPublished(row: Row, at: real): Row {
    row.(status := PUBLISHED, publishedAt := Some(at), lastError := None, attempts := row.attempts + 1)
  }

  function MarkFailed(row: Row, error: string, nextAvailableAt: real): Row {
    row.(status := FAILED, lastError := Some(error), availableAt := nextAvailableAt, attempts := row.attempts + 1)
  }

  function MarkExhausted(row: Row, error: string): Row {
    row.(status := EXHAUSTED, lastError := Some(error), attempts := row.attempts + 1)
  }

  /** The row after a publication attempt. */
  function Attempted(settings: Settings, row: Row, outcome: Outcome): Row {
    match outcome
    case Delivered(at) => MarkPublished(row, at)
    case Failed(error, at, _) =>
      if row.attempts + 1 >= settings.maxAttempts then MarkExhausted(row, error)
      else MarkFailed(row, error, at + Delay(settings, row.attempts))
  }

  // ---- Selecting rows ----

  predicate IsLive(row: Row) {
    row.status.PENDING? || row.status.FAILED?
  }

  predicate IsDue(row: Row, now: real) {
    IsLive(row) && row.availableAt <= now
  }

  predicate AllBelow(positions: seq<nat>, n: nat) {
    forall k :: 0 <= k < |positions| ==> positions[k] < n
  }

  ghost predicate OldestFirst(rows: seq<Row>, positions: seq<nat>) {
    && AllBelow(positions, |rows|)
    && (forall a, b :: 0 <= a < b < |positions| ==> rows[positions[a]].occurredAt <= rows[positions[b]].occurredAt)
  }

  /** What the pending query may return: due rows, oldest first, at most `limit`, none of the rest
      older than a selected one. Rows are named by their positions. */
  ghost predicate PendingQuery(rows: seq<Row>, now: real, limit: nat, selected: seq<nat>) {
    && Distinct(selected)
    && OldestFirst(rows, selected)
    && (forall k :: 0 <= k < |selected| ==> IsDue(rows[selected[k]], now))
    && |selected| <= limit
    && (forall i: nat :: i < |rows| && IsDue(rows[i], now) && i !in selected ==>
          && |selected| == limit
          && forall k :: 0 <= k < |selected| ==> rows[selected[k]].occurredAt <= rows[i].occurredAt)
  }

  function DuePositions(rows: seq<Row>, now: real): (due: seq<nat>)
    ensures AllBelow(due, |rows|) && Distinct(due)
    ensures forall i: nat :: i in due <==> i < |rows| && IsDue(rows[i], now)
  {
    if rows == [] then []
    else
      var last: nat := |rows| - 1;
      var earlier := DuePositions(rows[..last], now);
      assert last !in earlier;
      if IsDue(rows[last], now) then earlier + [last] else earlier
  }

  lemma AppendYoungest(rows: seq<Row>, sorted: seq<nat>, i: nat)
    requires OldestFirst(rows, sorted) && i < |rows| && i !in sorted && Distinct(sorted)
    requires forall k :: 0 <= k < |sorted| ==> rows[sorted[k]].occurredAt <= rows[i].occurredAt
    ensures OldestFirst(rows, sorted + [i]) && Distinct(sorted + [i])
    ensures forall j :: j in sorted + [i] <==> j == i || j in sorted
  {
  }

  /** Inserts before the first strictly younger row, so equal times keep table order. */
  function Insert(rows: seq<Row>, sorted: seq<nat>, i: nat): (r: seq<nat>)
    requires OldestFirst(rows, sorted) && i < |rows| && i !in sorted && Distinct(sorted)
    ensures OldestFirst(rows, r) && Distinct(r)
    ensures forall j :: j in r <==> j == i || j in sorted
    ensures |r| == |sorted| + 1
  {
    if sorted == [] then [i]
    else
      var last := |sorted| - 1;
      assert sorted == sorted[..last] + [sorted[last]];
      if rows[sorted[last]].occurredAt <= rows[i].occurredAt then
        AppendYoungest(rows, sorted, i);
        sorted + [i]
      else
        var earlier := Insert(rows, sorted[..last], i);
        assert forall a :: 0 <= a < |earlier| ==> earlier[a] in earlier;
        AppendYoungest(rows, earlier, sorted[last]);
        earlier + [sorted[last]]
  }

  function SortByOccurrence(rows: seq<Row>, positions: seq<nat>): (r: seq<nat>)
    requires Distinct(positions) && AllBelow(positions, |rows|)
    ensures OldestFirst(rows, r) && Distinct(r)
    ensures forall j :: j in r <==> j in positions
  {
    if positions == [] then []
    else
      var last := |positions| - 1;
      assert positions == positions[..last] + [positions[last]];
      Insert(rows, SortByOccurrence(rows, positions[..last]), positions[last])
  }

  function ListPending(rows: seq<Row>, now: real, limit: nat): seq<nat> {
    var sorted := SortByOccurrence(rows, DuePositions(rows, now));
    if |sorted| <= limit then sorted else sorted[..limit]
  }

  /** What the limit cuts off is not older than what it keeps. */
  lemma CutOffIsYounger(rows: seq<Row>, sorted: seq<nat>, limit: nat, i: nat)
    requires OldestFirst(rows, sorted) && limit <= |sorted| && i in sorted && i !in sorted[..limit]
    ensures i < |rows|
    ensures forall k :: 0 <= k < limit ==> rows[sorted[k]].occurredAt <= rows[i].occurredAt
  {
    var b :| 0 <= b < |sorted| && sorted[b] == i;
    assert forall k :: 0 <= k < limit ==> sorted[..limit][k] == sorted[k];
  }

  /** Filter, sort and cut: what the repository's statement builds is such a query result. */
  lemma ListPendingAnswersQuery(rows: seq<Row>, now: real, limit: nat)
    ensures PendingQuery(rows, now, limit, ListPending(rows, now, limit))
  {
    var sorted := SortByOccurrence(rows, DuePositions(rows, now));
    var selected := ListPending(rows, now, limit);
    forall k | 0 <= k < |selected| ensures IsDue(rows[selected[k]], now) {
      assert selected[k] == sorted[k] && sorted[k] in sorted;
    }
    forall i: nat | i < |rows| && IsDue(rows[i], now) && i !in selected
      ensures |selected| == limit
      ensures forall k :: 0 <= k < |selected| ==> rows[selected[k]].occurredAt <= rows[i].occurredAt
    {
      assert i in sorted;
      CutOffIsYounger(rows, sorted, limit, i);
    }
  }

  /** Only waiting rows are selected: PENDING or FAILED ones whose time has come. */
  lemma SelectedRowsWait(rows: seq<Row>, now: real, limit: nat, selected: seq<nat>, k: nat)
    requires PendingQuery(rows, now, limit, selected) && k < |selected|
    ensures var row := rows[selected[k]];
      (row.status == PENDING || row.status == FAILED) && row.availableAt <= now
  {
  }

  /** And none is forgotten: of the rows whose time has come, those a query with room left does not
      select are PUBLISHED or EXHAUSTED. */
  lemma UnselectedRowsAreDone(rows: seq<Row>, now: real, limit: nat, selected: seq<nat>, i: nat)
    requires PendingQuery(rows, now, limit, selected) && |selected| < limit
    requires i < |rows| && rows[i].availableAt <= now && i !in selected
    ensures rows[i].status == PUBLISHED || rows[i].status == EXHAUSTED
  {
  }

  // ---- A batch ----

  /** The loop from the k-th selected row on: it stops after the first failure. Returns the table
      and the number of rows published in the whole batch. */
  function PublishFrom(settings: Settings, rows: seq<Row>, selected: seq<nat>, outcomes: seq<Outcome>, k: nat):
    (seq<Row>, nat)
    requires k <= |selected| <= |outcomes| && AllBelow(selected, |rows|)
    decreases |selected| - k
  {
    if k == |selected| then (rows, k)
    else
      var rows' := rows[selected[k] := Attempted(settings, rows[selected[k]], outcomes[k])];
      if outcomes[k].Delivered? then PublishFrom(settings, rows', selected, outcomes, k + 1) else (rows', k)
  }

  function BatchResult(settings: Settings, rows: seq<Row>, selected: seq<nat>, outcomes: seq<Outcome>): (seq<Row>, nat)
    requires |selected| <= |outcomes| && AllBelow(selected, |rows|)
  {
    PublishFrom(settings, rows, selected, outcomes, 0)
  }

  /** Number of leading deliveries. */
  function DeliveredPrefix(outcomes: seq<Outcome>, k: nat, n: nat): (count: nat)
    requires k <= n <= |outcomes|
    ensures k <= count <= n
    ensures forall j :: k <= j < count ==> outcomes[j].Delivered?
    ensures count < n ==> outcomes[count].Failed?
    decreases n - k
  {
    if k < n && outcomes[k].Delivered? then DeliveredPrefix(outcomes, k + 1, n) else k
  }

  lemma {:induction false} PublishFromMeaning(settings: Settings, rows: seq<Row>, selected: seq<nat>,
                                              outcomes: seq<Outcome>, k: nat)
    requires k <= |selected| <= |outcomes| && AllBelow(selected, |rows|) && Distinct(selected)
    ensures var (rows', n) := PublishFrom(settings, rows, selected, outcomes, k);
      && n == DeliveredPrefix(outcomes, k, |selected|)
      && |rows'| == |rows|
      && (forall j :: k <= j < |selected| && j <= n ==>
            rows'[selected[j]] == Attempted(settings, rows[selected[j]], outcomes[j]))
      && (forall i :: 0 <= i < |rows| && i !in selected[k..|selected|] ==> rows'[i] == rows[i])
      && (forall j :: k <= j < |selected| && n < j ==> rows'[selected[j]] == rows[selected[j]])
    decreases |selected| - k
  {
    if k < |selected| {
      var rows1 := rows[selected[k] := Attempted(settings, rows[selected[k]], outcomes[k])];
      assert selected[k..|selected|] == [selected[k]] + selected[k + 1..|selected|];
      if outcomes[k].Delivered? {
        PublishFromMeaning(settings, rows1, selected, outcomes, k + 1);
        assert selected[k] !in selected[k + 1..|selected|];
      }
    }
  }

  /** MAIN: a batch publishes precisely the selected rows before its first failure, marks that one
      row failed or exhausted, leaves every other row untouched, and returns the prefix length. */
  lemma BatchPublishesPrefix(settings: Settings, rows: seq<Row>, now: real, selected: seq<nat>, outcomes: seq<Outcome>)
    requires PendingQuery(rows, now, settings.batchSize, selected) && |outcomes| == |selected|
    ensures var (rows', n) := BatchResult(settings, rows, selected, outcomes);
      && n <= |selected| && |rows'| == |rows|
      && (forall k :: 0 <= k < n ==>
            && outcomes[k].Delivered?
            && rows'[selected[k]] ==
                 rows[selected[k]].(status := PUBLISHED, publishedAt := Some(outcomes[k].at), lastError := None,
                                    attempts := rows[selected[k]].attempts + 1))
      && (n < |selected| ==>
            var row, row' := rows[selected[n]], rows'[selected[n]]; var o := outcomes[n];
            && o.Failed?
            && (row.attempts + 1 >= settings.maxAttempts ==>
                  row' == row.(status := EXHAUSTED, lastError := Some(o.error), attempts := row.attempts + 1))
            && (row.attempts + 1 < settings.maxAttempts ==>
                  row' == row.(status := FAILED, lastError := Some(o.error), attempts := row.attempts + 1,
                               availableAt := o.at + Delay(settings, row.attempts))))
      && (forall i :: 0 <= i < |rows| && i !in selected ==> rows'[i] == rows[i])
      && (forall k :: n < k < |selected| ==> rows'[selected[k]] == rows[selected[k]])
  {
    PublishFromMeaning(settings, rows, selected, outcomes, 0);
    assert selected[0..|selected|] == selected;
  }
}
