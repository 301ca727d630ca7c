/** The publisher as it runs: it loops over the selected rows, updating each in place and
    committing after each. */
module OutboxPublisher {
  import opened Domain
  import opened Seqs
  import opened Outbox

  class OutboxRow {
    const event: Envelope
    const occurredAt: real
    var status: RowStatus
    var availableAt: real
    var attempts: nat
    var publishedAt: Option<real>
    var lastError: Option<string>

    constructor (event: Envelope, occurredAt: real, availableAt: real)
      ensures Snapshot() == Row(event, occurredAt, PENDING, availableAt, 0, None, None)
    {
      this.event, this.occurredAt, this.availableAt := event, occurredAt, availableAt;
      status, attempts, publishedAt, lastError := PENDING, 0, None, None;
    }

    function Snapshot(): Row
      reads this
    {
      Row(event, occurredAt, status, availableAt, attempts, publishedAt, lastError)
    }

    method BecomePublished(at: real)
      modifies this
      ensures Snapshot() == old(Snapshot()).(
        status := PUBLISHED, publishedAt := Some(at), lastError := None, attempts := old(attempts) + 1)
    {
      status := PUBLISHED;
      publishedAt := Some(at);
      lastError := None;
      attempts := attempts + 1;
    }

    method BecomeFailed(error: string, nextAvailableAt: real)
      modifies this
      ensures Snapshot() == old(Snapshot()).(
        status := FAILED, lastError := Some(error), availableAt := nextAvailableAt, attempts := old(attempts) + 1)
    {
      status := FAILED;
      lastError := Some(error);
      availableAt := nextAvailableAt;
      attempts := attempts + 1;
    }

    method BecomeExhausted(error: string)
      modifies this
      ensures Snapshot() == old(Snapshot()).(
        status := EXHAUSTED, lastError := Some(error), attempts := old(attempts) + 1)
    {
      status := EXHAUSTED;
      lastError := Some(error);
      attempts := attempts + 1;
    }
  }

  class Publisher {
    const settings: Settings
    var table: seq<OutboxRow>

    constructor (settings: Settings)
      ensures this.settings == settings && table == [] && Valid()
    {
      this.settings := settings;
      table := [];
    }

    ghost predicate Valid()
      reads this
    {
      forall i, j :: 0 <= i < j < |table| ==> table[i] != table[j]
    }

    function Snapshots(): (rows: seq<Row>)
      reads this, table
      ensures |rows| == |table|
      ensures forall i :: 0 <= i < |table| ==> rows[i] == table[i].Snapshot()
    {
      seq(|table|, i requires 0 <= i < |table| reads this, table => table[i].Snapshot())
    }

    method Enqueue(event: Envelope, occurredAt: real, availableAt: real)
      requires Valid()
      modifies this`table
      ensures Valid()
      ensures Snapshots() == old(Snapshots()) + [Row(event, occurredAt, PENDING, availableAt, 0, None, None)]
    {
      var row := new OutboxRow(event, occurredAt, availableAt);
      table := table + [row];
    }

    /** One iteration: the row at a position is sent and updated; true when it was delivered. */
    method Attempt(at: nat, outcome: Outcome) returns (delivered: bool)
      requires Valid() && at < |table|
      modifies table[at]
      ensures delivered == outcome.Delivered?
      ensures Snapshots() == old(Snapshots())[at := Attempted(settings, old(table[at].Snapshot()), outcome)]
    {
      var row := table[at];
      match outcome
      case Delivered(time) =>
        row.BecomePublished(time);
        delivered := true;
      case Failed(error, time, _) =>
        if row.attempts + 1 >= settings.maxAttempts {
          row.BecomeExhausted(error);
        } else {
          row.BecomeFailed(error, time + Delay(settings, row.attempts));
        }
        delivered := false;
    }

    /** `outcomes` is what the broker does with each message, were it sent. */
    method PublishBatch(now: real, outcomes: seq<Outcome>) returns (published: nat, selected: seq<nat>)
      requires Valid() && |outcomes| >= |table|
      modifies table
      ensures PendingQuery(old(Snapshots()), now, settings.batchSize, selected)
      ensures |selected| <= |outcomes|
      ensures (Snapshots(), published) == BatchResult(settings, old(Snapshots()), selected, outcomes)
    {
      ghost var before := Snapshots();
      selected := ListPending(Snapshots(), now, settings.batchSize);
      ListPendingAnswersQuery(Snapshots(), now, settings.batchSize);
      DistinctPositionsFit(selected, |table|);
      published := 0;
      while published < |selected|
        invariant published <= |selected|
        invariant PublishFrom(settings, Snapshots(), selected, outcomes, published)
               == PublishFrom(settings, before, selected, outcomes, 0)
      {
        var delivered := Attempt(selected[published], outcomes[published]);
        if !delivered {
          return;
        }
        published := published + 1;
      }
    }
  }

  lemma {:induction false} DistinctPositionsFit(positions: seq<nat>, n: nat)
    requires Distinct(positions) && AllBelow(positions, n)
    ensures |positions| <= n
  {
    if positions == [] {
    } else {
      assert positions[0] < n;
      if n - 1 in positions {
        var k :| 0 <= k < |positions| && positions[k] == n - 1;
        var rest := positions[..k] + positions[k + 1..];
        assert forall j :: 0 <= j < |rest| ==> rest[j] == positions[if j < k then j else j + 1];
        DistinctPositionsFit(rest, n - 1);
      } else {
        DistinctPositionsFit(positions, n - 1);
      }
    }
  }
}
