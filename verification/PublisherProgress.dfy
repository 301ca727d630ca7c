/** The publisher spends a bounded number of attempts on every row, over whole runs, and its
    retries back off within fixed bounds. */
module PublisherProgress {
  import opened Seqs
  import opened Outbox

  // ---- The attempt budget ----

  /** Attempts a row may use: the first is always made. */
  function Budget(settings: Settings): nat {
    if settings.maxAttempts < 1 then 1 else settings.maxAttempts
  }

  predicate RowOk(settings: Settings, row: Row) {
    match row.status
    case PENDING => row.attempts == 0
    case FAILED => 1 <= row.attempts < Budget(settings)
    case PUBLISHED => 1 <= row.attempts <= Budget(settings)
    case EXHAUSTED => row.attempts == Budget(settings)
  }

  predicate TableOk(settings: Settings, rows: seq<Row>) {
    forall i :: 0 <= i < |rows| ==> RowOk(settings, rows[i])
  }

  /** Attempts a row may still use. */
  function Left(settings: Settings, row: Row): nat
    requires RowOk(settings, row)
  {
    if IsLive(row) then Budget(settings) - row.attempts else 0
  }

  function TotalLeft(settings: Settings, rows: seq<Row>): nat
    requires TableOk(settings, rows)
  {
    if rows == [] then 0 else TotalLeft(settings, rows[..|rows| - 1]) + Left(settings, rows[|rows| - 1])
  }

  lemma AttemptSpendsOne(settings: Settings, row: Row, outcome: Outcome)
    requires RowOk(settings, row) && IsLive(row)
    ensures RowOk(settings, Attempted(settings, row, outcome))
    ensures Left(settings, Attempted(settings, row, outcome)) < Left(settings, row)
  {
  }

  lemma {:induction false} UpdatedTotal(settings: Settings, rows: seq<Row>, at: nat, row: Row)
    requires TableOk(settings, rows) && at < |rows| && RowOk(settings, row)
    ensures TableOk(settings, rows[at := row])
    ensures TotalLeft(settings, rows[at := row]) ==
            TotalLeft(settings, rows) - Left(settings, rows[at]) + Left(settings, row)
  {
    var last := |rows| - 1;
    var rows' := rows[at := row];
    if at == last {
      assert rows'[..last] == rows[..last];
    } else {
      assert rows'[..last] == rows[..last][at := row];
      UpdatedTotal(settings, rows[..last], at, row);
    }
  }

  /** From any point of the batch loop on, no attempts are given back, and each row visited costs one. */
  lemma {:induction false} PublishFromSpends(settings: Settings, rows: seq<Row>, selected: seq<nat>,
                                             outcomes: seq<Outcome>, k: nat)
    requires k <= |selected| <= |outcomes| && AllBelow(selected, |rows|) && Distinct(selected)
    requires TableOk(settings, rows)
    requires forall j :: k <= j < |selected| ==> IsLive(rows[selected[j]])
    ensures var (rows', _) := PublishFrom(settings, rows, selected, outcomes, k);
      && |rows'| == |rows|
      && TableOk(settings, rows')
      && TotalLeft(settings, rows') <= TotalLeft(settings, rows)
      && (k < |selected| ==> TotalLeft(settings, rows') < TotalLeft(settings, rows))
    decreases |selected| - k
  {
    if k < |selected| {
      var at := selected[k];
      var row' := Attempted(settings, rows[at], outcomes[k]);
      AttemptSpendsOne(settings, rows[at], outcomes[k]);
      UpdatedTotal(settings, rows, at, row');
      if outcomes[k].Delivered? {
        PublishFromSpends(settings, rows[at := row'], selected, outcomes, k + 1);
      }
    }
  }

  // ---- Runs ----

  datatype PublisherStep =
    | Enqueued(row: Row)
    | Batch(now: real, selected: seq<nat>, outcomes: seq<Outcome>)

  function After(settings: Settings, rows: seq<Row>, step: PublisherStep): seq<Row> {
    match step
    case Enqueued(row) => rows + [row]
    case Batch(now, selected, outcomes) =>
      if |selected| <= |outcomes| && AllBelow(selected, |rows|) then BatchResult(settings, rows, selected, outcomes).0
      else rows
  }

  function Table(settings: Settings, run: seq<PublisherStep>): seq<Row> {
    if run == [] then [] else After(settings, Table(settings, run[..|run| - 1]), run[|run| - 1])
  }

  /** Rows are enqueued as new; batches publish what the pending query returned. */
  ghost predicate StepOk(settings: Settings, rows: seq<Row>, step: PublisherStep) {
    match step
    case Enqueued(row) => row.status.PENDING? && row.attempts == 0
    case Batch(now, selected, outcomes) =>
      PendingQuery(rows, now, settings.batchSize, selected) && |outcomes| == |selected|
  }

  ghost predicate ValidRun(settings: Settings, run: seq<PublisherStep>) {
    run != [] ==>
      var before := run[..|run| - 1];
      ValidRun(settings, before) && StepOk(settings, Table(settings, before), run[|run| - 1])
  }

  function WorkingBatches(run: seq<PublisherStep>): nat {
    if run == [] then 0
    else
      var step := run[|run| - 1];
      WorkingBatches(run[..|run| - 1]) + (if step.Batch? && step.selected != [] then 1 else 0)
  }

  lemma StepSpends(settings: Settings, rows: seq<Row>, step: PublisherStep)
    requires TableOk(settings, rows) && StepOk(settings, rows, step)
    ensures var rows' := After(settings, rows, step);
      && TableOk(settings, rows')
      && |rows'| == |rows| + (if step.Enqueued? then 1 else 0)
      && TotalLeft(settings, rows') <= TotalLeft(settings, rows)
           + (if step.Enqueued? then Budget(settings) else 0)
           - (if step.Batch? && step.selected != [] then 1 else 0)
  {
    match step
    case Enqueued(row) =>
      assert (rows + [row])[..|rows|] == rows;
    case Batch(now, selected, outcomes) =>
      PublishFromSpends(settings, rows, selected, outcomes, 0);
  }

  /** MAIN: at every moment of every run the attempt counts fit the statuses, and the batches that
      selected a row, plus the attempts still to be used, are at most (rows enqueued) x (budget). */
  lemma {:induction false} AttemptsAreBounded(settings: Settings, run: seq<PublisherStep>)
    requires ValidRun(settings, run)
    ensures TableOk(settings, Table(settings, run))
    ensures WorkingBatches(run) + TotalLeft(settings, Table(settings, run)) <= |Table(settings, run)| * Budget(settings)
  {
    if run != [] {
      var before := run[..|run| - 1];
      AttemptsAreBounded(settings, before);
      StepSpends(settings, Table(settings, before), run[|run| - 1]);
      OneMoreRow(|Table(settings, before)|, Budget(settings));
    }
  }

  lemma OneMoreRow(n: nat, budget: nat)
    ensures (n + 1) * budget == n * budget + budget
  {
  }

  // ---- Settled rows ----

  lemma StepKeepsSettled(settings: Settings, rows: seq<Row>, step: PublisherStep, i: nat)
    requires StepOk(settings, rows, step) && i < |rows| && !IsLive(rows[i])
    ensures i < |After(settings, rows, step)| && After(settings, rows, step)[i] == rows[i]
  {
    if step.Batch? {
      BatchPublishesPrefix(settings, rows, step.now, step.selected, step.outcomes);
      assert forall k :: 0 <= k < |step.selected| ==> IsDue(rows[step.selected[k]], step.now);
    }
  }

  predicate IsDone(row: Row) {
    row.status == PUBLISHED || row.status == EXHAUSTED
  }

  /** MAIN: PUBLISHED and EXHAUSTED rows are never touched again, whatever follows. */
  lemma {:induction false} SettledRowsStay(settings: Settings, run: seq<PublisherStep>, later: seq<PublisherStep>,
                                           i: nat)
    requires ValidRun(settings, run + later)
    requires i < |Table(settings, run)| && IsDone(Table(settings, run)[i])
    ensures i < |Table(settings, run + later)| && Table(settings, run + later)[i] == Table(settings, run)[i]
  {
    if later == [] {
      assert run + later == run;
    } else {
      var before, step := later[..|later| - 1], later[|later| - 1];
      assert (run + later)[..|run + later| - 1] == run + before;
      SettledRowsStay(settings, run, before, i);
      StepKeepsSettled(settings, Table(settings, run + before), step, i);
    }
  }

  // ---- Waiting rows ----

  /** MAIN: a waiting row is published by the next batch that has room, runs once the row's time has
      come, and meets no failure. A FAILED row is so retried, with one more attempt on its count. */
  lemma WaitingRowIsPublished(settings: Settings, run: seq<PublisherStep>, batch: PublisherStep, i: nat)
    requires ValidRun(settings, run + [batch]) && batch.Batch? && |batch.selected| < settings.batchSize
    requires forall k :: 0 <= k < |batch.outcomes| ==> batch.outcomes[k].Delivered?
    requires i < |Table(settings, run)| && Table(settings, run)[i].availableAt <= batch.now
    requires Table(settings, run)[i].status == PENDING || Table(settings, run)[i].status == FAILED
    ensures var row, rows' := Table(settings, run)[i], Table(settings, run + [batch]);
      && i < |rows'| && rows'[i].status == PUBLISHED && rows'[i].attempts == row.attempts + 1
      && rows'[i].lastError.None? && rows'[i].publishedAt.Some?
      && rows'[i].event == row.event && rows'[i].occurredAt == row.occurredAt
  {
    assert (run + [batch])[..|run|] == run;
    var rows := Table(settings, run);
    BatchPublishesPrefix(settings, rows, batch.now, batch.selected, batch.outcomes);
    if i !in batch.selected {
      UnselectedRowsAreDone(rows, batch.now, settings.batchSize, batch.selected, i);
    } else {
      var k: nat :| k < |batch.selected| && batch.selected[k] == i;
    }
  }

  /** MAIN: when a batch finds nothing to send after every row's time has come, the outbox is done: every
      row is PUBLISHED, or EXHAUSTED with its whole budget spent. */
  lemma IdleAfterAllTimesMeansDone(settings: Settings, run: seq<PublisherStep>, now: real)
    requires ValidRun(settings, run) && settings.batchSize > 0
    requires PendingQuery(Table(settings, run), now, settings.batchSize, [])
    requires forall i :: 0 <= i < |Table(settings, run)| ==> Table(settings, run)[i].availableAt <= now
    ensures forall i :: 0 <= i < |Table(settings, run)| ==>
      var row := Table(settings, run)[i];
      row.status == PUBLISHED || (row.status == EXHAUSTED && row.attempts == Budget(settings))
  {
    var rows := Table(settings, run);
    AttemptsAreBounded(settings, run);
    forall i | 0 <= i < |rows|
      ensures rows[i].status == PUBLISHED || (rows[i].status == EXHAUSTED && rows[i].attempts == Budget(settings))
    {
      UnselectedRowsAreDone(rows, now, settings.batchSize, [], i);
      assert RowOk(settings, rows[i]);
    }
  }

  /** The publisher sleeps after a batch exactly when nothing was due or the oldest selected row
      failed. */
  lemma SleepsIff(settings: Settings, rows: seq<Row>, now: real, selected: seq<nat>, outcomes: seq<Outcome>)
    requires PendingQuery(rows, now, settings.batchSize, selected) && |outcomes| == |selected|
    requires settings.batchSize > 0
    ensures selected == [] <==> forall i :: 0 <= i < |rows| ==> !IsDue(rows[i], now)
    ensures BatchResult(settings, rows, selected, outcomes).1 == 0 <==>
              || (forall i :: 0 <= i < |rows| ==> !IsDue(rows[i], now))
              || (selected != [] && outcomes[0].Failed?)
  {
    BatchPublishesPrefix(settings, rows, now, selected, outcomes);
    if selected != [] {
      assert IsDue(rows[selected[0]], now);
    }
  }

  // ---- Publication order ----

  predicate IsPublished(rows: seq<Row>, i: nat) {
    i < |rows| && rows[i].status.PUBLISHED?
  }

  predicate Older(rows: seq<Row>, i: nat, j: nat) {
    i < |rows| && j < |rows| && rows[i].occurredAt < rows[j].occurredAt
  }

  /** The step publishes the row. */
  predicate Publishes(settings: Settings, rows: seq<Row>, step: PublisherStep, j: nat) {
    step.Batch? && !IsPublished(rows, j) && IsPublished(After(settings, rows, step), j)
  }

  /** With a younger row selected, an older live one is selected too, and earlier, exactly when it is
      available. */
  lemma OlderIsSelectedIff(rows: seq<Row>, now: real, limit: nat, selected: seq<nat>, i: nat, b: nat)
    requires PendingQuery(rows, now, limit, selected)
    requires b < |selected| && Older(rows, i, selected[b]) && IsLive(rows[i])
    ensures i in selected <==> rows[i].availableAt <= now
    ensures rows[i].availableAt <= now ==> i in selected[..b]
  {
    if rows[i].availableAt <= now {
      assert i in selected;
      var a: nat :| a < |selected| && selected[a] == i;
      assert a < b;
      assert selected[..b][a] == i;
    }
  }

  /** The batch that publishes a row also publishes an older, still unpublished one exactly when that
      one is due: otherwise it is overtaken. */
  lemma OlderIsPublishedIff(settings: Settings, rows: seq<Row>, step: PublisherStep, i: nat, j: nat)
    requires StepOk(settings, rows, step) && Publishes(settings, rows, step, j)
    requires Older(rows, i, j) && !IsPublished(rows, i)
    ensures IsPublished(After(settings, rows, step), i) <==> IsDue(rows[i], step.now)
  {
    BatchPublishesPrefix(settings, rows, step.now, step.selected, step.outcomes);
    var n := BatchResult(settings, rows, step.selected, step.outcomes).1;
    assert j in step.selected;
    var b: nat :| b < |step.selected| && step.selected[b] == j;
    assert b < n;
    if IsLive(rows[i]) {
      OlderIsSelectedIff(rows, step.now, settings.batchSize, step.selected, i, b);
      if IsDue(rows[i], step.now) {
        var a: nat :| a < |step.selected[..b]| && step.selected[..b][a] == i;
        assert step.selected[a] == i && a < n;
      }
    }
  }

  /** Events and occurrence times of rows never change. */
  lemma StepKeepsTimes(settings: Settings, rows: seq<Row>, step: PublisherStep, i: nat)
    requires StepOk(settings, rows, step) && i < |rows|
    ensures var rows' := After(settings, rows, step);
      |rows| <= |rows'| && rows'[i].event == rows[i].event && rows'[i].occurredAt == rows[i].occurredAt
  {
    if step.Batch? {
      BatchPublishesPrefix(settings, rows, step.now, step.selected, step.outcomes);
      if i in step.selected {
        var k: nat :| k < |step.selected| && step.selected[k] == i;
      }
    }
  }

  /** Somewhere in the run the younger row was published and the older one was not. */
  ghost predicate Overtaken(settings: Settings, run: seq<PublisherStep>, i: nat, j: nat) {
    || (IsPublished(Table(settings, run), j) && !IsPublished(Table(settings, run), i))
    || (run != [] && Overtaken(settings, run[..|run| - 1], i, j))
  }

  /** Somewhere in the run the younger row was published while the older one, unpublished, was not due:
      given up, or waiting for its next attempt. */
  ghost predicate PassedOver(settings: Settings, run: seq<PublisherStep>, i: nat, j: nat) {
    run != [] &&
    var before, step := run[..|run| - 1], run[|run| - 1]; var rows := Table(settings, before);
    || PassedOver(settings, before, i, j)
    || (Publishes(settings, rows, step, j) && i < |rows| && !IsPublished(rows, i) && !IsDue(rows[i], step.now))
  }

  lemma OnlyBatchesPublish(settings: Settings, rows: seq<Row>, step: PublisherStep, j: nat)
    requires StepOk(settings, rows, step) && !IsPublished(rows, j) && IsPublished(After(settings, rows, step), j)
    ensures Publishes(settings, rows, step, j) && j < |rows|
  {
    if step.Batch? {
      BatchPublishesPrefix(settings, rows, step.now, step.selected, step.outcomes);
    }
  }

  /** MAIN: exactly when publication order is broken. Over every run, an older row is overtaken by a
      younger one if and only if a batch published the younger one while the older one was not due. */
  lemma {:induction false} OvertakenIff(settings: Settings, run: seq<PublisherStep>, i: nat, j: nat)
    requires ValidRun(settings, run) && i < j && Older(Table(settings, run), i, j)
    ensures Overtaken(settings, run, i, j) <==> PassedOver(settings, run, i, j)
  {
    var before, step := run[..|run| - 1], run[|run| - 1];
    var rows := Table(settings, before);
    if j < |rows| {
      StepKeepsTimes(settings, rows, step, i);
      StepKeepsTimes(settings, rows, step, j);
      OvertakenIff(settings, before, i, j);
      StepOvertakesIff(settings, rows, step, i, j);
    } else {
      NotYetThere(settings, before, i, j);
      if IsPublished(Table(settings, run), j) { OnlyBatchesPublish(settings, rows, step, j); }
    }
  }

  /** One step: a row overtaken now either was before, or is passed over by this step. */
  lemma StepOvertakesIff(settings: Settings, rows: seq<Row>, step: PublisherStep, i: nat, j: nat)
    requires StepOk(settings, rows, step) && Older(rows, i, j)
    ensures var rows' := After(settings, rows, step);
      var passed := Publishes(settings, rows, step, j) && !IsPublished(rows, i) && !IsDue(rows[i], step.now);
      && (IsPublished(rows', j) && !IsPublished(rows', i) ==> (IsPublished(rows, j) && !IsPublished(rows, i)) || passed)
      && (passed ==> IsPublished(rows', j) && !IsPublished(rows', i))
  {
    var rows' := After(settings, rows, step);
    if IsPublished(rows, i) { StepKeepsSettled(settings, rows, step, i); }
    if IsPublished(rows', j) && !IsPublished(rows, j) {
      OnlyBatchesPublish(settings, rows, step, j);
      if !IsPublished(rows, i) { OlderIsPublishedIff(settings, rows, step, i, j); }
    }
  }

  /** Rows that do not exist yet take no part. */
  lemma {:induction false} NotYetThere(settings: Settings, run: seq<PublisherStep>, i: nat, j: nat)
    requires ValidRun(settings, run) && j >= |Table(settings, run)|
    ensures !Overtaken(settings, run, i, j) && !PassedOver(settings, run, i, j)
  {
    if run != [] {
      var before, step := run[..|run| - 1], run[|run| - 1];
      var rows := Table(settings, before);
      if step.Batch? { BatchPublishesPrefix(settings, rows, step.now, step.selected, step.outcomes); }
      NotYetThere(settings, before, i, j);
    }
  }

  /** Every publication of the run succeeds, and the clock has passed the time from which each waiting
      row is available. */
  ghost predicate Smooth(settings: Settings, run: seq<PublisherStep>) {
    run != [] ==>
      var before, step := run[..|run| - 1], run[|run| - 1]; var rows := Table(settings, before);
      && Smooth(settings, before)
      && (step.Batch? ==>
            && (forall k :: 0 <= k < |step.outcomes| ==> step.outcomes[k].Delivered?)
            && (forall i :: 0 <= i < |rows| && rows[i].status.PENDING? ==> rows[i].availableAt <= step.now))
  }

  predicate NoneFailed(rows: seq<Row>) {
    forall i :: 0 <= i < |rows| ==> rows[i].status.PENDING? || rows[i].status.PUBLISHED?
  }

  lemma {:induction false} SmoothRunsFailNone(settings: Settings, run: seq<PublisherStep>)
    requires ValidRun(settings, run) && Smooth(settings, run)
    ensures NoneFailed(Table(settings, run))
  {
    if run != [] {
      var before, step := run[..|run| - 1], run[|run| - 1];
      var rows := Table(settings, before);
      SmoothRunsFailNone(settings, before);
      if step.Batch? {
        BatchPublishesPrefix(settings, rows, step.now, step.selected, step.outcomes);
        forall i | 0 <= i < |rows|
          ensures Table(settings, run)[i].status.PENDING? || Table(settings, run)[i].status.PUBLISHED?
        {
          if i in step.selected { var k: nat :| k < |step.selected| && step.selected[k] == i; }
        }
      }
    }
  }

  lemma {:induction false} SmoothRunsPassNone(settings: Settings, run: seq<PublisherStep>, i: nat, j: nat)
    requires ValidRun(settings, run) && Smooth(settings, run)
    ensures !PassedOver(settings, run, i, j)
  {
    if run != [] {
      SmoothRunsPassNone(settings, run[..|run| - 1], i, j);
      SmoothRunsFailNone(settings, run[..|run| - 1]);
    }
  }

  /** MAIN: without failures, and with a clock no row is ahead of, publication order is kept. */
  lemma SmoothRunsKeepOrder(settings: Settings, run: seq<PublisherStep>, i: nat, j: nat)
    requires ValidRun(settings, run) && Smooth(settings, run)
    requires i < j && Older(Table(settings, run), i, j)
    ensures !Overtaken(settings, run, i, j)
    ensures IsPublished(Table(settings, run), j) ==> IsPublished(Table(settings, run), i)
  {
    SmoothRunsPassNone(settings, run, i, j);
    OvertakenIff(settings, run, i, j);
  }

  /** A failed head is such an older row: a batch of deliveries before its next attempt leaves it FAILED
      and publishes every other due row that fits, later events of the same item included. */
  lemma FailedHeadIsOvertaken(settings: Settings, rows: seq<Row>, first: PublisherStep, second: PublisherStep, j: nat)
    requires first.Batch? && second.Batch? && first.selected != []
    requires StepOk(settings, rows, first) && StepOk(settings, After(settings, rows, first), second)
    requires first.outcomes[0].Failed? && rows[first.selected[0]].attempts + 1 < settings.maxAttempts
    requires second.now < first.outcomes[0].at + Delay(settings, rows[first.selected[0]].attempts)
    requires forall k :: 0 <= k < |second.outcomes| ==> second.outcomes[k].Delivered?
    requires j < |rows| && j != first.selected[0] && IsDue(rows[j], second.now)
    requires |second.selected| < settings.batchSize
    ensures var rows2 := After(settings, After(settings, rows, first), second);
      && first.selected[0] < |rows2| && rows2[first.selected[0]].status.FAILED?
      && IsPublished(rows2, j)
  {
    BatchPublishesPrefix(settings, rows, first.now, first.selected, first.outcomes);
    var rows1 := After(settings, rows, first);
    var head := first.selected[0];
    assert rows1[j] == rows[j] by {
      if j in first.selected { var k: nat :| k < |first.selected| && first.selected[k] == j; }
    }
    BatchPublishesPrefix(settings, rows1, second.now, second.selected, second.outcomes);
    assert j in second.selected;
    assert !IsDue(rows1[head], second.now);
    assert forall k :: 0 <= k < |second.selected| ==> IsDue(rows1[second.selected[k]], second.now);
  }

  // ---- Backoff ----

  /** The delays scheduled before a row is given up: after its first n failures. */
  function TotalDelay(settings: Settings, n: nat): real {
    if n == 0 then 0.0 else TotalDelay(settings, n - 1) + Delay(settings, n - 1)
  }

  lemma ScaledByPow2(base: real, n: nat)
    ensures base * (Pow2(n + 1) as real) == base * (Pow2(n) as real) + base * (Pow2(n) as real)
    ensures base >= 0.0 ==> base * (Pow2(n) as real) >= 0.0
  {
    assert Pow2(n + 1) as real == 2.0 * (Pow2(n) as real);
    assert Pow2(n) as real >= 1.0;
  }

  /** Delays are never negative, never above sixty seconds, and never shrink. */
  lemma DelaysGrow(settings: Settings, n: nat)
    requires settings.retryDelay >= 0.0
    ensures 0.0 <= Delay(settings, n) <= 60.0
    ensures Delay(settings, n) <= Delay(settings, n + 1)
  {
    ScaledByPow2(settings.retryDelay, n);
  }

  lemma BackoffDoubles(settings: Settings, n: nat)
    ensures Backoff(settings, 0) == settings.retryDelay
    ensures Backoff(settings, n + 1) == 2.0 * Backoff(settings, n)
  {
    assert Pow2(0) as real == 1.0;
    ScaledByPow2(settings.retryDelay, n);
  }

  /** The first delay is the configured one, each further one twice as long, and none over sixty
      seconds. */
  lemma DelaysDouble(settings: Settings, n: nat)
    requires settings.retryDelay >= 0.0
    ensures Delay(settings, 0) == if settings.retryDelay <= 60.0 then settings.retryDelay else 60.0
    ensures Delay(settings, n + 1) ==
            if 2.0 * Delay(settings, n) <= 60.0 then 2.0 * Delay(settings, n) else 60.0
  {
    BackoffDoubles(settings, n);
  }

  lemma {:induction false} TotalDelayBelow(settings: Settings, n: nat)
    ensures TotalDelay(settings, n) <= 60.0 * (n as real)
    ensures TotalDelay(settings, n) <= Backoff(settings, n) - settings.retryDelay
  {
    BackoffDoubles(settings, 0);
    if n > 0 {
      TotalDelayBelow(settings, n - 1);
      BackoffDoubles(settings, n - 1);
    }
  }

  lemma BackoffLessFirst(settings: Settings, n: nat)
    ensures Backoff(settings, n) - settings.retryDelay == settings.retryDelay * ((Pow2(n) - 1) as real)
  {
    assert (Pow2(n) - 1) as real == Pow2(n) as real - 1.0;
  }

  /** MAIN: n scheduled delays add up to at most 60n seconds and at most retryDelay x (2^n - 1). A
      row given up after M attempts has been delayed M - 1 times. */
  lemma TotalDelayBounded(settings: Settings, n: nat)
    ensures TotalDelay(settings, n) <= 60.0 * (n as real)
    ensures TotalDelay(settings, n) <= settings.retryDelay * ((Pow2(n) - 1) as real)
  {
    TotalDelayBelow(settings, n);
    BackoffLessFirst(settings, n);
  }

  /** The lesser of n times the longest delay and the sum of n uncapped ones. */
  function WaitCap(settings: Settings, n: nat): real {
    MinReal(60.0 * (n as real), settings.retryDelay * ((Pow2(n) - 1) as real))
  }

  lemma TotalDelayCapped(settings: Settings, n: nat)
    ensures TotalDelay(settings, n) <= WaitCap(settings, n)
  {
    TotalDelayBounded(settings, n);
  }

  /** What a step adds to a row's waiting: the time from its failure to its next attempt. */
  function WaitAdded(settings: Settings, rows: seq<Row>, step: PublisherStep, i: nat): real {
    if step.Batch? && |step.selected| <= |step.outcomes| && AllBelow(step.selected, |rows|) then
      var (rows', n) := BatchResult(settings, rows, step.selected, step.outcomes);
      if n < |step.selected| && step.selected[n] == i && i < |rows'| && rows'[i].status.FAILED?
         && step.outcomes[n].Failed?
      then rows'[i].availableAt - step.outcomes[n].at
      else 0.0
    else 0.0
  }

  function TotalWait(settings: Settings, run: seq<PublisherStep>, i: nat): real {
    if run == [] then 0.0
    else
      var before := run[..|run| - 1];
      TotalWait(settings, before, i) + WaitAdded(settings, Table(settings, before), run[|run| - 1], i)
  }

  /** Failures after which the row was scheduled again. */
  function Retries(row: Row): nat {
    match row.status
    case PENDING => 0
    case FAILED => row.attempts
    case PUBLISHED => if row.attempts > 0 then row.attempts - 1 else 0
    case EXHAUSTED => if row.attempts > 0 then row.attempts - 1 else 0
  }

  lemma BatchAddsDelay(settings: Settings, rows: seq<Row>, step: PublisherStep, i: nat)
    requires step.Batch? && StepOk(settings, rows, step) && TableOk(settings, rows) && i < |rows|
    ensures i < |After(settings, rows, step)|
    ensures WaitAdded(settings, rows, step, i) ==
            TotalDelay(settings, Retries(After(settings, rows, step)[i])) - TotalDelay(settings, Retries(rows[i]))
  {
    var (rows', n) := BatchResult(settings, rows, step.selected, step.outcomes);
    BatchPublishesPrefix(settings, rows, step.now, step.selected, step.outcomes);
    if i in step.selected {
      var k :| 0 <= k < |step.selected| && step.selected[k] == i;
      assert IsDue(rows[i], step.now);
      assert n < |step.selected| && step.selected[n] == i ==> n == k;
    }
  }

  /** MAIN: over every run, a row's waits add up to the delays of its retries; a row is retried at
      most M - 1 times within a budget of M, so in all it never waits more than 60(M - 1) seconds, nor
      more than retryDelay x (2^(M - 1) - 1). */
  lemma WaitsAreBounded(settings: Settings, run: seq<PublisherStep>, i: nat)
    requires ValidRun(settings, run) && i < |Table(settings, run)| && settings.retryDelay >= 0.0
    ensures var retries := Retries(Table(settings, run)[i]);
      && retries < Budget(settings)
      && TotalWait(settings, run, i) == TotalDelay(settings, retries)
      && TotalWait(settings, run, i) <= WaitCap(settings, Budget(settings) - 1)
  {
    WaitsAreDelays(settings, run, i);
    RetriesFitBudget(settings, run, i);
    TotalDelayGrows(settings, Retries(Table(settings, run)[i]), Budget(settings) - 1);
    TotalDelayCapped(settings, Budget(settings) - 1);
  }

  lemma RetriesFitBudget(settings: Settings, run: seq<PublisherStep>, i: nat)
    requires ValidRun(settings, run) && i < |Table(settings, run)|
    ensures Retries(Table(settings, run)[i]) < Budget(settings)
  {
    AttemptsAreBounded(settings, run);
    assert RowOk(settings, Table(settings, run)[i]);
  }

  lemma {:induction false} WaitsAreDelays(settings: Settings, run: seq<PublisherStep>, i: nat)
    requires ValidRun(settings, run)
    ensures TotalWait(settings, run, i) ==
            if i < |Table(settings, run)| then TotalDelay(settings, Retries(Table(settings, run)[i])) else 0.0
  {
    if run != [] {
      var before, step := run[..|run| - 1], run[|run| - 1];
      var rows := Table(settings, before);
      WaitsAreDelays(settings, before, i);
      AttemptsAreBounded(settings, before);
      if step.Batch? {
        StepSpends(settings, rows, step);
        if i < |rows| { BatchAddsDelay(settings, rows, step, i); }
      }
    }
  }

  lemma {:induction false} TotalDelayGrows(settings: Settings, n: nat, m: nat)
    requires n <= m && settings.retryDelay >= 0.0
    ensures TotalDelay(settings, n) <= TotalDelay(settings, m)
    decreases m - n
  {
    if n < m {
      DelaysGrow(settings, n);
      TotalDelayGrows(settings, n + 1, m);
    }
  }
}
