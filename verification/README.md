# Verification model of the lost-and-found services

This project models four components of the system and proves what they keep over whole runs, first
one by one and then composed.

- **Match index** (matching-service). Item events maintain a projection table; each event expires and
  regenerates only the suggestions of one item. Proved: the incremental index always equals the full
  recomputation over all pairs, scores included, and does not depend on the order or the number of
  deliveries.
- **Recovery saga** (recovery-case-service). Opening, cancelling and completing recovery cases, with
  the item-service as remote participant. Proved: the saga log determines case status, events and
  outbox; every log follows one grammar; an item is in recovery exactly when one case in progress
  holds it, which neither service checks.
- **Item aggregate** (item-service). Status machine, history, versions, events and recovery batches.
- **Outbox publisher** (item-service). Batches, attempt budget, backoff, row states.
- **End to end.** Items, outbox, publisher, a broker that duplicates and reorders, and the match index
  in one system. Proved: projections are past states that never go back, and the whole converges.

## How it is laid out

Code that works by changing rows is a class whose methods assign fields statement by statement
(`MatchingService.Session`, `ItemService.Session`, `RecoveryService.Session`,
`OutboxPublisher.Publisher`). Each such method is proved equal to a function on the committed store
(`MatchIndex`, `ItemAggregate`, `RecoveryCases` with `JointSaga`, `Outbox`), and the theorems are
lemmas about runs of those functions.

| file | content |
|---|---|
| `Domain`, `Seqs` | items, envelopes, filters of logs |
| `Tokens`, `Scoring` | lower-casing, tokenizer, sorting; the candidate rule and its score |
| `MatchIndex`, `MatchingService` | the matching-service's transactions, as functions and as it runs |
| `IndexExactness`, `MatchConfluence`, `MatchLifecycle`, `AcceptedMatches` | theorems about the match index |
| `ItemAggregate`, `ItemService` | the item-service's transactions, as functions and as it runs |
| `ItemHistory`, `ItemBatches` | theorems about items |
| `Outbox`, `OutboxPublisher`, `PublisherProgress` | the publisher, and its theorems |
| `RecoveryCases`, `JointSaga`, `RecoveryService` | the saga alone, with its remote, and as it runs |
| `RecoverySaga`, `SagaGrammar`, `Exclusivity` | theorems about the saga |
| `MatchOutcomes`, `ItemOutcomes`, `SagaOutcomes` | what single requests bring about, and what stays of it |
| `MatchToCase` | the saga fed by the matching-service |
| `EndToEnd` | the composed system |

## Assumptions

- One transaction is one atomic step of its service. Reads see the session's own unflushed changes
  (autoflush is off, and lookups go through the identity map).
- An event id determines the event, where a statement says so (`MatchConfluence.WellFormed`, the
  hypothesis of `RecoverySaga.ProcessedEventsHaveCases`). For the item-service's own events this is
  proved (`EndToEnd.StoredEventsAreWellFormed`).
- In `Exclusivity`, only the saga calls the internal recovery endpoints. A call may be answered, fail
  without effect, or take effect with its answer lost, which the client reports as a failure;
  exclusivity is characterised for all three.
- In `SagaGrammar`, `GrammarHolds` is about users whose cancel reasons do not start with
  `OPEN_FAILED:`. The request schema allows such reasons; `CancelIsFinalIff` states exactly that they
  are what makes a cancellation non-final, and `PrefixedReasonReopens` is a concrete run. It takes a
  second event for the match. `GrammarHoldsIff` needs no assumption, and `MatchToCase` proves that
  deliveries from the matching-service, which announces each acceptance once, keep the grammar.
- `target_status` of a cancellation is AVAILABLE or MATCHED, as the request schema demands.
- What the environment chooses is a parameter: the broker's outcome for each message, whether a
  request gets through, clock readings, the order of query results that tie.

## Results where the code and a first expectation differ

- Publication order per item is not kept: `EndToEnd.LaterVersionIsPublishedFirst` is a run, and
  `EndToEnd.VersionsOvertakenIff` says exactly when it happens. The version guard makes the
  projections converge all the same.
- A lost reply breaks exclusivity: `Exclusivity.LostReplyExample` is a run, and
  `Exclusivity.AlwaysExclusiveIff` says exactly when it happens. An item stranded by a lost opening
  stays so for ever: `Exclusivity.StrandedForever`.
- One item can be in several accepted matches: `AcceptedMatches.OneItemTwoAccepted` is a run, and
  `AcceptedMatches.OneAcceptedPerItemIff` says exactly which runs lead there.
- Cancelling a recovery restores an item exactly if the requested status is the one it had:
  `ItemBatches.LaterCancelUndoesOpenIff`, with a run in `ItemBatches.DefaultCancelDoesNotRestore`.
- A user cancellation is final exactly if its reason lacks the open-failure prefix:
  `SagaGrammar.CancelIsFinalForeverIff`, with a run in `SagaGrammar.PrefixedReasonReopens`.
- The guard on the found item never decides whether a case opens; the item-service's status machine
  already does: `Exclusivity.OpeningSucceedsIff`.
- The re-check of a suggestion before a decision can never fail in sequential runs:
  `IndexExactness.RecheckNeverFires`. Likewise the unique index of active cases:
  `RecoverySaga.IndexNeverTrips`.

## Model

| member | source | states |
|---|---|---|
| IndexExactness.IndexEqualsRecomputation | matching-service/app/services/matching_service.py:74-132 | after any run of deliveries (new, duplicated, stale, reordered, reclassifying) and decisions there is one row per pair, and the SUGGESTED pairs are exactly the pairs the rule accepts on the current projections less the decided ones |
| IndexExactness.SuggestionsAreFresh | matching-service/app/services/matching_service.py:229-278 | every SUGGESTED row's score and snapshot are what the rule gives on the two current projections |
| IndexExactness.RecheckNeverFires | matching-service/app/services/matching_service.py:292-308 | in reachable states a decision succeeds exactly when the row exists and is SUGGESTED: the eligibility re-check never refuses |
| IndexExactness.GenerateAllSteps | matching-service/app/services/matching_service.py:213-280 | the invariant of the generation loop: after visiting some candidates the index is exact except for the item's pairs with the others |
| IndexExactness.AfterExpiry | matching-service/app/services/matching_service.py:195-210 | expiry after a projection change leaves only candidate pairs SUGGESTED, and only the changed item's pairs possibly unscored or missing |
| IndexExactness.ReindexKeepsExact | matching-service/app/services/matching_service.py:81-85 | expiring and regenerating one item's pairs restores exactness for all pairs |
| IndexExactness.DecideKeepsExact | matching-service/app/services/matching_service.py:95-132 | decisions, accepted or refused, keep the index exact |
| MatchConfluence.Confluence | matching-service/app/services/matching_service.py:74-92 | two runs that delivered the same event set, in any orders with any repetitions, have equal projections; with the same decided pairs they have the same suggested pairs |
| MatchConfluence.RunsReflectEvents | matching-service/app/services/matching_service.py:145-192 | after any run the projections are the newest payload per item among the delivered events, and the processed ids are exactly theirs |
| MatchConfluence.NewestIsUnique | matching-service/app/services/matching_service.py:152-153 | for well-formed events the newest payloads determine the projections |
| MatchLifecycle.LifecycleHolds | matching-service/app/services/matching_service.py:403-426 | over every run each suggestion's events are one or more MatchSuggested and then at most one decision event, present exactly for decided rows and carrying the row as it stands |
| MatchLifecycle.AnnouncedOncePerEntry | matching-service/app/services/matching_service.py:248-278 | the number of MatchSuggested events of a suggestion equals the number of times it entered SUGGESTED |
| MatchLifecycle.DecisionsAreFinal | matching-service/app/services/matching_service.py:264-278 | an accepted or rejected row never changes again in any continuation, so the pair is never suggested again |
| MatchOutcomes.DecisionTakesEffect | matching-service/app/services/matching_service.py:95-132 | after a decision that succeeded, whatever comes later, the row is the suggested one with ACCEPTED or REJECTED and its user, the pair is decided and not suggested, and the decision enqueued exactly the one MatchAccepted or MatchRejected carrying that row |
| MatchOutcomes.DecisionOutcome | matching-service/app/services/matching_service.py:292-308 | a decision that succeeds changes its row, appends its event and touches nothing else; one that is refused says why |
| MatchOutcomes.OnlyDecidedRowsNameUsers | matching-service/app/services/matching_service.py:248-278 | over every run suggested and expired rows, revived ones included, name no deciding user |
| MatchOutcomes.NewEventsShowRows | matching-service/app/services/matching_service.py:403-426 | every event a step enqueues carries its row as that step leaves it, SUGGESTED, ACCEPTED or REJECTED as its type says |
| MatchOutcomes.DeliveryOutcome | matching-service/app/services/matching_service.py:74-92 | a delivery answers with the item's suggestions as they are then, or with nothing when processed before; a newer one stores its payload, a stale one only registers |
| AcceptedMatches.OneAcceptedPerItemIff | matching-service/app/services/matching_service.py:95-112 | over every run, no two accepted matches share an item if and only if no step accepted a suggestion one of whose items had an accepted match already |
| AcceptedMatches.OneAcceptedKeptIff | matching-service/app/services/matching_service.py:292-308 | the same for one step: the guards of a decision let exactly these acceptances break it |
| AcceptedMatches.AcceptedOnce | matching-service/app/services/matching_service.py:103-108 | over every run two MatchAccepted events of one suggestion are the same outbox entry, carrying the row as it stands |
| AcceptedMatches.AcceptsDoNotCompete | matching-service/app/services/matching_service.py:292-298 | right after one acceptance, another suggestion can be accepted exactly when it was SUGGESTED, whether or not they share an item |
| AcceptedMatches.OneItemTwoAccepted | matching-service/app/services/matching_service.py:95-112 | a run in which one lost item ends up in two accepted matches |
| MatchingService.Session.ConsumeItemEvent | matching-service/app/services/matching_service.py:74-92 | the transaction as it runs commits exactly the specified store and returns the specified suggestions, with candidates the query may return; refused events leave the store alone |
| MatchingService.Session.UpsertItemProjection | matching-service/app/services/matching_service.py:145-192 | the version guard: stale events change nothing; otherwise the row is stored under the aggregate's id, or inserted under the payload's |
| MatchingService.Session.ExpireInvalidMatchesForItem | matching-service/app/services/matching_service.py:195-210 | exactly the item's SUGGESTED rows that are no longer candidates become EXPIRED; all other rows keep every field |
| MatchingService.Session.GenerateMatchSuggestionsForItem | matching-service/app/services/matching_service.py:213-280 | the loop realizes the fold over the queried candidates, and the count returned is the number of events enqueued |
| MatchingService.Session.SuggestForCandidate | matching-service/app/services/matching_service.py:229-278 | the loop body, as a method of its own: the pair's row is inserted, rescored, revived, expired or left alone exactly as specified, with one event counted for an insertion or revival |
| MatchingService.Session.EnsureMatchCanBeDecided | matching-service/app/services/matching_service.py:292-308 | which suggestions are refused and why; one that is no longer a candidate is expired and committed first |
| MatchingService.Session.AcceptMatch | matching-service/app/services/matching_service.py:95-112 | the transaction as it runs equals the specified decision, in state, event and error |
| MatchingService.Session.RejectMatch | matching-service/app/services/matching_service.py:115-132 | the transaction as it runs equals the specified decision, in state, event and error |
| MatchingService.Session.RecordMatchEvent | matching-service/app/services/matching_service.py:403-426 | appends one event carrying the row as it stands |
| MatchingService.Session.ListCandidates | matching-service/app/repositories/item_projection_repository.py:37-59 | every projection of the opposite classification except the item itself, each once |
| MatchIndex.FindPair | matching-service/app/repositories/match_suggestion_repository.py:37-57 | a row of the pair, or none exactly when no row has that pair |
| MatchIndex.SuggestedFor | matching-service/app/repositories/match_suggestion_repository.py:81-104 | exactly the SUGGESTED rows touching the item, oldest first |
| Scoring.AssessPair | matching-service/app/services/matching_service.py:319-387 | the rule as evaluated step by step: the score is nonzero exactly for candidate pairs, then lies in 50..100 and equals the matched weights of its snapshot, less 5 for a gap of 4 to 7 days |
| Scoring.AssessCriteria | matching-service/app/services/matching_service.py:334-387 | the running score, the count of further criteria and the snapshot agree with the closed form |
| Scoring.SnapshotMeaning | matching-service/app/services/matching_service.py:334-377 | what the stored snapshot says about the items: criteria matched, all shared location words, and the first ten shared keywords in order |
| Scoring.CandidateMeans | matching-service/app/services/matching_service.py:311-347 | the rule in plain terms: both AVAILABLE, LOST and FOUND, same category, and same colour, dates at most 7 days apart, a shared location word or a shared keyword |
| Scoring.ScoreMeans | matching-service/app/services/matching_service.py:341-377 | the score in points: 40, and 20, 15, 15 or 10, and 10 for the criteria met; 0 for other pairs |
| Scoring.DatesAloneDecide | matching-service/app/services/matching_service.py:358-383 | a pair with nothing but the category in common is a candidate exactly within 7 days, with 55 or 50 points |
| Scoring.RefusalMeans | matching-service/app/services/matching_service.py:323-332 | which pairs are refused before scoring, and for which reason |
| Scoring.AppendingTextNeverLowersScore | matching-service/app/services/matching_service.py:369-377 | appending space-separated text to a title or description of either item never lowers the score |
| Tokens.TokenizeJoined | matching-service/app/services/matching_service.py:394-400 | tokenizing text joined by a space is the union of tokenizing the parts |
| Tokens.FindAllFindsMaximalRuns | matching-service/app/services/matching_service.py:397-397 | the scanner returns exactly the maximal runs of token characters |
| Tokens.TokenMeans | matching-service/app/services/matching_service.py:394-400 | the tokens of a text are the maximal runs of its lower-cased form with three characters or more, except uma, com and para |
| Tokens.WordIsItsToken | matching-service/app/services/matching_service.py:394-400 | a word of lower-case letters and digits is its own only token |
| Tokens.TokenizeSeparated | matching-service/app/services/matching_service.py:397-397 | text is tokenized piece by piece between characters that are no letters or digits |
| Tokens.TokenizeIgnoresCase | matching-service/app/services/matching_service.py:397-397 | tokens do not depend on the case of Latin letters |
| Tokens.NormalizeIgnoresPaddingAndCase | matching-service/app/services/matching_service.py:390-391 | values normalize alike up to surrounding white space and the case of Latin letters |
| Tokens.NormalizeTrims | matching-service/app/services/matching_service.py:390-391 | blanks, tabs and line ends around a value do not matter |
| Tokens.NormalizeKeepsPlain | matching-service/app/services/matching_service.py:390-391 | lower-case values without white space are left as they are, so different ones stay different |
| Tokens.SortedLists | matching-service/app/services/matching_service.py:349-351 | sorting a token set lists exactly its words, each once, in ascending code point order |
| Tokens.LexMeans | matching-service/app/services/matching_service.py:349-351 | the order of sorting: a prefix first, otherwise the smaller character at the first difference |
| Exclusivity.RecoveryIsExclusive | recovery-case-service/app/services/recovery_case_service.py:85-274 | in every joint state reachable without losing the reply to a request that was carried out, an item is IN_RECOVERY exactly when exactly one case in progress holds it as lost or found item |
| Exclusivity.AlwaysExclusiveIff | recovery-case-service/app/services/recovery_case_service.py:143-151 | over every run on any network, exclusivity holds throughout exactly when no such reply is lost |
| Exclusivity.OpeningSucceedsIff | recovery-case-service/app/services/recovery_case_service.py:105-173 | a new or retried case opens exactly when the item-service answers and both items are AVAILABLE or MATCHED; the local guard never refuses a case the item-service would take |
| Exclusivity.ClosingSucceedsIff | recovery-case-service/app/services/recovery_case_service.py:176-274 | cancel and complete succeed exactly when the case is in progress and the item-service answers; otherwise cases stay as they were, and items too unless only the reply was lost |
| Exclusivity.ClosingIsNeverRejected | item-service/app/services/item_service.py:292-310 | the status machine never rejects cancelling or completing a case in progress |
| Exclusivity.NextKeepsExclusiveIff | recovery-case-service/app/services/recovery_case_service.py:85-274 | a public item command or saga operation breaks exclusivity exactly when it loses the reply to an opening, cancellation or completion that was carried out |
| Exclusivity.RemoteMeaning | recovery-case-service/app/services/item_service_client.py:45-57 | a call is accepted exactly when it is carried out and answered; one that is carried out moves exactly the listed items, any other changes none |
| Exclusivity.LostOpenStrands | recovery-case-service/app/services/recovery_case_service.py:143-151 | if an open takes effect but its reply is lost, both items are in recovery and held by no case |
| Exclusivity.LostCloseReleases | recovery-case-service/app/services/recovery_case_service.py:204-209 | if a cancellation or completion takes effect but its reply is lost, the case stays in progress without its items |
| Exclusivity.LostReplyExample | recovery-case-service/app/services/recovery_case_service.py:143-151 | a run from the start, two creations and an open whose reply is lost, after which both items stay stranded whatever follows |
| Exclusivity.StrandedForever | recovery-case-service/app/services/recovery_case_service.py:143-151 | such an item stays stranded through every later run: no retry, cancellation or public command frees it |
| SagaOutcomes.OperationsMoveItems | recovery-case-service/app/services/recovery_case_service.py:130-274 | an operation that succeeds has moved exactly the case's two items, one version on, to IN_RECOVERY, the requested status or RECOVERED |
| SagaOutcomes.CompletedItemsAreDelivered | recovery-case-service/app/services/recovery_case_service.py:227-274 | over every run on any network both items of a completed case are RECOVERED, or CLOSED since |
| SagaOutcomes.OtherDeliveriesMoveNothing | recovery-case-service/app/services/recovery_case_service.py:90-103 | a delivery that asks for no opening leaves every item and case alone; another event type is refused |
| SagaOutcomes.OpenTakesEffect | recovery-case-service/app/services/recovery_case_service.py:105-163 | an opening that succeeds leaves the new or retried case in progress with its failure reason cleared, reports it as caused by the delivery and registers the delivery |
| SagaOutcomes.OpenFailureIsRecorded | recovery-case-service/app/services/recovery_case_service.py:145-151 | one that is refused leaves the case cancelled with the marked reason and a failed step, and the delivery unregistered |
| SagaOutcomes.RecordedFailureIsRetried | recovery-case-service/app/services/recovery_case_service.py:298-302 | after a recorded failure any unregistered event for the match, the same one included, asks to open the same case again |
| SagaOutcomes.BusyMeans | recovery-case-service/app/services/recovery_case_service.py:284-295 | an opening is refused as busy exactly when another case of the found item is open or in progress |
| SagaOutcomes.CancelTakesEffect | recovery-case-service/app/services/recovery_case_service.py:190-221 | a cancellation that succeeds leaves the user's reason or the default one, and reports the cancelled case |
| SagaOutcomes.CompleteTakesEffect | recovery-case-service/app/services/recovery_case_service.py:241-271 | a completion that succeeds leaves and reports the completed case |
| SagaOutcomes.ClosingFailureIsRecorded | recovery-case-service/app/services/recovery_case_service.py:206-209 | a refused request to close leaves the case and one failed step |
| SagaOutcomes.ClosingRefusals | recovery-case-service/app/services/recovery_case_service.py:182-188 | which requests to close are refused without asking, and why |
| RecoverySaga.RunsKeepSaga | recovery-case-service/app/services/recovery_case_service.py:305-376 | over every run, whatever the item-service answers: each case's status is the replay of its saga steps, its events are its succeeded steps in order, the outbox mirrors the events, no case is left OPEN, no step STARTED, one case per match, one active case per found item |
| RecoverySaga.ActRealizesEffect | recovery-case-service/app/services/recovery_case_service.py:130-172 | a transaction either changes nothing but the processed ids, or settles exactly one step of one case, with one event and one message exactly if it succeeded; and exactly which deliveries are registered |
| RecoverySaga.IndexNeverTrips | recovery-case-service/app/services/recovery_case_service.py:163-171 | the guard on the found item is enough: the conflict error of the commit never appears, for any reply |
| RecoverySaga.ProcessedEventsHaveCases | recovery-case-service/app/services/recovery_case_service.py:91-97 | if an event id names one event, the error "processed but no case" never appears in any run |
| SagaGrammar.GrammarHolds | recovery-case-service/app/services/recovery_case_service.py:99-162 | over every run with plain reasons each log is (open FAILED)* (open SUCCEEDED (close FAILED)* (close SUCCEEDED)?)?, each match has at most one case, opened successfully at most once |
| SagaGrammar.GrammarHoldsIff | recovery-case-service/app/services/recovery_case_service.py:99-162 | over every run, with whatever reasons, events and replies, all logs are in the grammar if and only if no delivery calls the item-service again for a case opened before |
| SagaGrammar.OneEventPerMatchKeepsGrammar | recovery-case-service/app/services/recovery_case_service.py:90-103 | the grammar and the single successful open, for any reasons at all, if all deliveries of a match carry one event id |
| MatchToCase.MatchedCasesKeepGrammar | recovery-case-service/app/services/recovery_case_service.py:85-173 | the same for every run fed from the matching-service's outbox, in any order and with any repetition |
| MatchToCase.CasesFitMatches | recovery-case-service/app/services/recovery_case_service.py:105-116 | fed so, every case is of an accepted suggestion, holds exactly its two items, and names the user who accepted it |
| SagaGrammar.RedeliveryIsIdle | recovery-case-service/app/services/recovery_case_service.py:90-103 | redelivering an event that was consumed changes nothing and returns the same case, after any further deliveries, cancellations and completions |
| SagaGrammar.DeliveriesLeaveCase | recovery-case-service/app/services/recovery_case_service.py:99-128 | once a match's case is in progress or settled, no sequence of deliveries, whatever their ids, matches and replies, changes that case, its log or its events, or gives the match another case |
| SagaGrammar.SettledCasesStay | recovery-case-service/app/services/recovery_case_service.py:234-239 | completed cases, and cancelled ones without the prefix, never change again and their logs never grow |
| SagaGrammar.CancelIsFinalIff | recovery-case-service/app/services/recovery_case_service.py:298-302 | after a user cancellation, another event for the match leaves the case alone exactly when the reason lacks the open-failure prefix |
| SagaGrammar.CancelIsFinalForeverIff | recovery-case-service/app/services/recovery_case_service.py:298-302 | a user cancellation survives every continuation exactly when its reason lacks the prefix |
| SagaGrammar.PrefixedReasonBreaksGrammar | recovery-case-service/app/services/recovery_case_service.py:298-302 | with such a reason the case is opened a second time and its log leaves the grammar |
| SagaGrammar.PrefixedReasonReopens | recovery-case-service/app/schemas/recovery_case.py:10-22 | a concrete run from the empty store in which a permitted reason reopens a cancelled case |
| RecoveryService.Session.ConsumeMatchAccepted | recovery-case-service/app/services/recovery_case_service.py:85-173 | the transaction as it runs, remote call included, takes both services to exactly the specified joint state and answers as specified |
| RecoveryService.Session.CancelRecoveryCase | recovery-case-service/app/services/recovery_case_service.py:176-224 | as above, for cancellation |
| RecoveryService.Session.CompleteRecoveryCase | recovery-case-service/app/services/recovery_case_service.py:227-274 | as above, for completion |
| RecoveryService.Session.PrepareOpen | recovery-case-service/app/services/recovery_case_service.py:90-128 | the early exits, or the case put in the session as OPEN with its retry fields reset |
| RecoveryService.Session.AbandonOpen | recovery-case-service/app/services/recovery_case_service.py:145-151 | a failed request commits the case as cancelled with the failure reason and the step as FAILED, with no event, and does not register the delivery |
| RecoveryService.Session.FinishOpen | recovery-case-service/app/services/recovery_case_service.py:153-170 | an accepted request commits the case in progress, the step as SUCCEEDED, one event and the processed id, unless the index refuses the commit, which restores everything |
| RecoveryService.Session.Commit | recovery-case-service/app/services/recovery_case_service.py:164-170 | commits everything, or rolls everything back exactly when the unique index is violated |
| RecoveryService.Session.Call | recovery-case-service/app/services/item_service_client.py:45-57 | a request is answered, fails without effect, or takes effect and is reported as failed because the answer was lost |
| RecoveryService.Session.RecordCaseEvent | recovery-case-service/app/services/recovery_case_service.py:333-376 | appends one case event and one message with the case as it stands |
| RecoveryCases.CaseOfMatch | recovery-case-service/app/repositories/recovery_case_repository.py:18-20 | a case of the match, or none exactly when the match has no case |
| ItemHistory.RunsKeepLogs | item-service/app/services/item_service.py:227-261 | over every run each item's events are versions 1..version without gap, created first and updated after, each envelope repeating its payload; its history is a path of the status machine from AVAILABLE to the current status; and the history is exactly the sequence of status changes its events show |
| ItemHistory.HistoryFacts | item-service/app/services/item_service.py:264-312 | in every history CANCELLED and CLOSED are last, RECOVERED comes only after IN_RECOVERY, IN_RECOVERY only after AVAILABLE or MATCHED |
| ItemHistory.VersionCounts | item-service/app/services/item_service.py:112-134 | an item's version is its history length plus the number of effective patches of the run |
| ItemHistory.PatchIsIdempotent | item-service/app/services/item_service.py:112-134 | an update succeeds exactly when some given field differs; given fields then hold the given values, every other field of the item, and every other item, is as it was, the version is one higher; repeating it is refused without effect |
| ItemOutcomes.CreationOutcome | item-service/app/services/item_service.py:73-105 | creating succeeds exactly for an unused id, and stores, logs and announces an AVAILABLE item at version 1 that says, field by field, what the draft says |
| ItemOutcomes.ItemsSayTheirDrafts | item-service/app/services/item_service.py:112-134 | after any later commands an item has its drafted classification, and every drafted field no patch gave |
| ItemOutcomes.UpdateRefusals | item-service/app/services/item_service.py:113-126 | why an update is refused |
| ItemOutcomes.StatusUpdateOutcome | item-service/app/services/item_service.py:137-159 | the public endpoint makes exactly the seven public moves, each with one version, one history entry and one event |
| ItemOutcomes.StatusUpdateRefusals | item-service/app/services/item_service.py:142-147 | why a status update is refused |
| ItemOutcomes.OpeningOutcome | item-service/app/services/item_service.py:162-177 | opening succeeds exactly for AVAILABLE and MATCHED items, and moves the listed ones to IN_RECOVERY and no other |
| ItemOutcomes.CancellingOutcome | item-service/app/services/item_service.py:180-195 | cancelling succeeds exactly for IN_RECOVERY items, and moves the listed ones to the requested status and no other |
| ItemOutcomes.CancellingRefusesOthers | item-service/app/services/item_service.py:297-300 | a requested status other than AVAILABLE and MATCHED is refused |
| ItemOutcomes.CompletingOutcome | item-service/app/services/item_service.py:198-213 | completing succeeds exactly for IN_RECOVERY items, and moves the listed ones to RECOVERED and no other |
| ItemBatches.BatchIsAtomic | item-service/app/services/item_service.py:162-224 | a batch over any id list succeeds exactly when every listed item exists and may move; then each distinct item moves one version with one history entry and one event in first-occurrence order, else the committed store is unchanged |
| ItemBatches.RepeatsDoNotMatter | item-service/app/services/item_service.py:216-224 | the batch equals the batch over the distinct ids |
| ItemBatches.DedupKeepsFirsts | item-service/app/services/item_service.py:217-217 | the distinct ids come in the order of their first occurrences |
| ItemBatches.LaterCancelUndoesOpenIff | item-service/app/services/item_service.py:162-195 | an opened recovery can be cancelled after any commands that did not end it; unpatched items are restored up to their version exactly when the requested status is the one they had |
| ItemBatches.CommandLeavesInRecovery | item-service/app/services/item_service.py:292-310 | no command but a cancellation or completion that lists it takes an item out of recovery, and none but a patch changes it meanwhile |
| ItemBatches.CancelUndoesOpenIff | item-service/app/services/item_service.py:180-195 | the same for a cancellation right after the opening |
| ItemBatches.DefaultCancelDoesNotRestore | item-service/app/services/item_service.py:162-195 | a run in which an AVAILABLE item, opened and cancelled with the default status, is left MATCHED |
| ItemService.Session.CreateItem | item-service/app/services/item_service.py:73-105 | the transaction as it runs equals the specified creation |
| ItemService.Session.UpdateItem | item-service/app/services/item_service.py:112-134 | the transaction as it runs equals the specified update, in state and error |
| ItemService.Session.ApplyChanges | item-service/app/services/item_service.py:119-123 | the loop over fields computes the patched item and reports a change exactly when it differs |
| ItemService.Session.UpdateItemStatus | item-service/app/services/item_service.py:137-159 | the transaction as it runs equals the specified status change, in state and error |
| ItemService.Session.ApplyStatusTransition | item-service/app/services/item_service.py:227-261 | on success the session holds the specified transition; a refusal leaves it untouched |
| ItemService.Session.UniqueIds | item-service/app/services/item_service.py:216-217 | the loop computes the distinct ids in first-occurrence order |
| ItemService.Session.ApplyAll | item-service/app/services/item_service.py:166-174 | the loop performs the specified sequence of transitions, stopping with the first refusal |
| ItemService.Session.TransitionBatch | item-service/app/services/item_service.py:162-213 | the transaction as it runs commits the whole batch or leaves the committed store unchanged |
| ItemService.Session.RecordItemEvent | item-service/app/services/item_service.py:336-359 | appends one envelope with the item as it stands, its id and its version |
| ItemAggregate.Transition | item-service/app/services/item_service.py:236-244 | succeeds exactly for a different status the mode allows from the current one |
| Outbox.BatchPublishesPrefix | item-service/app/messaging/publisher.py:127-202 | a batch publishes precisely the selected rows before its first failure, marks that one failed with its next attempt time or exhausted, leaves all other rows untouched and returns the prefix length |
| Outbox.ListPendingAnswersQuery | item-service/app/repositories/outbox_repository.py:15-28 | filter, sort and limit give due rows, oldest first, at most the limit, with no older due row left out |
| Outbox.SelectedRowsWait | item-service/app/repositories/outbox_repository.py:22-23 | only PENDING and FAILED rows whose time has come are selected |
| Outbox.UnselectedRowsAreDone | item-service/app/repositories/outbox_repository.py:20-25 | with room left in a batch, every row whose time has come is selected, PUBLISHED or EXHAUSTED |
| OutboxPublisher.Publisher.PublishBatch | item-service/app/messaging/publisher.py:127-202 | the loop over row objects takes the table to exactly the specified batch result |
| OutboxPublisher.Publisher.Attempt | item-service/app/messaging/publisher.py:138-196 | one iteration updates that row alone: published, failed with a backoff, or exhausted |
| OutboxPublisher.Publisher.Enqueue | item-service/app/messaging/outbox.py:8-30 | appends one pending row with no attempts |
| OutboxPublisher.OutboxRow.BecomePublished | item-service/app/repositories/outbox_repository.py:31-45 | the row's whole new state |
| OutboxPublisher.OutboxRow.BecomeFailed | item-service/app/repositories/outbox_repository.py:48-63 | the row's whole new state |
| OutboxPublisher.OutboxRow.BecomeExhausted | item-service/app/repositories/outbox_repository.py:66-79 | the row's whole new state |
| PublisherProgress.AttemptsAreBounded | item-service/app/messaging/publisher.py:162-196 | over every run PENDING rows have 0 attempts, FAILED 1..M-1, PUBLISHED 1..M, EXHAUSTED M; the batches that selected a row plus the attempts still left are at most rows x M |
| PublisherProgress.SettledRowsStay | item-service/app/repositories/outbox_repository.py:22-22 | PUBLISHED and EXHAUSTED rows are the same after every continuation of the run |
| PublisherProgress.WaitingRowIsPublished | item-service/app/messaging/publisher.py:136-160 | over every run a PENDING or FAILED row is published, with one more attempt, by the next batch that has room, runs once its time has come and meets no failure |
| PublisherProgress.IdleAfterAllTimesMeansDone | item-service/app/messaging/publisher.py:73-76 | when nothing is selected after every row's time has come, every row is PUBLISHED, or EXHAUSTED with its budget spent |
| PublisherProgress.SleepsIff | item-service/app/messaging/publisher.py:73-76 | the publisher sleeps exactly when nothing is due or the first selected row failed; it selects nothing exactly when nothing is due |
| PublisherProgress.OvertakenIff | item-service/app/repositories/outbox_repository.py:20-25 | over every run, an older row is overtaken in publication by a younger one exactly when a batch published the younger one while the older one was not due |
| PublisherProgress.SmoothRunsKeepOrder | item-service/app/messaging/publisher.py:136-160 | without failures, and with no row available later than the batches run, publication order is kept |
| EndToEnd.VersionsOvertakenIff | item-service/app/messaging/publisher.py:136-196 | over every run of the whole system, a later version of an item is published without an older one exactly when a batch published it while the older one was not due |
| PublisherProgress.OlderIsPublishedIff | item-service/app/messaging/publisher.py:136-196 | the batch that publishes a row also publishes an older unpublished one exactly when that one is due |
| PublisherProgress.OlderIsSelectedIff | item-service/app/repositories/outbox_repository.py:20-25 | with a younger row selected, an older live one is selected, and earlier, exactly when it is available |
| PublisherProgress.FailedHeadIsOvertaken | item-service/app/messaging/publisher.py:176-196 | a batch of deliveries before a failed head's next attempt leaves it FAILED and publishes every other due row that fits |
| EndToEnd.LaterVersionIsPublishedFirst | item-service/app/messaging/publisher.py:176-196 | a run of the whole system in which version 2 of an item is published while version 1 is FAILED and unsent |
| PublisherProgress.DelaysGrow | item-service/app/messaging/publisher.py:177-181 | delays are never negative, never above 60 seconds and never shrink |
| PublisherProgress.DelaysDouble | item-service/app/messaging/publisher.py:177-181 | the first delay is the configured one, each further one twice as long, and none over 60 seconds |
| PublisherProgress.TotalDelayBounded | item-service/app/messaging/publisher.py:177-187 | n delays add up to at most 60n seconds and at most the base delay times 2^n - 1 |
| PublisherProgress.WaitsAreBounded | item-service/app/messaging/publisher.py:162-196 | over every run the waits scheduled for a row add up to the delays of its retries, fewer than M of them, hence at most the lesser of 60(M-1) and base x (2^(M-1) - 1) |
| EndToEnd.ProjectionsArePastStates | matching-service/app/services/matching_service.py:145-192 | at every moment of every run each projection is the item exactly as the item-service once held it, at a version not above its current one |
| EndToEnd.ProjectionsNeverGoBack | matching-service/app/services/matching_service.py:152-153 | no step takes a projection to an earlier version or changes it within one |
| EndToEnd.ProjectionsKeepClassification | item-service/app/services/item_service.py:73-105 | over every run of the whole system an item and its projection have the classification the item was created with |
| EndToEnd.NewRowsWait | item-service/app/messaging/outbox.py:8-30 | each new event is enqueued as a PENDING row with no attempts, under its two times |
| EndToEnd.ProjectionsCatchUp | matching-service/app/services/matching_service.py:145-192 | a projection equals the item exactly when the event of the item's current version was delivered |
| EndToEnd.SystemConverges | matching-service/app/services/matching_service.py:74-92 | once every item's current event was delivered, projections equal items and the suggested pairs are exactly the accepted pairs of current items less the decided ones |
| EndToEnd.DrainedSystemConverges | item-service/app/messaging/publisher.py:127-202 | publishing the whole outbox, out of order and with duplicates, and delivering each message at least once is enough |
| EndToEnd.StoredEventsAreWellFormed | item-service/app/services/item_service.py:336-359 | the item-service's events satisfy what confluence asks of events |
| EndToEnd.EventsShowPastStates | item-service/app/services/item_service.py:246-260 | every event's payload is an item the item-service held at some point of the run |
| EndToEnd.RunsKeepSystem | item-service/app/messaging/publisher.py:127-202 | over every run the publisher's rows are the item events, only stored events are sent, published rows were sent, and the match index is exact and reflects what was consumed |

## Left out

- Timestamps other than an outbox row's occurrence, availability and publication times and the item's
  date: `created_at`, `updated_at`, `completed_at` and `last_seen_at` influence no branch that is
  modelled, except the order of query results, which is arbitrary here.
- Descriptive fields: history reason and actor, saga step payloads, `last_event_id`, correlation ids,
  the list of missing ids in the not-found error, and the user-facing wording of every error.
- Aliasing between two references to one row inside a session: rows are values in the session's maps
  and sequences, updated by position. Outbox rows are objects.
- Identifiers are natural numbers; suggestions, cases and events are named by their position in their
  table. Creating an item takes an arbitrary id and fails on a used one, where the service draws a
  random one.
- Failing commits other than the unique index of active cases, and a publisher that crashes between
  sending and marking a row. A send that reached the broker although it was reported as failed is
  modelled.
- A violation of the unique index at the flush before the remote call is reported by the same error as
  one at commit, though only the latter is caught by the service. Neither ever occurs.
- Concurrent transactions on one database, row locks and `skip_locked`.
- A successful remote call whose response body does not validate.
- Request and event validation (lengths, stripping, types); JSON; routes, authentication, metrics;
  broker connection and topology; the publisher's polling and reconnecting loop.
- Lower-casing of code points whose lower-case form does not meet the token class, beyond the listed
  ones: it matters only to the comparison of categories and colours in other scripts.
- The publishers of the matching and recovery services, which are copies of the one modelled.
- Order among rows with equal occurrence times: the query does not fix it, so `OvertakenIff` and
  `VersionsOvertakenIff` compare rows with different ones.
- The saga is composed with the item-service in `Exclusivity`, not in `EndToEnd`; there, recovery
  batches arrive with arbitrary ids, which includes all that the saga sends.
- MatchingService.Session.ListCandidates: the order by creation time is not fixed; every theorem holds
  for any order.
