/** The matching rules: when a LOST and a FOUND item are a candidate pair, and with what score. */
module Scoring {
  import opened Domain
  import opened Tokens

  datatype Refusal =
    | MissingItemProjection
    | ItemNotEligible
    | PairMustBeLostAndFound
    | CategoryMismatch
    | MissingAdditionalCriteria

  /** The criteria snapshot stored with a suggestion. Pairs refused before any criterion is looked
      at carry only the reason. */
  datatype Snapshot =
    | Unscored(reason: Refusal)
    | Scored(
        colorMatched: bool,
        locationOverlap: seq<string>,
        dateMatched: bool,
        daysDifference: nat,
        keywordsMatched: bool,
        keywordsOverlap: seq<string>,
        refusal: Option<Refusal>,
        total: nat)

  datatype Assessment = Assessment(isCandidate: bool, snapshot: Snapshot, score: nat)

  const CATEGORY_WEIGHT := 40
  const COLOR_WEIGHT := 20
  const LOCATION_WEIGHT := 15
  const DATE_WEIGHT := 15
  const NEAR_DATE_WEIGHT := 10
  const KEYWORDS_WEIGHT := 10
  const SAME_DATE_DAYS := 3
  const NEAR_DATE_DAYS := 7
  const MAX_STORED_KEYWORDS := 10

  function DaysBetween(a: int, b: int): nat {
    if a <= b then b - a else a - b
  }

  predicate IsItemEligible(item: Option<Item>) {
    item.Some? && item.value.status.AVAILABLE?
  }

  predicate SameColor(lost: Item, found: Item) {
    NormalizeValue(lost.color) == NormalizeValue(found.color)
  }

  predicate SameCategory(lost: Item, found: Item) {
    NormalizeValue(lost.category) == NormalizeValue(found.category)
  }

  function LocationOverlap(lost: Item, found: Item): set<string> {
    Tokenize(lost.location) * Tokenize(found.location)
  }

  function KeywordsOf(item: Item): set<string> {
    Tokenize(item.title + " " + item.description)
  }

  function KeywordsOverlap(lost: Item, found: Item): set<string> {
    KeywordsOf(lost) * KeywordsOf(found)
  }

  predicate NearDate(lost: Item, found: Item) {
    DaysBetween(lost.date, found.date) <= NEAR_DATE_DAYS
  }

  /** The business rule: both available, one LOST and one FOUND, same category, and at least one
      further criterion. */
  predicate IsCandidatePair(lost: Option<Item>, found: Option<Item>) {
    && IsItemEligible(lost) && IsItemEligible(found)
    && lost.value.classification.LOST? && found.value.classification.FOUND?
    && SameCategory(lost.value, found.value)
    && ( || SameColor(lost.value, found.value)
         || LocationOverlap(lost.value, found.value) != {}
         || NearDate(lost.value, found.value)
         || KeywordsOverlap(lost.value, found.value) != {})
  }

  function DatePoints(days: nat): nat {
    if days <= SAME_DATE_DAYS then DATE_WEIGHT
    else if days <= NEAR_DATE_DAYS then NEAR_DATE_WEIGHT
    else 0
  }

  function Truncated(words: seq<string>): seq<string> {
    if |words| <= MAX_STORED_KEYWORDS then words else words[..MAX_STORED_KEYWORDS]
  }

  /** The verdict on a pair of the same category, given how its further criteria came out. */
  function Verdict(sameColor: bool, location: seq<string>, days: nat, keywords: seq<string>): Assessment {
    var near := days <= NEAR_DATE_DAYS;
    var candidate := sameColor || location != [] || near || keywords != [];
    var score :=
      if !candidate then 0
      else
        CATEGORY_WEIGHT
        + (if sameColor then COLOR_WEIGHT else 0)
        + (if location != [] then LOCATION_WEIGHT else 0)
        + DatePoints(days)
        + (if keywords != [] then KEYWORDS_WEIGHT else 0);
    Assessment(candidate,
               Scored(sameColor, location, near, days, keywords != [], Truncated(keywords),
                      if candidate then None else Some(MissingAdditionalCriteria), score),
               score)
  }

  /** What `is_match_candidate_pair` returns. */
  function Assess(lost: Option<Item>, found: Option<Item>): Assessment {
    if lost.None? || found.None? then Assessment(false, Unscored(MissingItemProjection), 0)
    else if !IsItemEligible(lost) || !IsItemEligible(found) then Assessment(false, Unscored(ItemNotEligible), 0)
    else if !lost.value.classification.LOST? || !found.value.classification.FOUND? then
      Assessment(false, Unscored(PairMustBeLostAndFound), 0)
    else if !SameCategory(lost.value, found.value) then Assessment(false, Unscored(CategoryMismatch), 0)
    else
      Verdict(SameColor(lost.value, found.value),
              Sorted(LocationOverlap(lost.value, found.value)),
              DaysBetween(lost.value.date, found.value.date),
              Sorted(KeywordsOverlap(lost.value, found.value)))
  }

  /** The weights of the criteria a stored snapshot reports as matched. */
  function MatchedWeights(snapshot: Snapshot): nat
    requires snapshot.Scored?
  {
    CATEGORY_WEIGHT
    + (if snapshot.colorMatched then COLOR_WEIGHT else 0)
    + (if snapshot.locationOverlap != [] then LOCATION_WEIGHT else 0)
    + (if snapshot.dateMatched then DATE_WEIGHT else 0)
    + (if snapshot.keywordsMatched then KEYWORDS_WEIGHT else 0)
  }

  function NearDateDiscount(snapshot: Snapshot): nat
    requires snapshot.Scored?
  {
    if SAME_DATE_DAYS < snapshot.daysDifference <= NEAR_DATE_DAYS then DATE_WEIGHT - NEAR_DATE_WEIGHT else 0
  }

  /** A score is nonzero exactly for candidate pairs, lies between 50 and 100, and can be
      recomputed from the stored snapshot: the matched weights, less five points for a date gap of
      four to seven days. */
  ghost predicate ObeysScoreLaw(a: Assessment, lost: Option<Item>, found: Option<Item>) {
    && (a.score != 0 <==> IsCandidatePair(lost, found))
    && (a.isCandidate <==> IsCandidatePair(lost, found))
    && (a.isCandidate ==>
          && 50 <= a.score <= 100
          && a.snapshot.Scored? && a.snapshot.total == a.score && a.snapshot.refusal.None?
          && a.score == MatchedWeights(a.snapshot) - NearDateDiscount(a.snapshot))
  }

  /** The rule as the service evaluates it: a running score, a count of further criteria, and a
      snapshot filled in criterion by criterion. */
  method AssessPair(lost: Option<Item>, found: Option<Item>) returns (a: Assessment)
    ensures a == Assess(lost, found)
    ensures ObeysScoreLaw(a, lost, found)
  {
    if lost.None? || found.None? {
      return Assessment(false, Unscored(MissingItemProjection), 0);
    }
    if !IsItemEligible(lost) || !IsItemEligible(found) {
      return Assessment(false, Unscored(ItemNotEligible), 0);
    }
    if lost.value.classification != LOST || found.value.classification != FOUND {
      return Assessment(false, Unscored(PairMustBeLostAndFound), 0);
    }
    if !SameCategory(lost.value, found.value) {
      return Assessment(false, Unscored(CategoryMismatch), 0);
    }
    a := AssessCriteria(
      SameColor(lost.value, found.value),
      Sorted(LocationOverlap(lost.value, found.value)),
      DaysBetween(lost.value.date, found.value.date),
      Sorted(KeywordsOverlap(lost.value, found.value)));
  }

  method AssessCriteria(sameColor: bool, location: seq<string>, days: nat, keywords: seq<string>)
    returns (a: Assessment)
    ensures a == Verdict(sameColor, location, days, keywords)
  {
    var snapshot := Scored(false, [], false, days, false, [], None, 0);
    var score: nat := CATEGORY_WEIGHT;
    var additionalMatches := 0;

    if sameColor {
      snapshot := snapshot.(colorMatched := true);
      score := score + COLOR_WEIGHT;
      additionalMatches := additionalMatches + 1;
    }
    if location != [] {
      snapshot := snapshot.(locationOverlap := location);
      score := score + LOCATION_WEIGHT;
      additionalMatches := additionalMatches + 1;
    }
    if days <= SAME_DATE_DAYS {
      snapshot := snapshot.(dateMatched := true);
      score := score + DATE_WEIGHT;
      additionalMatches := additionalMatches + 1;
    } else if days <= NEAR_DATE_DAYS {
      snapshot := snapshot.(dateMatched := true);
      score := score + NEAR_DATE_WEIGHT;
      additionalMatches := additionalMatches + 1;
    }
    if keywords != [] {
      snapshot := snapshot.(keywordsMatched := true, keywordsOverlap := Truncated(keywords));
      score := score + KEYWORDS_WEIGHT;
      additionalMatches := additionalMatches + 1;
    }
    if additionalMatches == 0 {
      return Assessment(false, snapshot.(refusal := Some(MissingAdditionalCriteria), total := 0), 0);
    }
    return Assessment(true, snapshot.(refusal := None, total := score), score);
  }

  /** What a candidate pair's stored snapshot says about the two items: the shared location words,
      and the first ten shared keywords in order, no dropped one preceding a kept one. */
  lemma SnapshotMeaning(lost: Item, found: Item, word: string)
    requires IsCandidatePair(Some(lost), Some(found))
    ensures var s := Assess(Some(lost), Some(found)).snapshot;
      && s.Scored?
      && (s.colorMatched <==> SameColor(lost, found))
      && (s.dateMatched <==> -7 <= lost.date - found.date <= 7)
      && s.daysDifference == (if lost.date < found.date then found.date - lost.date else lost.date - found.date)
      && (s.keywordsMatched <==> KeywordsOverlap(lost, found) != {})
      && (word in s.locationOverlap <==> word in LocationOverlap(lost, found))
      && |s.keywordsOverlap| <= 10
      && (word in s.keywordsOverlap ==> word in KeywordsOverlap(lost, found))
      && (word in KeywordsOverlap(lost, found) && word !in s.keywordsOverlap ==>
            && |s.keywordsOverlap| == 10
            && forall kept :: kept in s.keywordsOverlap ==> LexLeq(kept, word))
  {
    SortedLists(LocationOverlap(lost, found));
    SortedLists(KeywordsOverlap(lost, found));
    var all := Sorted(KeywordsOverlap(lost, found));
    var kept := Truncated(all);
    if word in all && word !in kept {
      var j :| 0 <= j < |all| && all[j] == word;
      forall k | k in kept ensures LexLeq(k, word) {
        var i :| 0 <= i < |kept| && kept[i] == k;
        assert all[i] == k;
      }
    }
  }

  /** The rule in plain terms. */
  lemma CandidateMeans(lost: Item, found: Item)
    ensures IsCandidatePair(Some(lost), Some(found)) <==>
      && lost.status == AVAILABLE && found.status == AVAILABLE
      && lost.classification == LOST && found.classification == FOUND
      && NormalizeValue(lost.category) == NormalizeValue(found.category)
      && ( || NormalizeValue(lost.color) == NormalizeValue(found.color)
           || -7 <= lost.date - found.date <= 7
           || (exists word :: word in Tokenize(lost.location) && word in Tokenize(found.location))
           || (exists word :: word in Tokenize(lost.title + " " + lost.description)
                              && word in Tokenize(found.title + " " + found.description)))
  {
    if word :| word in LocationOverlap(lost, found) {
      assert word in Tokenize(lost.location) && word in Tokenize(found.location);
    }
    if word :| word in KeywordsOverlap(lost, found) {
      assert word in Tokenize(lost.title + " " + lost.description);
    }
    if word :| word in Tokenize(lost.location) && word in Tokenize(found.location) {
      assert word in LocationOverlap(lost, found);
    }
    if word :| word in Tokenize(lost.title + " " + lost.description)
               && word in Tokenize(found.title + " " + found.description) {
      assert word in KeywordsOverlap(lost, found);
    }
  }

  /** The score of a candidate pair in points: 40 for the category, 20 for the same colour, 15 for a
      shared location word, 15 for dates at most three days apart or 10 for at most seven, and 10 for a
      shared keyword. Any other pair scores 0. */
  lemma ScoreMeans(lost: Item, found: Item)
    ensures var score := Assess(Some(lost), Some(found)).score; var gap := lost.date - found.date;
      score ==
        if !IsCandidatePair(Some(lost), Some(found)) then 0
        else
          40
          + (if NormalizeValue(lost.color) == NormalizeValue(found.color) then 20 else 0)
          + (if Tokenize(lost.location) * Tokenize(found.location) != {} then 15 else 0)
          + (if -3 <= gap <= 3 then 15 else if -7 <= gap <= 7 then 10 else 0)
          + (if Tokenize(lost.title + " " + lost.description) * Tokenize(found.title + " " + found.description) != {}
             then 10 else 0)
  {
  }

  /** With nothing else in common but the category, the dates decide. */
  lemma DatesAloneDecide(lost: Item, found: Item)
    requires lost.status == AVAILABLE == found.status
    requires lost.classification == LOST && found.classification == FOUND
    requires NormalizeValue(lost.category) == NormalizeValue(found.category)
    requires NormalizeValue(lost.color) != NormalizeValue(found.color)
    requires Tokenize(lost.location) !! Tokenize(found.location)
    requires Tokenize(lost.title + " " + lost.description) !! Tokenize(found.title + " " + found.description)
    ensures var a := Assess(Some(lost), Some(found)); var gap := lost.date - found.date;
      && (a.isCandidate <==> -7 <= gap <= 7)
      && a.score == (if -3 <= gap <= 3 then 55 else if -7 <= gap <= 7 then 50 else 0)
      && (!a.isCandidate ==> a.snapshot.Scored? && a.snapshot.refusal == Some(MissingAdditionalCriteria))
  {
  }

  /** Why a pair is refused before any further criterion is looked at. */
  lemma RefusalMeans(lost: Option<Item>, found: Option<Item>)
    ensures var a := Assess(lost, found);
      && (a.snapshot == Unscored(MissingItemProjection) <==> lost.None? || found.None?)
      && (a.snapshot == Unscored(ItemNotEligible) <==>
            lost.Some? && found.Some? && !(lost.value.status == AVAILABLE == found.value.status))
      && (a.snapshot == Unscored(PairMustBeLostAndFound) <==>
            && lost.Some? && found.Some? && lost.value.status == AVAILABLE == found.value.status
            && !(lost.value.classification == LOST && found.value.classification == FOUND))
      && (a.snapshot == Unscored(CategoryMismatch) <==>
            && lost.Some? && found.Some? && lost.value.status == AVAILABLE == found.value.status
            && lost.value.classification == LOST && found.value.classification == FOUND
            && NormalizeValue(lost.value.category) != NormalizeValue(found.value.category))
      && (a.snapshot.Unscored? ==> !a.isCandidate && a.score == 0)
      && (a.isCandidate ==> IsCandidatePair(lost, found))
  {
  }

  /** Text appended after a space. */
  function Appended(text: string, extra: string): string {
    text + " " + extra
  }

  lemma KeywordsGrowWithTitle(item: Item, extra: string)
    ensures KeywordsOf(item) <= KeywordsOf(item.(title := Appended(item.title, extra)))
  {
    var longer := Appended(item.title, extra);
    TokenizeJoined(item.title, item.description);
    TokenizeJoined(item.title, extra);
    TokenizeJoined(longer, item.description);
  }

  lemma KeywordsGrowWithDescription(item: Item, extra: string)
    ensures KeywordsOf(item) <= KeywordsOf(item.(description := Appended(item.description, extra)))
  {
    TokenizeJoined(item.title, item.description);
    TokenizeJoined(item.title, Appended(item.description, extra));
    TokenizeJoined(item.description, extra);
  }

  /** `richer` differs from `item` at most in its title and description, and knows more words. */
  ghost predicate SaysMore(richer: Item, item: Item) {
    && richer == item.(title := richer.title, description := richer.description)
    && KeywordsOf(item) <= KeywordsOf(richer)
  }

  lemma SayingMoreNeverLowersScore(lost: Item, found: Item, lost': Item, found': Item)
    requires SaysMore(lost', lost) && SaysMore(found', found)
    ensures Assess(Some(lost), Some(found)).score <= Assess(Some(lost'), Some(found')).score
  {
    assert KeywordsOverlap(lost, found) <= KeywordsOverlap(lost', found');
  }

  /** Appending text to the title or to the description of either item never lowers the score. */
  lemma AppendingTextNeverLowersScore(lost: Item, found: Item, extra: string)
    ensures var before := Assess(Some(lost), Some(found)).score;
      && before <= Assess(Some(lost.(title := Appended(lost.title, extra))), Some(found)).score
      && before <= Assess(Some(lost.(description := Appended(lost.description, extra))), Some(found)).score
      && before <= Assess(Some(lost), Some(found.(title := Appended(found.title, extra)))).score
      && before <= Assess(Some(lost), Some(found.(description := Appended(found.description, extra)))).score
  {
    KeywordsGrowWithTitle(lost, extra);
    KeywordsGrowWithDescription(lost, extra);
    KeywordsGrowWithTitle(found, extra);
    KeywordsGrowWithDescription(found, extra);
    SayingMoreNeverLowersScore(lost, found, lost.(title := Appended(lost.title, extra)), found);
    SayingMoreNeverLowersScore(lost, found, lost.(description := Appended(lost.description, extra)), found);
    SayingMoreNeverLowersScore(lost, found, lost, found.(title := Appended(found.title, extra)));
    SayingMoreNeverLowersScore(lost, found, lost, found.(description := Appended(found.description, extra)));
  }
}
