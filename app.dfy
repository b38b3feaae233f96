/** The flashcard component as one state machine: the collections, the study queue, the test
    session and the paraphrase editor are fields of `App`, and every handler is one atomic
    step on them. The clock is the parameter `now`, the random source the parameter `draw`
    (or, for the non-uniform random sorts, the sorted result itself), and each call to the
    store is an `Option` parameter that is `None` when the call threw. */
module Flashcards {
  import opened Text
  import opened Cards
  import opened StudyQueue
  import opened Sync
  import opened Quiz
  import opened Transfer

  // ---------------------------------------------------------------- pure helpers

  /** `cards.findIndex(c => c.id === id)`. */
  function FindIndex(cards: seq<Card>, id: int): (k: int)
    ensures -1 <= k < |cards|
    ensures k >= 0 ==> cards[k].id == id && forall j | 0 <= j < k :: cards[j].id != id
    ensures k < 0 ==> forall j | 0 <= j < |cards| :: cards[j].id != id
  {
    if cards == [] then -1
    else if cards[0].id == id then 0
    else
      var k := FindIndex(cards[1..], id);
      if k < 0 then -1 else k + 1
  }

  /** `s.filter((_, i) => i !== at)`. */
  function RemoveAt<T>(s: seq<T>, at: nat): (r: seq<T>)
    requires at < |s|
    ensures |r| == |s| - 1
    ensures forall j | 0 <= j < at :: r[j] == s[j]
    ensures forall j | at <= j < |r| :: r[j] == s[j + 1]
  {
    s[..at] + s[at + 1..]
  }

  /** Removing one position removes exactly one occurrence of its element. */
  lemma RemoveAtMultiset<T>(s: seq<T>, at: nat)
    requires at < |s|
    ensures multiset(RemoveAt(s, at)) == multiset(s) - multiset{s[at]}
  {
    assert s == s[..at] + [s[at]] + s[at + 1..];
  }

  /** The map of `updateCard`: the cards with id `id` get the trimmed text, the rest stay. */
  function EditCards(cards: seq<Card>, id: int, front: string, back: string, example: string, translation: string): (r: seq<Card>)
    ensures |r| == |cards|
    ensures forall i | 0 <= i < |cards| && cards[i].id != id :: r[i] == cards[i]
    ensures forall i | 0 <= i < |cards| && cards[i].id == id ::
      r[i] == cards[i].(front := Trim(front), back := Trim(back), example := Trim(example), translation := Trim(translation))
  {
    seq(|cards|, i requires 0 <= i < |cards| =>
      if cards[i].id == id
      then cards[i].(front := Trim(front), back := Trim(back), example := Trim(example), translation := Trim(translation))
      else cards[i])
  }

  /** The map of `resetProgress`: every card fresh, nothing but its schedule touched. */
  function ResetAll(cards: seq<Card>): (r: seq<Card>)
    ensures |r| == |cards|
    ensures forall i | 0 <= i < |cards| :: IsFresh(r[i])
    ensures forall i | 0 <= i < |cards| ::
      r[i].(box := cards[i].box, reviews := cards[i].reviews, lastReview := cards[i].lastReview,
            nextReview := cards[i].nextReview) == cards[i]
  {
    seq(|cards|, i requires 0 <= i < |cards| => Reset(cards[i]))
  }

  /** The map of `saveEditingParaphrase`. */
  function EditParaphrases(ps: seq<Paraphrase>, id: int, original: string, variations: seq<string>): (r: seq<Paraphrase>)
    ensures |r| == |ps|
    ensures forall i | 0 <= i < |ps| && ps[i].id != id :: r[i] == ps[i]
    ensures forall i | 0 <= i < |ps| && ps[i].id == id ::
      r[i].id == id && r[i].created == ps[i].created && r[i].original == original && r[i].variations == variations
  {
    seq(|ps|, i requires 0 <= i < |ps| =>
      if ps[i].id == id then ps[i].(original := original, variations := variations) else ps[i])
  }

  /** Whether mapping an inserted row reads the parsed card at its index: `front || parsed.front`
      does when the column is empty or missing, `x ?? parsed.x` when it is missing. */
  predicate NeedsParsed(row: CardRow) {
    OrElse(row.front, "") == "" || OrElse(row.back, "") == "" || row.example.None?
    || row.translation.None? || row.unit.None?
  }

  /** The cards of a bulk insert that returned `saved`: `None` when the mapping throws because
      a row past the parsed ones needs its parsed card. */
  function BulkStored(parsed: seq<Draft>, saved: seq<SavedCard>, now: int): (r: Option<seq<Card>>)
    ensures r.None? <==> exists i | |parsed| <= i < |saved| :: NeedsParsed(saved[i].row)
    ensures r.Some? ==> (|r.value| == |saved|
      && forall i | 0 <= i < |saved| :: IsFresh(r.value[i]) && r.value[i].id == saved[i].id && r.value[i].created == now + i)
    ensures r.Some? ==> forall i | 0 <= i < |saved| && i < |parsed| ::
      r.value[i] == SavedToCard(parsed[i], saved[i], now + i)
    ensures r.Some? ==> forall i | |parsed| <= i < |saved| ::
      Some(r.value[i].front) == saved[i].row.front && Some(r.value[i].back) == saved[i].row.back
      && Some(r.value[i].example) == saved[i].row.example && Some(r.value[i].translation) == saved[i].row.translation
      && Some(r.value[i].unit) == saved[i].row.unit
  {
    if exists i | |parsed| <= i < |saved| :: NeedsParsed(saved[i].row) then None
    else
      Some(seq(|saved|, i requires 0 <= i < |saved| =>
        SavedToCard(if i < |parsed| then parsed[i] else Draft("", "", "", "", ""), saved[i], now + i)))
  }

  /** The fallback of `importCards`: every parsed card kept locally under the id `now + index`. */
  function LocalImported(parsed: seq<Draft>, now: int): (r: seq<Card>)
    ensures |r| == |parsed|
    ensures forall i | 0 <= i < |parsed| :: r[i] == LocalCard(parsed[i], now + i, now + i)
  {
    seq(|parsed|, i requires 0 <= i < |parsed| => LocalCard(parsed[i], now + i, now + i))
  }

  /** The cards an import appends, given the outcome of the bulk insert. */
  function ImportedCards(parsed: seq<Draft>, saved: Option<seq<SavedCard>>, now: int): (r: seq<Card>)
    ensures forall i | 0 <= i < |r| :: IsFresh(r[i]) && r[i].created == now + i
    ensures saved.None? ==> r == LocalImported(parsed, now)
    ensures saved.Some? && BulkStored(parsed, saved.value, now).None? ==> r == LocalImported(parsed, now)
    ensures saved.Some? && BulkStored(parsed, saved.value, now).Some? ==>
      r == BulkStored(parsed, saved.value, now).value && |r| == |saved.value|
  {
    if saved.Some? && BulkStored(parsed, saved.value, now).Some? then BulkStored(parsed, saved.value, now).value
    else LocalImported(parsed, now)
  }

  lemma WellFormedConcat(a: seq<Card>, b: seq<Card>)
    requires AllWellFormed(a) && AllWellFormed(b)
    ensures AllWellFormed(a + b)
  {
    forall i | 0 <= i < |a + b| ensures WellFormed((a + b)[i]) {
      if i >= |a| {
        assert (a + b)[i] == b[i - |a|];
      }
    }
  }

  lemma FreshWellFormed(s: seq<Card>)
    requires forall i | 0 <= i < |s| :: IsFresh(s[i])
    ensures AllWellFormed(s)
  {
  }

  /** A load keeps boxes in range: fetched cards are fresh and cached ones are kept as cached. */
  lemma LoadedWellFormed(fetched: seq<FetchedCard>, cache: seq<Card>, now: int)
    requires fetched != [] && AllWellFormed(cache)
    ensures AllWellFormed(LoadedCards(Some(fetched), Some(cache), now).value)
  {
    var db := FetchedCards(fetched, now);
    var rest := LocalOnly(cache, Keys(db, CardId), CardId);
    FetchedCardsFresh(fetched, now);
    forall i | 0 <= i < |rest| ensures WellFormed(rest[i]) {
      LocalOnlyMembers(cache, Keys(db, CardId), CardId, rest[i]);
      var j :| 0 <= j < |cache| && cache[j] == rest[i];
    }
    WellFormedConcat(db, rest);
  }

  lemma RatedWellFormed(cards: seq<Card>, k: nat, correct: bool, now: int)
    requires k < |cards| && AllWellFormed(cards)
    ensures AllWellFormed(cards[k := Rate(cards[k], correct, now)])
  {
    RateKeepsWellFormed(cards[k], correct, now);
  }

  lemma RemovedWellFormed(cards: seq<Card>, id: int)
    requires AllWellFormed(cards)
    ensures AllWellFormed(LocalOnly(cards, {id}, CardId))
  {
    var r := LocalOnly(cards, {id}, CardId);
    forall i | 0 <= i < |r| ensures WellFormed(r[i]) {
      LocalOnlyMembers(cards, {id}, CardId, r[i]);
      var j :| 0 <= j < |cards| && cards[j] == r[i];
    }
  }

  // ---------------------------------------------------------------- the test session

  /** The fields of a test session. */
  datatype TestState = TestState(
    cards: seq<Card>, index: nat, answers: map<int, Answer>, complete: bool,
    kind: TestType, options: seq<string>, units: seq<string>)

  /** The cursor stays on a question and answers are only kept for test cards. */
  predicate SessionValid(t: TestState) {
    (t.cards != [] ==> t.index < |t.cards|)
    && (t.cards == [] ==> t.index == 0)
    && t.answers.Keys <= Ids(t.cards)
  }

  /** `startTest` on `deck`: nothing changes when no card is a candidate (which covers the
      empty deck); otherwise the first ten of the shuffled candidates, a clean answer sheet
      and, for a multiple-choice test, the options of the first card. */
  function StartedTest(t: TestState, deck: seq<Card>, kind: TestType, shuffled: seq<Card>, options: seq<string>): TestState {
    if deck == [] || Candidates(deck, t.units) == [] then t
    else TestState(Sample(shuffled), 0, map[], false, kind,
                   if kind == MultipleChoice then options else t.options, t.units)
  }

  /** A test starts on `min(10, n)` of the `n` candidates, none of them from outside the
      selected units, at the first question with no answers; a test that cannot start leaves
      the session as it was. */
  lemma StartedTestSpec(t: TestState, deck: seq<Card>, kind: TestType, shuffled: seq<Card>, options: seq<string>)
    requires multiset(shuffled) == multiset(Candidates(deck, t.units))
    ensures var r := StartedTest(t, deck, kind, shuffled, options);
      var n := |Candidates(deck, t.units)|;
      && (n == 0 ==> r == t)
      && (n > 0 ==> (|r.cards| == Min(MaxQuestions, n) && r.index == 0 && r.answers == map[]
            && !r.complete && r.kind == kind && r.units == t.units
            && forall c | c in r.cards :: c in deck && (t.units == [] || UnitOf(c) in t.units)))
  {
    var filtered := Candidates(deck, t.units);
    if filtered != [] {
      assert deck != [];
      SampleSpec(filtered, shuffled);
      forall c | c in Sample(shuffled) ensures c in deck && (t.units == [] || UnitOf(c) in t.units) {
        CandidatesMembers(deck, t.units, c);
      }
    }
  }

  /** A multiple-choice test opens on the options of its first card: they hold that card's
      answer and one more entry per other test card, up to three. */
  lemma StartedOptionsSpec(t: TestState, deck: seq<Card>, shuffled: seq<Card>, othersShuffled: seq<Card>, options: seq<string>)
    requires multiset(shuffled) == multiset(Candidates(deck, t.units)) && shuffled != []
    requires IsOptionsDraw(Sample(shuffled)[0], Sample(shuffled), othersShuffled, options)
    ensures var r := StartedTest(t, deck, MultipleChoice, shuffled, options);
      && r.cards == Sample(shuffled) && r.options == options
      && r.cards[0].back in r.options
      && |r.options| == 1 + Min(Distractors, |Others(r.cards, r.cards[0].id)|)
  {
    assert |shuffled| == |multiset(shuffled)| == |Candidates(deck, t.units)|;
    OptionsSpec(Sample(shuffled)[0], Sample(shuffled), othersShuffled, options);
  }

  /** A started test is a valid session. */
  lemma StartedTestValid(t: TestState, deck: seq<Card>, kind: TestType, shuffled: seq<Card>, options: seq<string>)
    requires SessionValid(t)
    requires multiset(shuffled) == multiset(Candidates(deck, t.units))
    ensures SessionValid(StartedTest(t, deck, kind, shuffled, options))
  {
    StartedTestSpec(t, deck, kind, shuffled, options);
  }

  /** `answerTestQuestion`: the graded answer is filed under the current card's id, then the
      cursor moves on, or the test completes at the last card. With no current card the
      handler throws and nothing changes. */
  function Answered(t: TestState, answer: string, options: seq<string>): TestState {
    if t.index >= |t.cards| then t
    else
      var card := t.cards[t.index];
      var answers := t.answers[card.id := Grade(answer, card.back)];
      if t.index < |t.cards| - 1
      then t.(index := t.index + 1, answers := answers,
              options := if t.kind == MultipleChoice then options else t.options)
      else t.(answers := answers, complete := true)
  }

  /** Answering keeps the questions, records exactly one graded answer for the current
      card, and either advances to the next question or completes the test on the last. */
  lemma AnsweredSpec(t: TestState, answer: string, options: seq<string>)
    requires SessionValid(t) && t.cards != []
    ensures var r := Answered(t, answer, options);
      var card := t.cards[t.index];
      && r.cards == t.cards && r.kind == t.kind && r.units == t.units
      && r.answers.Keys == t.answers.Keys + {card.id}
      && r.answers[card.id].isCorrect == IsCorrectAnswer(answer, card.back)
      && (forall k | k in t.answers && k != card.id :: r.answers[k] == t.answers[k])
      && (t.index + 1 < |t.cards| ==> r.index == t.index + 1 && r.complete == t.complete)
      && (t.index + 1 == |t.cards| ==> r.index == t.index && r.complete)
  {
  }

  /** Answering keeps the session valid: the new key is a test card's id. */
  lemma AnsweredValid(t: TestState, answer: string, options: seq<string>)
    requires SessionValid(t)
    ensures SessionValid(Answered(t, answer, options))
  {
    if t.index < |t.cards| {
      assert t.cards[t.index] in t.cards;
    }
  }

  // ---------------------------------------------------------------- the component state

  /** The paraphrase being edited and its draft. */
  datatype EditState = EditState(id: Option<int>, original: string, variations: seq<string>)

  class App {
    var cards: seq<Card>
    var paraphrases: seq<Paraphrase>
    var studyQueue: seq<Entry>
    var currentCardIndex: nat
    /** `testCards`, `currentTestIndex`, `testAnswers`, `testComplete`, `testType`,
        `multipleChoiceOptions` and `selectedUnits`. */
    var test: TestState
    /** `editingParaphraseId` and `editingParaphraseDraft`. */
    var editing: EditState

    /** The cursors stay on an entry, answers are only kept for test cards, and every card's
        box lies in [1, 5]. */
    predicate Valid()
      reads this
    {
      (studyQueue != [] ==> currentCardIndex < |studyQueue|)
      && SessionValid(test)
      && AllWellFormed(cards)
    }

    /** The statistics panel: `updateStats` runs whenever the cards change, and its three
        counts add up to the deck size. */
    function CurrentStats(): (s: Stats)
      reads this
      requires Valid()
      ensures s.total == |cards| && s.total == s.mastered + s.learning + s.newCards
    {
      StatsPartition(cards);
      StatsOf(cards)
    }

    /** `calculateTestScore`: never more correct answers than questions, a percentage in
        [0, 100] once there is a question. */
    function CurrentScore(): (s: Score)
      reads this
      requires Valid()
      ensures s.total == |test.cards| && s.correct <= s.total
      ensures test.cards != [] ==> s.percentage.Some? && 0 <= s.percentage.value <= 100
      ensures test.cards != [] ==> s.percentage == Some(RoundedPercent(s.correct, s.total))
      ensures s.correct == |CorrectKeys(test.answers)|
    {
      ScoreBounded(test.answers, test.cards);
      TestScore(test.answers, test.cards)
    }

    /** The component on mount, reading the cached collections (`None`: absent or not
        parseable) and building the first queue. */
    constructor(stored: Option<seq<Card>>, storedParaphrases: Option<seq<Paraphrase>>, now: int, draw: nat -> nat)
      requires ValidDraw(draw)
      requires stored.Some? ==> AllWellFormed(stored.value)
      ensures Valid()
      ensures cards == Coalesce(stored, []) && paraphrases == Coalesce(storedParaphrases, [])
      ensures studyQueue == QueueOf(cards, now, draw) && currentCardIndex == 0
      ensures test == TestState([], 0, map[], false, Written, [], [])
      ensures editing == EditState(None, "", [])
    {
      var initial := Coalesce(stored, []);
      var q := BuildQueue(initial, now, draw);
      cards := initial;
      paraphrases := Coalesce(storedParaphrases, []);
      studyQueue := q;
      currentCardIndex := 0;
      test := TestState([], 0, map[], false, Written, [], []);
      editing := EditState(None, "", []);
    }

    /** `buildStudyQueue` on the current cards: the cursor goes to 0 only when there is a card. */
    method RebuildQueue(now: int, draw: nat -> nat)
      requires ValidDraw(draw) && AllWellFormed(cards)
      modifies this
      ensures studyQueue == QueueOf(cards, now, draw)
      ensures currentCardIndex == if studyQueue != [] then 0 else old(currentCardIndex)
      ensures cards == old(cards) && paraphrases == old(paraphrases)
      ensures test == old(test) && editing == old(editing)
      ensures SessionValid(test) ==> Valid()
    {
      var q := BuildQueue(cards, now, draw);
      studyQueue := q;
      if |q| > 0 {
        currentCardIndex := 0;
      }
    }

    /** The load from the store. A fetch that throws ends the load, so a failed card fetch
        also skips the paraphrase fetch; an empty result leaves that collection as it is.
        `cache` and `paraphraseCache` are what the cache held when the load started. */
    method LoadFromDatabase(fetched: Option<seq<FetchedCard>>, fetchedParaphrases: Option<seq<ParaphraseRow>>,
                            cache: Option<seq<Card>>, paraphraseCache: Option<seq<Paraphrase>>,
                            now: int, draw: nat -> nat)
      requires Valid() && ValidDraw(draw)
      requires cache.Some? ==> AllWellFormed(cache.value)
      modifies this
      ensures Valid()
      ensures var loaded := LoadedCards(fetched, cache, now);
        && cards == (if loaded.Some? then loaded.value else old(cards))
        && (loaded.Some? ==>
              studyQueue == QueueOf(cards, now, draw)
              && currentCardIndex == (if studyQueue != [] then 0 else old(currentCardIndex)))
        && (loaded.None? ==> studyQueue == old(studyQueue) && currentCardIndex == old(currentCardIndex))
      ensures var loaded := LoadedParaphrases(fetchedParaphrases, paraphraseCache, now);
        paraphrases == (if fetched.Some? && loaded.Some? then loaded.value else old(paraphrases))
      ensures test == old(test) && editing == old(editing)
    {
      if fetched.None? {
        return;
      }
      var loaded := LoadedCards(fetched, cache, now);
      if loaded.Some? {
        LoadedWellFormed(fetched.value, Coalesce(cache, []), now);
        assert loaded == LoadedCards(Some(fetched.value), Some(Coalesce(cache, [])), now);
        cards := loaded.value;
        RebuildQueue(now, draw);
      }
      var loadedParaphrases := LoadedParaphrases(fetchedParaphrases, paraphraseCache, now);
      if loadedParaphrases.Some? {
        paraphrases := loadedParaphrases.value;
      }
    }

    /** `addCard`: a blank front or back is refused with nothing changed; otherwise the trimmed
        card, stored remotely or under the id `now`, is appended fresh and the queue rebuilt. */
    method AddCard(front: string, back: string, example: string, translation: string, unit: string,
                   saved: Option<SavedCard>, now: int, draw: nat -> nat)
      requires Valid() && ValidDraw(draw)
      modifies this
      ensures Valid()
      ensures IsBlank(front) || IsBlank(back) ==>
        cards == old(cards) && studyQueue == old(studyQueue) && currentCardIndex == old(currentCardIndex)
      ensures !IsBlank(front) && !IsBlank(back) ==>
        cards == old(cards) + [StoredCard(NewCardDraft(front, back, example, translation, unit), saved, now)]
        && studyQueue == QueueOf(cards, now, draw)
        && currentCardIndex == (if studyQueue != [] then 0 else old(currentCardIndex))
      ensures paraphrases == old(paraphrases) && test == old(test) && editing == old(editing)
    {
      TrimBlank(front);
      TrimBlank(back);
      if Trim(front) == [] || Trim(back) == [] {
        return;
      }
      var base := NewCardDraft(front, back, example, translation, unit);
      var card := StoredCard(base, saved, now);
      FreshIsWellFormed(card);
      WellFormedConcat(cards, [card]);
      cards := cards + [card];
      RebuildQueue(now, draw);
    }

    /** `deleteCard`: every card with the id goes, whatever the store answers. */
    method DeleteCard(id: int, now: int, draw: nat -> nat)
      requires Valid() && ValidDraw(draw)
      modifies this
      ensures Valid()
      ensures cards == LocalOnly(old(cards), {id}, CardId)
      ensures forall c :: c in cards <==> c in old(cards) && c.id != id
      ensures studyQueue == QueueOf(cards, now, draw)
      ensures currentCardIndex == (if studyQueue != [] then 0 else old(currentCardIndex))
      ensures paraphrases == old(paraphrases) && test == old(test) && editing == old(editing)
    {
      forall c ensures c in LocalOnly(cards, {id}, CardId) <==> c in cards && c.id != id {
        LocalOnlyMembers(cards, {id}, CardId, c);
      }
      RemovedWellFormed(cards, id);
      cards := LocalOnly(cards, {id}, CardId);
      RebuildQueue(now, draw);
    }

    /** `updateCard`: no validation and no queue rebuild; the cards with the id get the
        trimmed text and keep their schedule. */
    method UpdateCard(id: int, front: string, back: string, example: string, translation: string)
      requires Valid()
      modifies this
      ensures Valid()
      ensures cards == EditCards(old(cards), id, front, back, example, translation)
      ensures studyQueue == old(studyQueue) && currentCardIndex == old(currentCardIndex)
      ensures paraphrases == old(paraphrases) && test == old(test) && editing == old(editing)
    {
      cards := EditCards(cards, id, front, back, example, translation);
    }

    /** `rateCard`: the card under the cursor is looked up by id in the deck and rated; the
        queue entry is dropped and the cursor stays put, or moves back onto the new last entry. */
    method RateCard(correct: bool, now: int)
      requires Valid()
      modifies this
      ensures Valid()
      ensures old(studyQueue) == [] ==> cards == old(cards) && studyQueue == [] && currentCardIndex == old(currentCardIndex)
      ensures old(studyQueue) != [] ==>
        var i := old(currentCardIndex);
        var k := FindIndex(old(cards), old(studyQueue)[i].card.id);
        && cards == (if k >= 0 then old(cards)[k := Rate(old(cards)[k], correct, now)] else old(cards))
        && studyQueue == RemoveAt(old(studyQueue), i)
        && currentCardIndex == (if studyQueue != [] then Min(i, |studyQueue| - 1) else 0)
      ensures paraphrases == old(paraphrases) && test == old(test) && editing == old(editing)
    {
      if |studyQueue| == 0 {
        return;
      }
      var current := studyQueue[currentCardIndex];
      var k := FindIndex(cards, current.card.id);
      if k >= 0 {
        RatedWellFormed(cards, k, correct, now);
        var card := Rate(cards[k], correct, now);
        cards := cards[k := card];
      }
      var queue := RemoveAt(studyQueue, currentCardIndex);
      studyQueue := queue;
      if |queue| > 0 {
        currentCardIndex := Min(currentCardIndex, |queue| - 1);
      } else {
        currentCardIndex := 0;
      }
    }

    /** `reshuffleQueue`: the same entries in a new order, no re-filtering, cursor at 0. */
    method ReshuffleQueue(draw: nat -> nat)
      requires Valid() && ValidDraw(draw)
      modifies this
      ensures Valid()
      ensures studyQueue == FisherYates(old(studyQueue), draw)
      ensures multiset(studyQueue) == multiset(old(studyQueue))
      ensures currentCardIndex == 0
      ensures cards == old(cards) && paraphrases == old(paraphrases)
      ensures test == old(test) && editing == old(editing)
    {
      var shuffled := Shuffle(studyQueue, draw);
      studyQueue := shuffled;
      currentCardIndex := 0;
    }

    /** `resetProgress`: every card back to box 1 with no reviews, then a new queue. */
    method ResetProgress(now: int, draw: nat -> nat)
      requires Valid() && ValidDraw(draw)
      modifies this
      ensures Valid()
      ensures cards == ResetAll(old(cards))
      ensures CurrentStats() == Stats(|cards|, 0, 0, |cards|)
      ensures studyQueue == QueueOf(cards, now, draw)
      ensures currentCardIndex == (if studyQueue != [] then 0 else old(currentCardIndex))
      ensures paraphrases == old(paraphrases) && test == old(test) && editing == old(editing)
    {
      var reset := ResetAll(cards);
      FreshWellFormed(reset);
      StatsOfFresh(reset);
      cards := reset;
      RebuildQueue(now, draw);
    }

    /** `importCards` in CSV, TSV or Quizlet form: a blank text or one without a valid row is
        refused with nothing changed; otherwise the parsed cards are appended, as the store
        returned them or, when the bulk insert fails, locally under the ids `now + index`. */
    method ImportCards(format: Format, text: string, saved: Option<seq<SavedCard>>, now: int, draw: nat -> nat)
      requires Valid() && ValidDraw(draw)
      modifies this
      ensures Valid()
      ensures ImportDrafts(format, text).None? ==>
        cards == old(cards) && studyQueue == old(studyQueue) && currentCardIndex == old(currentCardIndex)
      ensures ImportDrafts(format, text).Some? ==>
        cards == old(cards) + ImportedCards(ImportDrafts(format, text).value, saved, now)
        && studyQueue == QueueOf(cards, now, draw)
        && currentCardIndex == (if studyQueue != [] then 0 else old(currentCardIndex))
      ensures paraphrases == old(paraphrases) && test == old(test) && editing == old(editing)
    {
      TrimBlank(text);
      if Trim(text) == [] {
        return;
      }
      var lines := DataLines(format, text);
      var parsed := ImportLines(format, lines);
      if |parsed| == 0 {
        return;
      }
      var added := ImportedCards(parsed, saved, now);
      FreshWellFormed(added);
      WellFormedConcat(cards, added);
      cards := cards + added;
      RebuildQueue(now, draw);
    }

    /** `addParaphrase`: a blank original, or no variation that is not blank, is refused;
        otherwise the trimmed original and the cleaned variations are appended. */
    method AddParaphrase(original: string, variations: seq<string>, saved: Option<ParaphraseRow>, now: int)
      requires Valid()
      modifies this
      ensures Valid()
      ensures IsBlank(original) || CleanVariations(variations) == [] ==> paraphrases == old(paraphrases)
      ensures !IsBlank(original) && CleanVariations(variations) != [] ==>
        paraphrases == old(paraphrases) + [StoredParaphrase(Trim(original), CleanVariations(variations), saved, now)]
      ensures cards == old(cards) && studyQueue == old(studyQueue) && currentCardIndex == old(currentCardIndex)
      ensures test == old(test) && editing == old(editing)
    {
      TrimBlank(original);
      if Trim(original) == [] {
        return;
      }
      var valid := FilterThenTrim(variations);
      FilterThenTrimIsClean(variations);
      if |valid| == 0 {
        return;
      }
      var p := StoredParaphrase(Trim(original), valid, saved, now);
      paraphrases := paraphrases + [p];
    }

    /** `deleteParaphrase`. */
    method DeleteParaphrase(id: int)
      requires Valid()
      modifies this
      ensures Valid()
      ensures paraphrases == LocalOnly(old(paraphrases), {id}, ParaphraseId)
      ensures forall p :: p in paraphrases <==> p in old(paraphrases) && p.id != id
      ensures cards == old(cards) && studyQueue == old(studyQueue) && currentCardIndex == old(currentCardIndex)
      ensures test == old(test) && editing == old(editing)
    {
      forall p ensures p in LocalOnly(paraphrases, {id}, ParaphraseId) <==> p in paraphrases && p.id != id {
        LocalOnlyMembers(paraphrases, {id}, ParaphraseId, p);
      }
      paraphrases := LocalOnly(paraphrases, {id}, ParaphraseId);
    }

    /** `startEditingParaphrase`: the draft is a copy of the paraphrase. */
    method StartEditingParaphrase(p: Paraphrase)
      requires Valid()
      modifies this
      ensures Valid()
      ensures editing == EditState(Some(p.id), p.original, p.variations)
      ensures cards == old(cards) && paraphrases == old(paraphrases) && studyQueue == old(studyQueue)
      ensures currentCardIndex == old(currentCardIndex) && test == old(test)
    {
      editing := EditState(Some(p.id), p.original, p.variations);
    }

    /** `cancelEditingParaphrase`. */
    method CancelEditingParaphrase()
      requires Valid()
      modifies this
      ensures Valid()
      ensures editing == EditState(None, "", [])
      ensures cards == old(cards) && paraphrases == old(paraphrases) && studyQueue == old(studyQueue)
      ensures currentCardIndex == old(currentCardIndex) && test == old(test)
    {
      editing := EditState(None, "", []);
    }

    /** `updateExistingParaphraseOriginal`. */
    method SetDraftOriginal(value: string)
      requires Valid()
      modifies this
      ensures Valid()
      ensures editing == old(editing).(original := value)
      ensures cards == old(cards) && paraphrases == old(paraphrases) && studyQueue == old(studyQueue)
      ensures currentCardIndex == old(currentCardIndex) && test == old(test)
    {
      editing := editing.(original := value);
    }

    /** `updateExistingParaphraseVariation`, for the index of a variation on screen. */
    method SetDraftVariation(index: nat, value: string)
      requires Valid() && index < |editing.variations|
      modifies this
      ensures Valid()
      ensures editing == old(editing).(variations := old(editing.variations)[index := value])
      ensures cards == old(cards) && paraphrases == old(paraphrases) && studyQueue == old(studyQueue)
      ensures currentCardIndex == old(currentCardIndex) && test == old(test)
    {
      editing := editing.(variations := editing.variations[index := value]);
    }

    /** `addVariationToExistingParaphrase`: one more empty variation. */
    method AddDraftVariation()
      requires Valid()
      modifies this
      ensures Valid()
      ensures editing == old(editing).(variations := old(editing.variations) + [""])
      ensures cards == old(cards) && paraphrases == old(paraphrases) && studyQueue == old(studyQueue)
      ensures currentCardIndex == old(currentCardIndex) && test == old(test)
    {
      editing := editing.(variations := editing.variations + [""]);
    }

    /** `saveEditingParaphrase`: nothing happens without an edited id (0 counts as none), with
        a blank original or with no variation left after cleaning; otherwise every paraphrase
        with the id gets the trimmed original and the cleaned variations and editing ends.
        The remote update always fails and changes nothing here. */
    method SaveEditingParaphrase()
      requires Valid()
      modifies this
      ensures Valid()
      ensures var id := old(editing.id);
        var original := Trim(old(editing.original));
        var variations := CleanVariations(old(editing.variations));
        if id.None? || id.value == 0 || original == [] || variations == [] then
          paraphrases == old(paraphrases) && editing == old(editing)
        else
          paraphrases == EditParaphrases(old(paraphrases), id.value, original, variations)
          && editing == EditState(None, "", [])
      ensures cards == old(cards) && studyQueue == old(studyQueue) && currentCardIndex == old(currentCardIndex)
      ensures test == old(test)
    {
      if editing.id.None? || editing.id.value == 0 {
        return;
      }
      var original := Trim(editing.original);
      var variations := CleanVariations(editing.variations);
      if original == [] || variations == [] {
        return;
      }
      paraphrases := EditParaphrases(paraphrases, editing.id.value, original, variations);
      CancelEditingParaphrase();
    }

    /** `startTest`, as `StartedTest` describes it. `shuffled`, `othersShuffled` and
        `options` are the outcomes of the random sorts. */
    method StartTest(kind: TestType, shuffled: seq<Card>, othersShuffled: seq<Card>, options: seq<string>)
      requires Valid()
      requires multiset(shuffled) == multiset(Candidates(cards, test.units))
      requires kind == MultipleChoice && shuffled != [] ==>
        IsOptionsDraw(Sample(shuffled)[0], Sample(shuffled), othersShuffled, options)
      modifies this
      ensures Valid()
      ensures test == StartedTest(old(test), old(cards), kind, shuffled, options)
      ensures cards == old(cards) && paraphrases == old(paraphrases) && studyQueue == old(studyQueue)
      ensures currentCardIndex == old(currentCardIndex) && editing == old(editing)
    {
      if |cards| == 0 {
        return;
      }
      var filtered := Candidates(cards, test.units);
      if |filtered| == 0 {
        return;
      }
      StartedTestValid(test, cards, kind, shuffled, options);
      var shown := if kind == MultipleChoice then options else test.options;
      test := TestState(Sample(shuffled), 0, map[], false, kind, shown, test.units);
    }

    /** `answerTestQuestion`, as `Answered` describes it; `othersShuffled` and `options` are
        the outcomes of the random sorts for the next card's options. */
    method AnswerTestQuestion(answer: string, othersShuffled: seq<Card>, options: seq<string>)
      requires Valid()
      requires test.kind == MultipleChoice && test.index + 1 < |test.cards| ==>
        IsOptionsDraw(test.cards[test.index + 1], test.cards, othersShuffled, options)
      modifies this
      ensures Valid()
      ensures test == Answered(old(test), answer, options)
      ensures cards == old(cards) && paraphrases == old(paraphrases) && studyQueue == old(studyQueue)
      ensures currentCardIndex == old(currentCardIndex) && editing == old(editing)
    {
      if test.index >= |test.cards| {
        return;
      }
      AnsweredValid(test, answer, options);
      var card := test.cards[test.index];
      var answers := test.answers[card.id := Grade(answer, card.back)];
      if test.index < |test.cards| - 1 {
        var shown := if test.kind == MultipleChoice then options else test.options;
        test := test.(index := test.index + 1, answers := answers, options := shown);
      } else {
        test := test.(answers := answers, complete := true);
      }
    }

    /** `resetTest`. */
    method ResetTest()
      requires Valid()
      modifies this
      ensures Valid()
      ensures test == TestState([], 0, map[], false, old(test.kind), [], old(test.units))
      ensures cards == old(cards) && paraphrases == old(paraphrases) && studyQueue == old(studyQueue)
      ensures currentCardIndex == old(currentCardIndex) && editing == old(editing)
    {
      test := TestState([], 0, map[], false, test.kind, [], test.units);
    }

    /** `toggleUnit`: a selected unit is dropped, any other one appended. */
    method ToggleUnitSelection(unit: string)
      requires Valid()
      modifies this
      ensures Valid()
      ensures test == old(test).(units := ToggleUnit(old(test.units), unit))
      ensures forall u :: u in test.units <==> (u == unit) != (u in old(test.units))
      ensures cards == old(cards) && paraphrases == old(paraphrases) && studyQueue == old(studyQueue)
      ensures currentCardIndex == old(currentCardIndex) && editing == old(editing)
    {
      forall u ensures u in ToggleUnit(test.units, unit) <==> (u == unit) != (u in test.units) {
        ToggleFlips(test.units, unit, u);
      }
      test := test.(units := ToggleUnit(test.units, unit));
    }
  }
}
