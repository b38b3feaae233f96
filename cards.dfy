/** The card and paraphrase records and the Leitner scheduler that rates one card. */
module Cards {
  import opened Text

  datatype Option<T> = None | Some(value: T)

  /** JavaScript `a || fallback` on an optional string: absent or empty falls back. */
  function OrElse(a: Option<string>, fallback: string): string {
    if a.Some? && a.value != "" then a.value else fallback
  }

  /** JavaScript `a ?? fallback`: only an absent value falls back. */
  function Coalesce<T>(a: Option<T>, fallback: T): T {
    if a.Some? then a.value else fallback
  }

  /** A flashcard. Timestamps are milliseconds; `None` stands for `null`. */
  datatype Card = Card(
    id: int,
    front: string,
    back: string,
    example: string,
    translation: string,
    unit: string,
    box: int,
    reviews: int,
    lastReview: Option<int>,
    nextReview: Option<int>,
    created: int)

  /** The text of a card before it is stored: the `baseCard` of addCard and an imported row. */
  datatype Draft = Draft(front: string, back: string, translation: string, example: string, unit: string)

  datatype Paraphrase = Paraphrase(id: int, original: string, variations: seq<string>, created: int)

  /** The unit a card is grouped under: `card.unit || 'General'`. */
  function UnitOf(c: Card): (u: string)
    ensures u != ""
    ensures c.unit != "" ==> u == c.unit
  {
    if c.unit == "" then "General" else c.unit
  }

  // ---------------------------------------------------------------- scheduler

  const Day: int := 24 * 60 * 60 * 1000
  const MaxBox: int := 5

  /** The interval table of `getNextReviewTime`; a box outside it (`intervals[box] || 0`) waits 0. */
  function Interval(box: int): (ms: int)
    ensures ms >= 0
    ensures box == 1 || !(1 <= box <= 5) <==> ms == 0
  {
    if box == 2 then 1 * Day
    else if box == 3 then 3 * Day
    else if box == 4 then 7 * Day
    else if box == 5 then 14 * Day
    else 0
  }

  /** The fixed table: box 1 is due at once, later boxes wait 1, 3, 7 and 14 days. */
  lemma IntervalTable()
    ensures Interval(1) == 0 && Interval(2) == Day && Interval(3) == 3 * Day
    ensures Interval(4) == 7 * Day && Interval(5) == 14 * Day
  {
  }

  /** Higher boxes wait strictly longer. */
  lemma IntervalIncreases(a: int, b: int)
    requires 1 <= a < b <= MaxBox
    ensures Interval(a) < Interval(b)
  {
  }

  function Min(a: int, b: int): int {
    if a <= b then a else b
  }

  /** The card after one rating at time `now`: the box moves, the counters and times follow it. */
  function Rate(c: Card, correct: bool, now: int): (r: Card)
  {
    var box := if correct then Min(c.box + 1, MaxBox) else 1;
    c.(box := box, reviews := c.reviews + 1, lastReview := Some(now),
       nextReview := Some(now + Interval(box)))
  }

  /** A card the scheduler can be asked about: box in [1, 5], a non-negative counter. */
  predicate WellFormed(c: Card) {
    1 <= c.box <= MaxBox && c.reviews >= 0
  }

  predicate AllWellFormed(cards: seq<Card>) {
    forall i | 0 <= i < |cards| :: WellFormed(cards[i])
  }

  /** A card as created or reset: box 1, no reviews, never reviewed, due now. */
  predicate IsFresh(c: Card) {
    c.box == 1 && c.reviews == 0 && c.lastReview == None && c.nextReview == None
  }

  lemma FreshIsWellFormed(c: Card)
    requires IsFresh(c)
    ensures WellFormed(c)
  {
  }

  /** `!card.nextReview || card.nextReview <= now`; a stored 0 is falsy, hence due as well. */
  predicate IsDue(c: Card, now: int) {
    c.nextReview.None? || c.nextReview.value == 0 || c.nextReview.value <= now
  }

  /** The box transition: a correct answer moves one box up but never past 5, a wrong one
      sends the card back to box 1 whatever box it was in. The review counter grows by one,
      the card was last reviewed `now` and is next due one interval of its new box later. */
  lemma RateTransition(c: Card, correct: bool, now: int)
    ensures var r := Rate(c, correct, now);
      && (correct ==> r.box == Min(c.box + 1, MaxBox))
      && (!correct ==> r.box == 1)
      && r.reviews == c.reviews + 1
      && r.lastReview == Some(now)
      && r.nextReview == Some(now + Interval(r.box))
  {
  }

  /** Rating changes the schedule only: identity, text, unit and creation time are kept. */
  lemma RateKeepsContent(c: Card, correct: bool, now: int)
    ensures var r := Rate(c, correct, now);
      r.(box := c.box, reviews := c.reviews, lastReview := c.lastReview, nextReview := c.nextReview) == c
  {
  }

  /** Box bounds are an invariant of rating: a well-formed card stays in [1, 5]. */
  lemma RateKeepsWellFormed(c: Card, correct: bool, now: int)
    requires WellFormed(c)
    ensures WellFormed(Rate(c, correct, now))
    ensures correct && c.box < MaxBox ==> Rate(c, correct, now).box == c.box + 1
    ensures correct && c.box == MaxBox ==> Rate(c, correct, now).box == MaxBox
  {
  }

  /** A card answered wrongly is due again at once; one answered correctly from a box in
      [1, 5] is not due again until its new interval has passed (timestamps are positive). */
  lemma RateDueness(c: Card, correct: bool, now: int, later: int)
    requires WellFormed(c) && 0 < now <= later
    ensures !correct ==> IsDue(Rate(c, correct, now), now)
    ensures correct ==> (IsDue(Rate(c, correct, now), later) <==> later >= now + Interval(Rate(c, correct, now).box))
    ensures correct ==> !IsDue(Rate(c, correct, now), now)
  {
  }

  /** With the same `now`, a higher box after rating means a later next review. */
  lemma RateLaterForHigherBox(c: Card, d: Card, correctC: bool, correctD: bool, now: int)
    requires WellFormed(c) && WellFormed(d)
    requires Rate(c, correctC, now).box < Rate(d, correctD, now).box
    ensures Rate(c, correctC, now).nextReview.value < Rate(d, correctD, now).nextReview.value
  {
    IntervalIncreases(Rate(c, correctC, now).box, Rate(d, correctD, now).box);
  }

  // ---------------------------------------------------------------- reset and statistics

  /** `resetProgress` on one card. */
  function Reset(c: Card): (r: Card)
    ensures IsFresh(r)
    ensures r.(box := c.box, reviews := c.reviews, lastReview := c.lastReview, nextReview := c.nextReview) == c
  {
    c.(box := 1, reviews := 0, lastReview := None, nextReview := None)
  }

  /** A reset card is due at any time. */
  lemma ResetIsDue(c: Card, now: int)
    ensures IsDue(Reset(c), now)
  {
  }

  datatype Stats = Stats(total: nat, mastered: nat, learning: nat, newCards: nat)

  function CountMastered(cards: seq<Card>): nat {
    if cards == [] then 0 else (if cards[0].box >= 5 then 1 else 0) + CountMastered(cards[1..])
  }

  function CountLearning(cards: seq<Card>): nat {
    if cards == [] then 0 else (if 1 < cards[0].box < 5 then 1 else 0) + CountLearning(cards[1..])
  }

  function CountNew(cards: seq<Card>): nat {
    if cards == [] then 0 else (if cards[0].box == 1 then 1 else 0) + CountNew(cards[1..])
  }

  /** `updateStats`: boxes 5 and up are mastered, 2 to 4 learning, exactly 1 new. */
  function StatsOf(cards: seq<Card>): (s: Stats)
    ensures s.total == |cards|
  {
    Stats(|cards|, CountMastered(cards), CountLearning(cards), CountNew(cards))
  }

  /** On well-formed cards the three counts partition the deck. */
  lemma {:induction false} StatsPartition(cards: seq<Card>)
    requires AllWellFormed(cards)
    ensures var s := StatsOf(cards); s.total == s.mastered + s.learning + s.newCards
  {
    if cards != [] {
      assert WellFormed(cards[0]);
      assert AllWellFormed(cards[1..]) by {
        forall i | 0 <= i < |cards| - 1 ensures WellFormed(cards[1..][i]) {
          assert cards[1..][i] == cards[i + 1];
        }
      }
      StatsPartition(cards[1..]);
    }
  }

  /** After a reset every card counts as new. */
  lemma {:induction false} StatsOfFresh(cards: seq<Card>)
    requires forall i | 0 <= i < |cards| :: IsFresh(cards[i])
    ensures StatsOf(cards) == Stats(|cards|, 0, 0, |cards|)
  {
    if cards != [] {
      assert IsFresh(cards[0]);
      assert forall i | 0 <= i < |cards| - 1 :: cards[1..][i] == cards[i + 1];
      StatsOfFresh(cards[1..]);
    }
  }

  // ---------------------------------------------------------------- creating cards

  /** The text columns of a `shared_cards` row; `None` is a missing or null column. */
  datatype CardRow = CardRow(
    front: Option<string>,
    back: Option<string>,
    example: Option<string>,
    translation: Option<string>,
    unit: Option<string>)

  /** A row the store returned after an insert, with the id it assigned. */
  datatype SavedCard = SavedCard(id: int, row: CardRow)

  /** The card `addCard` and `importCards` store when the insert succeeded. */
  function SavedToCard(base: Draft, saved: SavedCard, created: int): (c: Card)
    ensures IsFresh(c) && c.id == saved.id && c.created == created
    ensures c.front == OrElse(saved.row.front, base.front) && c.back == OrElse(saved.row.back, base.back)
    ensures c.example == Coalesce(saved.row.example, base.example)
    ensures c.translation == Coalesce(saved.row.translation, base.translation)
    ensures c.unit == Coalesce(saved.row.unit, base.unit)
  {
    Card(saved.id,
         OrElse(saved.row.front, base.front),
         OrElse(saved.row.back, base.back),
         Coalesce(saved.row.example, base.example),
         Coalesce(saved.row.translation, base.translation),
         Coalesce(saved.row.unit, base.unit),
         1, 0, None, None, created)
  }

  /** The card stored locally when the store could not be reached, under a clock-derived id. */
  function LocalCard(base: Draft, id: int, created: int): (c: Card)
    ensures IsFresh(c) && c.id == id && c.created == created
    ensures c.front == base.front && c.back == base.back && c.example == base.example
    ensures c.translation == base.translation && c.unit == base.unit
  {
    Card(id, base.front, base.back, base.example, base.translation, base.unit, 1, 0, None, None, created)
  }

  /** The `baseCard` of `addCard`: every field trimmed, a blank unit becomes 'General'. */
  function NewCardDraft(front: string, back: string, example: string, translation: string, unit: string): (d: Draft)
    ensures d.front == Trim(front) && d.back == Trim(back)
    ensures d.example == Trim(example) && d.translation == Trim(translation)
    ensures IsTrimmed(d.front) && IsTrimmed(d.back) && IsTrimmed(d.example) && IsTrimmed(d.translation)
    ensures IsBlank(unit) ==> d.unit == "General"
    ensures !IsBlank(unit) ==> d.unit == Trim(unit)
  {
    var u := Trim(unit);
    TrimBlank(unit);
    Draft(Trim(front), Trim(back), Trim(translation), Trim(example), if u == "" then "General" else u)
  }

  /** The outcome of the store call made for one new card: `None` when it threw. */
  function StoredCard(base: Draft, saved: Option<SavedCard>, now: int): (c: Card)
    ensures IsFresh(c) && c.created == now
    ensures saved.None? ==> c == LocalCard(base, now, now)
    ensures saved.Some? ==> c == SavedToCard(base, saved.value, now) && c.id == saved.value.id
  {
    if saved.Some? then SavedToCard(base, saved.value, now) else LocalCard(base, now, now)
  }

  /** The stored paraphrase columns: `variations` is `None` when it is not an array and
      `createdAt` is `created_at` already converted to milliseconds, `None` when missing. */
  datatype ParaphraseRow = ParaphraseRow(
    id: int,
    original: Option<string>,
    variations: Option<seq<string>>,
    createdAt: Option<int>)

  /** `variations.map(v => v.trim()).filter(v => v)`: the non-blank entries, trimmed, in order. */
  function CleanVariations(vs: seq<string>): (r: seq<string>)
    ensures |r| <= |vs|
  {
    if vs == [] then []
    else
      var t := Trim(vs[0]);
      if t == "" then CleanVariations(vs[1..]) else [t] + CleanVariations(vs[1..])
  }

  /** Every entry left after cleaning is non-empty and has no white space at either end. */
  predicate AllClean(vs: seq<string>) {
    forall i | 0 <= i < |vs| :: vs[i] != "" && IsTrimmed(vs[i])
  }

  lemma {:induction false} CleanVariationsClean(vs: seq<string>)
    ensures AllClean(CleanVariations(vs))
  {
    if vs != [] {
      CleanVariationsClean(vs[1..]);
      var t := Trim(vs[0]);
      if t != "" {
        AllCleanCons(t, CleanVariations(vs[1..]));
      }
    }
  }

  lemma AllCleanCons(t: string, rest: seq<string>)
    requires t != "" && IsTrimmed(t) && AllClean(rest)
    ensures AllClean([t] + rest)
  {
    assert forall i | 1 <= i < 1 + |rest| :: ([t] + rest)[i] == rest[i - 1];
  }

  /** Every non-blank entry survives cleaning, trimmed; a blank one does not. */
  lemma {:induction false} CleanVariationsKeeps(vs: seq<string>, v: string)
    ensures v in CleanVariations(vs) <==> v != "" && exists i | 0 <= i < |vs| :: Trim(vs[i]) == v
  {
    if vs != [] {
      CleanVariationsKeeps(vs[1..], v);
      if v in CleanVariations(vs) && v != Trim(vs[0]) {
        var i :| 0 <= i < |vs[1..]| && Trim(vs[1..][i]) == v;
        assert Trim(vs[i + 1]) == v;
      }
      if v != "" && exists i | 0 <= i < |vs| :: Trim(vs[i]) == v {
        var i :| 0 <= i < |vs| && Trim(vs[i]) == v;
        if i > 0 {
          assert Trim(vs[1..][i - 1]) == v;
        }
      }
    }
  }

  /** `addParaphrase` filters first and trims after (`filter(v => v.trim()).map(v => v.trim())`);
      the result is the same list. */
  function FilterThenTrim(vs: seq<string>): seq<string> {
    if vs == [] then []
    else if IsBlank(vs[0]) then FilterThenTrim(vs[1..])
    else [Trim(vs[0])] + FilterThenTrim(vs[1..])
  }

  lemma {:induction false} FilterThenTrimIsClean(vs: seq<string>)
    ensures FilterThenTrim(vs) == CleanVariations(vs)
  {
    if vs != [] {
      TrimBlank(vs[0]);
      FilterThenTrimIsClean(vs[1..]);
    }
  }

  /** The paraphrase `addParaphrase` stores after the insert call; `saved` is `None` when it threw. */
  function StoredParaphrase(original: string, variations: seq<string>, saved: Option<ParaphraseRow>, now: int): (p: Paraphrase)
    ensures saved.None? ==> p == Paraphrase(now, original, variations, now)
    ensures saved.Some? ==> p.id == saved.value.id
    ensures saved.Some? ==> p.original == OrElse(saved.value.original, original)
    ensures saved.Some? ==> p.variations == Coalesce(saved.value.variations, variations)
    ensures saved.Some? ==> p.created == Coalesce(saved.value.createdAt, now)
  {
    if saved.Some? then
      var row := saved.value;
      Paraphrase(row.id, OrElse(row.original, original), Coalesce(row.variations, variations),
                 Coalesce(row.createdAt, now))
    else Paraphrase(now, original, variations, now)
  }
}
