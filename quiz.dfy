/** The test session: the unit filter, the sample of at most ten cards, multiple-choice
    options, grading, the score and the unit selection. */
module Quiz {
  import opened Text
  import opened Cards

  datatype TestType = Written | MultipleChoice

  const MaxQuestions: nat := 10
  const Distractors: nat := 3

  // ---------------------------------------------------------------- choosing the cards

  /** `cards.filter(card => selectedUnits.includes(card.unit || 'General'))`. */
  function InUnits(cards: seq<Card>, selected: seq<string>): (r: seq<Card>)
    ensures |r| <= |cards|
  {
    if cards == [] then []
    else (if UnitOf(cards[0]) in selected then [cards[0]] else []) + InUnits(cards[1..], selected)
  }

  /** The cards a test is drawn from: all of them when no unit is selected. */
  function Candidates(cards: seq<Card>, selected: seq<string>): seq<Card> {
    if |selected| > 0 then InUnits(cards, selected) else cards
  }

  lemma {:induction false} InUnitsMembers(cards: seq<Card>, selected: seq<string>, c: Card)
    ensures c in InUnits(cards, selected) <==> c in cards && UnitOf(c) in selected
  {
    if cards != [] {
      InUnitsMembers(cards[1..], selected, c);
      assert cards == [cards[0]] + cards[1..];
    }
  }

  /** A card is a candidate iff it is in the deck and, when units are selected, in one of them. */
  lemma CandidatesMembers(cards: seq<Card>, selected: seq<string>, c: Card)
    ensures c in Candidates(cards, selected) <==> c in cards && (selected == [] || UnitOf(c) in selected)
  {
    InUnitsMembers(cards, selected, c);
  }

  /** `shuffled.slice(0, Math.min(10, shuffled.length))`. */
  function Sample(shuffled: seq<Card>): (r: seq<Card>)
    ensures |r| == Min(MaxQuestions, |shuffled|)
  {
    shuffled[..Min(MaxQuestions, |shuffled|)]
  }

  /** For any shuffle of the candidates the sample holds `min(10, n)` of them, none more often
      than among the candidates, and nothing else. */
  lemma SampleSpec(candidates: seq<Card>, shuffled: seq<Card>)
    requires multiset(shuffled) == multiset(candidates)
    ensures |Sample(shuffled)| == Min(MaxQuestions, |candidates|)
    ensures multiset(Sample(shuffled)) <= multiset(candidates)
    ensures forall c | c in Sample(shuffled) :: c in candidates
  {
    var k := Min(MaxQuestions, |shuffled|);
    assert shuffled == shuffled[..k] + shuffled[k..];
    assert |shuffled| == |multiset(shuffled)| == |candidates|;
    forall c | c in Sample(shuffled) ensures c in candidates {
      assert c in multiset(shuffled);
    }
  }

  // ---------------------------------------------------------------- multiple choice

  /** `allTestCards.filter(c => c.id !== currentCard.id)`. */
  function Others(all: seq<Card>, id: int): (r: seq<Card>)
    ensures |r| <= |all|
  {
    if all == [] then []
    else (if all[0].id != id then [all[0]] else []) + Others(all[1..], id)
  }

  lemma {:induction false} OthersMembers(all: seq<Card>, id: int, c: Card)
    ensures c in Others(all, id) <==> c in all && c.id != id
  {
    if all != [] {
      OthersMembers(all[1..], id, c);
      assert all == [all[0]] + all[1..];
    }
  }

  /** The ids in a list are pairwise different. */
  predicate DistinctIds(s: seq<Card>) {
    forall i, j | 0 <= i < j < |s| :: s[i].id != s[j].id
  }

  /** With unique ids, exactly the current card is left out. */
  lemma {:induction false} OthersCount(all: seq<Card>, current: Card)
    requires DistinctIds(all) && current in all
    ensures |Others(all, current.id)| == |all| - 1
  {
    var tail := all[1..];
    assert forall i | 0 <= i < |tail| :: tail[i] == all[i + 1];
    if all[0] == current {
      OthersNone(tail, current.id);
    } else {
      assert current in tail;
      OthersCount(tail, current);
    }
  }

  lemma {:induction false} OthersNone(all: seq<Card>, id: int)
    requires forall i | 0 <= i < |all| :: all[i].id != id
    ensures Others(all, id) == all
  {
    if all != [] {
      assert forall i | 0 <= i < |all| - 1 :: all[1..][i] == all[i + 1];
      OthersNone(all[1..], id);
      assert all == [all[0]] + all[1..];
    }
  }

  /** `.slice(0, 3).map(c => c.back)` over the shuffled other cards. */
  function WrongAnswers(othersShuffled: seq<Card>): (r: seq<string>)
    ensures |r| == Min(Distractors, |othersShuffled|)
  {
    var k := Min(Distractors, |othersShuffled|);
    seq(k, i requires 0 <= i < k => othersShuffled[i].back)
  }

  /** The options shown for `current`: the correct answer and at most three wrong ones, in an
      order drawn at random. `othersShuffled` and `options` stand for the two random sorts. */
  predicate IsOptionsDraw(current: Card, all: seq<Card>, othersShuffled: seq<Card>, options: seq<string>) {
    multiset(othersShuffled) == multiset(Others(all, current.id))
    && multiset(options) == multiset([current.back] + WrongAnswers(othersShuffled))
  }

  /** The options always contain the correct answer, have `1 + min(3, n)` entries for `n`
      other cards, and every other entry is the answer of a card with a different id. */
  lemma OptionsSpec(current: Card, all: seq<Card>, othersShuffled: seq<Card>, options: seq<string>)
    requires IsOptionsDraw(current, all, othersShuffled, options)
    ensures current.back in options
    ensures |options| == 1 + Min(Distractors, |Others(all, current.id)|)
    ensures forall o | o in options ::
      (o == current.back || exists c | c in all :: c.id != current.id && c.back == o)
  {
    var wrong := WrongAnswers(othersShuffled);
    assert current.back in multiset([current.back] + wrong);
    assert |options| == |multiset(options)| == |[current.back] + wrong|;
    assert |othersShuffled| == |multiset(othersShuffled)| == |Others(all, current.id)|;
    forall o | o in options ensures o == current.back || exists c | c in all :: c.id != current.id && c.back == o {
      assert o in multiset([current.back] + wrong);
      if o != current.back {
        assert o in wrong;
        var i :| 0 <= i < |wrong| && wrong[i] == o;
        var c := othersShuffled[i];
        assert c in multiset(Others(all, current.id));
        OthersMembers(all, current.id, c);
      }
    }
  }

  // ---------------------------------------------------------------- grading and the score

  /** What `answerTestQuestion` records for a card. */
  datatype Answer = Answer(given: string, correct: string, isCorrect: bool)

  /** `answer.toLowerCase().trim() === card.back.toLowerCase().trim()`. */
  predicate IsCorrectAnswer(given: string, back: string) {
    Trim(ToLower(given)) == Trim(ToLower(back))
  }

  function Grade(given: string, back: string): (a: Answer)
    ensures a.given == given && a.correct == back
    ensures a.isCorrect <==> ToLower(Trim(given)) == ToLower(Trim(back))
  {
    LowerTrimCommute(given);
    LowerTrimCommute(back);
    Answer(given, back, IsCorrectAnswer(given, back))
  }

  /** Grading ignores case and surrounding white space, and nothing else. */
  lemma GradeExamples()
    ensures IsCorrectAnswer("Paris ", "paris")
    ensures !IsCorrectAnswer("Pariss", "Paris")
  {
    assert ToLower("Paris ") == "paris" + " " && ToLower("paris") == "paris";
    TrimDropsTrailing("paris", " ");
    TrimOfTrimmed("paris");
    assert ToLower("Pariss") == "pariss" && ToLower("Paris") == "paris";
    TrimOfTrimmed("pariss");
  }

  /** An answer equal to the card's back is correct, and correctness does not depend on which
      of the two strings is the given one. */
  lemma GradeReflexiveSymmetric(a: string, b: string)
    ensures IsCorrectAnswer(a, a)
    ensures IsCorrectAnswer(a, b) <==> IsCorrectAnswer(b, a)
  {
  }

  /** `Object.values(testAnswers).filter(a => a.isCorrect).length`. */
  function CorrectKeys(answers: map<int, Answer>): set<int> {
    set k | k in answers && answers[k].isCorrect
  }

  /** `Math.round(correct / total * 100)` for a non-empty test, computed on integers. */
  function RoundedPercent(correct: nat, total: nat): (p: int)
    requires total > 0
  {
    (200 * correct + total) / (2 * total)
  }

  /** The score; `percentage` is `None` for the `NaN` of an empty test. */
  datatype Score = Score(correct: nat, total: nat, percentage: Option<int>)

  function TestScore(answers: map<int, Answer>, testCards: seq<Card>): (s: Score)
    ensures s.total == |testCards| && s.correct == |CorrectKeys(answers)|
    ensures s.percentage.None? <==> testCards == []
    ensures testCards != [] ==> s.percentage == Some(RoundedPercent(s.correct, s.total))
  {
    var c := |CorrectKeys(answers)|;
    var t := |testCards|;
    Score(c, t, if t == 0 then None else Some(RoundedPercent(c, t)))
  }

  /** The percentage is the nearest integer to `100 * correct / total`, halves rounded up. */
  lemma RoundedPercentNearest(correct: nat, total: nat)
    requires total > 0
    ensures var p := RoundedPercent(correct, total);
      total * (2 * p - 1) <= 200 * correct < total * (2 * p + 1)
  {
    var p := RoundedPercent(correct, total);
    var n := 200 * correct + total;
    var d := 2 * total;
    assert d * p <= n < d * p + d;
  }

  lemma RoundedPercentBounds(correct: nat, total: nat)
    requires 0 < total && correct <= total
    ensures 0 <= RoundedPercent(correct, total) <= 100
  {
    RoundedPercentNearest(correct, total);
    var p := RoundedPercent(correct, total);
    MulCancel(total, 2 * p - 1, 200);
  }

  /** Helper for the bound above: a positive factor cancels in an inequality. */
  lemma MulCancel(t: int, x: int, y: int)
    requires t > 0 && t * x <= t * y
    ensures x <= y
  {
  }

  function Ids(cards: seq<Card>): set<int> {
    set c | c in cards :: c.id
  }

  lemma {:induction false} IdsBound(cards: seq<Card>)
    ensures |Ids(cards)| <= |cards|
  {
    if cards != [] {
      IdsBound(cards[1..]);
      assert Ids(cards) == {cards[0].id} + Ids(cards[1..]) by {
        assert cards == [cards[0]] + cards[1..];
      }
    }
  }

  /** Answers are only stored under the ids of the test cards, so no more answers can be
      correct than there are questions, and the percentage lies in [0, 100]. */
  lemma ScoreBounded(answers: map<int, Answer>, testCards: seq<Card>)
    requires answers.Keys <= Ids(testCards)
    ensures TestScore(answers, testCards).correct <= TestScore(answers, testCards).total
    ensures testCards != [] ==> 0 <= TestScore(answers, testCards).percentage.value <= 100
  {
    assert CorrectKeys(answers) <= Ids(testCards);
    IdsBound(testCards);
    SubsetCardinality(CorrectKeys(answers), Ids(testCards));
    if testCards != [] {
      RoundedPercentBounds(|CorrectKeys(answers)|, |testCards|);
    }
  }

  lemma SubsetCardinality(a: set<int>, b: set<int>)
    requires a <= b
    ensures |a| <= |b|
  {
    assert b == a + (b - a);
  }

  // ---------------------------------------------------------------- units

  /** `toggleUnit`: drop every copy of a selected unit, or append an unselected one. */
  function ToggleUnit(selected: seq<string>, unit: string): (r: seq<string>)
  {
    if unit in selected then Without(selected, unit) else selected + [unit]
  }

  function Without(s: seq<string>, u: string): (r: seq<string>)
    ensures |r| <= |s|
  {
    if s == [] then [] else (if s[0] == u then [] else [s[0]]) + Without(s[1..], u)
  }

  lemma {:induction false} WithoutMembers(s: seq<string>, u: string, x: string)
    ensures x in Without(s, u) <==> x in s && x != u
  {
    if s != [] {
      WithoutMembers(s[1..], u, x);
      assert s == [s[0]] + s[1..];
    }
  }

  lemma {:induction false} WithoutAbsent(s: seq<string>, u: string)
    requires u !in s
    ensures Without(s, u) == s
  {
    if s != [] {
      WithoutAbsent(s[1..], u);
      assert s == [s[0]] + s[1..];
    }
  }

  /** Toggling flips the unit's membership and leaves every other unit as it was. */
  lemma ToggleFlips(selected: seq<string>, unit: string, x: string)
    ensures x in ToggleUnit(selected, unit) <==> (if x == unit then unit !in selected else x in selected)
  {
    WithoutMembers(selected, unit, x);
  }

  /** Toggling an unselected unit twice restores the selection exactly. */
  lemma ToggleTwice(selected: seq<string>, unit: string)
    requires unit !in selected
    ensures ToggleUnit(ToggleUnit(selected, unit), unit) == selected
  {
    var t := selected + [unit];
    assert unit in t;
    WithoutAbsent(selected, unit);
    WithoutConcat(selected, [unit], unit);
  }

  lemma {:induction false} WithoutConcat(a: seq<string>, b: seq<string>, u: string)
    ensures Without(a + b, u) == Without(a, u) + Without(b, u)
  {
    if a != [] {
      assert (a + b)[0] == a[0];
      assert (a + b)[1..] == a[1..] + b;
      WithoutConcat(a[1..], b, u);
    } else {
      assert a + b == b;
    }
  }

  /** The default string order of `Array.prototype.sort`: `a` comes strictly before `b`. */
  predicate Less(a: string, b: string) {
    if b == [] then false
    else if a == [] then true
    else if a[0] != b[0] then a[0] < b[0]
    else Less(a[1..], b[1..])
  }

  lemma {:induction false} LessIrreflexive(a: string)
    ensures !Less(a, a)
  {
    if a != [] {
      LessIrreflexive(a[1..]);
    }
  }

  lemma {:induction false} LessTransitive(a: string, b: string, c: string)
    requires Less(a, b) && Less(b, c)
    ensures Less(a, c)
  {
    if a != [] && a[0] == b[0] && b[0] == c[0] {
      LessTransitive(a[1..], b[1..], c[1..]);
    }
  }

  lemma {:induction false} LessTotal(a: string, b: string)
    requires a != b
    ensures Less(a, b) || Less(b, a)
  {
    if a != [] && b != [] && a[0] == b[0] {
      assert a == [a[0]] + a[1..] && b == [b[0]] + b[1..];
      LessTotal(a[1..], b[1..]);
    }
  }

  lemma {:induction false} LessAsymmetric(a: string, b: string)
    requires Less(a, b)
    ensures !Less(b, a)
  {
    if a != [] && a[0] == b[0] {
      LessAsymmetric(a[1..], b[1..]);
    }
  }

  predicate StrictlySorted(s: seq<string>) {
    forall i, j | 0 <= i < j < |s| :: Less(s[i], s[j])
  }

  predicate AllAbove(s: seq<string>, b: string) {
    forall k | 0 <= k < |s| :: Less(b, s[k])
  }

  /** Inserts `x` into a sorted list of distinct units unless it is already there. */
  function InsertUnit(x: string, s: seq<string>): seq<string> {
    if s == [] then [x]
    else if x == s[0] then s
    else if Less(x, s[0]) then [x] + s
    else [s[0]] + InsertUnit(x, s[1..])
  }

  function SortUnits(us: seq<string>): seq<string> {
    if us == [] then [] else InsertUnit(us[0], SortUnits(us[1..]))
  }

  /** `[...new Set(cards.map(card => card.unit || 'General'))].sort()`. */
  function UniqueUnits(cards: seq<Card>): seq<string> {
    SortUnits(seq(|cards|, i requires 0 <= i < |cards| => UnitOf(cards[i])))
  }

  lemma {:induction false} InsertUnitMembers(x: string, s: seq<string>, y: string)
    ensures y in InsertUnit(x, s) <==> y == x || y in s
  {
    if s != [] && x != s[0] && !Less(x, s[0]) {
      InsertUnitMembers(x, s[1..], y);
      assert s == [s[0]] + s[1..];
    }
  }

  lemma {:induction false} InsertUnitAbove(x: string, s: seq<string>, b: string)
    requires AllAbove(s, b) && Less(b, x)
    ensures AllAbove(InsertUnit(x, s), b)
  {
    if s != [] && x != s[0] && !Less(x, s[0]) {
      InsertUnitAbove(x, s[1..], b);
      var r := [s[0]] + InsertUnit(x, s[1..]);
      assert forall k | 1 <= k < |r| :: r[k] == InsertUnit(x, s[1..])[k - 1];
    }
  }

  lemma SortedConsUnit(x: string, t: seq<string>)
    requires AllAbove(t, x) && StrictlySorted(t)
    ensures StrictlySorted([x] + t)
  {
    var r := [x] + t;
    assert forall k | 1 <= k < |r| :: r[k] == t[k - 1];
  }

  lemma {:induction false} InsertUnitSorted(x: string, s: seq<string>)
    requires StrictlySorted(s)
    ensures StrictlySorted(InsertUnit(x, s))
  {
    if s == [] {
    } else if x == s[0] {
    } else if Less(x, s[0]) {
      forall k | 0 <= k < |s| ensures Less(x, s[k]) {
        if k > 0 {
          LessTransitive(x, s[0], s[k]);
        }
      }
      SortedConsUnit(x, s);
    } else {
      var tail := s[1..];
      assert forall i | 0 <= i < |tail| :: tail[i] == s[i + 1];
      LessTotal(x, s[0]);
      InsertUnitSorted(x, tail);
      InsertUnitAbove(x, tail, s[0]);
      SortedConsUnit(s[0], InsertUnit(x, tail));
    }
  }

  lemma {:induction false} SortUnitsSpec(us: seq<string>)
    ensures StrictlySorted(SortUnits(us))
    ensures forall y :: y in SortUnits(us) <==> y in us
  {
    if us != [] {
      SortUnitsSpec(us[1..]);
      InsertUnitSorted(us[0], SortUnits(us[1..]));
      forall y ensures y in SortUnits(us) <==> y in us {
        InsertUnitMembers(us[0], SortUnits(us[1..]), y);
        assert us == [us[0]] + us[1..];
      }
    }
  }

  /** The unit list is sorted, without repeats, and holds exactly the units of the deck. */
  lemma UniqueUnitsSpec(cards: seq<Card>)
    ensures StrictlySorted(UniqueUnits(cards))
    ensures forall u :: u in UniqueUnits(cards) <==> exists c | c in cards :: UnitOf(c) == u
  {
    var us := seq(|cards|, i requires 0 <= i < |cards| => UnitOf(cards[i]));
    SortUnitsSpec(us);
    forall u ensures u in us <==> exists c | c in cards :: UnitOf(c) == u {
      if exists c | c in cards :: UnitOf(c) == u {
        var c :| c in cards && UnitOf(c) == u;
        var i :| 0 <= i < |cards| && cards[i] == c;
        assert us[i] == u;
      }
    }
  }

  /** A strictly sorted list is fixed by its elements, so deduplicating and then sorting, in
      whatever way, gives the same list as the one above. */
  lemma {:induction false} StrictlySortedUnique(a: seq<string>, b: seq<string>)
    requires StrictlySorted(a) && StrictlySorted(b)
    requires forall y :: y in a <==> y in b
    ensures a == b
  {
    EmptyIffEmpty(a, b);
    if a != [] {
      if a[0] != b[0] {
        assert a[0] in b && b[0] in a;
        SortedHeadFirst(a, b[0]);
        SortedHeadFirst(b, a[0]);
        LessAsymmetric(a[0], b[0]);
        assert false;
      }
      forall y ensures y in a[1..] <==> y in b[1..] {
        SortedTailMembers(a, y);
        SortedTailMembers(b, y);
      }
      SortedTail(a);
      SortedTail(b);
      StrictlySortedUnique(a[1..], b[1..]);
      assert a == [a[0]] + a[1..] && b == [b[0]] + b[1..];
    }
  }

  lemma EmptyIffEmpty(a: seq<string>, b: seq<string>)
    requires forall y :: y in a <==> y in b
    ensures a == [] <==> b == []
  {
    if a != [] {
      assert a[0] in b;
    }
    if b != [] {
      assert b[0] in a;
    }
  }

  lemma SortedHeadFirst(s: seq<string>, y: string)
    requires StrictlySorted(s) && y in s && y != s[0]
    ensures Less(s[0], y)
  {
    var i :| 0 <= i < |s| && s[i] == y;
  }

  lemma SortedTailMembers(s: seq<string>, y: string)
    requires StrictlySorted(s) && s != []
    ensures y in s[1..] <==> y in s && y != s[0]
  {
    if y in s[1..] {
      var i :| 0 <= i < |s| - 1 && s[1..][i] == y;
      assert s[i + 1] == y;
      LessIrreflexive(s[0]);
    }
    assert s == [s[0]] + s[1..];
  }

  lemma SortedTail(s: seq<string>)
    requires StrictlySorted(s) && s != []
    ensures StrictlySorted(s[1..])
  {
    assert forall i | 0 <= i < |s| - 1 :: s[1..][i] == s[i + 1];
  }
}
