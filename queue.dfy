/** The study queue: the due cards, tagged with their index, sorted by box and then
    shuffled in place by Fisher–Yates with injected random draws. */
module StudyQueue {
  import opened Cards

  /** A queue entry: a copy of a card and its `originalIndex` in the collection. */
  datatype Entry = Entry(card: Card, originalIndex: nat)

  // ---------------------------------------------------------------- the due filter

  /** The tagged cards from position `from` on that pass the due filter. */
  function DueFrom(cards: seq<Card>, now: int, from: nat): seq<Entry>
    requires from <= |cards|
    decreases |cards| - from
  {
    if from == |cards| then []
    else (if IsDue(cards[from], now) then [Entry(cards[from], from)] else []) + DueFrom(cards, now, from + 1)
  }

  /** `cards.map((card, index) => ({ ...card, originalIndex: index })).filter(due)`. */
  function DueEntries(cards: seq<Card>, now: int): seq<Entry> {
    DueFrom(cards, now, 0)
  }

  lemma {:induction false} DueFromMembers(cards: seq<Card>, now: int, from: nat, e: Entry)
    requires from <= |cards|
    ensures e in DueFrom(cards, now, from) <==>
      from <= e.originalIndex < |cards| && e.card == cards[e.originalIndex] && IsDue(e.card, now)
    decreases |cards| - from
  {
    if from < |cards| {
      DueFromMembers(cards, now, from + 1, e);
    }
  }

  /** Positions strictly increase along `d`, so no card occurs twice. */
  predicate IncreasingPositions(d: seq<Entry>) {
    forall i, j | 0 <= i < j < |d| :: d[i].originalIndex < d[j].originalIndex
  }

  predicate PositionsFrom(d: seq<Entry>, from: nat) {
    forall i | 0 <= i < |d| :: from <= d[i].originalIndex
  }

  lemma {:induction false} DueFromPositions(cards: seq<Card>, now: int, from: nat)
    requires from <= |cards|
    ensures PositionsFrom(DueFrom(cards, now, from), from)
    decreases |cards| - from
  {
    if from < |cards| {
      DueFromPositions(cards, now, from + 1);
      var rest := DueFrom(cards, now, from + 1);
      var head := if IsDue(cards[from], now) then [Entry(cards[from], from)] else [];
      var d := head + rest;
      assert forall i | |head| <= i < |d| :: d[i] == rest[i - |head|];
    }
  }

  lemma {:induction false} DueFromOrdered(cards: seq<Card>, now: int, from: nat)
    requires from <= |cards|
    ensures IncreasingPositions(DueFrom(cards, now, from))
    decreases |cards| - from
  {
    if from < |cards| {
      DueFromOrdered(cards, now, from + 1);
      DueFromPositions(cards, now, from + 1);
      var rest := DueFrom(cards, now, from + 1);
      var head := if IsDue(cards[from], now) then [Entry(cards[from], from)] else [];
      var d := head + rest;
      assert forall i | |head| <= i < |d| :: d[i] == rest[i - |head|];
    }
  }

  /** Exactly the due cards get in, each as an exact copy tagged with its position. */
  lemma DueEntriesMembers(cards: seq<Card>, now: int, e: Entry)
    ensures e in DueEntries(cards, now) <==>
      e.originalIndex < |cards| && e.card == cards[e.originalIndex] && IsDue(e.card, now)
  {
    DueFromMembers(cards, now, 0, e);
  }

  /** No due card is included twice: positions strictly increase along the filtered list. */
  lemma DueEntriesDistinct(cards: seq<Card>, now: int)
    ensures IncreasingPositions(DueEntries(cards, now))
  {
    DueFromOrdered(cards, now, 0);
  }

  // ---------------------------------------------------------------- the sort by box

  /** Inserts `e` before the first entry whose box is not smaller, keeping ties in order. */
  function InsertByBox(e: Entry, s: seq<Entry>): (r: seq<Entry>)
    ensures |r| == |s| + 1
  {
    if s == [] || e.card.box <= s[0].card.box then [e] + s else [s[0]] + InsertByBox(e, s[1..])
  }

  /** `.sort((a, b) => a.box - b.box)`, the stable sort ECMAScript requires. */
  function SortByBox(s: seq<Entry>): (r: seq<Entry>)
    ensures |r| == |s|
  {
    if s == [] then [] else InsertByBox(s[0], SortByBox(s[1..]))
  }

  predicate SortedByBox(s: seq<Entry>) {
    forall i, j | 0 <= i < j < |s| :: s[i].card.box <= s[j].card.box
  }

  lemma {:induction false} InsertByBoxPermutes(e: Entry, s: seq<Entry>)
    ensures multiset(InsertByBox(e, s)) == multiset(s) + multiset{e}
  {
    if s != [] && e.card.box > s[0].card.box {
      InsertByBoxPermutes(e, s[1..]);
      assert InsertByBox(e, s) == [s[0]] + InsertByBox(e, s[1..]);
      assert s == [s[0]] + s[1..];
    }
  }

  predicate BoxesAtLeast(s: seq<Entry>, b: int) {
    forall k | 0 <= k < |s| :: b <= s[k].card.box
  }

  lemma {:induction false} InsertByBoxAtLeast(e: Entry, s: seq<Entry>, b: int)
    requires BoxesAtLeast(s, b) && b <= e.card.box
    ensures BoxesAtLeast(InsertByBox(e, s), b)
  {
    if s != [] && e.card.box > s[0].card.box {
      InsertByBoxAtLeast(e, s[1..], b);
      var r := [s[0]] + InsertByBox(e, s[1..]);
      assert forall k | 1 <= k < |r| :: r[k] == InsertByBox(e, s[1..])[k - 1];
    }
  }

  lemma SortedCons(x: Entry, t: seq<Entry>)
    requires BoxesAtLeast(t, x.card.box) && SortedByBox(t)
    ensures SortedByBox([x] + t)
  {
    var r := [x] + t;
    assert forall k | 1 <= k < |r| :: r[k] == t[k - 1];
  }

  lemma {:induction false} InsertByBoxSorted(e: Entry, s: seq<Entry>)
    requires SortedByBox(s)
    ensures SortedByBox(InsertByBox(e, s))
  {
    if s == [] || e.card.box <= s[0].card.box {
      SortedCons(e, s);
    } else {
      var tail := s[1..];
      assert forall i | 0 <= i < |tail| :: tail[i] == s[i + 1];
      InsertByBoxSorted(e, tail);
      InsertByBoxAtLeast(e, tail, s[0].card.box);
      SortedCons(s[0], InsertByBox(e, tail));
    }
  }

  lemma {:induction false} SortByBoxPermutes(s: seq<Entry>)
    ensures multiset(SortByBox(s)) == multiset(s)
  {
    if s != [] {
      SortByBoxPermutes(s[1..]);
      InsertByBoxPermutes(s[0], SortByBox(s[1..]));
      assert s == [s[0]] + s[1..];
    }
  }

  lemma {:induction false} SortByBoxSorted(s: seq<Entry>)
    ensures SortedByBox(SortByBox(s))
  {
    if s != [] {
      SortByBoxSorted(s[1..]);
      InsertByBoxSorted(s[0], SortByBox(s[1..]));
    }
  }

  /** Sorting by box yields a box-ordered permutation of its input. */
  lemma SortByBoxSpec(s: seq<Entry>)
    ensures SortedByBox(SortByBox(s))
    ensures multiset(SortByBox(s)) == multiset(s)
  {
    SortByBoxSorted(s);
    SortByBoxPermutes(s);
  }

  // ---------------------------------------------------------------- Fisher–Yates

  /** The random source of a Fisher–Yates pass: `draw(i)` is the index
      `Math.floor(Math.random() * (i + 1))` drawn when the loop is at position `i`. */
  ghost predicate ValidDraw(draw: nat -> nat) {
    forall i: nat :: draw(i) <= i
  }

  function Swap<T>(s: seq<T>, i: nat, j: nat): (r: seq<T>)
    requires i < |s| && j < |s|
    ensures |r| == |s|
  {
    s[i := s[j]][j := s[i]]
  }

  lemma SwapPermutes<T>(s: seq<T>, i: nat, j: nat)
    requires i < |s| && j < |s|
    ensures multiset(Swap(s, i, j)) == multiset(s)
  {
  }

  /** The swaps at positions `i`, `i - 1`, ..., 1, one per loop iteration. */
  function ShuffleDown<T>(s: seq<T>, draw: nat -> nat, i: nat): (r: seq<T>)
    requires i < |s| && ValidDraw(draw)
    ensures |r| == |s|
    decreases i
  {
    if i == 0 then s else ShuffleDown(Swap(s, i, draw(i)), draw, i - 1)
  }

  /** The whole pass, `for (let i = n - 1; i > 0; i--)`. */
  function FisherYates<T>(s: seq<T>, draw: nat -> nat): seq<T>
    requires ValidDraw(draw)
  {
    if s == [] then s else ShuffleDown(s, draw, |s| - 1)
  }

  lemma {:induction false} ShuffleDownPermutes<T>(s: seq<T>, draw: nat -> nat, i: nat)
    requires i < |s| && ValidDraw(draw)
    ensures multiset(ShuffleDown(s, draw, i)) == multiset(s)
    decreases i
  {
    if i > 0 {
      var t := Swap(s, i, draw(i));
      SwapPermutes(s, i, draw(i));
      ShuffleDownPermutes(t, draw, i - 1);
      assert ShuffleDown(s, draw, i) == ShuffleDown(t, draw, i - 1);
    }
  }

  /** A shuffle reorders and never adds, drops or duplicates an element. */
  lemma FisherYatesPermutes<T>(s: seq<T>, draw: nat -> nat)
    requires ValidDraw(draw)
    ensures |FisherYates(s, draw)| == |s|
    ensures multiset(FisherYates(s, draw)) == multiset(s)
  {
    if s != [] {
      ShuffleDownPermutes(s, draw, |s| - 1);
    }
  }

  /** The in-place loop of `buildStudyQueue` and `reshuffleQueue` over a copy of `s`. */
  method Shuffle<T>(s: seq<T>, draw: nat -> nat) returns (r: seq<T>)
    requires ValidDraw(draw)
    ensures r == FisherYates(s, draw)
    ensures multiset(r) == multiset(s)
  {
    var a := new T[|s|](k requires 0 <= k < |s| => s[k]);
    assert a[..] == s;
    var i := |s| - 1;
    while i > 0
      invariant -1 <= i < |s|
      invariant i == -1 ==> s == []
      invariant 0 <= i ==> ShuffleDown(a[..], draw, i) == FisherYates(s, draw)
    {
      var j := draw(i);
      ghost var before := a[..];
      var tmp := a[i];
      a[i] := a[j];
      a[j] := tmp;
      assert a[..] == Swap(before, i, j);
      i := i - 1;
    }
    r := a[..];
    FisherYatesPermutes(s, draw);
  }

  // ---------------------------------------------------------------- the queue

  /** The queue `buildStudyQueue` produces for `draw`. */
  function QueueOf(cards: seq<Card>, now: int, draw: nat -> nat): seq<Entry>
    requires ValidDraw(draw)
  {
    FisherYates(SortByBox(DueEntries(cards, now)), draw)
  }

  /** The queue holds exactly the due cards, each once, whatever the draws: a permutation of
      the due entries. The sort by box is undone by the shuffle that follows it, so it decides
      only which draws lead to which order. */
  lemma QueueIsDuePermutation(cards: seq<Card>, now: int, draw: nat -> nat)
    requires ValidDraw(draw)
    ensures multiset(QueueOf(cards, now, draw)) == multiset(DueEntries(cards, now))
    ensures |QueueOf(cards, now, draw)| == |DueEntries(cards, now)|
  {
    SortByBoxSpec(DueEntries(cards, now));
    FisherYatesPermutes(SortByBox(DueEntries(cards, now)), draw);
  }

  /** Membership in the queue, in both directions: an entry is in it iff it is a due card
      tagged with its own position. */
  lemma QueueMembers(cards: seq<Card>, now: int, draw: nat -> nat, e: Entry)
    requires ValidDraw(draw)
    ensures e in QueueOf(cards, now, draw) <==>
      e.originalIndex < |cards| && e.card == cards[e.originalIndex] && IsDue(e.card, now)
  {
    QueueIsDuePermutation(cards, now, draw);
    assert e in QueueOf(cards, now, draw) <==> e in multiset(DueEntries(cards, now));
    DueEntriesMembers(cards, now, e);
  }

  /** `buildStudyQueue` on a collection: filter, sort, shuffle a copy. */
  method BuildQueue(cards: seq<Card>, now: int, draw: nat -> nat) returns (q: seq<Entry>)
    requires ValidDraw(draw)
    ensures q == QueueOf(cards, now, draw)
    ensures multiset(q) == multiset(DueEntries(cards, now))
  {
    var due := DueEntries(cards, now);
    var sorted := SortByBox(due);
    q := Shuffle(sorted, draw);
    SortByBoxSpec(due);
  }
}
