/** Load-time reconciliation: the records fetched from the store are mapped to local records
    and merged with the cached ones, the remote copy winning on every shared id. */
module Sync {
  import opened Text
  import opened Cards

  // ---------------------------------------------------------------- the merge

  /** `new Set(list.map(keyOf))`. */
  function Keys<T(==)>(s: seq<T>, key: T -> int): set<int> {
    set x | x in s :: key(x)
  }

  /** `local.filter(x => !ids.has(keyOf(x)))`. */
  function LocalOnly<T(==)>(local: seq<T>, ids: set<int>, key: T -> int): (r: seq<T>)
    ensures |r| <= |local|
  {
    if local == [] then []
    else (if key(local[0]) in ids then [] else [local[0]]) + LocalOnly(local[1..], ids, key)
  }

  /** `[...remote, ...localOnly]`: every remote record, then the cached ones the store lacks. */
  function Merge<T(==)>(remote: seq<T>, local: seq<T>, key: T -> int): seq<T> {
    remote + LocalOnly(local, Keys(remote, key), key)
  }

  lemma {:induction false} LocalOnlyMembers<T>(local: seq<T>, ids: set<int>, key: T -> int, x: T)
    ensures x in LocalOnly(local, ids, key) <==> x in local && key(x) !in ids
  {
    if local != [] {
      LocalOnlyMembers(local[1..], ids, key, x);
      assert local == [local[0]] + local[1..];
    }
  }

  /** The filter distributes over concatenation, so cached records keep their relative order. */
  lemma {:induction false} LocalOnlyConcat<T>(a: seq<T>, b: seq<T>, ids: set<int>, key: T -> int)
    ensures LocalOnly(a + b, ids, key) == LocalOnly(a, ids, key) + LocalOnly(b, ids, key)
  {
    if a != [] {
      assert (a + b)[0] == a[0];
      assert (a + b)[1..] == a[1..] + b;
      LocalOnlyConcat(a[1..], b, ids, key);
    } else {
      assert a + b == b;
    }
  }

  lemma {:induction false} LocalOnlyNone<T>(local: seq<T>, ids: set<int>, key: T -> int)
    requires forall i | 0 <= i < |local| :: key(local[i]) in ids
    ensures LocalOnly(local, ids, key) == []
  {
    if local != [] {
      assert forall i | 0 <= i < |local| - 1 :: local[1..][i] == local[i + 1];
      LocalOnlyNone(local[1..], ids, key);
    }
  }

  lemma {:induction false} LocalOnlyAll<T>(local: seq<T>, ids: set<int>, key: T -> int)
    requires forall i | 0 <= i < |local| :: key(local[i]) !in ids
    ensures LocalOnly(local, ids, key) == local
  {
    if local != [] {
      assert forall i | 0 <= i < |local| - 1 :: local[1..][i] == local[i + 1];
      LocalOnlyAll(local[1..], ids, key);
      assert local == [local[0]] + local[1..];
    }
  }

  /** A record is in the merge iff it is remote, or cached under an id the store does not have. */
  lemma MergeMembers<T>(remote: seq<T>, local: seq<T>, key: T -> int, x: T)
    ensures x in Merge(remote, local, key) <==>
      x in remote || (x in local && forall i | 0 <= i < |remote| :: key(remote[i]) != key(x))
  {
    LocalOnlyMembers(local, Keys(remote, key), key, x);
    if key(x) in Keys(remote, key) {
      var y :| y in remote && key(y) == key(x);
    }
  }

  /** The remote list comes first, unchanged, and what follows it is the filtered cache. */
  lemma MergeShape<T>(remote: seq<T>, local: seq<T>, key: T -> int)
    ensures var m := Merge(remote, local, key);
      |remote| <= |m| <= |remote| + |local| && m[..|remote|] == remote
  {
  }

  /** Merging a list with itself changes nothing. */
  lemma MergeSelf<T>(r: seq<T>, key: T -> int)
    ensures Merge(r, r, key) == r
  {
    LocalOnlyNone(r, Keys(r, key), key);
  }

  /** A cache that is empty, or missing and read as `[]`, leaves the remote list as it is. */
  lemma MergeEmptyCache<T>(r: seq<T>, key: T -> int)
    ensures Merge(r, [], key) == r
  {
  }

  /** When no cached id is known remotely, the merge is the plain concatenation. */
  lemma MergeDisjoint<T>(remote: seq<T>, local: seq<T>, key: T -> int)
    requires forall i, j | 0 <= i < |remote| && 0 <= j < |local| :: key(remote[i]) != key(local[j])
    ensures Merge(remote, local, key) == remote + local
  {
    forall j, y | 0 <= j < |local| && y in remote ensures key(y) != key(local[j]) {
      var i :| 0 <= i < |remote| && remote[i] == y;
    }
    LocalOnlyAll(local, Keys(remote, key), key);
  }

  /** No two positions carry the same id. */
  predicate DistinctKeys<T(==)>(s: seq<T>, key: T -> int) {
    forall i, j | 0 <= i < j < |s| :: key(s[i]) != key(s[j])
  }

  lemma {:induction false} LocalOnlyDistinct<T>(local: seq<T>, ids: set<int>, key: T -> int)
    requires DistinctKeys(local, key)
    ensures DistinctKeys(LocalOnly(local, ids, key), key)
    ensures forall i | 0 <= i < |LocalOnly(local, ids, key)| :: key(LocalOnly(local, ids, key)[i]) !in ids
  {
    if local != [] {
      var tail := local[1..];
      assert forall i | 0 <= i < |tail| :: tail[i] == local[i + 1];
      LocalOnlyDistinct(tail, ids, key);
      var rest := LocalOnly(tail, ids, key);
      var head := if key(local[0]) in ids then [] else [local[0]];
      var r := head + rest;
      forall i | 0 <= i < |rest| ensures key(rest[i]) != key(local[0]) {
        LocalOnlyMembers(tail, ids, key, rest[i]);
        var k :| 0 <= k < |tail| && tail[k] == rest[i];
      }
      assert forall i | |head| <= i < |r| :: r[i] == rest[i - |head|];
    }
  }

  /** Ids stay unique: two lists without repeated ids merge into one without repeated ids. */
  lemma MergeDistinct<T>(remote: seq<T>, local: seq<T>, key: T -> int)
    requires DistinctKeys(remote, key) && DistinctKeys(local, key)
    ensures DistinctKeys(Merge(remote, local, key), key)
  {
    var ids := Keys(remote, key);
    var rest := LocalOnly(local, ids, key);
    LocalOnlyDistinct(local, ids, key);
    var m := remote + rest;
    forall i, j | 0 <= i < j < |m| ensures key(m[i]) != key(m[j]) {
      if j >= |remote| {
        assert m[j] == rest[j - |remote|];
        if i < |remote| {
          assert key(m[i]) in ids;
        } else {
          assert m[i] == rest[i - |remote|];
        }
      }
    }
  }

  // ---------------------------------------------------------------- fetched records

  /** A `shared_cards` row as fetched; the id may be missing. */
  datatype FetchedCard = FetchedCard(id: Option<int>, row: CardRow)

  /** The card made from the `index`-th fetched row at time `now`. */
  function FromFetched(f: FetchedCard, now: int, index: nat): (c: Card)
    ensures IsFresh(c) && c.created == now + index
    ensures c.id == Coalesce(f.id, now + index)
    ensures c.front == OrElse(f.row.front, "") && c.back == OrElse(f.row.back, "")
    ensures c.example == OrElse(f.row.example, "") && c.translation == OrElse(f.row.translation, "")
    ensures c.unit == OrElse(f.row.unit, "General") && c.unit != ""
  {
    Card(Coalesce(f.id, now + index),
         OrElse(f.row.front, ""), OrElse(f.row.back, ""),
         OrElse(f.row.example, ""), OrElse(f.row.translation, ""),
         OrElse(f.row.unit, "General"),
         1, 0, None, None, now + index)
  }

  /** `sharedCards.map((card, index) => ...)`. */
  function FetchedCards(rows: seq<FetchedCard>, now: int): (cards: seq<Card>)
    ensures |cards| == |rows|
  {
    seq(|rows|, i requires 0 <= i < |rows| => FromFetched(rows[i], now, i))
  }

  /** Every fetched card comes in fresh, in box 1 with no reviews, with a non-empty unit. */
  lemma FetchedCardsFresh(rows: seq<FetchedCard>, now: int)
    ensures forall i | 0 <= i < |rows| ::
      IsFresh(FetchedCards(rows, now)[i]) && FetchedCards(rows, now)[i].unit != ""
      && FetchedCards(rows, now)[i].created == now + i
  {
  }

  /** The paraphrase made from a fetched row. */
  function FromFetchedParaphrase(row: ParaphraseRow, now: int): (p: Paraphrase)
    ensures p.id == row.id
    ensures p.variations == (if row.variations.Some? then row.variations.value else [])
    ensures p.original == OrElse(row.original, "")
    ensures p.created == Coalesce(row.createdAt, now)
  {
    Paraphrase(row.id, OrElse(row.original, ""), Coalesce(row.variations, []), Coalesce(row.createdAt, now))
  }

  /** `dbParaphrases.map(p => ...)`. */
  function FetchedParaphrases(rows: seq<ParaphraseRow>, now: int): (ps: seq<Paraphrase>)
    ensures |ps| == |rows|
    ensures forall i | 0 <= i < |rows| ::
      ps[i].id == rows[i].id && ps[i].original == OrElse(rows[i].original, "")
      && ps[i].created == Coalesce(rows[i].createdAt, now)
  {
    seq(|rows|, i requires 0 <= i < |rows| => FromFetchedParaphrase(rows[i], now))
  }

  function CardId(c: Card): int { c.id }

  function ParaphraseId(p: Paraphrase): int { p.id }

  /** The card list after the load: `None` leaves the collection as it is, which happens when
      the fetch threw or returned no rows. `cache` is the cached list, `None` when it was
      missing or could not be parsed. */
  function LoadedCards(fetched: Option<seq<FetchedCard>>, cache: Option<seq<Card>>, now: int): (r: Option<seq<Card>>)
    ensures r.None? <==> fetched.None? || fetched.value == []
    ensures r.Some? ==> fetched.Some? && |fetched.value| <= |r.value| && r.value[..|fetched.value|] == FetchedCards(fetched.value, now)
  {
    if fetched.None? || fetched.value == [] then None
    else
      var db := FetchedCards(fetched.value, now);
      MergeShape(db, Coalesce(cache, []), CardId);
      Some(Merge(db, Coalesce(cache, []), CardId))
  }

  /** The paraphrase list after the load, by the same rule. */
  function LoadedParaphrases(fetched: Option<seq<ParaphraseRow>>, cache: Option<seq<Paraphrase>>, now: int): (r: Option<seq<Paraphrase>>)
    ensures r.None? <==> fetched.None? || fetched.value == []
    ensures r.Some? ==> fetched.Some? && |fetched.value| <= |r.value| && r.value[..|fetched.value|] == FetchedParaphrases(fetched.value, now)
  {
    if fetched.None? || fetched.value == [] then None
    else
      var db := FetchedParaphrases(fetched.value, now);
      MergeShape(db, Coalesce(cache, []), ParaphraseId);
      Some(Merge(db, Coalesce(cache, []), ParaphraseId))
  }

  /** A cached card survives the load iff no fetched card has its id, and is then kept as cached. */
  lemma LoadedCardsKeepsCache(fetched: seq<FetchedCard>, cache: seq<Card>, now: int, c: Card)
    requires fetched != [] && c in cache
    ensures var r := LoadedCards(Some(fetched), Some(cache), now).value;
      c in r <==> c in FetchedCards(fetched, now) || forall i | 0 <= i < |fetched| :: FetchedCards(fetched, now)[i].id != c.id
  {
    MergeMembers(FetchedCards(fetched, now), cache, CardId, c);
  }
}
