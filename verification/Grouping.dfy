/**
 Grouping by a key, and what the groups' totals add up to: with distinct keys, the totals of
 the elements whose key is listed; with repeated keys, every element as often as its key is
 listed. Keys come in order of first appearance, as a JavaScript Map keeps them, or sorted.
 */
module Grouping {
  /** The elements with one key, in order. */
  function GroupOf<E, K(==)>(xs: seq<E>, keyOf: E -> K, key: K): seq<E> {
    if xs == [] then []
    else
      var init, last := xs[..|xs| - 1], xs[|xs| - 1];
      GroupOf(init, keyOf, key) + if keyOf(last) == key then [last] else []
  }

  /** Keys in order of first appearance, as a JavaScript `Map` or `Set` keeps them. */
  function KeysInOrder<E, K(==)>(xs: seq<E>, keyOf: E -> K): seq<K> {
    if xs == [] then []
    else
      var before := KeysInOrder(xs[..|xs| - 1], keyOf);
      var key := keyOf(xs[|xs| - 1]);
      if key in before then before else before + [key]
  }

  function Occurs<K(==)>(keys: seq<K>, key: K): nat {
    if keys == [] then 0 else (if keys[0] == key then 1 else 0) + Occurs(keys[1..], key)
  }

  ghost predicate Distinct<K>(keys: seq<K>) {
    forall i, j :: 0 <= i < j < |keys| ==> keys[i] != keys[j]
  }

  lemma DistinctSnoc<K>(keys: seq<K>, key: K)
    requires Distinct(keys) && key !in keys
    ensures Distinct(keys + [key])
  {
  }

  ghost predicate Covers<E, K>(keys: seq<K>, xs: seq<E>, keyOf: E -> K) {
    forall i :: 0 <= i < |xs| ==> keyOf(xs[i]) in keys
  }

  lemma GroupStep<E, K>(xs: seq<E>, i: nat, keyOf: E -> K, key: K)
    requires i < |xs|
    ensures GroupOf(xs[..i + 1], keyOf, key) ==
            GroupOf(xs[..i], keyOf, key) + if keyOf(xs[i]) == key then [xs[i]] else []
  {
    assert xs[..i + 1][..i] == xs[..i];
  }

  lemma {:induction false} EmptyGroup<E, K>(xs: seq<E>, keyOf: E -> K, key: K)
    requires forall i :: 0 <= i < |xs| ==> keyOf(xs[i]) != key
    ensures GroupOf(xs, keyOf, key) == []
  {
    if xs != [] {
      EmptyGroup(xs[..|xs| - 1], keyOf, key);
    }
  }

  lemma {:induction false} OccursIffListed<K>(keys: seq<K>, key: K)
    ensures Occurs(keys, key) > 0 <==> key in keys
    ensures Distinct(keys) ==> Occurs(keys, key) <= 1
  {
    if keys != [] {
      OccursIffListed(keys[1..], key);
      assert keys == [keys[0]] + keys[1..];
      assert Distinct(keys) ==> Distinct(keys[1..]) && keys[0] !in keys[1..];
    }
  }

  ghost predicate InUse<E, K>(xs: seq<E>, keyOf: E -> K, key: K) {
    exists i :: 0 <= i < |xs| && keyOf(xs[i]) == key
  }

  lemma {:induction false} KeysInOrderAre<E, K>(xs: seq<E>, keyOf: E -> K)
    ensures Distinct(KeysInOrder(xs, keyOf))
    ensures Covers(KeysInOrder(xs, keyOf), xs, keyOf)
    ensures forall key :: key in KeysInOrder(xs, keyOf) ==> InUse(xs, keyOf, key)
  {
    if xs != [] {
      var init, key := xs[..|xs| - 1], keyOf(xs[|xs| - 1]);
      KeysInOrderAre(init, keyOf);
      if key !in KeysInOrder(init, keyOf) {
        DistinctSnoc(KeysInOrder(init, keyOf), key);
      }
      CoversSnoc(xs, keyOf, KeysInOrder(xs, keyOf));
      forall k | k in KeysInOrder(xs, keyOf)
        ensures InUse(xs, keyOf, k)
      {
        InUseSnoc(xs, keyOf, k);
      }
    }
  }

  lemma InUseSnoc<E, K>(xs: seq<E>, keyOf: E -> K, key: K)
    requires xs != []
    ensures InUse(xs, keyOf, key) <==> InUse(xs[..|xs| - 1], keyOf, key) || keyOf(xs[|xs| - 1]) == key
  {
    var n := |xs| - 1;
    if InUse(xs[..n], keyOf, key) {
      var i :| 0 <= i < n && keyOf(xs[..n][i]) == key;
      assert keyOf(xs[i]) == key;
    }
    if InUse(xs, keyOf, key) && keyOf(xs[n]) != key {
      var i :| 0 <= i < |xs| && keyOf(xs[i]) == key;
      assert xs[..n][i] == xs[i];
    }
  }

  // ---------------------------------------------------------------------------
  // Totals
  // ---------------------------------------------------------------------------

  /** A figure of a list that adds up element by element. */
  ghost predicate Additive<E(!new)>(w: seq<E> -> real) {
    w([]) == 0.0 && forall xs: seq<E>, x: E :: w(xs + [x]) == w(xs) + w([x])
  }

  /** The figure of the groups of all listed keys, added up. */
  function KeyTotals<E, K(==)>(xs: seq<E>, keyOf: E -> K, keys: seq<K>, w: seq<E> -> real): real {
    if keys == [] then 0.0 else w(GroupOf(xs, keyOf, keys[0])) + KeyTotals(xs, keyOf, keys[1..], w)
  }

  function KeyCounts<E, K(==)>(xs: seq<E>, keyOf: E -> K, keys: seq<K>): nat {
    if keys == [] then 0 else |GroupOf(xs, keyOf, keys[0])| + KeyCounts(xs, keyOf, keys[1..])
  }

  /** The elements whose key is listed at all. */
  function Kept<E, K(==)>(xs: seq<E>, keyOf: E -> K, keys: seq<K>): seq<E> {
    if xs == [] then []
    else
      var init, last := xs[..|xs| - 1], xs[|xs| - 1];
      Kept(init, keyOf, keys) + if keyOf(last) in keys then [last] else []
  }

  lemma GroupSnoc<E, K>(xs: seq<E>, x: E, keyOf: E -> K, key: K)
    ensures GroupOf(xs + [x], keyOf, key) == GroupOf(xs, keyOf, key) + if keyOf(x) == key then [x] else []
  {
    assert (xs + [x])[..|xs|] == xs;
  }

  lemma {:induction false} TotalsOfNothing<E(!new), K>(keyOf: E -> K, keys: seq<K>, w: seq<E> -> real)
    requires Additive(w)
    ensures KeyTotals([], keyOf, keys, w) == 0.0
  {
    if keys != [] {
      TotalsOfNothing(keyOf, keys[1..], w);
    }
  }

  /** One more element adds its figure to the group of its key, if that is listed. */
  lemma {:induction false} OneMore<E(!new), K>(xs: seq<E>, x: E, keyOf: E -> K, keys: seq<K>, w: seq<E> -> real)
    requires Additive(w) && Distinct(keys)
    ensures KeyTotals(xs + [x], keyOf, keys, w) ==
            KeyTotals(xs, keyOf, keys, w) + if keyOf(x) in keys then w([x]) else 0.0
  {
    if keys != [] {
      var group := GroupOf(xs, keyOf, keys[0]);
      OneMore(xs, x, keyOf, keys[1..], w);
      GroupSnoc(xs, x, keyOf, keys[0]);
      assert w(group + [x]) == w(group) + w([x]);
      assert group + [] == group;
      assert keys == [keys[0]] + keys[1..];
      assert keys[0] !in keys[1..];
    }
  }

  /** The law behind every dimension: distinct keys account for exactly the elements they list. */
  lemma {:induction false} GroupsAddUp<E(!new), K>(xs: seq<E>, keyOf: E -> K, keys: seq<K>, w: seq<E> -> real)
    requires Additive(w) && Distinct(keys)
    ensures KeyTotals(xs, keyOf, keys, w) == w(Kept(xs, keyOf, keys))
  {
    if xs == [] {
      TotalsOfNothing(keyOf, keys, w);
    } else {
      var init, last := xs[..|xs| - 1], xs[|xs| - 1];
      GroupsAddUp(init, keyOf, keys, w);
      OneMore(init, last, keyOf, keys, w);
      assert xs == init + [last];
      var kept := Kept(init, keyOf, keys);
      assert w(kept + [last]) == w(kept) + w([last]);
      assert kept + [] == kept;
    }
  }

  lemma {:induction false} KeptAll<E, K>(xs: seq<E>, keyOf: E -> K, keys: seq<K>)
    ensures |Kept(xs, keyOf, keys)| <= |xs|
    ensures |Kept(xs, keyOf, keys)| == |xs| <==> Covers(keys, xs, keyOf)
    ensures Covers(keys, xs, keyOf) ==> Kept(xs, keyOf, keys) == xs
  {
    if xs != [] {
      KeptAll(xs[..|xs| - 1], keyOf, keys);
      CoversSnoc(xs, keyOf, keys);
    }
  }

  lemma CoversSnoc<E, K>(xs: seq<E>, keyOf: E -> K, keys: seq<K>)
    requires xs != []
    ensures Covers(keys, xs, keyOf) <==> Covers(keys, xs[..|xs| - 1], keyOf) && keyOf(xs[|xs| - 1]) in keys
  {
  }

  // ---------------------------------------------------------------------------
  // Counts, also when a key is listed twice
  // ---------------------------------------------------------------------------

  /** Every element as often as its key is listed. */
  function Listings<E, K(==)>(xs: seq<E>, keyOf: E -> K, keys: seq<K>): nat {
    if xs == [] then 0
    else Listings(xs[..|xs| - 1], keyOf, keys) + Occurs(keys, keyOf(xs[|xs| - 1]))
  }

  lemma {:induction false} CountsOfNothing<E, K>(keyOf: E -> K, keys: seq<K>)
    ensures KeyCounts<E, K>([], keyOf, keys) == 0
  {
    if keys != [] {
      CountsOfNothing<E, K>(keyOf, keys[1..]);
    }
  }

  lemma {:induction false} CountOneMore<E, K>(xs: seq<E>, x: E, keyOf: E -> K, keys: seq<K>)
    ensures KeyCounts(xs + [x], keyOf, keys) == KeyCounts(xs, keyOf, keys) + Occurs(keys, keyOf(x))
  {
    if keys != [] {
      CountOneMore(xs, x, keyOf, keys[1..]);
      GroupSnoc(xs, x, keyOf, keys[0]);
    }
  }

  lemma {:induction false} CountsAreListings<E, K>(xs: seq<E>, keyOf: E -> K, keys: seq<K>)
    ensures KeyCounts(xs, keyOf, keys) == Listings(xs, keyOf, keys)
  {
    if xs == [] {
      CountsOfNothing<E, K>(keyOf, keys);
    } else {
      var init, last := xs[..|xs| - 1], xs[|xs| - 1];
      CountsAreListings(init, keyOf, keys);
      CountOneMore(init, last, keyOf, keys);
      assert xs == init + [last];
    }
  }

  ghost predicate OnceEach<E, K>(xs: seq<E>, keyOf: E -> K, keys: seq<K>) {
    forall i :: 0 <= i < |xs| ==> Occurs(keys, keyOf(xs[i])) == 1
  }

  /** Keys that cover every element count them all, and none twice exactly when each key in use is listed once. */
  lemma {:induction false} CoveringCounts<E, K>(xs: seq<E>, keyOf: E -> K, keys: seq<K>)
    requires Covers(keys, xs, keyOf)
    ensures KeyCounts(xs, keyOf, keys) >= |xs|
    ensures KeyCounts(xs, keyOf, keys) == |xs| <==> OnceEach(xs, keyOf, keys)
  {
    CountsAreListings(xs, keyOf, keys);
    if xs != [] {
      var init, last := xs[..|xs| - 1], xs[|xs| - 1];
      CoversSnoc(xs, keyOf, keys);
      CoveringCounts(init, keyOf, keys);
      CountsAreListings(init, keyOf, keys);
      OccursIffListed(keys, keyOf(last));
      OnceEachSnoc(xs, keyOf, keys);
    }
  }

  lemma OnceEachSnoc<E, K>(xs: seq<E>, keyOf: E -> K, keys: seq<K>)
    requires xs != []
    ensures OnceEach(xs, keyOf, keys) <==>
            OnceEach(xs[..|xs| - 1], keyOf, keys) && Occurs(keys, keyOf(xs[|xs| - 1])) == 1
  {
  }

  // ---------------------------------------------------------------------------
  // Sorting keys
  // ---------------------------------------------------------------------------

  function InsertBy<K>(x: K, s: seq<K>, le: (K, K) -> bool): seq<K> {
    if s == [] || le(x, s[0]) then [x] + s else [s[0]] + InsertBy(x, s[1..], le)
  }

  /** A sort by a comparison. */
  function SortBy<K>(s: seq<K>, le: (K, K) -> bool): seq<K> {
    if s == [] then [] else InsertBy(s[0], SortBy(s[1..], le), le)
  }

  lemma {:induction false} InsertKeeps<K>(x: K, s: seq<K>, le: (K, K) -> bool)
    ensures multiset(InsertBy(x, s, le)) == multiset(s) + multiset{x}
  {
    if s != [] && !le(x, s[0]) {
      InsertKeeps(x, s[1..], le);
      assert s == [s[0]] + s[1..];
    }
  }

  lemma {:induction false} SortKeeps<K>(s: seq<K>, le: (K, K) -> bool)
    ensures multiset(SortBy(s, le)) == multiset(s)
  {
    if s != [] {
      SortKeeps(s[1..], le);
      InsertKeeps(s[0], SortBy(s[1..], le), le);
      assert s == [s[0]] + s[1..];
    }
  }

  lemma {:induction false} OccursIsMultiplicity<K>(s: seq<K>, key: K)
    ensures Occurs(s, key) == multiset(s)[key]
  {
    if s != [] {
      OccursIsMultiplicity(s[1..], key);
      assert s == [s[0]] + s[1..];
    }
  }

  /** Sorting changes neither which keys are listed nor how often. */
  lemma SortOccurs<K>(s: seq<K>, le: (K, K) -> bool, key: K)
    ensures Occurs(SortBy(s, le), key) == Occurs(s, key)
    ensures key in SortBy(s, le) <==> key in s
  {
    SortKeeps(s, le);
    OccursIsMultiplicity(s, key);
    OccursIsMultiplicity(SortBy(s, le), key);
    OccursIffListed(s, key);
    OccursIffListed(SortBy(s, le), key);
  }

  ghost predicate NoRepeat<K(!new)>(keys: seq<K>) {
    forall key :: Occurs(keys, key) <= 1
  }

  lemma {:induction false} DistinctIffNoRepeat<K(!new)>(keys: seq<K>)
    ensures Distinct(keys) <==> NoRepeat(keys)
  {
    forall key
      ensures Distinct(keys) ==> Occurs(keys, key) <= 1
    {
      OccursIffListed(keys, key);
    }
    if !Distinct(keys) {
      var i, j :| 0 <= i < j < |keys| && keys[i] == keys[j];
      OccursIsMultiplicity(keys, keys[i]);
      assert keys == keys[..j] + keys[j..];
      assert keys[i] == keys[..j][i] && keys[j] == keys[j..][0];
    }
  }

  /** Sorting distinct keys leaves the same keys, distinct. */
  lemma SortedKeys<K(!new)>(keys: seq<K>, le: (K, K) -> bool)
    requires Distinct(keys)
    ensures Distinct(SortBy(keys, le))
    ensures forall key :: key in SortBy(keys, le) <==> key in keys
  {
    DistinctIffNoRepeat(keys);
    forall key
      ensures Occurs(SortBy(keys, le), key) <= 1
    {
      SortOccurs(keys, le, key);
    }
    DistinctIffNoRepeat(SortBy(keys, le));
    forall key
      ensures key in SortBy(keys, le) <==> key in keys
    {
      SortOccurs(keys, le, key);
    }
  }

  // ---------------------------------------------------------------------------
  // Sorting records by a key
  // ---------------------------------------------------------------------------

  function Map<K, V>(f: K -> V, keys: seq<K>): (values: seq<V>)
    ensures |values| == |keys|
    ensures forall i :: 0 <= i < |keys| ==> values[i] == f(keys[i])
  {
    if keys == [] then [] else [f(keys[0])] + Map(f, keys[1..])
  }

  lemma {:induction false} InsertMapped<K(!new), V>(
      f: K -> V, x: K, keys: seq<K>, byKey: (K, K) -> bool, byValue: (V, V) -> bool)
    requires forall a, b :: byValue(f(a), f(b)) == byKey(a, b)
    ensures InsertBy(f(x), Map(f, keys), byValue) == Map(f, InsertBy(x, keys, byKey))
  {
    if keys == [] || byKey(x, keys[0]) {
      assert ([x] + keys)[1..] == keys;
    } else {
      InsertMapped(f, x, keys[1..], byKey, byValue);
      assert InsertBy(x, keys, byKey)[1..] == InsertBy(x, keys[1..], byKey);
    }
  }

  /** Sorting records by their key is sorting the keys. */
  lemma {:induction false} SortMapped<K(!new), V>(
      f: K -> V, keys: seq<K>, byKey: (K, K) -> bool, byValue: (V, V) -> bool)
    requires forall a, b :: byValue(f(a), f(b)) == byKey(a, b)
    ensures SortBy(Map(f, keys), byValue) == Map(f, SortBy(keys, byKey))
  {
    if keys != [] {
      SortMapped(f, keys[1..], byKey, byValue);
      InsertMapped(f, keys[0], SortBy(keys[1..], byKey), byKey, byValue);
    }
  }

  lemma {:induction false} MapSnoc<K, V>(f: K -> V, keys: seq<K>, key: K)
    ensures Map(f, keys + [key]) == Map(f, keys) + [f(key)]
  {
    if keys != [] {
      MapSnoc(f, keys[1..], key);
      assert (keys + [key])[1..] == keys[1..] + [key];
    }
  }

  // ---------------------------------------------------------------------------
  // Order by a number
  // ---------------------------------------------------------------------------

  function ByRank<K>(rank: K -> int): (K, K) -> bool {
    (a: K, b: K) => rank(a) <= rank(b)
  }

  /** Sorted by rank, neighbour by neighbour. */
  ghost predicate Ranked<K>(s: seq<K>, rank: K -> int) {
    |s| > 1 ==> rank(s[0]) <= rank(s[1]) && Ranked(s[1..], rank)
  }

  lemma {:induction false} InsertRanks<K>(x: K, s: seq<K>, rank: K -> int)
    requires Ranked(s, rank)
    ensures var r := InsertBy(x, s, ByRank(rank));
            Ranked(r, rank) && r != [] && (r[0] == x || (s != [] && r[0] == s[0] && rank(s[0]) <= rank(x)))
  {
    if s == [] || rank(x) <= rank(s[0]) {
      assert InsertBy(x, s, ByRank(rank))[1..] == s;
    } else {
      InsertRanks(x, s[1..], rank);
      assert InsertBy(x, s, ByRank(rank))[1..] == InsertBy(x, s[1..], ByRank(rank));
    }
  }

  lemma {:induction false} SortRanks<K>(s: seq<K>, rank: K -> int)
    ensures Ranked(SortBy(s, ByRank(rank)), rank)
  {
    if s != [] {
      SortRanks(s[1..], rank);
      InsertRanks(s[0], SortBy(s[1..], ByRank(rank)), rank);
    }
  }

  lemma {:induction false} RankedPairs<K>(s: seq<K>, rank: K -> int, i: nat, j: nat)
    requires Ranked(s, rank) && i <= j < |s|
    ensures rank(s[i]) <= rank(s[j])
  {
    if i > 0 {
      RankedPairs(s[1..], rank, i - 1, j - 1);
    } else if j > 0 {
      RankedPairs(s[1..], rank, 0, j - 1);
    }
  }
}
