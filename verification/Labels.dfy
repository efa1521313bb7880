/**
 The dimensions a trader labels himself (src/lib/analytics/dimensions.ts). Trades without a label go
 into a bucket of their own, under a reserved key; the bars add up to the book exactly as long as
 nobody uses the reserved key as a label.
 */
module Labels {
  import opened Prelude
  import opened AnalyticsTypes
  import opened Dimensions
  import opened Grouping
  import opened Metrics

  function SomeBare(trades: seq<Trade>, bare: Trade -> bool): bool {
    exists t :: t in trades && bare(t)
  }

  /** The names in use, and the reserved key when some trade has none. */
  function WithReserved<K(==)>(names: seq<K>, trades: seq<Trade>, bare: Trade -> bool, reserved: K): seq<K> {
    if SomeBare(trades, bare) then names + [reserved] else names
  }

  /** Bare trades have the reserved key, the others one of the names. */
  ghost predicate Labelled<K>(names: seq<K>, trades: seq<Trade>, keyOf: Trade -> K, bare: Trade -> bool, reserved: K) {
    && Distinct(names)
    && forall t :: t in trades ==> if bare(t) then keyOf(t) == reserved else keyOf(t) in names
  }

  lemma LabelledCovers<K>(names: seq<K>, trades: seq<Trade>, keyOf: Trade -> K, bare: Trade -> bool, reserved: K)
    requires Labelled(names, trades, keyOf, bare, reserved)
    ensures Covers(WithReserved(names, trades, bare, reserved), trades, keyOf)
  {
    forall i | 0 <= i < |trades|
      ensures keyOf(trades[i]) in WithReserved(names, trades, bare, reserved)
    {
      assert trades[i] in trades;
    }
  }

  /** The reserved key collides exactly when it is also a name and some trade is bare. */
  lemma ReservedKeyExactly<K>(names: seq<K>, trades: seq<Trade>, keyOf: Trade -> K, bare: Trade -> bool, reserved: K)
    requires Labelled(names, trades, keyOf, bare, reserved)
    ensures SumTo(Buckets(trades, WithReserved(names, trades, bare, reserved), keyOf), BookMetrics(trades)) <==>
            !(SomeBare(trades, bare) && reserved in names)
  {
    var keys := WithReserved(names, trades, bare, reserved);
    LabelledCovers(names, trades, keyOf, bare, reserved);
    if SomeBare(trades, bare) && reserved in names {
      var t :| t in trades && bare(t);
      var i :| 0 <= i < |trades| && trades[i] == t;
      OccursTwice(names, reserved);
      assert !OnceEach(trades, keyOf, keys);
      CoveringCounts(trades, keyOf, keys);
      CountIsKeyCounts(trades, keys, keyOf);
      CountOf(trades);
      assert Total(Count, Buckets(trades, keys, keyOf)) != Read(Count, BookMetrics(trades));
    } else {
      assert Distinct(keys);
      PartitionExactly(trades, keys, keyOf);
    }
  }

  lemma OccursTwice<K>(names: seq<K>, reserved: K)
    requires reserved in names
    ensures Occurs(names + [reserved], reserved) >= 2
  {
    OccursIffListed(names, reserved);
    OccursIsMultiplicity(names, reserved);
    OccursIsMultiplicity(names + [reserved], reserved);
  }

  // ---------------------------------------------------------------------------
  // By strategy
  // ---------------------------------------------------------------------------

  const UNLABELLED := "__unlabelled__"

  /** No label, or an empty one. */
  predicate Unlabelled(t: Trade) {
    t.strategy.GetOr("") == ""
  }

  function StrategyKey(t: Trade): string {
    if Unlabelled(t) then UNLABELLED else t.strategy.value
  }

  function Without(trades: seq<Trade>, bare: Trade -> bool): seq<Trade> {
    if trades == [] then []
    else
      var last := trades[|trades| - 1];
      Without(trades[..|trades| - 1], bare) + if bare(last) then [] else [last]
  }

  lemma {:induction false} WithoutMembers(trades: seq<Trade>, bare: Trade -> bool)
    ensures forall t :: t in Without(trades, bare) <==> t in trades && !bare(t)
  {
    if trades != [] {
      WithoutMembers(trades[..|trades| - 1], bare);
      assert trades == trades[..|trades| - 1] + [trades[|trades| - 1]];
    }
  }

  /** The sorted strategies in use. */
  function Strategies(trades: seq<Trade>, order: (string, string) -> bool): seq<string> {
    SortBy(KeysInOrder(Without(trades, Unlabelled), StrategyKey), order)
  }

  lemma StrategiesAre(trades: seq<Trade>, order: (string, string) -> bool)
    ensures Labelled(Strategies(trades, order), trades, StrategyKey, Unlabelled, UNLABELLED)
    ensures forall s :: s in Strategies(trades, order) <==> exists t :: t in trades && t.strategy == Some(s) && s != ""
  {
    var named := Without(trades, Unlabelled);
    WithoutMembers(trades, Unlabelled);
    KeysInOrderAre(named, StrategyKey);
    SortedKeys(KeysInOrder(named, StrategyKey), order);
    forall t | t in trades && !Unlabelled(t)
      ensures StrategyKey(t) in Strategies(trades, order)
    {
      var i :| 0 <= i < |named| && named[i] == t;
    }
    forall s | s in Strategies(trades, order)
      ensures exists t :: t in trades && t.strategy == Some(s) && s != ""
    {
      var i :| 0 <= i < |named| && StrategyKey(named[i]) == s;
      assert named[i] in trades;
    }
  }

  method ByStrategy(trades: seq<Trade>, order: (string, string) -> bool) returns (b: seq<Bucket<string>>)
    ensures b == Buckets(trades, WithReserved(Strategies(trades, order), trades, Unlabelled, UNLABELLED), StrategyKey)
    ensures SumTo(b, BookMetrics(trades)) <==>
            !(SomeBare(trades, Unlabelled) && exists t :: t in trades && t.strategy == Some(UNLABELLED))
  {
    var names := Strategies(trades, order);
    b := BucketBy(trades, WithReserved(names, trades, Unlabelled, UNLABELLED), StrategyKey);
    StrategiesAre(trades, order);
    ReservedKeyExactly(names, trades, StrategyKey, Unlabelled, UNLABELLED);
  }

  /** Two trades, one of them labelled with the reserved key: the chart shows more trades than the book has. */
  lemma ReservedStrategyCountsTwice(t: Trade, order: (string, string) -> bool)
    ensures var trades := [t.(strategy := None), t.(strategy := Some("__unlabelled__"))];
            var keys := WithReserved(Strategies(trades, order), trades, Unlabelled, UNLABELLED);
            !SumTo(Buckets(trades, keys, StrategyKey), BookMetrics(trades))
  {
    var bare, taken := t.(strategy := None), t.(strategy := Some(UNLABELLED));
    var trades := [bare, taken];
    assert bare in trades && Unlabelled(bare);
    assert taken in trades && taken.strategy == Some(UNLABELLED);
    StrategiesAre(trades, order);
    ReservedKeyExactly(Strategies(trades, order), trades, StrategyKey, Unlabelled, UNLABELLED);
  }

  // ---------------------------------------------------------------------------
  // By rating
  // ---------------------------------------------------------------------------

  /** A rating's key is its digit, which no reserved word spells. */
  datatype RatingKey = Score(score: int) | Unrated

  function RatingOf(t: Trade): RatingKey {
    if t.rating.None? then Unrated else Score(t.rating.value)
  }

  predicate IsUnrated(t: Trade) {
    t.rating.None?
  }

  predicate Scored(trades: seq<Trade>, score: int) {
    exists t :: t in trades && t.rating == Some(score)
  }

  /** The scores 1 to 5 that are in use, from `score` on. */
  function ScoresFrom(trades: seq<Trade>, score: nat): (keys: seq<RatingKey>)
    requires 1 <= score <= 6
    ensures Distinct(keys)
    ensures forall key :: key in keys <==> key.Score? && score <= key.score <= 5 && Scored(trades, key.score)
    decreases 6 - score
  {
    if score == 6 then []
    else (if Scored(trades, score) then [Score(score)] else []) + ScoresFrom(trades, score + 1)
  }

  ghost predicate InRange(t: Trade) {
    t.rating.Some? ==> 1 <= t.rating.value <= 5
  }

  ghost predicate AllInRange(trades: seq<Trade>) {
    forall i :: 0 <= i < |trades| ==> InRange(trades[i])
  }

  method ByRating(trades: seq<Trade>) returns (b: seq<Bucket<RatingKey>>)
    ensures b == Buckets(trades, WithReserved(ScoresFrom(trades, 1), trades, IsUnrated, Unrated), RatingOf)
    ensures SumTo(b, BookMetrics(trades)) <==> AllInRange(trades)
  {
    var keys := WithReserved(ScoresFrom(trades, 1), trades, IsUnrated, Unrated);
    b := BucketBy(trades, keys, RatingOf);
    RatingPartition(trades);
  }

  lemma RatingPartition(trades: seq<Trade>)
    ensures var keys := WithReserved(ScoresFrom(trades, 1), trades, IsUnrated, Unrated);
            SumTo(Buckets(trades, keys, RatingOf), BookMetrics(trades)) <==> AllInRange(trades)
  {
    RatingsCover(trades);
    PartitionExactly(trades, WithReserved(ScoresFrom(trades, 1), trades, IsUnrated, Unrated), RatingOf);
  }

  lemma RatingsCover(trades: seq<Trade>)
    ensures var keys := WithReserved(ScoresFrom(trades, 1), trades, IsUnrated, Unrated);
            Distinct(keys) && (Covers(keys, trades, RatingOf) <==> AllInRange(trades))
  {
    var keys := WithReserved(ScoresFrom(trades, 1), trades, IsUnrated, Unrated);
    RatingKeysDistinct(trades);
    forall i | 0 <= i < |trades|
      ensures RatingOf(trades[i]) in keys <==> InRange(trades[i])
    {
      RatingListed(trades, trades[i]);
    }
  }

  lemma RatingKeysDistinct(trades: seq<Trade>)
    ensures Distinct(WithReserved(ScoresFrom(trades, 1), trades, IsUnrated, Unrated))
  {
    assert Unrated !in ScoresFrom(trades, 1);
  }

  lemma RatingListed(trades: seq<Trade>, t: Trade)
    requires t in trades
    ensures RatingOf(t) in WithReserved(ScoresFrom(trades, 1), trades, IsUnrated, Unrated) <==> InRange(t)
  {
    if t.rating.Some? {
      assert Scored(trades, t.rating.value);
      assert RatingOf(t) in ScoresFrom(trades, 1) <==> InRange(t);
    } else {
      assert SomeBare(trades, IsUnrated);
    }
  }

  // ---------------------------------------------------------------------------
  // By mood
  // ---------------------------------------------------------------------------

  const NO_MOOD := "__nomood__"

  function MoodOf(t: Trade, trim: string -> string): string {
    if t.mood.Some? then trim(t.mood.value) else ""
  }

  function Moodless(trim: string -> string): Trade -> bool {
    (t: Trade) => MoodOf(t, trim) == ""
  }

  /** Moods compared without regard to case. */
  function FoldedMood(trim: string -> string, lower: string -> string): Trade -> string {
    (t: Trade) => lower(MoodOf(t, trim))
  }

  /** The first spelling seen of each mood. */
  function Spellings(trades: seq<Trade>, trim: string -> string, lower: string -> string): map<string, string> {
    if trades == [] then map[]
    else
      var before := Spellings(trades[..|trades| - 1], trim, lower);
      var mood := MoodOf(trades[|trades| - 1], trim);
      if mood == "" || lower(mood) in before then before else before[lower(mood) := mood]
  }

  /** Each spelling is one of its own key. */
  ghost predicate FoldsBack(labels: map<string, string>, lower: string -> string) {
    forall key :: key in labels ==> lower(labels[key]) == key
  }

  lemma {:induction false} SpellingsAre(trades: seq<Trade>, trim: string -> string, lower: string -> string)
    ensures var labels := Spellings(trades, trim, lower);
            && (forall key :: key in labels <==>
                 key in KeysInOrder(Without(trades, Moodless(trim)), FoldedMood(trim, lower)))
            && FoldsBack(labels, lower)
            && (forall t :: t in trades && MoodOf(t, trim) != "" ==> lower(MoodOf(t, trim)) in labels)
  {
    if trades != [] {
      var init, last := trades[..|trades| - 1], trades[|trades| - 1];
      SpellingsAre(init, trim, lower);
      var named := Without(init, Moodless(trim));
      assert (named + [last])[..|named|] == named;
      assert named + [] == named;
      assert forall t :: t in trades ==> t in init || t == last;
    }
  }

  /** A mood's bucket is the first spelling of it. */
  function MoodKey(labels: map<string, string>, trim: string -> string, lower: string -> string): Trade -> string {
    (t: Trade) =>
      var mood := MoodOf(t, trim);
      if mood == "" then NO_MOOD else if lower(mood) in labels then labels[lower(mood)] else NO_MOOD
  }

  /** The labels in the order they were first written. */
  function SpelledInOrder(order: seq<string>, labels: map<string, string>): seq<string> {
    if order == [] then []
    else
      var last := order[|order| - 1];
      SpelledInOrder(order[..|order| - 1], labels) + if last in labels then [labels[last]] else []
  }

  lemma {:induction false} SpelledAre(order: seq<string>, labels: map<string, string>, lower: string -> string)
    requires Distinct(order) && (forall key :: key in order ==> key in labels)
    requires FoldsBack(labels, lower)
    ensures Distinct(SpelledInOrder(order, labels))
    ensures forall key :: key in order ==> labels[key] in SpelledInOrder(order, labels)
    ensures forall name :: name in SpelledInOrder(order, labels) ==> exists key :: key in order && labels[key] == name
  {
    if order != [] {
      var init, last := order[..|order| - 1], order[|order| - 1];
      SpelledAre(init, labels, lower);
      assert order == init + [last];
      assert lower(labels[last]) == last;
      forall name | name in SpelledInOrder(init, labels)
        ensures name != labels[last]
      {
        var key :| key in init && labels[key] == name;
        assert lower(labels[key]) == key;
      }
      DistinctSnoc(SpelledInOrder(init, labels), labels[last]);
    }
  }

  function Moods(
      trades: seq<Trade>, trim: string -> string, lower: string -> string, order: (string, string) -> bool)
    : seq<string>
  {
    var written := KeysInOrder(Without(trades, Moodless(trim)), FoldedMood(trim, lower));
    SortBy(SpelledInOrder(written, Spellings(trades, trim, lower)), order)
  }

  /** Trade `i` is the first to write the mood that folds to `key`. */
  ghost predicate FirstToWrite(
      trades: seq<Trade>, trim: string -> string, lower: string -> string, key: string, i: nat)
  {
    && i < |trades| && MoodOf(trades[i], trim) != "" && lower(MoodOf(trades[i], trim)) == key
    && forall j :: 0 <= j < i && MoodOf(trades[j], trim) != "" ==> lower(MoodOf(trades[j], trim)) != key
  }

  /** Some trade's mood is the reserved key itself, and no earlier trade has a mood that folds to the same. */
  ghost predicate ReservedMood(trades: seq<Trade>, trim: string -> string, lower: string -> string) {
    exists i :: 0 <= i < |trades| && MoodOf(trades[i], trim) == "__nomood__"
                && FirstToWrite(trades, trim, lower, lower(NO_MOOD), i)
  }

  /** A mood's spelling is that of the first trade to write it. */
  lemma {:induction false} SpellingIsFirst(
      trades: seq<Trade>, trim: string -> string, lower: string -> string, key: string)
    returns (i: nat)
    requires key in Spellings(trades, trim, lower)
    ensures FirstToWrite(trades, trim, lower, key, i) && Spellings(trades, trim, lower)[key] == MoodOf(trades[i], trim)
  {
    var init := trades[..|trades| - 1];
    if key in Spellings(init, trim, lower) {
      i := SpellingIsFirst(init, trim, lower, key);
    } else {
      i := |trades| - 1;
      SpellingsAre(init, trim, lower);
      assert forall j :: 0 <= j < i ==> trades[j] in init;
    }
  }

  lemma ReservedIsSpelled(trades: seq<Trade>, trim: string -> string, lower: string -> string)
    ensures var labels := Spellings(trades, trim, lower);
            ReservedMood(trades, trim, lower) <==> exists key :: key in labels && labels[key] == NO_MOOD
  {
    var labels := Spellings(trades, trim, lower);
    SpellingsAre(trades, trim, lower);
    if key :| key in labels && labels[key] == NO_MOOD {
      var i := SpellingIsFirst(trades, trim, lower, key);
      assert ReservedMood(trades, trim, lower);
    }
    if ReservedMood(trades, trim, lower) {
      var i :| 0 <= i < |trades| && MoodOf(trades[i], trim) == NO_MOOD
               && FirstToWrite(trades, trim, lower, lower(NO_MOOD), i);
      assert trades[i] in trades;
      var k := SpellingIsFirst(trades, trim, lower, lower(NO_MOOD));
      assert i == k;
    }
  }

  lemma MoodsAre(trades: seq<Trade>, trim: string -> string, lower: string -> string, order: (string, string) -> bool)
    ensures var moods, labels := Moods(trades, trim, lower, order), Spellings(trades, trim, lower);
            && Labelled(moods, trades, MoodKey(labels, trim, lower), Moodless(trim), NO_MOOD)
            && (NO_MOOD in moods <==> ReservedMood(trades, trim, lower))
  {
    var labels := Spellings(trades, trim, lower);
    var keys := KeysInOrder(Without(trades, Moodless(trim)), FoldedMood(trim, lower));
    KeysInOrderAre(Without(trades, Moodless(trim)), FoldedMood(trim, lower));
    SpellingsAre(trades, trim, lower);
    SpelledAre(keys, labels, lower);
    SortedKeys(SpelledInOrder(keys, labels), order);
    ReservedIsSpelled(trades, trim, lower);
  }

  method ByMood(trades: seq<Trade>, trim: string -> string, lower: string -> string, order: (string, string) -> bool)
    returns (b: seq<Bucket<string>>)
    ensures var labels := Spellings(trades, trim, lower);
            b == Buckets(trades, WithReserved(Moods(trades, trim, lower, order), trades, Moodless(trim), NO_MOOD),
                         MoodKey(labels, trim, lower))
    ensures SumTo(b, BookMetrics(trades)) <==> !(SomeBare(trades, Moodless(trim)) && ReservedMood(trades, trim, lower))
  {
    var labels: map<string, string>, written: seq<string> := map[], [];
    for i := 0 to |trades|
      invariant labels == Spellings(trades[..i], trim, lower)
      invariant written == KeysInOrder(Without(trades[..i], Moodless(trim)), FoldedMood(trim, lower))
    {
      assert trades[..i + 1][..i] == trades[..i];
      SpellingsAre(trades[..i], trim, lower);
      ghost var named := Without(trades[..i], Moodless(trim));
      assert (named + [trades[i]])[..|named|] == named && named + [] == named;
      var mood := MoodOf(trades[i], trim);
      if mood == "" {
        continue;
      }
      var key := lower(mood);
      if key !in labels {
        labels, written := labels[key := mood], written + [key];
      }
    }
    assert trades[..|trades|] == trades;
    var names := SortBy(SpelledInOrder(written, labels), order);
    b := BucketBy(trades, WithReserved(names, trades, Moodless(trim), NO_MOOD), MoodKey(labels, trim, lower));
    MoodsAre(trades, trim, lower, order);
    ReservedKeyExactly(names, trades, MoodKey(labels, trim, lower), Moodless(trim), NO_MOOD);
  }

  /** Two trades with a mood share a bucket exactly when their moods agree up to case. */
  lemma MoodsFoldCase(trades: seq<Trade>, t: Trade, u: Trade, trim: string -> string, lower: string -> string)
    requires t in trades && u in trades && MoodOf(t, trim) != "" && MoodOf(u, trim) != ""
    ensures var key := MoodKey(Spellings(trades, trim, lower), trim, lower);
            key(t) == key(u) <==> lower(MoodOf(t, trim)) == lower(MoodOf(u, trim))
  {
    SpellingsAre(trades, trim, lower);
  }
}
