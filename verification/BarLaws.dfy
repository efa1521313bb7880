/** Which trades a bar stands for (src/lib/analytics/dimensions.ts). */
module BarLaws {
  // Told from the trades' own columns and the clock's reading of them.

  import opened Prelude
  import opened AnalyticsTypes
  import opened Grouping
  import opened Metrics
  import opened Dimensions
  import DayLoadFacts
  import Labels

  /** The trades with a property, in order. */
  function Where(trades: seq<Trade>, p: Trade -> bool): seq<Trade> {
    if trades == [] then [] else (if p(trades[0]) then [trades[0]] else []) + Where(trades[1..], p)
  }

  lemma {:induction false} WhereSnoc(trades: seq<Trade>, t: Trade, p: Trade -> bool)
    ensures Where(trades + [t], p) == Where(trades, p) + if p(t) then [t] else []
  {
    if trades == [] {
      assert [] + [t] == [t];
      assert Where([t], p) == if p(t) then [t] else [];
    } else {
      assert (trades + [t])[1..] == trades[1..] + [t];
      WhereSnoc(trades[1..], t, p);
    }
  }

  /** A group is the trades with a property that goes with its key. */
  lemma {:induction false} GroupIsWhere<K>(trades: seq<Trade>, keyOf: Trade -> K, key: K, p: Trade -> bool)
    requires forall t :: t in trades ==> (p(t) <==> keyOf(t) == key)
    ensures GroupOf(trades, keyOf, key) == Where(trades, p)
  {
    if trades != [] {
      var init, last := trades[..|trades| - 1], trades[|trades| - 1];
      assert trades == init + [last];
      assert last in trades;
      GroupIsWhere(init, keyOf, key, p);
      WhereSnoc(init, last, p);
    }
  }

  // ---------------------------------------------------------------------------
  // By the clock
  // ---------------------------------------------------------------------------

  /** Opened within some hours of the day, the last one not included. */
  function OpenedBetween(clock: int -> Clock, from: int, to: int): Trade -> bool {
    (t: Trade) => from <= clock(t.openAt).hour < to
  }

  function OpenedOn(clock: int -> Clock, weekday: int, from: int, to: int): Trade -> bool {
    (t: Trade) => clock(t.openAt).weekday == weekday && from <= clock(t.openAt).hour < to
  }

  ghost predicate ValidClock(clock: int -> Clock) {
    forall at :: 0 <= clock(at).hour < 24
  }

  /** The hours of a session: up to nine, from nine to sixteen, and from sixteen on. */
  function Opens(s: Session): int {
    match s case Asia => 0 case London => 9 case NewYork => 16
  }

  function Closes(s: Session): int {
    match s case Asia => 9 case London => 16 case NewYork => 24
  }

  /** The three session bars show the trades opened up to nine o'clock, from nine to sixteen, and from sixteen on. */
  lemma SessionBarsAreHours(trades: seq<Trade>, clock: int -> Clock)
    requires ValidClock(clock)
    ensures Buckets(trades, Sessions(), SessionKey(clock)) ==
            [Bucket(Asia, BookMetrics(Where(trades, OpenedBetween(clock, 0, 9)))),
             Bucket(London, BookMetrics(Where(trades, OpenedBetween(clock, 9, 16)))),
             Bucket(NewYork, BookMetrics(Where(trades, OpenedBetween(clock, 16, 24))))]
  {
    GroupIsWhere(trades, SessionKey(clock), Asia, OpenedBetween(clock, 0, 9));
    GroupIsWhere(trades, SessionKey(clock), London, OpenedBetween(clock, 9, 16));
    GroupIsWhere(trades, SessionKey(clock), NewYork, OpenedBetween(clock, 16, 24));
  }

  /** A square of the heat map shows the trades opened on its weekday within its session's hours. */
  lemma SquareIsDayAndHours(trades: seq<Trade>, clock: int -> Clock, weekday: int, s: Session)
    requires ValidClock(clock)
    ensures var m := BookMetrics(Where(trades, OpenedOn(clock, weekday, Opens(s), Closes(s))));
            HeatCellOf(trades, clock, (weekday, s)) == HeatCell(weekday, s, m.net, m.count)
  {
    GroupIsWhere(trades, HeatKey(clock), (weekday, s), OpenedOn(clock, weekday, Opens(s), Closes(s)));
    BookFigures(Where(trades, OpenedOn(clock, weekday, Opens(s), Closes(s))));
  }

  /** The i-th weekday bar, Monday first, shows the trades opened on that day. */
  lemma WeekdayBarIsItsDay(trades: seq<Trade>, clock: int -> Clock, i: nat)
    requires ValidClock(clock) && i < 5
    ensures var bars := Buckets(trades, Weekdays(), WeekdayKey(clock));
            |bars| == 5 && bars[i] == Bucket(i + 1, BookMetrics(Where(trades, OpenedOn(clock, i + 1, 0, 24))))
  {
    GroupIsWhere(trades, WeekdayKey(clock), i + 1, OpenedOn(clock, i + 1, 0, 24));
  }

  // ---------------------------------------------------------------------------
  // By day
  // ---------------------------------------------------------------------------

  function ClosedOn(dateKey: int -> string, date: string): Trade -> bool {
    (t: Trade) => dateKey(t.closeAt) == date
  }

  /** A day shows the net, count and wins of the trades closed on it. */
  lemma DayIsItsTrades(trades: seq<Trade>, dateKey: int -> string, i: nat)
    requires i < |DayLoadFacts.Days(trades, dateKey)|
    ensures var day := DayLoadFacts.Days(trades, dateKey)[i];
            var m := BookMetrics(Where(trades, ClosedOn(dateKey, day.date)));
            day.net == m.net && day.count == m.count && day.wins == m.wins
  {
    var date := DayLoadFacts.Dates(trades, dateKey)[i];
    GroupIsWhere(trades, DayLoadFacts.DateKey(dateKey), date, ClosedOn(dateKey, date));
    BookFigures(Where(trades, ClosedOn(dateKey, date)));
  }

  /** A load's averages weigh back to its net and its wins. */
  lemma LoadAverages(trades: nat, load: DayLoadFacts.Load)
    requires load.days > 0 && load.trades > 0
    ensures var shown := DayLoadFacts.Shown(trades, load);
            && Repeated(shown.days, shown.avgNet) == load.net == shown.net
            && Repeated(load.trades, shown.winRate) == 100.0 * load.wins as real && shown.wins == load.wins
  {
    MeanRepeats(load.net, load.days);
    ShareRepeats(load.wins, load.trades);
  }

  // ---------------------------------------------------------------------------
  // By rating
  // ---------------------------------------------------------------------------

  predicate IsRated(trades: seq<Trade>, k: int) {
    exists i :: 0 <= i < |trades| && trades[i].rating == Some(k)
  }

  lemma ScoredIsRated(trades: seq<Trade>, k: int)
    ensures Labels.Scored(trades, k) <==> IsRated(trades, k)
  {
    if Labels.Scored(trades, k) {
      var t :| t in trades && t.rating == Some(k);
      var i :| 0 <= i < |trades| && trades[i] == t;
      assert trades[i].rating == Some(k);
    }
    if IsRated(trades, k) {
      var i :| 0 <= i < |trades| && trades[i].rating == Some(k);
      assert trades[i] in trades;
    }
  }

  ghost predicate Ascend(keys: seq<Labels.RatingKey>, score: int) {
    && (forall i :: 0 <= i < |keys| ==> keys[i].Score? && score <= keys[i].score)
    && (forall i, j :: 0 <= i < j < |keys| ==> keys[i].score < keys[j].score)
  }

  /** There is a bar for a rating exactly if it is 1 to 5 and some trade has it, and the bars ascend. */
  lemma RatingBarsExactly(trades: seq<Trade>)
    ensures var keys := Labels.ScoresFrom(trades, 1);
            && (forall k :: Labels.Score(k) in keys <==> 1 <= k <= 5 && IsRated(trades, k))
            && Ascend(keys, 1)
  {
    var keys := Labels.ScoresFrom(trades, 1);
    forall k: int
      ensures Labels.Score(k) in keys <==> 1 <= k <= 5 && IsRated(trades, k)
    {
      ScoredIsRated(trades, k);
    }
    ScoresAscend(trades, 1);
  }

  lemma ScoreBefore(score: int, rest: seq<Labels.RatingKey>)
    requires Ascend(rest, score + 1)
    ensures Ascend([] + rest, score) && Ascend([Labels.Score(score)] + rest, score)
  {
  }

  lemma {:induction false} ScoresAscend(trades: seq<Trade>, score: nat)
    requires 1 <= score <= 6
    ensures Ascend(Labels.ScoresFrom(trades, score), score)
    decreases 6 - score
  {
    if score < 6 {
      ScoresAscend(trades, score + 1);
      ScoreBefore(score, Labels.ScoresFrom(trades, score + 1));
    }
  }

  // ---------------------------------------------------------------------------
  // By strategy
  // ---------------------------------------------------------------------------

  function InStrategy(name: string): Trade -> bool {
    (t: Trade) => t.strategy == Some(name)
  }

  function InNoStrategy(): Trade -> bool {
    (t: Trade) => t.strategy == None || t.strategy == Some("")
  }

  /** A strategy's bar shows exactly its trades, and the reserved bar those without one, unless a label is reserved. */
  lemma StrategyBarIsItsTrades(trades: seq<Trade>, name: string)
    ensures name != "" && name != "__unlabelled__" ==>
              GroupOf(trades, Labels.StrategyKey, name) == Where(trades, InStrategy(name))
    ensures (forall t :: t in trades ==> t.strategy != Some("__unlabelled__")) ==>
              GroupOf(trades, Labels.StrategyKey, "__unlabelled__") == Where(trades, InNoStrategy())
  {
    if name != "" && name != "__unlabelled__" {
      GroupIsWhere(trades, Labels.StrategyKey, name, InStrategy(name));
    }
    if forall t :: t in trades ==> t.strategy != Some("__unlabelled__") {
      GroupIsWhere(trades, Labels.StrategyKey, "__unlabelled__", InNoStrategy());
    }
  }

  // ---------------------------------------------------------------------------
  // By mood
  // ---------------------------------------------------------------------------

  /** Trades whose mood, trimmed, is this one up to case. */
  function InMood(mood: string, trim: string -> string, lower: string -> string): Trade -> bool {
    (t: Trade) => t.mood.Some? && trim(t.mood.value) != "" && lower(trim(t.mood.value)) == lower(mood)
  }

  function InNoMood(trim: string -> string): Trade -> bool {
    (t: Trade) => t.mood.None? || trim(t.mood.value) == ""
  }

  /** Every mood on the chart is the spelling of its own key. */
  lemma MoodIsSpelled(
      trades: seq<Trade>, trim: string -> string, lower: string -> string, order: (string, string) -> bool,
      mood: string)
    requires mood in Labels.Moods(trades, trim, lower, order)
    ensures var labels := Labels.Spellings(trades, trim, lower);
            lower(mood) in labels && labels[lower(mood)] == mood && Labels.FoldsBack(labels, lower)
  {
    var labels := Labels.Spellings(trades, trim, lower);
    var named := Labels.Without(trades, Labels.Moodless(trim));
    var keys := KeysInOrder(named, Labels.FoldedMood(trim, lower));
    KeysInOrderAre(named, Labels.FoldedMood(trim, lower));
    Labels.SpellingsAre(trades, trim, lower);
    Labels.SpelledAre(keys, labels, lower);
    SortedKeys(Labels.SpelledInOrder(keys, labels), order);
  }

  /** A mood's bar shows exactly the trades whose mood, trimmed, is that one up to case. */
  lemma MoodBarIsItsTrades(
      trades: seq<Trade>, trim: string -> string, lower: string -> string, order: (string, string) -> bool,
      mood: string)
    requires mood in Labels.Moods(trades, trim, lower, order) && mood != "__nomood__"
    ensures GroupOf(trades, Labels.MoodKey(Labels.Spellings(trades, trim, lower), trim, lower), mood) ==
            Where(trades, InMood(mood, trim, lower))
  {
    var labels := Labels.Spellings(trades, trim, lower);
    MoodIsSpelled(trades, trim, lower, order, mood);
    forall t | t in trades
      ensures InMood(mood, trim, lower)(t) <==> Labels.MoodKey(labels, trim, lower)(t) == mood
    {
      MoodOfTrade(labels, trim, lower, mood, t);
    }
    GroupIsWhere(trades, Labels.MoodKey(labels, trim, lower), mood, InMood(mood, trim, lower));
  }

  lemma MoodOfTrade(
      labels: map<string, string>, trim: string -> string, lower: string -> string, mood: string, t: Trade)
    requires lower(mood) in labels && labels[lower(mood)] == mood && Labels.FoldsBack(labels, lower)
    requires mood != "__nomood__"
    ensures InMood(mood, trim, lower)(t) <==> Labels.MoodKey(labels, trim, lower)(t) == mood
  {
    var own := Labels.MoodOf(t, trim);
    assert Labels.NO_MOOD == "__nomood__";
    if own != "" && lower(own) in labels {
      assert lower(labels[lower(own)]) == lower(own);
    }
  }

  /** The reserved bar shows exactly the trades without a mood, unless somebody's mood is the reserved key. */
  lemma NoMoodBarIsItsTrades(trades: seq<Trade>, trim: string -> string, lower: string -> string)
    requires !Labels.ReservedMood(trades, trim, lower)
    ensures GroupOf(trades, Labels.MoodKey(Labels.Spellings(trades, trim, lower), trim, lower), "__nomood__") ==
            Where(trades, InNoMood(trim))
  {
    var labels := Labels.Spellings(trades, trim, lower);
    Labels.ReservedIsSpelled(trades, trim, lower);
    Labels.SpellingsAre(trades, trim, lower);
    GroupIsWhere(trades, Labels.MoodKey(labels, trim, lower), "__nomood__", InNoMood(trim));
  }
}
