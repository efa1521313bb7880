/**
 Daily totals, and results by the number of trades taken on a day: a grouping of a grouping
 (src/lib/analytics/dimensions.ts and src/lib/analytics/consistency.ts). Nothing gets lost in either.
 */
module DayLoads {
  import opened AnalyticsTypes
  import opened Grouping
  import opened Metrics
  import opened DayLoadFacts

  /** The map the calendar reads, and its keys in insertion order. */
  method DailyTotals(trades: seq<Trade>, dateKey: int -> string)
    returns (dates: seq<string>, days: map<string, DailyTotal>)
    ensures dates == Dates(trades, dateKey)
    ensures Totalled(days, trades, dateKey)
  {
    dates, days := [], map[];
    for i := 0 to |trades|
      invariant dates == Dates(trades[..i], dateKey)
      invariant Totalled(days, trades[..i], dateKey)
    {
      var date := dateKey(trades[i].closeAt);
      var day := if date in days then days[date] else DailyTotal(date, 0.0, 0, 0);
      if date !in days {
        NoDayYet(trades[..i], dateKey, date);
      }
      TotalledStep(days, trades, i, dateKey, day);
      dates := if date in days then dates else dates + [date];
      ghost var before := day;
      day := day.(net := day.net + trades[i].profit);
      day := day.(count := day.count + 1);
      if trades[i].profit > 0.0 {
        day := day.(wins := day.wins + 1);
      }
      assert day == WithTrade(before, trades[i]);
      days := days[date := day];
    }
    assert trades[..|trades|] == trades;
  }

  method LoadsOf(days: seq<DailyTotal>) returns (order: seq<nat>, byLoad: map<nat, Load>)
    ensures order == KeysInOrder(days, LoadKey())
    ensures Loaded(byLoad, days)
  {
    order, byLoad := [], map[];
    for i := 0 to |days|
      invariant order == KeysInOrder(days[..i], LoadKey())
      invariant Loaded(byLoad, days[..i])
    {
      var day := days[i];
      var load := if day.count in byLoad then byLoad[day.count] else Load(0, 0.0, 0, 0);
      if day.count !in byLoad {
        NoLoadYet(days[..i], day.count);
      }
      LoadedStep(byLoad, days, i, load);
      order := if day.count in byLoad then order else order + [day.count];
      byLoad := byLoad[day.count := WithDay(load, day)];
    }
    assert days[..|days|] == days;
  }

  /** A map's values in insertion order. */
  method DayValues(
      ghost trades: seq<Trade>, ghost dateKey: int -> string, dates: seq<string>, byDay: map<string, DailyTotal>)
    returns (days: seq<DailyTotal>)
    requires dates == Dates(trades, dateKey) && Totalled(byDay, trades, dateKey)
    ensures days == Days(trades, dateKey)
  {
    days := seq(|dates|, i requires 0 <= i < |dates| && dates[i] in byDay => byDay[dates[i]]);
  }

  method ShownLoads(ghost days: seq<DailyTotal>, order: seq<nat>, byLoad: map<nat, Load>) returns (loads: seq<DayLoad>)
    requires order == KeysInOrder(days, LoadKey()) && Loaded(byLoad, days)
    ensures loads == LoadsFor(days, order)
  {
    loads := [];
    for i := 0 to |order|
      invariant loads == LoadsFor(days, order[..i])
    {
      ShownStep(days, order, i);
      loads := loads + [Shown(order[i], byLoad[order[i]])];
    }
    assert order[..|order|] == order;
  }

  method ComputeDayLoads(trades: seq<Trade>, dateKey: int -> string) returns (loads: seq<DayLoad>)
    ensures loads == Chart(Days(trades, dateKey))
  {
    var dates, byDay := DailyTotals(trades, dateKey);
    var days := DayValues(trades, dateKey, dates, byDay);
    var order, byLoad := LoadsOf(days);
    loads := ShownLoads(days, order, byLoad);
    loads := SortBy(loads, FewerTrades());
  }

  // ---------------------------------------------------------------------------
  // Laws
  // ---------------------------------------------------------------------------

  /** Every trade is on exactly one day: net, count and wins of the days are those of the book. */
  lemma DaysConserve(f: Figure, trades: seq<Trade>, dateKey: int -> string)
    ensures OfDays(f, Days(trades, dateKey)) == OfTally(f, TallyOf(trades))
  {
    var dates := Dates(trades, dateKey);
    assert Days(trades, dateKey) == DaysOn(trades, dateKey, dates) by {
      forall i | 0 <= i < |dates|
        ensures Days(trades, dateKey)[i] == DaysOn(trades, dateKey, dates)[i]
      {
        DaysOnAre(trades, dateKey, dates, i);
      }
    }
    DaysOnTotals(f, trades, dateKey, dates);
    KeysInOrderAre(trades, DateKey(dateKey));
    TradeFigureIsAdditive(f);
    GroupsAddUp(trades, DateKey(dateKey), dates, (ts: seq<Trade>) => OfTally(f, TallyOf(ts)));
    KeptAll(trades, DateKey(dateKey), dates);
  }

  /** The bars stand in order of load, one for each load in use, each showing that load's days. */
  lemma BarsAscend(trades: seq<Trade>, dateKey: int -> string)
    ensures var days := Days(trades, dateKey);
            var loads := Chart(days);
            && (forall i :: 0 <= i < |loads| ==> loads[i] == ShownOn(days)(loads[i].trades))
            && (forall i, j :: 0 <= i < j < |loads| ==> loads[i].trades < loads[j].trades)
            && (forall k :: 0 <= k < |days| ==> exists i :: 0 <= i < |loads| && loads[i].trades == days[k].count)
  {
    var days := Days(trades, dateKey);
    var loads, sorted := Chart(days), LoadsInUse(days);
    ChartIsSorted(days);
    LoadsInUseAre(days);
    forall i | 0 <= i < |loads|
      ensures loads[i].trades == sorted[i]
    {
      assert loads[i] == ShownOn(days)(sorted[i]);
    }
    forall k | 0 <= k < |days|
      ensures exists i :: 0 <= i < |loads| && loads[i].trades == days[k].count
    {
      var i :| 0 <= i < |sorted| && sorted[i] == days[k].count;
      assert loads[i].trades == days[k].count;
    }
  }

  /** Load times days adds up to the number of trades, and the nets to the book's net, through both groupings. */
  lemma LoadsConserve(trades: seq<Trade>, dateKey: int -> string)
    ensures var loads := Chart(Days(trades, dateKey));
            && TradesShown(loads) == |trades|
            && NetShown(loads) == BookMetrics(trades).net
            && DaysShown(loads) == |Dates(trades, dateKey)|
  {
    var days := Days(trades, dateKey);
    var keys := KeysInOrder(days, LoadKey());
    SortShows(LoadsFor(days, keys));
    LoadsForTotals(days, keys);
    KeysInOrderAre(days, LoadKey());
    KeptAll(days, LoadKey(), keys);
    DayFigureIsAdditive(Trades);
    GroupsAddUp(days, LoadKey(), keys, (ds: seq<DailyTotal>) => OfDays(Trades, ds));
    DaysConserve(Trades, trades, dateKey);
    DayFigureIsAdditive(Net);
    GroupsAddUp(days, LoadKey(), keys, (ds: seq<DailyTotal>) => OfDays(Net, ds));
    DaysConserve(Net, trades, dateKey);
    BookFigures(trades);
    CoveringCounts(days, LoadKey(), keys);
    forall i | 0 <= i < |days|
      ensures Occurs(keys, LoadKey()(days[i])) == 1
    {
      OccursIffListed(keys, LoadKey()(days[i]));
    }
  }
}
