/**
 What the charts by day and by load are made of and rest on: the totals of a date and of a load,
 how one more trade or day changes them, and what sums over them come to.

 The loops over them, and the laws, are in DayLoads. Sources are src/lib/analytics/dimensions.ts
 and src/lib/analytics/consistency.ts.
 */
module DayLoadFacts {
  import opened AnalyticsTypes
  import opened Grouping
  import opened Metrics

  datatype DailyTotal = DailyTotal(date: string, net: real, count: nat, wins: nat)

  datatype DayLoad = DayLoad(trades: nat, days: nat, net: real, avgNet: real, wins: nat, winRate: real)

  // ---------------------------------------------------------------------------
  // By day
  // ---------------------------------------------------------------------------

  function DateKey(dateKey: int -> string): Trade -> string {
    (t: Trade) => dateKey(t.closeAt)
  }

  function DayOf(trades: seq<Trade>, dateKey: int -> string, date: string): DailyTotal {
    var t := TallyOf(GroupOf(trades, DateKey(dateKey), date));
    DailyTotal(date, t.net, t.count, t.wins)
  }

  function Dates(trades: seq<Trade>, dateKey: int -> string): seq<string> {
    KeysInOrder(trades, DateKey(dateKey))
  }

  /** The days with a trade, first closed first. */
  function Days(trades: seq<Trade>, dateKey: int -> string): (days: seq<DailyTotal>)
    ensures |days| == |Dates(trades, dateKey)|
  {
    var dates := Dates(trades, dateKey);
    seq(|dates|, i requires 0 <= i < |dates| => DayOf(trades, dateKey, dates[i]))
  }

  ghost predicate Totalled(days: map<string, DailyTotal>, trades: seq<Trade>, dateKey: int -> string) {
    && (forall date :: date in days <==> date in Dates(trades, dateKey))
    && (forall date :: date in days ==> days[date] == DayOf(trades, dateKey, date))
  }

  function WithTrade(day: DailyTotal, t: Trade): DailyTotal {
    day.(net := day.net + t.profit, count := day.count + 1, wins := if t.profit > 0.0 then day.wins + 1 else day.wins)
  }

  lemma DayStep(trades: seq<Trade>, i: nat, dateKey: int -> string, date: string)
    requires i < |trades|
    ensures var day := DayOf(trades[..i], dateKey, date);
            DayOf(trades[..i + 1], dateKey, date) ==
            if dateKey(trades[i].closeAt) == date then WithTrade(day, trades[i]) else day
  {
    var group := GroupOf(trades[..i], DateKey(dateKey), date);
    GroupStep(trades, i, DateKey(dateKey), date);
    if dateKey(trades[i].closeAt) == date {
      TallyOneMore(group, trades[i]);
    } else {
      assert group + [] == group;
    }
  }

  lemma {:induction false} NoDayYet(trades: seq<Trade>, dateKey: int -> string, date: string)
    requires date !in Dates(trades, dateKey)
    ensures DayOf(trades, dateKey, date) == DailyTotal(date, 0.0, 0, 0)
  {
    KeysInOrderAre(trades, DateKey(dateKey));
    EmptyGroup(trades, DateKey(dateKey), date);
  }

  lemma TotalledStep(days: map<string, DailyTotal>, trades: seq<Trade>, i: nat, dateKey: int -> string, day: DailyTotal)
    requires i < |trades| && Totalled(days, trades[..i], dateKey)
    requires day == DayOf(trades[..i], dateKey, dateKey(trades[i].closeAt))
    ensures var date := dateKey(trades[i].closeAt);
            Totalled(days[date := WithTrade(day, trades[i])], trades[..i + 1], dateKey)
    ensures Dates(trades[..i + 1], dateKey) ==
            Dates(trades[..i], dateKey) +
            if dateKey(trades[i].closeAt) in days then [] else [dateKey(trades[i].closeAt)]
  {
    assert trades[..i + 1][..i] == trades[..i];
    forall date | date in days || date == dateKey(trades[i].closeAt)
      ensures DayOf(trades[..i + 1], dateKey, date) ==
              if dateKey(trades[i].closeAt) == date then WithTrade(day, trades[i])
              else DayOf(trades[..i], dateKey, date)
    {
      DayStep(trades, i, dateKey, date);
    }
  }

  // ---------------------------------------------------------------------------
  // What days add up to
  // ---------------------------------------------------------------------------

  datatype Figure = Net | Trades | Wins

  function OfDay(f: Figure, day: DailyTotal): real {
    match f
    case Net => day.net
    case Trades => day.count as real
    case Wins => day.wins as real
  }

  function OfTally(f: Figure, t: Tally): real {
    match f
    case Net => t.net
    case Trades => t.count as real
    case Wins => t.wins as real
  }

  function OfDays(f: Figure, days: seq<DailyTotal>): real {
    if days == [] then 0.0 else OfDays(f, days[..|days| - 1]) + OfDay(f, days[|days| - 1])
  }

  lemma {:induction false} OfDaysAppend(f: Figure, a: seq<DailyTotal>, b: seq<DailyTotal>)
    ensures OfDays(f, a + b) == OfDays(f, a) + OfDays(f, b)
    decreases b
  {
    if b == [] {
      assert a + b == a;
    } else {
      assert (a + b)[..|a + b| - 1] == a + b[..|b| - 1];
      OfDaysAppend(f, a, b[..|b| - 1]);
    }
  }

  lemma TradeFigureIsAdditive(f: Figure)
    ensures Additive((trades: seq<Trade>) => OfTally(f, TallyOf(trades)))
  {
    forall trades: seq<Trade>, t: Trade
      ensures OfTally(f, TallyOf(trades + [t])) == OfTally(f, TallyOf(trades)) + OfTally(f, TallyOf([t]))
    {
      TallyAppend(trades, [t]);
    }
  }

  lemma DayFigureIsAdditive(f: Figure)
    ensures Additive((days: seq<DailyTotal>) => OfDays(f, days))
  {
    forall days: seq<DailyTotal>, d: DailyTotal
      ensures OfDays(f, days + [d]) == OfDays(f, days) + OfDays(f, [d])
    {
      OfDaysAppend(f, days, [d]);
    }
  }

  /** The days of a list of dates. */
  function DaysOn(trades: seq<Trade>, dateKey: int -> string, dates: seq<string>): (days: seq<DailyTotal>)
    ensures |days| == |dates|
  {
    if dates == [] then [] else [DayOf(trades, dateKey, dates[0])] + DaysOn(trades, dateKey, dates[1..])
  }

  lemma {:induction false} DaysOnAre(trades: seq<Trade>, dateKey: int -> string, dates: seq<string>, i: nat)
    requires i < |dates|
    ensures DaysOn(trades, dateKey, dates)[i] == DayOf(trades, dateKey, dates[i])
  {
    if i > 0 {
      DaysOnAre(trades, dateKey, dates[1..], i - 1);
    }
  }

  lemma {:induction false} DaysOnTotals(f: Figure, trades: seq<Trade>, dateKey: int -> string, dates: seq<string>)
    ensures OfDays(f, DaysOn(trades, dateKey, dates)) ==
            KeyTotals(trades, DateKey(dateKey), dates, (ts: seq<Trade>) => OfTally(f, TallyOf(ts)))
  {
    if dates != [] {
      var day := DayOf(trades, dateKey, dates[0]);
      DaysOnTotals(f, trades, dateKey, dates[1..]);
      OfDaysAppend(f, [day], DaysOn(trades, dateKey, dates[1..]));
      assert OfDays(f, [day]) == OfDays(f, []) + OfDay(f, day);
    }
  }

  // ---------------------------------------------------------------------------
  // By load
  // ---------------------------------------------------------------------------

  function LoadKey(): DailyTotal -> nat {
    (d: DailyTotal) => d.count
  }

  function TradesOf(days: seq<DailyTotal>): nat {
    if days == [] then 0 else TradesOf(days[..|days| - 1]) + days[|days| - 1].count
  }

  function WinsOf(days: seq<DailyTotal>): nat {
    if days == [] then 0 else WinsOf(days[..|days| - 1]) + days[|days| - 1].wins
  }

  /** A load's running figures. */
  datatype Load = Load(days: nat, net: real, trades: nat, wins: nat)

  function LoadOf(days: seq<DailyTotal>, load: nat): Load {
    var g := GroupOf(days, LoadKey(), load);
    Load(|g|, OfDays(Net, g), TradesOf(g), WinsOf(g))
  }

  function WithDay(load: Load, day: DailyTotal): Load {
    Load(load.days + 1, load.net + day.net, load.trades + day.count, load.wins + day.wins)
  }

  function Shown(trades: nat, load: Load): DayLoad {
    DayLoad(trades, load.days, load.net, Mean(load.net, load.days), load.wins,
        Mean(load.wins as real, load.trades) * 100.0)
  }

  ghost predicate Loaded(byLoad: map<nat, Load>, days: seq<DailyTotal>) {
    && (forall n :: n in byLoad <==> n in KeysInOrder(days, LoadKey()))
    && (forall n :: n in byLoad ==> byLoad[n] == LoadOf(days, n))
  }

  lemma LoadStep(days: seq<DailyTotal>, i: nat, n: nat)
    requires i < |days|
    ensures LoadOf(days[..i + 1], n) ==
            if days[i].count == n then WithDay(LoadOf(days[..i], n), days[i]) else LoadOf(days[..i], n)
  {
    var g := GroupOf(days[..i], LoadKey(), n);
    GroupStep(days, i, LoadKey(), n);
    assert (g + [days[i]])[..|g|] == g;
    assert g + [] == g;
  }

  lemma NoLoadYet(days: seq<DailyTotal>, n: nat)
    requires n !in KeysInOrder(days, LoadKey())
    ensures LoadOf(days, n) == Load(0, 0.0, 0, 0)
  {
    KeysInOrderAre(days, LoadKey());
    EmptyGroup(days, LoadKey(), n);
  }

  lemma LoadedStep(byLoad: map<nat, Load>, days: seq<DailyTotal>, i: nat, load: Load)
    requires i < |days| && Loaded(byLoad, days[..i])
    requires load == LoadOf(days[..i], days[i].count)
    ensures Loaded(byLoad[days[i].count := WithDay(load, days[i])], days[..i + 1])
    ensures KeysInOrder(days[..i + 1], LoadKey()) ==
            KeysInOrder(days[..i], LoadKey()) + if days[i].count in byLoad then [] else [days[i].count]
  {
    assert days[..i + 1][..i] == days[..i];
    forall n | n in byLoad || n == days[i].count
      ensures LoadOf(days[..i + 1], n) == if days[i].count == n then WithDay(load, days[i]) else LoadOf(days[..i], n)
    {
      LoadStep(days, i, n);
    }
  }

  function LoadRank(): DayLoad -> int {
    (l: DayLoad) => l.trades
  }

  function FewerTrades(): (DayLoad, DayLoad) -> bool {
    ByRank(LoadRank())
  }

  function ShownOn(days: seq<DailyTotal>): nat -> DayLoad {
    (n: nat) => Shown(n, LoadOf(days, n))
  }

  /** The loads shown for a list of keys. */
  function LoadsFor(days: seq<DailyTotal>, keys: seq<nat>): (loads: seq<DayLoad>)
    ensures |loads| == |keys|
  {
    Map(ShownOn(days), keys)
  }

  /** The chart: the loads in use, sorted. */
  function Chart(days: seq<DailyTotal>): seq<DayLoad> {
    SortBy(LoadsFor(days, KeysInOrder(days, LoadKey())), FewerTrades())
  }

  lemma ShownStep(days: seq<DailyTotal>, order: seq<nat>, i: nat)
    requires i < |order|
    ensures LoadsFor(days, order[..i + 1]) == LoadsFor(days, order[..i]) + [Shown(order[i], LoadOf(days, order[i]))]
  {
    assert order[..i + 1] == order[..i] + [order[i]];
    MapSnoc(ShownOn(days), order[..i], order[i]);
  }

  // ---------------------------------------------------------------------------
  // What loads add up to
  // ---------------------------------------------------------------------------

  /** What one bar stands for, over all bars. */
  function TradesShown(loads: seq<DayLoad>): nat {
    if loads == [] then 0 else loads[0].trades * loads[0].days + TradesShown(loads[1..])
  }

  function NetShown(loads: seq<DayLoad>): real {
    if loads == [] then 0.0 else loads[0].net + NetShown(loads[1..])
  }

  function DaysShown(loads: seq<DayLoad>): nat {
    if loads == [] then 0 else loads[0].days + DaysShown(loads[1..])
  }

  lemma {:induction false} InsertShows(x: DayLoad, loads: seq<DayLoad>)
    ensures var r := InsertBy(x, loads, FewerTrades());
            && TradesShown(r) == x.trades * x.days + TradesShown(loads)
            && NetShown(r) == x.net + NetShown(loads)
            && DaysShown(r) == x.days + DaysShown(loads)
  {
    var r := InsertBy(x, loads, FewerTrades());
    if loads == [] || FewerTrades()(x, loads[0]) {
      assert r[1..] == loads;
    } else {
      InsertShows(x, loads[1..]);
      assert r[1..] == InsertBy(x, loads[1..], FewerTrades());
    }
  }

  lemma {:induction false} SortShows(loads: seq<DayLoad>)
    ensures var r := SortBy(loads, FewerTrades());
            && TradesShown(r) == TradesShown(loads) && NetShown(r) == NetShown(loads)
            && DaysShown(r) == DaysShown(loads)
  {
    if loads != [] {
      SortShows(loads[1..]);
      InsertShows(loads[0], SortBy(loads[1..], FewerTrades()));
    }
  }

  function LoadsInUse(days: seq<DailyTotal>): seq<nat> {
    SortBy(KeysInOrder(days, LoadKey()), ByRank((n: nat) => n as int))
  }

  lemma ChartIsSorted(days: seq<DailyTotal>)
    ensures Chart(days) == Map(ShownOn(days), LoadsInUse(days))
  {
    var byLoad := ByRank((n: nat) => n as int);
    forall a: nat, b: nat
      ensures FewerTrades()(ShownOn(days)(a), ShownOn(days)(b)) == byLoad(a, b)
    {
      assert ShownOn(days)(a).trades == a && ShownOn(days)(b).trades == b;
    }
    SortMapped(ShownOn(days), KeysInOrder(days, LoadKey()), byLoad, FewerTrades());
  }

  lemma LoadsInUseAre(days: seq<DailyTotal>)
    ensures forall i, j :: 0 <= i < j < |LoadsInUse(days)| ==> LoadsInUse(days)[i] < LoadsInUse(days)[j]
    ensures forall k :: 0 <= k < |days| ==> days[k].count in LoadsInUse(days)
  {
    var keys, rank := KeysInOrder(days, LoadKey()), (n: nat) => n as int;
    var sorted := LoadsInUse(days);
    KeysInOrderAre(days, LoadKey());
    SortedKeys(keys, ByRank(rank));
    SortRanks(keys, rank);
    forall i, j | 0 <= i < j < |sorted|
      ensures sorted[i] < sorted[j]
    {
      RankedPairs(sorted, rank, i, j);
    }
    forall k | 0 <= k < |days|
      ensures days[k].count in sorted
    {
      assert LoadKey()(days[k]) in keys;
    }
  }

  /** A group of days with `n` trades each holds `n` trades for every day. */
  lemma {:induction false} TradesInGroup(days: seq<DailyTotal>, n: nat)
    ensures var g := GroupOf(days, LoadKey(), n);
            OfDays(Trades, g) == (n * |g|) as real
  {
    if days != [] {
      var init, last := days[..|days| - 1], days[|days| - 1];
      TradesInGroup(init, n);
      var g := GroupOf(init, LoadKey(), n);
      if last.count == n {
        assert (g + [last])[..|g|] == g;
        assert n * (|g| + 1) == n * |g| + n;
      } else {
        assert g + [] == g;
      }
    }
  }

  lemma {:induction false} LoadsForTotals(days: seq<DailyTotal>, keys: seq<nat>)
    ensures var loads := LoadsFor(days, keys);
            && TradesShown(loads) as real ==
                 KeyTotals(days, LoadKey(), keys, (ds: seq<DailyTotal>) => OfDays(Trades, ds))
            && NetShown(loads) == KeyTotals(days, LoadKey(), keys, (ds: seq<DailyTotal>) => OfDays(Net, ds))
            && DaysShown(loads) == KeyCounts(days, LoadKey(), keys)
  {
    if keys != [] {
      LoadsForTotals(days, keys[1..]);
      TradesInGroup(days, keys[0]);
      assert LoadsFor(days, keys)[1..] == LoadsFor(days, keys[1..]);
    }
  }
}
