/**
 Month by month, year by year, and the grid of both (src/lib/analytics/periods.ts). The balance is
 rolled forward through the months in calendar order. What the figures have to do with each other is
 in PeriodLaws.
 */
module Periods {
  import opened Prelude
  import opened AnalyticsTypes
  import opened Grouping
  import opened Metrics

  datatype Month = Month(year: int, month: int)

  datatype Period = Period(
    year: int,
    month: Option<int>,
    net: real,
    trades: nat,
    wins: nat,
    winRate: real,
    openingBalance: real,
    percent: Option<real>)

  datatype GridRow = GridRow(year: int, months: seq<Option<Period>>, total: Period)

  /** Months of the calendar the wall clock reads. */
  ghost predicate ValidCalendar(calendar: int -> Month) {
    forall t :: 1 <= calendar(t).month <= 12
  }

  function EmptyPeriod(year: int, month: Option<int>): Period {
    Period(year, month, 0.0, 0, 0, 0.0, 0.0, None)
  }

  /** A return over an opening balance, where that is something to take a percentage of. */
  function PercentOf(net: real, opening: real): real
    requires opening > 0.0
  {
    net / opening * 100.0
  }

  function WinRate(wins: nat, trades: nat): real {
    Mean(wins as real, trades) * 100.0
  }

  // ---------------------------------------------------------------------------
  // Months
  // ---------------------------------------------------------------------------

  function MonthKey(calendar: int -> Month): Trade -> Month {
    (t: Trade) => calendar(t.closeAt)
  }

  /** Chronological order, which is the order of the `YYYY-MM` keys. */
  function MonthRank(): Month -> int {
    (m: Month) => m.year * 12 + m.month
  }

  /** A month's trades added up, before the balance is rolled forward. */
  function MonthSum(trades: seq<Trade>, calendar: int -> Month, m: Month): Period {
    var t := TallyOf(GroupOf(trades, MonthKey(calendar), m));
    Period(m.year, Some(m.month), t.net, t.count, t.wins, 0.0, 0.0, None)
  }

  function SumOn(trades: seq<Trade>, calendar: int -> Month): Month -> Period {
    (m: Month) => MonthSum(trades, calendar, m)
  }

  function WithTrade(p: Period, t: Trade): Period {
    p.(net := p.net + t.profit, trades := p.trades + 1, wins := if t.profit > 0.0 then p.wins + 1 else p.wins)
  }

  ghost predicate Summed(months: map<Month, Period>, trades: seq<Trade>, calendar: int -> Month) {
    && (forall m :: m in months <==> m in KeysInOrder(trades, MonthKey(calendar)))
    && (forall m :: m in months ==> months[m] == MonthSum(trades, calendar, m))
  }

  lemma MonthStep(trades: seq<Trade>, i: nat, calendar: int -> Month, m: Month)
    requires i < |trades|
    ensures MonthSum(trades[..i + 1], calendar, m) ==
            if calendar(trades[i].closeAt) == m then WithTrade(MonthSum(trades[..i], calendar, m), trades[i])
            else MonthSum(trades[..i], calendar, m)
  {
    var group := GroupOf(trades[..i], MonthKey(calendar), m);
    GroupStep(trades, i, MonthKey(calendar), m);
    if calendar(trades[i].closeAt) == m {
      TallyOneMore(group, trades[i]);
    } else {
      assert group + [] == group;
    }
  }

  lemma NoMonthYet(trades: seq<Trade>, calendar: int -> Month, m: Month)
    requires m !in KeysInOrder(trades, MonthKey(calendar))
    ensures MonthSum(trades, calendar, m) == EmptyPeriod(m.year, Some(m.month))
  {
    KeysInOrderAre(trades, MonthKey(calendar));
    EmptyGroup(trades, MonthKey(calendar), m);
  }

  lemma MonthsInOrderStep(months: map<Month, Period>, trades: seq<Trade>, i: nat, calendar: int -> Month)
    requires i < |trades| && Summed(months, trades[..i], calendar)
    ensures KeysInOrder(trades[..i + 1], MonthKey(calendar)) ==
            KeysInOrder(trades[..i], MonthKey(calendar)) +
            if calendar(trades[i].closeAt) in months then [] else [calendar(trades[i].closeAt)]
  {
    assert trades[..i + 1][..i] == trades[..i];
  }

  lemma SummedStep(months: map<Month, Period>, trades: seq<Trade>, i: nat, calendar: int -> Month, p: Period)
    requires i < |trades| && Summed(months, trades[..i], calendar)
    requires p == MonthSum(trades[..i], calendar, calendar(trades[i].closeAt))
    ensures Summed(months[calendar(trades[i].closeAt) := WithTrade(p, trades[i])], trades[..i + 1], calendar)
  {
    MonthsInOrderStep(months, trades, i, calendar);
    forall m | m in months || m == calendar(trades[i].closeAt)
      ensures MonthSum(trades[..i + 1], calendar, m) ==
              if calendar(trades[i].closeAt) == m then WithTrade(p, trades[i]) else MonthSum(trades[..i], calendar, m)
    {
      MonthStep(trades, i, calendar, m);
    }
  }

  method SumMonths(trades: seq<Trade>, calendar: int -> Month) returns (order: seq<Month>, months: map<Month, Period>)
    ensures order == KeysInOrder(trades, MonthKey(calendar))
    ensures Summed(months, trades, calendar)
  {
    order, months := [], map[];
    for i := 0 to |trades|
      invariant order == KeysInOrder(trades[..i], MonthKey(calendar))
      invariant Summed(months, trades[..i], calendar)
    {
      var key := calendar(trades[i].closeAt);
      var period := if key in months then months[key] else EmptyPeriod(key.year, Some(key.month));
      if key !in months {
        NoMonthYet(trades[..i], calendar, key);
      }
      MonthsInOrderStep(months, trades, i, calendar);
      SummedStep(months, trades, i, calendar, period);
      order := if key in months then order else order + [key];
      months := months[key := WithTrade(period, trades[i])];
    }
    assert trades[..|trades|] == trades;
  }

  function PeriodRank(): Period -> int {
    (p: Period) => p.year * 12 + p.month.GetOr(0)
  }

  /** The balance rolled forward through periods in order. */
  function NetOf(periods: seq<Period>): real {
    if periods == [] then 0.0 else NetOf(periods[..|periods| - 1]) + periods[|periods| - 1].net
  }

  function PercentWhere(net: real, opening: real, measurable: bool): Option<real> {
    if measurable && opening > 0.0 then Some(PercentOf(net, opening)) else None
  }

  function Opened(p: Period, balance: real, measurable: bool): Period {
    p.(openingBalance := balance,
       percent := PercentWhere(p.net, balance, measurable),
       winRate := WinRate(p.wins, p.trades))
  }

  function Rolled(periods: seq<Period>, start: real): (r: seq<Period>)
    ensures |r| == |periods|
  {
    if periods == [] then []
    else
      var init, last := periods[..|periods| - 1], periods[|periods| - 1];
      Rolled(init, start) + [Opened(last, start + NetOf(init), start > 0.0)]
  }

  /** The months with trades, in order. */
  function MonthsTraded(trades: seq<Trade>, calendar: int -> Month): seq<Month> {
    SortBy(KeysInOrder(trades, MonthKey(calendar)), ByRank(MonthRank()))
  }

  function MonthRows(trades: seq<Trade>, calendar: int -> Month, start: real): seq<Period> {
    Rolled(Map(SumOn(trades, calendar), MonthsTraded(trades, calendar)), start)
  }

  lemma RolledStep(periods: seq<Period>, i: nat, start: real)
    requires i < |periods|
    ensures Rolled(periods[..i + 1], start) ==
              Rolled(periods[..i], start) + [Opened(periods[i], start + NetOf(periods[..i]), start > 0.0)]
    ensures NetOf(periods[..i + 1]) == NetOf(periods[..i]) + periods[i].net
  {
    assert periods[..i + 1][..i] == periods[..i];
  }

  lemma UpdateSplits(done: seq<Period>, periods: seq<Period>, i: nat, p: Period)
    requires i < |periods| && |done| == i
    ensures (done + periods[i..])[i] == periods[i]
    ensures (done + periods[i..])[i := p] == done + [p] + periods[i + 1..]
  {
  }

  method RollForward(periods: seq<Period>, start: real) returns (ordered: seq<Period>)
    ensures ordered == Rolled(periods, start)
  {
    ordered := periods;
    var measurable := start > 0.0;
    var balance := start;
    for i := 0 to |ordered|
      invariant |ordered| == |periods|
      invariant ordered == Rolled(periods[..i], start) + periods[i..]
      invariant balance == start + NetOf(periods[..i])
    {
      var period := ordered[i];
      RolledStep(periods, i, start);
      UpdateSplits(Rolled(periods[..i], start), periods, i, Opened(periods[i], balance, measurable));
      ordered := ordered[i := Opened(period, balance, measurable)];
      balance := balance + period.net;
    }
    assert periods[..|periods|] == periods;
  }

  lemma SortedSums(trades: seq<Trade>, calendar: int -> Month, order: seq<Month>)
    ensures SortBy(Map(SumOn(trades, calendar), order), ByRank(PeriodRank())) ==
            Map(SumOn(trades, calendar), SortBy(order, ByRank(MonthRank())))
  {
    SortMapped(SumOn(trades, calendar), order, ByRank(MonthRank()), ByRank(PeriodRank()));
  }

  method MonthlyReturns(trades: seq<Trade>, calendar: int -> Month, start: real) returns (ordered: seq<Period>)
    ensures ordered == MonthRows(trades, calendar, start)
  {
    var order, months := SumMonths(trades, calendar);
    var values := seq(|order|, i requires 0 <= i < |order| && order[i] in months => months[order[i]]);
    assert values == Map(SumOn(trades, calendar), order);
    SortedSums(trades, calendar, order);
    ordered := RollForward(SortBy(values, ByRank(PeriodRank())), start);
  }

  // ---------------------------------------------------------------------------
  // Years
  // ---------------------------------------------------------------------------

  function YearKey(): Period -> int {
    (p: Period) => p.year
  }

  function TradesIn(periods: seq<Period>): nat {
    if periods == [] then 0 else TradesIn(periods[..|periods| - 1]) + periods[|periods| - 1].trades
  }

  function WinsIn(periods: seq<Period>): nat {
    if periods == [] then 0 else WinsIn(periods[..|periods| - 1]) + periods[|periods| - 1].wins
  }

  /** A year's months added up; it opened with the balance of the first of them. */
  function YearSum(months: seq<Period>, year: int): Period {
    SumOfYear(GroupOf(months, YearKey(), year), year)
  }

  function SumOfYear(g: seq<Period>, year: int): Period {
    Period(year, None, NetOf(g), TradesIn(g), WinsIn(g), 0.0, if g == [] then 0.0 else g[0].openingBalance, None)
  }

  /** What a month is added to: the year so far, or a fresh row that opens with the month's balance. */
  function YearSoFar(g: seq<Period>, year: int, month: Period): Period {
    if g == [] then EmptyPeriod(year, None).(openingBalance := month.openingBalance) else SumOfYear(g, year)
  }

  lemma SumOfYearStep(g: seq<Period>, year: int, month: Period)
    ensures SumOfYear(g + [month], year) == WithMonth(YearSoFar(g, year, month), month)
  {
    SumsOneMore(g, month);
    assert (g + [month])[0] == if g == [] then month else g[0];
  }

  lemma SumsOneMore(g: seq<Period>, p: Period)
    ensures NetOf(g + [p]) == NetOf(g) + p.net
    ensures TradesIn(g + [p]) == TradesIn(g) + p.trades
    ensures WinsIn(g + [p]) == WinsIn(g) + p.wins
  {
    assert (g + [p])[..|g|] == g;
  }

  function WithMonth(row: Period, month: Period): Period {
    row.(net := row.net + month.net, trades := row.trades + month.trades, wins := row.wins + month.wins)
  }

  function Closed(row: Period): Period {
    row.(winRate := WinRate(row.wins, row.trades),
         percent := PercentWhere(row.net, row.openingBalance, true))
  }

  function YearOn(months: seq<Period>): int -> Period {
    (y: int) => Closed(YearSum(months, y))
  }

  function YearRank(): Period -> int {
    (p: Period) => p.year
  }

  function SelfRank(): int -> int {
    (y: int) => y
  }

  function YearsTraded(months: seq<Period>): seq<int> {
    SortBy(KeysInOrder(months, YearKey()), ByRank(SelfRank()))
  }

  function YearRows(months: seq<Period>): (rows: seq<Period>)
    ensures |rows| == |YearsTraded(months)|
  {
    Map(YearOn(months), YearsTraded(months))
  }

  ghost predicate Yearly(years: map<int, Period>, months: seq<Period>) {
    && (forall y :: y in years <==> y in KeysInOrder(months, YearKey()))
    && (forall y :: y in years ==> years[y] == YearSum(months, y))
  }

  lemma YearStep(months: seq<Period>, i: nat, y: int)
    requires i < |months|
    ensures YearSum(months[..i + 1], y) ==
            if months[i].year != y then YearSum(months[..i], y)
            else WithMonth(YearSoFar(GroupOf(months[..i], YearKey(), y), y, months[i]), months[i])
  {
    var g := GroupOf(months[..i], YearKey(), y);
    GroupStep(months, i, YearKey(), y);
    if months[i].year == y {
      SumOfYearStep(g, y, months[i]);
    } else {
      assert g + [] == g;
    }
  }

  lemma {:induction false} GroupIffInUse(months: seq<Period>, y: int)
    ensures GroupOf(months, YearKey(), y) == [] <==> y !in KeysInOrder(months, YearKey())
  {
    if months != [] {
      GroupIffInUse(months[..|months| - 1], y);
    }
  }

  lemma YearlyStep(years: map<int, Period>, months: seq<Period>, i: nat, row: Period)
    requires i < |months| && Yearly(years, months[..i])
    requires row == if months[i].year in years then years[months[i].year]
                    else EmptyPeriod(months[i].year, None).(openingBalance := months[i].openingBalance)
    ensures Yearly(years[months[i].year := WithMonth(row, months[i])], months[..i + 1])
    ensures KeysInOrder(months[..i + 1], YearKey()) ==
            KeysInOrder(months[..i], YearKey()) + if months[i].year in years then [] else [months[i].year]
  {
    assert months[..i + 1][..i] == months[..i];
    GroupIffInUse(months[..i], months[i].year);
    forall y | y in years || y == months[i].year
      ensures YearSum(months[..i + 1], y) ==
              if months[i].year == y then WithMonth(row, months[i]) else YearSum(months[..i], y)
    {
      YearStep(months, i, y);
    }
  }

  method SumYears(months: seq<Period>) returns (order: seq<int>, years: map<int, Period>)
    ensures order == KeysInOrder(months, YearKey())
    ensures Yearly(years, months)
  {
    order, years := [], map[];
    for i := 0 to |months|
      invariant order == KeysInOrder(months[..i], YearKey())
      invariant Yearly(years, months[..i])
    {
      var month := months[i];
      var row := if month.year in years then years[month.year]
                 else EmptyPeriod(month.year, None).(openingBalance := month.openingBalance);
      YearlyStep(years, months, i, row);
      order := if month.year in years then order else order + [month.year];
      years := years[month.year := WithMonth(row, month)];
    }
    assert months[..|months|] == months;
  }

  lemma SortedYears(months: seq<Period>, order: seq<int>)
    ensures SortBy(Map(YearOn(months), order), ByRank(YearRank())) ==
            Map(YearOn(months), SortBy(order, ByRank(SelfRank())))
  {
    SortMapped(YearOn(months), order, ByRank(SelfRank()), ByRank(YearRank()));
  }

  method YearlyReturns(months: seq<Period>) returns (rows: seq<Period>)
    ensures rows == YearRows(months)
  {
    var order, years := SumYears(months);
    rows := [];
    for i := 0 to |order|
      invariant rows == Map(YearOn(months), order[..i])
    {
      YearOnStep(months, order, i);
      rows := rows + [Closed(years[order[i]])];
    }
    assert order[..|order|] == order;
    SortedYears(months, order);
    rows := SortBy(rows, ByRank(YearRank()));
  }

  lemma YearOnStep(months: seq<Period>, order: seq<int>, i: nat)
    requires i < |order|
    ensures Map(YearOn(months), order[..i + 1]) == Map(YearOn(months), order[..i]) + [Closed(YearSum(months, order[i]))]
  {
    assert order[..i + 1] == order[..i] + [order[i]];
    MapSnoc(YearOn(months), order[..i], order[i]);
  }

  // ---------------------------------------------------------------------------
  // The grid
  // ---------------------------------------------------------------------------

  /** The first of the months that is this one. */
  function Find(months: seq<Period>, year: int, month: int): Option<Period> {
    if months == [] then None
    else if months[0].year == year && months[0].month == Some(month) then Some(months[0])
    else Find(months[1..], year, month)
  }

  function RowOn(months: seq<Period>, total: Period): (row: GridRow)
    ensures |row.months| == 12
  {
    GridRow(total.year, seq(12, i requires 0 <= i < 12 => Find(months, total.year, i + 1)), total)
  }

  function GridOn(months: seq<Period>): Period -> GridRow {
    (total: Period) => RowOn(months, total)
  }

  function Grid(months: seq<Period>): seq<GridRow> {
    Map(GridOn(months), YearRows(months))
  }

  method MonthGrid(months: seq<Period>) returns (grid: seq<GridRow>)
    ensures grid == Grid(months)
  {
    var years := YearlyReturns(months);
    grid := Map(GridOn(months), years);
  }
}
