/** What the monthly and yearly returns of one book have to do with each other and with the book. */
module PeriodLaws {
  import opened AnalyticsTypes
  import opened Grouping
  import opened Metrics
  import opened Periods
  import opened PeriodFacts

  // ---------------------------------------------------------------------------
  // Opening balances
  // ---------------------------------------------------------------------------

  /** Each month opens with the starting balance and everything closed in earlier months. */
  lemma OpeningIsEarlierProfit(trades: seq<Trade>, calendar: int -> Month, start: real, i: nat)
    requires ValidCalendar(calendar) && i < |MonthRows(trades, calendar, start)|
    ensures var m, row := MonthsTraded(trades, calendar)[i], MonthRows(trades, calendar, start)[i];
            var opening := start + TallyOf(Earlier(trades, calendar, m)).net;
            RowOf(row, m, opening, TallyOf(GroupOf(trades, MonthKey(calendar), m)).net)
  {
    var months := MonthsTraded(trades, calendar);
    SumOfMonth(trades, calendar, months, i);
    RolledRow(Map(SumOn(trades, calendar), months), start, i, months[i]);
    NetBefore(trades, calendar, i);
  }

  /**
   The rows of every book form a ledger: each opens where the one before it closed, months of the
   calendar ascend, and a percentage is there exactly when start and opening balance are positive.
   */
  lemma RowsAreLedger(trades: seq<Trade>, calendar: int -> Month, start: real)
    requires ValidCalendar(calendar)
    ensures Ledger(MonthRows(trades, calendar, start), start > 0.0)
  {
    SumsAreCalendared(trades, calendar);
    RolledIsLedger(Map(SumOn(trades, calendar), MonthsTraded(trades, calendar)), start);
  }

  /** The rates of a row are what they are rates of: wins of trades, and the net of the opening balance. */
  ghost predicate Rates(p: Period) {
    && (if p.trades == 0 then p.winRate == 0.0 else p.winRate * p.trades as real == 100.0 * p.wins as real)
    && (p.percent.Some? ==> p.openingBalance > 0.0 && p.percent.value * p.openingBalance == 100.0 * p.net)
  }

  lemma OpenedRates(p: Period, balance: real, measurable: bool)
    ensures Rates(Opened(p, balance, measurable))
  {
  }

  lemma ClosedRates(p: Period)
    ensures Rates(Closed(p))
  {
  }

  lemma MonthRowIs(trades: seq<Trade>, calendar: int -> Month, start: real, i: nat) returns (balance: real)
    requires i < |MonthRows(trades, calendar, start)|
    ensures |MonthRows(trades, calendar, start)| == |MonthsTraded(trades, calendar)|
    ensures MonthRows(trades, calendar, start)[i] ==
            Opened(MonthSum(trades, calendar, MonthsTraded(trades, calendar)[i]), balance, start > 0.0)
  {
    var months := MonthsTraded(trades, calendar);
    var sums := Map(SumOn(trades, calendar), months);
    balance := start + NetOf(sums[..i]);
    RolledAt(sums, start, i);
    assert sums[i] == SumOn(trades, calendar)(months[i]);
  }

  /** Every month shows the trades and wins of its own trades, and the rates of them. */
  lemma MonthRates(trades: seq<Trade>, calendar: int -> Month, start: real, i: nat)
    requires i < |MonthRows(trades, calendar, start)|
    ensures |MonthRows(trades, calendar, start)| == |MonthsTraded(trades, calendar)|
    ensures var row := MonthRows(trades, calendar, start)[i];
            var m := BookMetrics(GroupOf(trades, MonthKey(calendar), MonthsTraded(trades, calendar)[i]));
            Rates(row) && row.trades == m.count && row.wins == m.wins
  {
    var balance := MonthRowIs(trades, calendar, start, i);
    var m := MonthsTraded(trades, calendar)[i];
    OpenedRates(MonthSum(trades, calendar, m), balance, start > 0.0);
    BookFigures(GroupOf(trades, MonthKey(calendar), m));
  }

  /** And every year the rates of its own figures. */
  lemma YearRates(months: seq<Period>, i: nat)
    requires i < |YearRows(months)|
    ensures Rates(YearRows(months)[i])
  {
    ClosedRates(YearSum(months, YearsTraded(months)[i]));
    assert YearRows(months)[i] == YearOn(months)(YearsTraded(months)[i]);
  }

  // ---------------------------------------------------------------------------
  // Compounding
  // ---------------------------------------------------------------------------

  lemma LedgerCompounds(rows: seq<Period>, measurable: bool, year: int)
    requires Ledger(rows, measurable)
    requires var g := GroupOf(rows, YearKey(), year);
             g != [] && forall i :: 0 <= i < |g| ==> g[i].percent.Some?
    ensures var g := GroupOf(rows, YearKey(), year);
            g[0].openingBalance > 0.0 && Compound(g) == 1.0 + PercentOf(NetOf(g), g[0].openingBalance) / 100.0
  {
    var g := GroupOf(rows, YearKey(), year);
    GroupChains(rows, measurable, year);
    GroupIsMeasured(rows, measurable, year);
    ChainCompounds(g);
  }

  lemma ChainCompounds(g: seq<Period>)
    requires g != [] && Chain(g) && Measured(g)
    ensures g[0].openingBalance > 0.0 && Compound(g) == 1.0 + PercentOf(NetOf(g), g[0].openingBalance) / 100.0
  {
    var first, product := g[0].openingBalance, Compound(g);
    assert first > 0.0;
    Telescopes(g);
    GrowthRatio(product, first, NetOf(g));
  }

  /** Months that all have a percentage compound to exactly the year's. */
  lemma {:induction false} Compounding(trades: seq<Trade>, calendar: int -> Month, start: real, year: int)
    requires ValidCalendar(calendar)
    requires var g := GroupOf(MonthRows(trades, calendar, start), YearKey(), year);
             g != [] && forall i :: 0 <= i < |g| ==> g[i].percent.Some?
    ensures var rows := MonthRows(trades, calendar, start);
            var total := YearOn(rows)(year);
            && total.percent.Some?
            && Compound(GroupOf(rows, YearKey(), year)) == 1.0 + total.percent.value / 100.0
  {
    var rows := MonthRows(trades, calendar, start);
    RowsAreLedger(trades, calendar, start);
    LedgerCompounds(rows, start > 0.0, year);
  }

  /**
   A year can show a percentage over a row of blank months: exactly when the account has no
   usable starting balance and the year nevertheless opens above zero.
   */
  lemma YearPercentOverBlankMonths(trades: seq<Trade>, calendar: int -> Month, start: real, year: int)
    requires ValidCalendar(calendar)
    requires GroupOf(MonthRows(trades, calendar, start), YearKey(), year) != []
    ensures var g := GroupOf(MonthRows(trades, calendar, start), YearKey(), year);
            var total := YearOn(MonthRows(trades, calendar, start))(year);
            (total.percent.Some? && forall i :: 0 <= i < |g| ==> g[i].percent.None?) <==>
            start <= 0.0 && g[0].openingBalance > 0.0
  {
    var rows := MonthRows(trades, calendar, start);
    var g := GroupOf(rows, YearKey(), year);
    RowsAreLedger(trades, calendar, start);
    forall i | 0 <= i < |g|
      ensures GoodRow(g[i], start > 0.0)
    {
      GroupMembers(rows, year, i);
    }
  }

  // ---------------------------------------------------------------------------
  // It happens that a year has a percentage over blank months
  // ---------------------------------------------------------------------------

  function NewYear(): int -> Month {
    (t: int) => if t < 1 then Month(2023, 12) else Month(2024, 1)
  }

  function TurnOfTheYear(t: Trade): seq<Trade> {
    [t.(closeAt := 0, profit := 100.0), t.(closeAt := 1, profit := 50.0)]
  }

  /** It happens: no deposit recorded, 100 made in December and 50 in January. */
  lemma YearPercentOverBlankMonthsHappens(t: Trade)
    ensures var rows := MonthRows(TurnOfTheYear(t), NewYear(), 0.0);
            var g := GroupOf(rows, YearKey(), 2024);
            g != [] && YearOn(rows)(2024).percent.Some? && forall i :: 0 <= i < |g| ==> g[i].percent.None?
  {
    JanuaryIsTraded(t);
    JanuaryOpening(t);
    YearPercentOverBlankMonths(TurnOfTheYear(t), NewYear(), 0.0, 2024);
  }

  lemma JanuaryIsTraded(t: Trade)
    ensures GroupOf(MonthRows(TurnOfTheYear(t), NewYear(), 0.0), YearKey(), 2024) != []
  {
    var trades := TurnOfTheYear(t);
    var months, rows := MonthsTraded(trades, NewYear()), MonthRows(trades, NewYear(), 0.0);
    MonthsTradedAre(trades, NewYear());
    assert MonthKey(NewYear())(trades[1]) in months;
    var i :| 0 <= i < |months| && months[i] == Month(2024, 1);
    OpeningIsEarlierProfit(trades, NewYear(), 0.0, i);
    KeysInOrderAre(rows, YearKey());
    assert YearKey()(rows[i]) == 2024;
    GroupIffInUse(rows, 2024);
  }

  lemma JanuaryOpening(t: Trade)
    requires GroupOf(MonthRows(TurnOfTheYear(t), NewYear(), 0.0), YearKey(), 2024) != []
    ensures GroupOf(MonthRows(TurnOfTheYear(t), NewYear(), 0.0), YearKey(), 2024)[0].openingBalance == 100.0
  {
    var trades := TurnOfTheYear(t);
    var rows := MonthRows(trades, NewYear(), 0.0);
    GroupMembers(rows, 2024, 0);
    var j :| 0 <= j < |rows| && rows[j] == GroupOf(rows, YearKey(), 2024)[0];
    OpeningIsEarlierProfit(trades, NewYear(), 0.0, j);
    JanuaryOnly(trades, MonthsTraded(trades, NewYear()), j);
    OnlyDecemberIsEarlier(trades[0], trades[1]);
    NetOfOne(trades[0]);
  }

  lemma JanuaryOnly(trades: seq<Trade>, months: seq<Month>, j: nat)
    requires months == MonthsTraded(trades, NewYear()) && j < |months| && months[j].year == 2024
    ensures months[j] == Month(2024, 1)
  {
    KeysInOrderAre(trades, MonthKey(NewYear()));
    SortedKeys(KeysInOrder(trades, MonthKey(NewYear())), ByRank(MonthRank()));
    assert months[j] in KeysInOrder(trades, MonthKey(NewYear()));
    assert InUse(trades, MonthKey(NewYear()), months[j]);
  }

  lemma OnlyDecemberIsEarlier(december: Trade, january: Trade)
    requires december.closeAt == 0 && january.closeAt == 1
    ensures Earlier([december, january], NewYear(), Month(2024, 1)) == [december]
  {
    var trades := [december, january];
    assert trades[..1] == [december] && [december][..0] == [];
    assert Earlier([december], NewYear(), Month(2024, 1)) == [] + [december];
    assert Earlier(trades, NewYear(), Month(2024, 1)) == [december] + [];
  }

  lemma NetOfOne(t: Trade)
    ensures TallyOf([t]).net == t.profit
  {
    TallyOneMore([], t);
    assert [] + [t] == [t];
  }

  // ---------------------------------------------------------------------------
  // Years add up to the book
  // ---------------------------------------------------------------------------

  lemma YearsAddUp(months: seq<Period>)
    ensures NetOf(YearRows(months)) == NetOf(months)
  {
    var years := YearsTraded(months);
    KeysInOrderAre(months, YearKey());
    SortedKeys(KeysInOrder(months, YearKey()), ByRank(SelfRank()));
    NetOfYears(months, years);
    PeriodNetIsAdditive();
    GroupsAddUp(months, YearKey(), years, NetOfPeriods());
    KeptAll(months, YearKey(), years);
  }

  lemma MonthsAddUp(trades: seq<Trade>, calendar: int -> Month, start: real)
    ensures NetOf(MonthRows(trades, calendar, start)) == TallyOf(trades).net
  {
    var months := MonthsTraded(trades, calendar);
    RollingKeepsNet(Map(SumOn(trades, calendar), months), start);
    NetOfMonths(trades, calendar, months);
    MonthsTradedCover(trades, calendar);
    NetIsAdditive();
    GroupsAddUp(trades, MonthKey(calendar), months, NetFigure());
    KeptAll(trades, MonthKey(calendar), months);
  }

  /** The years' nets add up to the net the dashboard shows for the same book. */
  lemma {:induction false} YearsSumToBook(trades: seq<Trade>, calendar: int -> Month, start: real)
    ensures NetOf(YearRows(MonthRows(trades, calendar, start))) == BookMetrics(trades).net
  {
    YearsAddUp(MonthRows(trades, calendar, start));
    MonthsAddUp(trades, calendar, start);
    BookFigures(trades);
  }

  // ---------------------------------------------------------------------------
  // The grid
  // ---------------------------------------------------------------------------

  /** Every row's total is the sum of its twelve cells. */
  lemma {:induction false} RowTotalIsItsCells(rows: seq<Period>, measurable: bool, year: int)
    requires Ledger(rows, measurable)
    ensures CellsNet(Cells(rows, year)) == YearSum(rows, year).net
  {
    if rows == [] {
      EmptyCells(Cells(rows, year));
    } else {
      var init, last := rows[..|rows| - 1], rows[|rows| - 1];
      var group := GroupOf(init, YearKey(), year);
      RowTotalIsItsCells(init, measurable, year);
      CellsStep(rows, measurable, year);
      SumsOneMore(group, last);
      assert group + [] == group;
      if last.year == year {
        FilledCell(Cells(init, year), last.month.value - 1, last);
      }
    }
  }

  ghost predicate InGrid(grid: seq<GridRow>, p: Period) {
    exists r: nat, c: nat :: InCell(grid, r, c, p)
  }

  /** The months of a ledger, and nothing else, stand in the grid. */
  lemma {:induction false} GridHoldsTheMonths(months: seq<Period>, measurable: bool, p: Period)
    requires Ledger(months, measurable)
    ensures p in months <==> InGrid(Grid(months), p)
  {
    if p in months {
      MonthHasCell(months, measurable, p);
    }
    if InGrid(Grid(months), p) {
      var r: nat, c: nat :| InCell(Grid(months), r, c, p);
      CellMatches(months, r, c, p);
    }
  }

  /** No month stands in two cells. */
  lemma {:induction false} GridHoldsEachMonthOnce(months: seq<Period>, p: Period, r: nat, c: nat, r': nat, c': nat)
    requires InCell(Grid(months), r, c, p) && InCell(Grid(months), r', c', p)
    ensures r == r' && c == c'
  {
    CellMatches(months, r, c, p);
    CellMatches(months, r', c', p);
    YearsAreDistinct(months);
  }

  /** Every row's total is what its cells add up to. */
  lemma GridRowsAddUp(months: seq<Period>, measurable: bool, r: nat)
    requires Ledger(months, measurable) && r < |Grid(months)|
    ensures var row := Grid(months)[r]; row.total.net == CellsNet(row.months)
  {
    GridRowIs(months, r);
    RowTotalIsItsCells(months, measurable, YearsTraded(months)[r]);
  }
}
