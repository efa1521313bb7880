/**
 What the laws of the period returns are stated in and rest on: the trades of earlier months, the
 ledger that a book's rows form, chains of balances and their products, sums of nets, and the
 cells of the grid.

 The laws themselves are in PeriodLaws.
 */
module PeriodFacts {
  import opened Prelude
  import opened AnalyticsTypes
  import opened Grouping
  import opened Metrics
  import opened Periods

  // ---------------------------------------------------------------------------
  // Opening balances
  // ---------------------------------------------------------------------------

  /** The trades closed in an earlier month. */
  function Earlier(trades: seq<Trade>, calendar: int -> Month, m: Month): seq<Trade> {
    if trades == [] then []
    else
      var init, last := trades[..|trades| - 1], trades[|trades| - 1];
      Earlier(init, calendar, m) + if MonthRank()(calendar(last.closeAt)) < MonthRank()(m) then [last] else []
  }

  lemma {:induction false} RolledAt(periods: seq<Period>, start: real, i: nat)
    requires i < |periods|
    ensures Rolled(periods, start)[i] == Opened(periods[i], start + NetOf(periods[..i]), start > 0.0)
  {
    var init := periods[..|periods| - 1];
    if i < |periods| - 1 {
      RolledAt(init, start, i);
      assert init[..i] == periods[..i];
    }
  }

  ghost predicate StrictlyRanked(months: seq<Month>) {
    forall i, j :: 0 <= i < j < |months| ==> MonthRank()(months[i]) < MonthRank()(months[j])
  }

  ghost predicate MonthInRange(m: Month) {
    1 <= m.month <= 12
  }

  lemma RankInjective(a: Month, b: Month)
    requires MonthInRange(a) && MonthInRange(b) && MonthRank()(a) == MonthRank()(b)
    ensures a == b
  {
  }

  /** Every month traded is there once, whatever the wall clock reads. */
  lemma MonthsTradedCover(trades: seq<Trade>, calendar: int -> Month)
    ensures var months := MonthsTraded(trades, calendar);
            && Distinct(months) && Covers(months, trades, MonthKey(calendar))
            && forall m :: m in months <==> m in KeysInOrder(trades, MonthKey(calendar))
  {
    KeysInOrderAre(trades, MonthKey(calendar));
    SortedKeys(KeysInOrder(trades, MonthKey(calendar)), ByRank(MonthRank()));
  }

  lemma MonthsTradedAre(trades: seq<Trade>, calendar: int -> Month)
    requires ValidCalendar(calendar)
    ensures var months := MonthsTraded(trades, calendar);
            && Distinct(months) && StrictlyRanked(months)
            && Covers(months, trades, MonthKey(calendar))
            && (forall m :: m in months ==> MonthInRange(m))
  {
    var used, months := KeysInOrder(trades, MonthKey(calendar)), MonthsTraded(trades, calendar);
    KeysInOrderAre(trades, MonthKey(calendar));
    MonthsTradedCover(trades, calendar);
    SortRanks(used, MonthRank());
    forall m | m in months
      ensures MonthInRange(m)
    {
      assert InUse(trades, MonthKey(calendar), m);
    }
    forall i, j | 0 <= i < j < |months|
      ensures MonthRank()(months[i]) < MonthRank()(months[j])
    {
      RankedPairs(months, MonthRank(), i, j);
      if MonthRank()(months[i]) == MonthRank()(months[j]) {
        RankInjective(months[i], months[j]);
      }
    }
  }

  lemma {:induction false} KeptIsEarlier(trades: seq<Trade>, calendar: int -> Month, months: seq<Month>, i: nat)
    requires i < |months| && StrictlyRanked(months) && Covers(months, trades, MonthKey(calendar))
    ensures Kept(trades, MonthKey(calendar), months[..i]) == Earlier(trades, calendar, months[i])
  {
    if trades != [] {
      var init, m := trades[..|trades| - 1], calendar(trades[|trades| - 1].closeAt);
      KeptIsEarlier(init, calendar, months, i);
      assert MonthKey(calendar)(trades[|trades| - 1]) == m;
      var k :| 0 <= k < |months| && months[k] == m;
      assert m in months[..i] <==> k < i by {
        if k < i {
          assert months[..i][k] == m;
        }
      }
    }
  }

  function NetFigure(): seq<Trade> -> real {
    (trades: seq<Trade>) => TallyOf(trades).net
  }

  lemma NetIsAdditive()
    ensures Additive(NetFigure())
  {
    forall trades: seq<Trade>, t: Trade
      ensures NetFigure()(trades + [t]) == NetFigure()(trades) + NetFigure()([t])
    {
      TallyAppend(trades, [t]);
    }
  }

  lemma {:induction false} NetOfAppend(a: seq<Period>, b: seq<Period>)
    ensures NetOf(a + b) == NetOf(a) + NetOf(b)
    decreases b
  {
    if b == [] {
      assert a + b == a;
    } else {
      assert (a + b)[..|a + b| - 1] == a + b[..|b| - 1];
      NetOfAppend(a, b[..|b| - 1]);
    }
  }

  lemma {:induction false} NetOfMonths(trades: seq<Trade>, calendar: int -> Month, months: seq<Month>)
    ensures NetOf(Map(SumOn(trades, calendar), months)) == KeyTotals(trades, MonthKey(calendar), months, NetFigure())
  {
    if months != [] {
      var first := MonthSum(trades, calendar, months[0]);
      NetOfMonths(trades, calendar, months[1..]);
      NetOfAppend([first], Map(SumOn(trades, calendar), months[1..]));
      assert NetOf([first]) == NetOf([]) + first.net;
    }
  }

  lemma {:induction false} MapTake<K, V>(f: K -> V, keys: seq<K>, i: nat)
    requires i <= |keys|
    ensures Map(f, keys)[..i] == Map(f, keys[..i])
  {
  }

  lemma NetBefore(trades: seq<Trade>, calendar: int -> Month, i: nat)
    requires ValidCalendar(calendar) && i < |MonthsTraded(trades, calendar)|
    ensures var months := MonthsTraded(trades, calendar);
            NetOf(Map(SumOn(trades, calendar), months)[..i]) == TallyOf(Earlier(trades, calendar, months[i])).net
  {
    var months := MonthsTraded(trades, calendar);
    MonthsTradedAre(trades, calendar);
    MapTake(SumOn(trades, calendar), months, i);
    NetOfMonths(trades, calendar, months[..i]);
    NetIsAdditive();
    assert Distinct(months[..i]);
    GroupsAddUp(trades, MonthKey(calendar), months[..i], NetFigure());
    KeptIsEarlier(trades, calendar, months, i);
  }

  /** The row of month `m`. */
  ghost predicate RowOf(row: Period, m: Month, opening: real, net: real) {
    && row.year == m.year && row.month == Some(m.month)
    && row.openingBalance == opening && row.net == net
  }

  lemma RolledRow(periods: seq<Period>, start: real, i: nat, m: Month)
    requires i < |periods| && periods[i].year == m.year && periods[i].month == Some(m.month)
    ensures RowOf(Rolled(periods, start)[i], m, start + NetOf(periods[..i]), periods[i].net)
  {
    RolledAt(periods, start, i);
  }

  lemma SumOfMonth(trades: seq<Trade>, calendar: int -> Month, months: seq<Month>, i: nat)
    requires i < |months|
    ensures var sum := Map(SumOn(trades, calendar), months)[i];
            && sum.year == months[i].year && sum.month == Some(months[i].month)
            && sum.net == TallyOf(GroupOf(trades, MonthKey(calendar), months[i])).net
  {
    assert Map(SumOn(trades, calendar), months)[i] == SumOn(trades, calendar)(months[i]);
  }

  // ---------------------------------------------------------------------------
  // The ledger of a book
  // ---------------------------------------------------------------------------

  /** A row opens where the one before it closed, in a later month. */
  ghost predicate Follows(a: Period, b: Period) {
    && b.openingBalance == a.openingBalance + a.net
    && PeriodRank()(a) < PeriodRank()(b)
    && a.year <= b.year
  }

  ghost predicate GoodRow(p: Period, measurable: bool) {
    && p.month.Some? && 1 <= p.month.value <= 12
    && p.percent == PercentWhere(p.net, p.openingBalance, measurable)
  }

  ghost predicate Ledger(rows: seq<Period>, measurable: bool) {
    && (forall i :: 0 <= i < |rows| ==> GoodRow(rows[i], measurable))
    && (forall i :: 0 < i < |rows| ==> Follows(rows[i - 1], rows[i]))
  }

  /** Months of the calendar, in order. */
  ghost predicate Calendared(periods: seq<Period>) {
    && (forall i :: 0 <= i < |periods| ==> periods[i].month.Some? && 1 <= periods[i].month.value <= 12)
    && (forall i :: 0 < i < |periods| ==> PeriodRank()(periods[i - 1]) < PeriodRank()(periods[i]))
  }

  lemma {:induction false} RolledIsLedger(periods: seq<Period>, start: real)
    requires Calendared(periods)
    ensures Ledger(Rolled(periods, start), start > 0.0)
    ensures var r := Rolled(periods, start);
            r != [] ==> var last := r[|r| - 1];
              && last.openingBalance + last.net == start + NetOf(periods)
              && last.year == periods[|r| - 1].year && last.month == periods[|r| - 1].month
  {
    if periods != [] {
      var init, last := periods[..|periods| - 1], periods[|periods| - 1];
      RolledIsLedger(init, start);
      LedgerSnoc(Rolled(init, start), Opened(last, start + NetOf(init), start > 0.0), start > 0.0);
    }
  }

  lemma LedgerSnoc(rows: seq<Period>, row: Period, measurable: bool)
    requires Ledger(rows, measurable) && GoodRow(row, measurable)
    requires rows != [] ==> Follows(rows[|rows| - 1], row)
    ensures Ledger(rows + [row], measurable)
  {
  }

  lemma {:induction false} SumsAreCalendared(trades: seq<Trade>, calendar: int -> Month)
    requires ValidCalendar(calendar)
    ensures Calendared(Map(SumOn(trades, calendar), MonthsTraded(trades, calendar)))
  {
    var months := MonthsTraded(trades, calendar);
    var sums := Map(SumOn(trades, calendar), months);
    MonthsTradedAre(trades, calendar);
    forall i | 0 <= i < |sums|
      ensures sums[i].month == Some(months[i].month) && MonthInRange(months[i])
      ensures PeriodRank()(sums[i]) == MonthRank()(months[i])
    {
      assert sums[i] == SumOn(trades, calendar)(months[i]);
    }
  }

  // ---------------------------------------------------------------------------
  // Compounding
  // ---------------------------------------------------------------------------

  /** The product of (1 + percent / 100). */
  function Compound(rows: seq<Period>): real
    requires forall i :: 0 <= i < |rows| ==> rows[i].percent.Some?
  {
    if rows == [] then 1.0
    else Grown(Compound(rows[..|rows| - 1]), rows[|rows| - 1].percent.value)
  }

  /** What an amount is after growing by a percentage. */
  function Grown(amount: real, percent: real): real {
    amount * (1.0 + percent / 100.0)
  }

  ghost predicate Chain(rows: seq<Period>) {
    |rows| > 1 ==>
      && Chain(rows[..|rows| - 1])
      && rows[|rows| - 1].openingBalance == rows[|rows| - 2].openingBalance + rows[|rows| - 2].net
  }

  ghost predicate Measured(rows: seq<Period>) {
    forall i :: 0 <= i < |rows| ==>
      rows[i].openingBalance > 0.0 && rows[i].percent == Some(PercentOf(rows[i].net, rows[i].openingBalance))
  }

  function Product(a: real, b: real): real {
    a * b
  }

  lemma GrowthStep(product: real, first: real, opening: real, net: real)
    requires Product(product, first) == opening && opening > 0.0
    ensures Product(Grown(product, PercentOf(net, opening)), first) == opening + net
  {
    var growth := net / opening;
    assert PercentOf(net, opening) / 100.0 == growth;
    assert growth * opening == net;
    assert product * (1.0 + growth) * first == product * first + growth * (product * first);
  }

  /** One more month: what the balance had grown by, times the month's growth. */
  lemma TelescopeStep(rows: seq<Period>, first: real)
    requires rows != [] && Measured(rows)
    requires Product(Compound(rows[..|rows| - 1]), first) == rows[|rows| - 1].openingBalance
    ensures var last := rows[|rows| - 1]; Product(Compound(rows), first) == last.openingBalance + last.net
  {
    var last := rows[|rows| - 1];
    GrowthStep(Compound(rows[..|rows| - 1]), first, last.openingBalance, last.net);
  }

  lemma {:induction false} Telescopes(rows: seq<Period>)
    requires rows != [] && Chain(rows) && Measured(rows)
    ensures var last := rows[|rows| - 1];
            && Product(Compound(rows), rows[0].openingBalance) == last.openingBalance + last.net
            && rows[0].openingBalance + NetOf(rows) == last.openingBalance + last.net
  {
    var init := rows[..|rows| - 1];
    if init == [] {
      assert Compound(init) == 1.0 && NetOf(init) == 0.0;
    } else {
      Telescopes(init);
      assert init[|init| - 1] == rows[|rows| - 2] && init[0] == rows[0];
    }
    TelescopeStep(rows, rows[0].openingBalance);
  }

  /** A year's months form a chain: they stand next to each other in the ledger. */
  lemma {:induction false} GroupChains(rows: seq<Period>, measurable: bool, year: int)
    requires Ledger(rows, measurable)
    ensures var g := GroupOf(rows, YearKey(), year);
            && Chain(g)
            && (g != [] ==> rows[|rows| - 1].year >= year)
            && (g != [] && rows[|rows| - 1].year == year ==> g[|g| - 1] == rows[|rows| - 1])
  {
    if rows != [] {
      var init, last := rows[..|rows| - 1], rows[|rows| - 1];
      var before := GroupOf(init, YearKey(), year);
      GroupChains(init, measurable, year);
      var g := before + [last];
      assert g[..|g| - 1] == before && before + [] == before;
      assert init != [] ==> Follows(init[|init| - 1], last);
    }
  }

  lemma {:induction false} GroupMembers(rows: seq<Period>, year: int, i: nat)
    requires i < |GroupOf(rows, YearKey(), year)|
    ensures GroupOf(rows, YearKey(), year)[i] in rows && GroupOf(rows, YearKey(), year)[i].year == year
  {
    var init := rows[..|rows| - 1];
    if i < |GroupOf(init, YearKey(), year)| {
      GroupMembers(init, year, i);
    }
  }

  lemma GroupIsMeasured(rows: seq<Period>, measurable: bool, year: int)
    requires Ledger(rows, measurable)
    requires var g := GroupOf(rows, YearKey(), year); forall i :: 0 <= i < |g| ==> g[i].percent.Some?
    ensures Measured(GroupOf(rows, YearKey(), year))
  {
    var g := GroupOf(rows, YearKey(), year);
    forall i | 0 <= i < |g|
      ensures g[i].openingBalance > 0.0 && g[i].percent == Some(PercentOf(g[i].net, g[i].openingBalance))
    {
      GroupMembers(rows, year, i);
      assert GoodRow(g[i], measurable);
    }
  }

  lemma GrowthRatio(product: real, first: real, net: real)
    requires Product(product, first) == first + net && first > 0.0
    ensures product == 1.0 + PercentOf(net, first) / 100.0
  {
    var growth := net / first;
    assert growth * first == net;
    Cancel(product, 1.0 + growth, first);
  }

  lemma Cancel(a: real, b: real, c: real)
    requires a * c == b * c && c > 0.0
    ensures a == b
  {
    assert a == a * c / c && b == b * c / c;
  }

  // ---------------------------------------------------------------------------
  // Sums of nets
  // ---------------------------------------------------------------------------

  function NetOfPeriods(): seq<Period> -> real {
    (periods: seq<Period>) => NetOf(periods)
  }

  lemma PeriodNetIsAdditive()
    ensures Additive(NetOfPeriods())
  {
    forall periods: seq<Period>, p: Period
      ensures NetOfPeriods()(periods + [p]) == NetOfPeriods()(periods) + NetOfPeriods()([p])
    {
      NetOfAppend(periods, [p]);
    }
  }

  lemma {:induction false} NetOfYears(months: seq<Period>, years: seq<int>)
    ensures NetOf(Map(YearOn(months), years)) == KeyTotals(months, YearKey(), years, NetOfPeriods())
  {
    if years != [] {
      var first := YearOn(months)(years[0]);
      NetOfYears(months, years[1..]);
      NetOfAppend([first], Map(YearOn(months), years[1..]));
      assert NetOf([first]) == NetOf([]) + first.net;
    }
  }

  lemma {:induction false} RollingKeepsNet(periods: seq<Period>, start: real)
    ensures NetOf(Rolled(periods, start)) == NetOf(periods)
  {
    if periods != [] {
      var init, last := periods[..|periods| - 1], periods[|periods| - 1];
      RollingKeepsNet(init, start);
      SumsOneMore(Rolled(init, start), Opened(last, start + NetOf(init), start > 0.0));
    }
  }

  // ---------------------------------------------------------------------------
  // The grid
  // ---------------------------------------------------------------------------

  ghost predicate Matches(p: Period, year: int, month: int) {
    p.year == year && p.month == Some(month)
  }

  lemma {:induction false} FindSnoc(rows: seq<Period>, p: Period, year: int, month: int)
    ensures Find(rows + [p], year, month) ==
            if Find(rows, year, month).Some? then Find(rows, year, month)
            else if Matches(p, year, month) then Some(p) else None
  {
    if rows != [] {
      assert (rows + [p])[1..] == rows[1..] + [p];
      FindSnoc(rows[1..], p, year, month);
    }
  }

  lemma {:induction false} Found(rows: seq<Period>, year: int, month: int)
    ensures var f := Find(rows, year, month);
            if f.Some? then f.value in rows && Matches(f.value, year, month)
            else forall p :: p in rows ==> !Matches(p, year, month)
  {
    if rows != [] {
      Found(rows[1..], year, month);
    }
  }

  lemma {:induction false} LedgerAscends(rows: seq<Period>, measurable: bool, i: nat, j: nat)
    requires Ledger(rows, measurable) && i < j < |rows|
    ensures PeriodRank()(rows[i]) < PeriodRank()(rows[j])
  {
    assert Follows(rows[j - 1], rows[j]);
    if i < j - 1 {
      LedgerAscends(rows, measurable, i, j - 1);
    }
  }

  /** A ledger has each month once. */
  lemma NotFoundBefore(rows: seq<Period>, measurable: bool)
    requires Ledger(rows, measurable) && rows != []
    ensures var last := rows[|rows| - 1]; Find(rows[..|rows| - 1], last.year, last.month.GetOr(0)) == None
  {
    var n := |rows| - 1;
    var last := rows[n];
    Found(rows[..n], last.year, last.month.GetOr(0));
    forall i | 0 <= i < n
      ensures !Matches(rows[..n][i], last.year, last.month.GetOr(0))
    {
      LedgerAscends(rows, measurable, i, n);
    }
  }

  function Cells(rows: seq<Period>, year: int): (cells: seq<Option<Period>>)
    ensures |cells| == 12
  {
    seq(12, i requires 0 <= i < 12 => Find(rows, year, i + 1))
  }

  function CellsNet(cells: seq<Option<Period>>): real {
    if cells == [] then 0.0 else (if cells[0].Some? then cells[0].value.net else 0.0) + CellsNet(cells[1..])
  }

  lemma {:induction false} FilledCell(cells: seq<Option<Period>>, c: nat, p: Period)
    requires c < |cells| && cells[c] == None
    ensures CellsNet(cells[c := Some(p)]) == CellsNet(cells) + p.net
  {
    if c > 0 {
      FilledCell(cells[1..], c - 1, p);
      assert cells[c := Some(p)][1..] == cells[1..][c - 1 := Some(p)];
    } else {
      assert cells[c := Some(p)][1..] == cells[1..];
    }
  }

  lemma {:induction false} EmptyCells(cells: seq<Option<Period>>)
    requires forall i :: 0 <= i < |cells| ==> cells[i] == None
    ensures CellsNet(cells) == 0.0
  {
    if cells != [] {
      EmptyCells(cells[1..]);
    }
  }

  lemma CellsStep(rows: seq<Period>, measurable: bool, year: int)
    requires Ledger(rows, measurable) && rows != []
    ensures var before, last := Cells(rows[..|rows| - 1], year), rows[|rows| - 1];
            if last.year == year then
              var c := last.month.GetOr(0) - 1;
              0 <= c < 12 && before[c] == None && Cells(rows, year) == before[c := Some(last)]
            else Cells(rows, year) == before
  {
    var init, last := rows[..|rows| - 1], rows[|rows| - 1];
    assert rows == init + [last];
    NotFoundBefore(rows, measurable);
    assert GoodRow(last, measurable);
    forall i | 0 <= i < 12
      ensures Cells(rows, year)[i] ==
              if Cells(init, year)[i].Some? then Cells(init, year)[i]
              else if Matches(last, year, i + 1) then Some(last) else None
    {
      FindSnoc(init, last, year, i + 1);
    }
  }

  ghost predicate InCell(grid: seq<GridRow>, r: nat, c: nat, p: Period) {
    r < |grid| && c < |grid[r].months| && grid[r].months[c] == Some(p)
  }

  lemma GridRowIs(months: seq<Period>, r: nat)
    requires r < |Grid(months)|
    ensures |YearRows(months)| == |YearsTraded(months)| == |Grid(months)|
    ensures var year, row := YearsTraded(months)[r], Grid(months)[r];
            && row.year == year && row.months == Cells(months, year) && row.total == YearOn(months)(year)
  {
    var total := YearRows(months)[r];
    assert total == YearOn(months)(YearsTraded(months)[r]);
    assert Grid(months)[r] == GridOn(months)(total);
  }

  lemma CellMatches(months: seq<Period>, r: nat, c: nat, p: Period)
    requires InCell(Grid(months), r, c, p)
    ensures r < |YearsTraded(months)| && p in months && p.year == YearsTraded(months)[r] && p.month == Some(c + 1)
  {
    GridRowIs(months, r);
    Found(months, YearsTraded(months)[r], c + 1);
  }

  lemma YearsAreDistinct(months: seq<Period>)
    ensures Distinct(YearsTraded(months)) && Covers(YearsTraded(months), months, YearKey())
  {
    KeysInOrderAre(months, YearKey());
    SortedKeys(KeysInOrder(months, YearKey()), ByRank(SelfRank()));
  }

  lemma MonthHasCell(months: seq<Period>, measurable: bool, p: Period)
    requires Ledger(months, measurable) && p in months
    ensures exists r: nat, c: nat :: InCell(Grid(months), r, c, p)
  {
    var i :| 0 <= i < |months| && months[i] == p;
    var r := YearIndex(months, i);
    assert GoodRow(months[i], measurable);
    FindsTheRow(months, measurable, i);
    CellShows(months, r, p.month.value - 1);
    assert InCell(Grid(months), r, p.month.value - 1, p);
  }

  lemma YearIndex(months: seq<Period>, i: nat) returns (r: nat)
    requires i < |months|
    ensures r < |Grid(months)| && |Grid(months)| == |YearsTraded(months)| && YearsTraded(months)[r] == months[i].year
  {
    YearsAreDistinct(months);
    assert YearKey()(months[i]) in YearsTraded(months);
    r :| r < |YearsTraded(months)| && YearsTraded(months)[r] == months[i].year;
  }

  lemma CellShows(months: seq<Period>, r: nat, c: nat)
    requires r < |Grid(months)| && c < 12
    ensures |YearsTraded(months)| == |Grid(months)| && |Grid(months)[r].months| == 12
    ensures Grid(months)[r].months[c] == Find(months, YearsTraded(months)[r], c + 1)
  {
    GridRowIs(months, r);
  }

  lemma FindsTheRow(months: seq<Period>, measurable: bool, i: nat)
    requires Ledger(months, measurable) && i < |months| && months[i].month.Some?
    ensures Find(months, months[i].year, months[i].month.value) == Some(months[i])
  {
    Found(months, months[i].year, months[i].month.value);
    var f := Find(months, months[i].year, months[i].month.value);
    assert months[i] in months && Matches(months[i], months[i].year, months[i].month.value);
    var j :| 0 <= j < |months| && months[j] == f.value;
    if j < i {
      LedgerAscends(months, measurable, j, i);
    } else if i < j {
      LedgerAscends(months, measurable, i, j);
    }
  }
}
