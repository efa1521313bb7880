/** Totals over a list of closed trades, in one pass (src/lib/analytics/metrics.ts). */
module Metrics {
  import opened Prelude
  import opened AnalyticsTypes

  datatype Ratio = Finite(value: real) | Infinite

  datatype Metrics = Metrics(
    count: nat,
    net: real,
    wins: nat,
    losses: nat,
    winRate: real,
    grossWin: real,
    grossLoss: real,
    profitFactor: Ratio,
    avgWin: real,
    avgLoss: real,
    expectancy: real,
    avgRr: Option<real>,
    withRr: nat,
    rrPercent: real)

  function EmptyMetrics(): Metrics {
    Metrics(0, 0.0, 0, 0, 0.0, 0.0, 0.0, Finite(0.0), 0.0, 0.0, 0.0, None, 0, 0.0)
  }

  // ---------------------------------------------------------------------------
  // What is additive
  // ---------------------------------------------------------------------------

  /** Everything the metrics are read off; tallies of disjoint books add up. */
  datatype Tally = Tally(
    count: nat,
    net: real,
    wins: nat,
    grossWin: real,
    grossLoss: real,
    rrSum: real,
    rrCount: nat)

  function Zero(): Tally {
    Tally(0, 0.0, 0, 0.0, 0.0, 0.0, 0)
  }

  function Plus(a: Tally, b: Tally): Tally {
    Tally(a.count + b.count, a.net + b.net, a.wins + b.wins, a.grossWin + b.grossWin,
          a.grossLoss + b.grossLoss, a.rrSum + b.rrSum, a.rrCount + b.rrCount)
  }

  function One(t: Trade): Tally {
    var won := t.profit > 0.0;
    Tally(1, t.profit, if won then 1 else 0, if won then t.profit else 0.0, if won then 0.0 else -t.profit,
          t.rr.GetOr(0.0), if t.rr.Some? then 1 else 0)
  }

  function TallyOf(trades: seq<Trade>): Tally {
    if trades == [] then Zero() else Plus(TallyOf(trades[..|trades| - 1]), One(trades[|trades| - 1]))
  }

  lemma {:induction false} TallyAppend(a: seq<Trade>, b: seq<Trade>)
    ensures TallyOf(a + b) == Plus(TallyOf(a), TallyOf(b))
    decreases b
  {
    if b == [] {
      assert a + b == a;
      PlusZero(TallyOf(a));
    } else {
      var init, last := b[..|b| - 1], b[|b| - 1];
      var whole := a + b;
      assert whole[..|whole| - 1] == a + init && whole[|whole| - 1] == last;
      assert TallyOf(whole) == Plus(TallyOf(a + init), One(last));
      TallyAppend(a, init);
      assert TallyOf(b) == Plus(TallyOf(init), One(last));
      PlusAssociates(TallyOf(a), TallyOf(init), One(last));
      assert TallyOf(whole) == Plus(TallyOf(a), TallyOf(b));
    }
  }

  lemma PlusZero(t: Tally)
    ensures Plus(t, Zero()) == t
  {
  }

  lemma PlusAssociates(a: Tally, b: Tally, c: Tally)
    ensures Plus(Plus(a, b), c) == Plus(a, Plus(b, c))
  {
  }

  lemma TallyOneMore(trades: seq<Trade>, t: Trade)
    ensures TallyOf(trades + [t]) == Plus(TallyOf(trades), One(t))
  {
    assert (trades + [t])[..|trades|] == trades;
  }

  // ---------------------------------------------------------------------------
  // computeMetrics
  // ---------------------------------------------------------------------------

  function ProfitFactorOf(grossWin: real, grossLoss: real): Ratio {
    if grossLoss > 0.0 then Finite(grossWin / grossLoss) else if grossWin > 0.0 then Infinite else Finite(0.0)
  }

  /** A sum over `n` trades shared out among them; nothing when there are none. */
  function Mean(sum: real, n: nat): real {
    if n > 0 then sum / n as real else 0.0
  }

  function MetricsOf(t: Tally): Metrics
    requires t.wins <= t.count
  {
    if t.count == 0 then EmptyMetrics()
    else
      var losses := t.count - t.wins;
      Metrics(
        t.count, t.net, t.wins, losses,
        Mean(t.wins as real, t.count) * 100.0,
        t.grossWin, t.grossLoss, ProfitFactorOf(t.grossWin, t.grossLoss),
        Mean(t.grossWin, t.wins),
        Mean(t.grossLoss, losses),
        Mean(t.net, t.count),
        if t.rrCount > 0 then Some(Mean(t.rrSum, t.rrCount)) else None,
        t.rrCount,
        Mean(t.rrCount as real, t.count) * 100.0)
  }

  /** What the tally of any list of `n` trades satisfies. */
  ghost predicate Sound(t: Tally, n: nat) {
    && t.count == n
    && t.wins <= t.count && t.rrCount <= t.count
    && t.net == t.grossWin - t.grossLoss
    && t.grossWin >= 0.0 && t.grossLoss >= 0.0
    && (t.grossWin > 0.0 <==> t.wins > 0)
    && (t.wins == t.count ==> t.grossLoss == 0.0)
  }

  lemma {:induction false} TallyBounds(trades: seq<Trade>)
    ensures Sound(TallyOf(trades), |trades|)
  {
    if trades == [] {
      assert TallyOf(trades) == Zero();
    } else {
      var init, last := trades[..|trades| - 1], trades[|trades| - 1];
      TallyBounds(init);
      SoundStep(TallyOf(init), |init|, last);
    }
  }

  lemma SoundStep(t: Tally, n: nat, trade: Trade)
    requires Sound(t, n)
    ensures Sound(Plus(t, One(trade)), n + 1)
  {
  }

  function BookMetrics(trades: seq<Trade>): Metrics {
    TallyBounds(trades);
    MetricsOf(TallyOf(trades))
  }

  /** The figures that are read straight off the tally. */
  lemma BookFigures(trades: seq<Trade>)
    ensures var m, t := BookMetrics(trades), TallyOf(trades);
            && m.count == t.count == |trades| && m.net == t.net
            && m.wins == t.wins <= t.count && m.losses == t.count - t.wins
            && m.grossWin == t.grossWin && m.grossLoss == t.grossLoss && m.withRr == t.rrCount
  {
    TallyBounds(trades);
    FiguresOf(TallyOf(trades));
  }

  lemma FiguresOf(t: Tally)
    requires Sound(t, t.count)
    ensures var m := MetricsOf(t);
            && m.count == t.count && m.net == t.net
            && m.wins == t.wins <= t.count && m.losses == t.count - t.wins
            && m.grossWin == t.grossWin && m.grossLoss == t.grossLoss && m.withRr == t.rrCount
  {
  }

  lemma TallySnoc(trades: seq<Trade>, i: nat)
    requires i < |trades|
    ensures TallyOf(trades[..i + 1]) == Plus(TallyOf(trades[..i]), One(trades[i]))
  {
    assert trades[..i + 1][..i] == trades[..i];
  }

  method ComputeMetrics(trades: seq<Trade>) returns (m: Metrics)
    ensures m == BookMetrics(trades)
  {
    if |trades| == 0 {
      return EmptyMetrics();
    }
    var net, grossWin, grossLoss, rrSum := 0.0, 0.0, 0.0, 0.0;
    var wins: nat, rrCount: nat := 0, 0;
    for i := 0 to |trades|
      invariant Tally(i, net, wins, grossWin, grossLoss, rrSum, rrCount) == TallyOf(trades[..i])
    {
      var trade := trades[i];
      ghost var before := Tally(i, net, wins, grossWin, grossLoss, rrSum, rrCount);
      TallySnoc(trades, i);
      net := net + trade.profit;
      if trade.profit > 0.0 {
        wins := wins + 1;
        grossWin := grossWin + trade.profit;
      } else {
        grossLoss := grossLoss + -trade.profit;
      }
      if trade.rr.Some? {
        rrSum := rrSum + trade.rr.value;
        rrCount := rrCount + 1;
      }
      assert Tally(i + 1, net, wins, grossWin, grossLoss, rrSum, rrCount) == Plus(before, One(trade));
    }
    assert trades[..|trades|] == trades;
    TallyBounds(trades);
    var count := |trades|;
    var losses: nat := count - wins;
    m := Metrics(
      count, net, wins, losses,
      Mean(wins as real, count) * 100.0,
      grossWin, grossLoss, ProfitFactorOf(grossWin, grossLoss),
      Mean(grossWin, wins),
      Mean(grossLoss, losses),
      Mean(net, count),
      if rrCount > 0 then Some(Mean(rrSum, rrCount)) else None,
      rrCount,
      Mean(rrCount as real, count) * 100.0);
  }

  /**
   The figures of one book agree with each other: wins and losses make up the count, gross win
   less gross loss is the net, the averages weigh back to it, the percentages to what they are of,
   and the profit factor to the gross win; it is infinite exactly for a book that won and never
   lost money.
   */
  ghost predicate Coherent(m: Metrics) {
    && m.wins + m.losses == m.count
    && m.net == m.grossWin - m.grossLoss
    && m.net == Repeated(m.wins, m.avgWin) - Repeated(m.losses, m.avgLoss)
    && m.net == Repeated(m.count, m.expectancy)
    && Repeated(m.count, m.winRate) == 100.0 * m.wins as real
    && Repeated(m.count, m.rrPercent) == 100.0 * m.withRr as real
    && (m.profitFactor.Finite? && m.grossLoss > 0.0 ==> m.profitFactor.value * m.grossLoss == m.grossWin)
    && (m.wins == 0 ==> m.profitFactor == Finite(0.0))
    && (m.profitFactor.Infinite? <==> m.wins > 0 && m.grossLoss == 0.0)
    && (m.avgRr.None? <==> m.withRr == 0)
    && (m.wins == 0 ==> m.avgWin == 0.0)
    && (m.losses == 0 ==> m.avgLoss == 0.0)
    && (m.count == 0 ==> m.winRate == m.expectancy == m.rrPercent == 0.0)
  }

  /** `x` added up `n` times. */
  function Repeated(n: nat, x: real): real {
    if n == 0 then 0.0 else Repeated(n - 1, x) + x
  }

  lemma MetricsCohere(trades: seq<Trade>)
    ensures BookMetrics(trades).count == |trades| && Coherent(BookMetrics(trades))
  {
    TallyBounds(trades);
    SoundIsCoherent(TallyOf(trades));
  }

  lemma SoundIsCoherent(t: Tally)
    requires Sound(t, t.count)
    ensures Coherent(MetricsOf(t))
  {
    if t.count > 0 {
      MeanRepeats(t.grossWin, t.wins);
      MeanRepeats(t.grossLoss, t.count - t.wins);
      MeanRepeats(t.net, t.count);
      ShareRepeats(t.wins, t.count);
      ShareRepeats(t.rrCount, t.count);
    }
  }

  lemma MeanRepeats(sum: real, n: nat)
    requires n == 0 ==> sum == 0.0
    ensures Repeated(n, Mean(sum, n)) == sum
  {
    RepeatedIsProduct(n, Mean(sum, n));
  }

  lemma ShareRepeats(part: nat, n: nat)
    requires n > 0
    ensures Repeated(n, Mean(part as real, n) * 100.0) == 100.0 * part as real
  {
    RepeatedIsProduct(n, Mean(part as real, n) * 100.0);
  }

  lemma {:induction false} RepeatedIsProduct(n: nat, x: real)
    ensures Repeated(n, x) == n as real * x
  {
    if n > 0 {
      RepeatedIsProduct(n - 1, x);
    }
  }

  // ---------------------------------------------------------------------------
  // The figures, from the trades
  // ---------------------------------------------------------------------------

  /** What some of the trades have to show, in order. */
  function Gathered(trades: seq<Trade>, pick: Trade -> Option<real>): seq<real> {
    if trades == [] then []
    else (var x := pick(trades[0]); if x.Some? then [x.value] else []) + Gathered(trades[1..], pick)
  }

  function Won(t: Trade): Option<real> {
    if t.profit > 0.0 then Some(t.profit) else None
  }

  /** Breaking even counts as a loss of nothing. */
  function Lost(t: Trade): Option<real> {
    if t.profit <= 0.0 then Some(t.profit) else None
  }

  function Rr(t: Trade): Option<real> {
    t.rr
  }

  /** A count and a total, and a list they are the length and the sum of. */
  ghost predicate Adds(count: nat, total: real, xs: seq<real>) {
    count == |xs| && total == Sum(xs)
  }

  lemma AddsStep(count: nat, total: real, xs: seq<real>, x: Option<real>)
    requires Adds(count, total, xs)
    ensures Adds(if x.Some? then 1 + count else count, x.GetOr(0.0) + total, (if x.Some? then [x.value] else []) + xs)
  {
    assert x.None? ==> [] + xs == xs;
    assert x.Some? ==> ([x.value] + xs)[1..] == xs;
  }

  lemma {:induction false} TallyIsMadeOf(trades: seq<Trade>)
    ensures var t := TallyOf(trades);
            && t.wins <= t.count
            && Adds(t.wins, t.grossWin, Gathered(trades, Won))
            && Adds(t.count - t.wins, -t.grossLoss, Gathered(trades, Lost))
            && Adds(t.rrCount, t.rrSum, Gathered(trades, Rr))
  {
    if trades != [] {
      var first, rest := trades[0], trades[1..];
      assert trades == [first] + rest;
      TallyAppend([first], rest);
      TallyOneMore([], first);
      assert [] + [first] == [first];
      TallyIsMadeOf(rest);
      var t := TallyOf(rest);
      AddsStep(t.wins, t.grossWin, Gathered(rest, Won), Won(first));
      AddsStep(t.count - t.wins, -t.grossLoss, Gathered(rest, Lost), Lost(first));
      AddsStep(t.rrCount, t.rrSum, Gathered(rest, Rr), Rr(first));
    }
  }

  /**
   Every figure of a book from its trades: wins are the trades with a profit, gross win is what they
   made and gross loss what the others lost, and `avgRr` averages the ratios of the trades that have one.
   */
  lemma FiguresFromTrades(trades: seq<Trade>)
    ensures var m := BookMetrics(trades);
            && Adds(m.wins, m.grossWin, Gathered(trades, Won))
            && Adds(m.losses, -m.grossLoss, Gathered(trades, Lost))
            && Adds(m.withRr, Repeated(m.withRr, m.avgRr.GetOr(0.0)), Gathered(trades, Rr))
  {
    TallyBounds(trades);
    TallyIsMadeOf(trades);
    RatiosRepeat(TallyOf(trades));
  }

  lemma RatiosRepeat(t: Tally)
    requires Sound(t, t.count) && (t.rrCount == 0 ==> t.rrSum == 0.0)
    ensures var m := MetricsOf(t); m.withRr == t.rrCount && Repeated(m.withRr, m.avgRr.GetOr(0.0)) == t.rrSum
  {
    MeanRepeats(t.rrSum, t.rrCount);
  }

  // ---------------------------------------------------------------------------
  // The equity curve
  // ---------------------------------------------------------------------------

  /** Point `i` is the starting balance plus everything the first `i + 1` trades made. */
  ghost predicate IsCurve(curve: seq<EquityPoint>, trades: seq<Trade>, start: real, n: nat) {
    && n <= |trades| && |curve| == n
    && forall i :: 0 <= i < n ==> IsPoint(curve[i], trades, start, i)
  }

  ghost predicate IsPoint(p: EquityPoint, trades: seq<Trade>, start: real, i: nat)
    requires i < |trades|
  {
    p == EquityPoint(i + 1, trades[i].closeAt, start + TallyOf(trades[..i + 1]).net)
  }

  method EquityCurve(trades: seq<Trade>, startBalance: real) returns (curve: seq<EquityPoint>)
    ensures IsCurve(curve, trades, startBalance, |trades|)
  {
    var balance := startBalance;
    curve := [];
    for i := 0 to |trades|
      invariant balance == startBalance + TallyOf(trades[..i]).net
      invariant IsCurve(curve, trades, startBalance, i)
    {
      TallySnoc(trades, i);
      balance := balance + trades[i].profit;
      var point := EquityPoint(i + 1, trades[i].closeAt, balance);
      assert IsPoint(point, trades, startBalance, i);
      curve := curve + [point];
    }
  }
}
