/** How much of a book rests on its best trades (src/lib/analytics/consistency.ts). */
module Concentration {
  // Stated against every choice of trades that could have been made instead.

  import opened AnalyticsTypes
  import opened ConcentrationFacts

  // ---------------------------------------------------------------------------
  // Sorting
  // ---------------------------------------------------------------------------

  /** Sorting only reorders, and puts every pair in order. */
  lemma {:induction false} SortIsPermutation(s: seq<real>)
    ensures multiset(SortDescending(s)) == multiset(s)
    ensures forall i, j :: 0 <= i <= j < |s| ==>
              |SortDescending(s)| == |s| && SortDescending(s)[i] >= SortDescending(s)[j]
  {
    if s != [] {
      SortIsPermutation(s[1..]);
      InsertKeeps(s[0], SortDescending(s[1..]));
      assert s == [s[0]] + s[1..];
    }
    SortSorts(s);
    forall i, j | 0 <= i <= j < |s|
      ensures SortDescending(s)[i] >= SortDescending(s)[j]
    {
      DescendingPairs(SortDescending(s), i, j);
    }
  }

  // ---------------------------------------------------------------------------
  // Every selection
  // ---------------------------------------------------------------------------

  /** The sum of the top winners is the most that any choice of that many trades could have made. */
  lemma TopIsOptimal(trades: seq<Trade>, topCount: nat)
    ensures var p := Profits(trades);
            var top := TopSum(SortDescending(Winners(p)), topCount);
            && (forall mask: seq<bool> :: |mask| == |p| && Count(mask) <= topCount ==> Picked(p, mask) <= top)
            && (exists mask: seq<bool> ::
                  |mask| == |p| && Count(mask) <= topCount && OnlyWinners(p, mask) && Picked(p, mask) == top)
  {
    var p := Profits(trades);
    SortedTop(p, topCount);
    BestIsReached(p, topCount);
    forall mask: seq<bool> | |mask| == |p| && Count(mask) <= topCount
      ensures Picked(p, mask) <= Best(p, topCount)
    {
      NoneBetter(p, mask, topCount);
    }
  }

  /** The two figures the screen repeats are the ones `computeMetrics` shows. */
  lemma {:induction false} AgreesWithMetrics(trades: seq<Trade>, topCount: nat)
    ensures Concentrate(trades, topCount).net == Metrics.BookMetrics(trades).net
    ensures Concentrate(trades, topCount).grossWin == Metrics.BookMetrics(trades).grossWin
  {
    SortSorts(Winners(Profits(trades)));
    SumsAreTallied(trades);
    Metrics.TallyBounds(trades);
  }

  // ---------------------------------------------------------------------------
  // Without the best trade
  // ---------------------------------------------------------------------------

  /** Dropping at most one trade cannot leave less than `netWithoutBest`, and can leave exactly that. */
  lemma NetWithoutBestIsLeast(trades: seq<Trade>, topCount: nat)
    ensures var c := Concentrate(trades, topCount);
            && c.net == Net(trades)
            && c.netWithoutBest <= c.net
            && (forall i: nat :: i < |trades| ==> c.netWithoutBest <= Net(Without(trades, i)))
            && (c.netWithoutBest == c.net ||
                exists i: nat :: i < |trades| && Net(Without(trades, i)) == c.netWithoutBest)
  {
    var p := Profits(trades);
    var w := SortDescending(Winners(p));
    var c := Concentrate(trades, topCount);
    BestWinner(p);
    forall i: nat | i < |trades|
      ensures c.netWithoutBest <= Net(Without(trades, i)) == c.net - trades[i].profit
    {
      NetWithout(trades, i);
      assert p[i] == trades[i].profit;
    }
    if w != [] {
      var i: nat :| i < |p| && p[i] == w[0];
      assert Net(Without(trades, i)) == c.netWithoutBest;
    }
  }

  /** A book rests on one trade exactly when it is profitable and some one trade makes all the difference. */
  lemma RestsOnOneTradeExactly(trades: seq<Trade>, topCount: nat)
    ensures Concentrate(trades, topCount).restsOnOneTrade <==>
            Net(trades) > 0.0 && exists i: nat :: i < |trades| && Net(Without(trades, i)) <= 0.0
  {
    NetWithoutBestIsLeast(trades, topCount);
  }

  /** The share is missing exactly for a book without winners, and whole exactly when it counts them all. */
  lemma TopShareRange(trades: seq<Trade>, topCount: nat)
    ensures var c := Concentrate(trades, topCount);
            && (c.topShare.None? <==> forall i :: 0 <= i < |trades| ==> trades[i].profit <= 0.0)
            && (c.topShare.Some? ==>
                  && 0.0 <= c.topShare.value <= 100.0
                  && (c.topShare.value == 100.0 <==> |Winners(Profits(trades))| <= topCount)
                  && (c.topShare.value == 0.0 <==> topCount == 0))
  {
    var p := Profits(trades);
    var w := SortDescending(Winners(p));
    WinnersArePositive(p);
    SortSorts(Winners(p));
    BestWinner(p);
    assert NoneAbove(p, 0.0) <==> forall i :: 0 <= i < |trades| ==> trades[i].profit <= 0.0;
    if w != [] {
      TopBounds(w, topCount);
      ShareBounds(TopSum(w, topCount), Sum(w));
    }
  }
}
