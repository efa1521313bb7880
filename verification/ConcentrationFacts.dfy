/**
 What the laws on concentration are stated in and rest on: selections of winners, sums over them,
 sorting in descending order, and the book without one of its trades.

 The laws themselves are in Concentration. The source is src/lib/analytics/consistency.ts.
 */
module ConcentrationFacts {
  import opened Prelude
  import opened AnalyticsTypes
  import Metrics

  datatype Concentration = Concentration(
    net: real,
    grossWin: real,
    topCount: nat,
    topShare: Option<real>,
    netWithoutBest: real,
    restsOnOneTrade: bool)

  function Profits(trades: seq<Trade>): (p: seq<real>)
    ensures |p| == |trades|
    ensures forall i :: 0 <= i < |p| ==> p[i] == trades[i].profit
  {
    seq(|trades|, i requires 0 <= i < |trades| => trades[i].profit)
  }

  function Winners(profits: seq<real>): seq<real> {
    if profits == [] then []
    else (if profits[0] > 0.0 then [profits[0]] else []) + Winners(profits[1..])
  }

  function Insert(x: real, s: seq<real>): seq<real> {
    if s == [] || x >= s[0] then [x] + s else [s[0]] + Insert(x, s[1..])
  }

  function SortDescending(s: seq<real>): seq<real> {
    if s == [] then [] else Insert(s[0], SortDescending(s[1..]))
  }

  function Min(a: nat, b: nat): nat {
    if a <= b then a else b
  }

  function TopSum(s: seq<real>, k: nat): real {
    Sum(s[..Min(k, |s|)])
  }

  function Concentrate(trades: seq<Trade>, topCount: nat): Concentration {
    var net := Sum(Profits(trades));
    var winners := SortDescending(Winners(Profits(trades)));
    var grossWin := Sum(winners);
    var netWithoutBest := net - if winners == [] then 0.0 else winners[0];
    Concentration(
      net,
      grossWin,
      Min(topCount, |winners|),
      if grossWin > 0.0 then Some(TopSum(winners, topCount) / grossWin * 100.0) else None,
      netWithoutBest,
      net > 0.0 && netWithoutBest <= 0.0)
  }

  // ---------------------------------------------------------------------------
  // Sorting
  // ---------------------------------------------------------------------------

  ghost predicate Descending(s: seq<real>) {
    |s| > 1 ==> s[0] >= s[1] && Descending(s[1..])
  }

  ghost predicate Positive(s: seq<real>) {
    s != [] ==> s[0] > 0.0 && Positive(s[1..])
  }

  lemma {:induction false} InsertSorts(x: real, s: seq<real>)
    requires Descending(s)
    ensures Descending(Insert(x, s)) && |Insert(x, s)| == |s| + 1
    ensures Insert(x, s)[0] == if s == [] || x >= s[0] then x else s[0]
    ensures Sum(Insert(x, s)) == x + Sum(s)
    ensures x > 0.0 && Positive(s) ==> Positive(Insert(x, s))
  {
    if s == [] || x >= s[0] {
      assert Insert(x, s)[1..] == s;
    } else {
      InsertSorts(x, s[1..]);
      assert Insert(x, s)[1..] == Insert(x, s[1..]);
    }
  }

  lemma {:induction false} InsertKeeps(x: real, s: seq<real>)
    ensures multiset(Insert(x, s)) == multiset(s) + multiset{x}
  {
    if s != [] && x < s[0] {
      InsertKeeps(x, s[1..]);
      assert s == [s[0]] + s[1..];
    }
  }

  lemma {:induction false} SortSorts(s: seq<real>)
    ensures Descending(SortDescending(s))
    ensures |SortDescending(s)| == |s| && Sum(SortDescending(s)) == Sum(s)
    ensures Positive(s) ==> Positive(SortDescending(s))
  {
    if s != [] {
      SortSorts(s[1..]);
      InsertSorts(s[0], SortDescending(s[1..]));
    }
  }

  lemma {:induction false} DescendingPairs(s: seq<real>, i: nat, j: nat)
    requires Descending(s) && i <= j < |s|
    ensures s[i] >= s[j]
  {
    if i > 0 {
      DescendingPairs(s[1..], i - 1, j - 1);
    } else if j > 0 {
      DescendingPairs(s[1..], 0, j - 1);
    }
  }

  /** No profit above `x`. */
  ghost predicate NoneAbove(p: seq<real>, x: real) {
    forall i :: 0 <= i < |p| ==> p[i] <= x
  }

  lemma WinnersStep(p: seq<real>)
    requires p != []
    ensures Winners(p) == if p[0] > 0.0 then [p[0]] + Winners(p[1..]) else Winners(p[1..])
    ensures p[0] > 0.0 ==> Winners(p)[1..] == Winners(p[1..])
  {
  }

  lemma {:induction false} WinnersArePositive(p: seq<real>)
    ensures Positive(Winners(p)) && Sum(Winners(p)) >= 0.0
    ensures Sum(Winners(p)) > 0.0 <==> Winners(p) != []
  {
    if p != [] {
      WinnersStep(p);
      WinnersArePositive(p[1..]);
    }
  }

  // ---------------------------------------------------------------------------
  // Every selection
  // ---------------------------------------------------------------------------

  function Picked(p: seq<real>, mask: seq<bool>): real
    requires |mask| == |p|
  {
    if p == [] then 0.0 else (if mask[0] then p[0] else 0.0) + Picked(p[1..], mask[1..])
  }

  function Count(mask: seq<bool>): nat {
    if mask == [] then 0 else (if mask[0] then 1 else 0) + Count(mask[1..])
  }

  /** Only winners are picked. */
  ghost predicate OnlyWinners(p: seq<real>, mask: seq<bool>)
    requires |mask| == |p|
  {
    forall i :: 0 <= i < |p| && mask[i] ==> p[i] > 0.0
  }

  function Larger(x: real, y: real): real {
    if x >= y then x else y
  }

  /** The best that at most `k` picks can make, deciding trade by trade. */
  function Best(p: seq<real>, k: nat): real {
    if p == [] then 0.0
    else if k == 0 then Best(p[1..], 0)
    else Larger(Best(p[1..], k), p[0] + Best(p[1..], k - 1))
  }

  lemma {:induction false} NoneBetter(p: seq<real>, mask: seq<bool>, k: nat)
    requires |mask| == |p| && Count(mask) <= k
    ensures Picked(p, mask) <= Best(p, k)
  {
    if p != [] {
      if mask[0] {
        NoneBetter(p[1..], mask[1..], k - 1);
      } else {
        NoneBetter(p[1..], mask[1..], k);
      }
    }
  }

  lemma {:induction false} SortedTop(p: seq<real>, k: nat)
    ensures TopSum(SortDescending(Winners(p)), k) == Best(p, k)
  {
    if p != [] {
      var rest := SortDescending(Winners(p[1..]));
      WinnersStep(p);
      WinnersArePositive(p[1..]);
      SortSorts(Winners(p[1..]));
      SortedTop(p[1..], k);
      if k > 0 {
        SortedTop(p[1..], k - 1);
        TopGrows(rest, k - 1);
      }
      if p[0] > 0.0 {
        TopOfInsert(p[0], rest, k);
      }
    }
  }

  lemma {:induction false} TopOfInsert(x: real, s: seq<real>, k: nat)
    requires x > 0.0 && Positive(s) && Descending(s)
    ensures TopSum(Insert(x, s), k) ==
            if k == 0 then 0.0 else Larger(TopSum(s, k), x + TopSum(s, k - 1))
  {
    if k > 0 {
      if s == [] || x >= s[0] {
        assert ([x] + s)[..Min(k, |s| + 1)] == [x] + s[..Min(k - 1, |s|)];
        TopGrows(s, k - 1);
        TopStep(s, k - 1, x);
      } else {
        TopOfInsert(x, s[1..], k - 1);
        TopSplits(s, k);
        TopSplits(Insert(x, s), k);
        assert Insert(x, s)[1..] == Insert(x, s[1..]);
        if k > 1 {
          TopSplits(s, k - 1);
        }
      }
    }
  }

  lemma TopSplits(s: seq<real>, k: nat)
    requires s != [] && k > 0
    ensures TopSum(s, k) == s[0] + TopSum(s[1..], k - 1)
  {
    assert s[..Min(k, |s|)][1..] == s[1..][..Min(k - 1, |s| - 1)];
  }

  /** One more of a descending list adds at most an `x` that is at least its head. */
  lemma {:induction false} TopStep(s: seq<real>, k: nat, x: real)
    requires Descending(s) && Positive(s) && x > 0.0 && (s == [] || x >= s[0])
    ensures TopSum(s, k + 1) <= x + TopSum(s, k)
  {
    if s != [] && k > 0 {
      TopSplits(s, k + 1);
      TopSplits(s, k);
      TopStep(s[1..], k - 1, x);
    } else if s != [] {
      TopSplits(s, 1);
    }
  }

  lemma {:induction false} TopGrows(s: seq<real>, k: nat)
    requires Positive(s)
    ensures TopSum(s, k) <= TopSum(s, k + 1)
  {
    if s != [] {
      TopSplits(s, k + 1);
      if k > 0 {
        TopSplits(s, k);
        TopGrows(s[1..], k - 1);
      } else {
        assert TopSum(s[1..], 0) == 0.0;
      }
    }
  }

  /** Which trades to pick to make `Best`. */
  function BestMask(p: seq<real>, k: nat): (mask: seq<bool>)
    ensures |mask| == |p|
  {
    if p == [] then []
    else if k > 0 && p[0] > 0.0 && p[0] + Best(p[1..], k - 1) > Best(p[1..], k) then [true] + BestMask(p[1..], k - 1)
    else [false] + BestMask(p[1..], k)
  }

  lemma {:induction false} BestIsReached(p: seq<real>, k: nat)
    ensures var mask := BestMask(p, k);
            Count(mask) <= k && OnlyWinners(p, mask) && Picked(p, mask) == Best(p, k)
  {
    if p != [] {
      var mask := BestMask(p, k);
      BestGrows(p[1..], k);
      BestIsReached(p[1..], k);
      if k > 0 {
        BestGrows(p[1..], k - 1);
        BestIsReached(p[1..], k - 1);
      }
      if mask[0] {
        assert mask[1..] == BestMask(p[1..], k - 1);
      } else {
        assert mask[1..] == BestMask(p[1..], k);
      }
      assert p == [p[0]] + p[1..];
    }
  }

  lemma {:induction false} BestGrows(p: seq<real>, k: nat)
    ensures Best(p, k) <= Best(p, k + 1)
  {
    SortedTop(p, k);
    SortedTop(p, k + 1);
    WinnersArePositive(p);
    SortSorts(Winners(p));
    TopGrows(SortDescending(Winners(p)), k);
  }

  lemma OneMoreProfit(p: seq<real>, x: real)
    ensures Sum(p + [x]) == Sum(p) + x
    ensures Sum(Winners(p + [x])) == Sum(Winners(p)) + if x > 0.0 then x else 0.0
  {
    SumSplits(p, [x]);
    WinnersSplit(p, [x]);
    assert Winners([x]) == if x > 0.0 then [x] + [] else [];
    SumSplits(Winners(p), Winners([x]));
  }

  lemma {:induction false} SumsAreTallied(trades: seq<Trade>)
    ensures var t, p := Metrics.TallyOf(trades), Profits(trades); t.net == Sum(p) && t.grossWin == Sum(Winners(p))
  {
    if trades != [] {
      var init, last := trades[..|trades| - 1], trades[|trades| - 1];
      SumsAreTallied(init);
      assert Profits(trades) == Profits(init) + [last.profit];
      OneMoreProfit(Profits(init), last.profit);
      assert Metrics.TallyOf(trades) == Metrics.Plus(Metrics.TallyOf(init), Metrics.One(last));
    }
  }

  lemma {:induction false} WinnersSplit(a: seq<real>, b: seq<real>)
    ensures Winners(a + b) == Winners(a) + Winners(b)
  {
    if a == [] {
      assert a + b == b;
    } else {
      assert (a + b)[1..] == a[1..] + b;
      WinnersSplit(a[1..], b);
    }
  }

  // ---------------------------------------------------------------------------
  // Without the best trade
  // ---------------------------------------------------------------------------

  function Without(trades: seq<Trade>, i: nat): seq<Trade>
    requires i < |trades|
  {
    trades[..i] + trades[i + 1..]
  }

  function Net(trades: seq<Trade>): real {
    Sum(Profits(trades))
  }

  lemma {:induction false} SumSplits(a: seq<real>, b: seq<real>)
    ensures Sum(a + b) == Sum(a) + Sum(b)
  {
    if a == [] {
      assert a + b == b;
    } else {
      assert (a + b)[1..] == a[1..] + b;
      SumSplits(a[1..], b);
    }
  }

  lemma NetWithout(trades: seq<Trade>, i: nat)
    requires i < |trades|
    ensures Net(Without(trades, i)) == Net(trades) - trades[i].profit
  {
    var p := Profits(trades);
    assert Profits(Without(trades, i)) == p[..i] + p[i + 1..];
    assert p == p[..i] + ([p[i]] + p[i + 1..]);
    SumSplits(p[..i], p[i + 1..]);
    SumSplits(p[..i], [p[i]] + p[i + 1..]);
    assert ([p[i]] + p[i + 1..])[1..] == p[i + 1..];
  }

  lemma {:induction false} BestWinner(p: seq<real>)
    ensures var w := SortDescending(Winners(p));
            if w == [] then NoneAbove(p, 0.0) else w[0] > 0.0 && w[0] in p && NoneAbove(p, w[0])
  {
    if p != [] {
      var rest := SortDescending(Winners(p[1..]));
      WinnersStep(p);
      BestWinner(p[1..]);
      SortSorts(Winners(p[1..]));
      if p[0] > 0.0 {
        InsertSorts(p[0], rest);
        NoneAboveCons(p, if rest == [] || p[0] >= rest[0] then p[0] else rest[0]);
      } else {
        NoneAboveCons(p, if rest == [] then 0.0 else rest[0]);
      }
    }
  }

  lemma NoneAboveCons(p: seq<real>, x: real)
    requires p != [] && p[0] <= x
    requires exists y :: y <= x && NoneAbove(p[1..], y)
    ensures NoneAbove(p, x)
  {
    var y :| y <= x && NoneAbove(p[1..], y);
    assert forall i :: 0 < i < |p| ==> p[i] == p[1..][i - 1];
  }

  lemma {:induction false} TopBounds(s: seq<real>, k: nat)
    requires Positive(s)
    ensures 0.0 <= TopSum(s, k) <= Sum(s)
    ensures TopSum(s, k) == Sum(s) <==> |s| <= k
    ensures s != [] ==> (TopSum(s, k) == 0.0 <==> k == 0)
  {
    if s != [] {
      if k > 0 {
        TopSplits(s, k);
        TopBounds(s[1..], k - 1);
      } else {
        TopBounds(s[1..], 0);
      }
    }
  }

  lemma ShareBounds(part: real, whole: real)
    requires 0.0 <= part <= whole && whole > 0.0
    ensures 0.0 <= part / whole * 100.0 <= 100.0
    ensures part / whole * 100.0 == 100.0 <==> part == whole
    ensures part / whole * 100.0 == 0.0 <==> part == 0.0
  {
    var q := part / whole;
    assert q * whole == part;
    assert q > 1.0 ==> q * whole > whole;
    assert q < 0.0 ==> q * whole < 0.0;
  }
}
