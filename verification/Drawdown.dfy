module Drawdown {
  // Deepest fall and highest climb of an equity curve, in one pass each (src/lib/analytics/metrics.ts).
  //
  // Stated against their definition over all pairs of balances.

  import opened Prelude
  import opened AnalyticsTypes

  datatype Drawdown = Drawdown(maxDrawdown: real, maxDrawdownPercent: real, peakAt: Option<int>, troughAt: Option<int>)

  datatype RunUp = RunUp(maxRunUp: real, maxRunUpPercent: real, troughAt: Option<int>, peakAt: Option<int>)

  // ---------------------------------------------------------------------------
  // Over all pairs
  // ---------------------------------------------------------------------------

  /** The balances the account went through, the starting one first. */
  function Balances(curve: seq<EquityPoint>, startBalance: real): (b: seq<real>)
    ensures |b| == |curve| + 1
  {
    [startBalance] + seq(|curve|, i requires 0 <= i < |curve| => curve[i].balance)
  }

  /** The date of a balance; the starting one has none. */
  function DateOf(curve: seq<EquityPoint>, i: nat): Option<int>
    requires i <= |curve|
  {
    if i == 0 then None else Some(curve[i - 1].closeAt)
  }

  /** A percentage of a base that is none when it is not positive. */
  function PercentOf(amount: real, base: real): real {
    if base > 0.0 then amount / base * 100.0 else 0.0
  }

  /** `percent` hundredths of a base make the amount; of no base, and of a debt, the percentage is zero. */
  ghost predicate IsPercent(percent: real, amount: real, base: real) {
    if base > 0.0 then percent * base == 100.0 * amount else percent == 0.0
  }

  lemma PercentIsPercent(amount: real, base: real)
    ensures IsPercent(PercentOf(amount, base), amount, base)
  {
  }

  /** No fall that ends at `j` exceeds `worst`. */
  ghost predicate FallsTo(b: seq<real>, j: nat, worst: real)
    requires j < |b|
  {
    forall i :: 0 <= i <= j ==> b[i] - b[j] <= worst
  }

  ghost predicate ClimbsTo(b: seq<real>, j: nat, best: real)
    requires j < |b|
  {
    forall i :: 0 <= i <= j ==> b[j] - b[i] <= best
  }

  /** No fall within the first `n` balances exceeds `worst`. */
  ghost predicate FallsWithin(b: seq<real>, n: nat, worst: real)
    requires n <= |b|
  {
    forall j :: 0 <= j < n ==> FallsTo(b, j, worst)
  }

  ghost predicate ClimbsWithin(b: seq<real>, n: nat, best: real)
    requires n <= |b|
  {
    forall j :: 0 <= j < n ==> ClimbsTo(b, j, best)
  }

  ghost predicate FallBetween(b: seq<real>, i: nat, j: nat, fall: real) {
    i <= j < |b| && b[i] - b[j] == fall
  }

  ghost predicate ClimbBetween(b: seq<real>, i: nat, j: nat, climb: real) {
    i <= j < |b| && b[j] - b[i] == climb
  }

  /** `worst` is the greatest fall from any balance to any later one. */
  ghost predicate IsWorstFall(b: seq<real>, worst: real) {
    FallsWithin(b, |b|, worst) && SomeFall(b, worst)
  }

  ghost predicate SomeFall(b: seq<real>, fall: real) {
    exists i: nat, j: nat :: FallBetween(b, i, j, fall)
  }

  ghost predicate IsBestClimb(b: seq<real>, best: real) {
    && ClimbsWithin(b, |b|, best)
    && exists i: nat, j: nat :: ClimbBetween(b, i, j, best)
  }

  /** `p` is the first index at which the first `n` balances reach their maximum. */
  ghost predicate FirstPeak(b: seq<real>, n: nat, p: nat) {
    && p < n <= |b|
    && (forall i :: 0 <= i < n ==> b[i] <= b[p])
    && (forall i :: 0 <= i < p ==> b[i] < b[p])
  }

  ghost predicate FirstTrough(b: seq<real>, n: nat, p: nat) {
    && p < n <= |b|
    && (forall i :: 0 <= i < n ==> b[i] >= b[p])
    && (forall i :: 0 <= i < p ==> b[i] > b[p])
  }

  /** Every fall that ends before `q` is smaller than `depth`. */
  ghost predicate ShallowerBefore(b: seq<real>, q: nat, depth: real)
    requires q <= |b|
  {
    exists less :: less < depth && FallsWithin(b, q, less)
  }

  ghost predicate LowerBefore(b: seq<real>, q: nat, height: real)
    requires q <= |b|
  {
    exists less :: less < height && ClimbsWithin(b, q, less)
  }

  /** The fall from `p` to `q`: the first as deep as the result, from the peak it fell from. */
  ghost predicate FallWitness(curve: seq<EquityPoint>, b: seq<real>, r: Drawdown, p: nat, q: nat) {
    && |b| == |curve| + 1
    && p < q < |b|
    && FirstPeak(b, q + 1, p)
    && b[p] - b[q] == r.maxDrawdown
    && ShallowerBefore(b, q, r.maxDrawdown)
    && r.peakAt == DateOf(curve, p) && r.troughAt == DateOf(curve, q)
    && IsPercent(r.maxDrawdownPercent, r.maxDrawdown, b[p])
  }

  ghost predicate ClimbWitness(curve: seq<EquityPoint>, b: seq<real>, r: RunUp, p: nat, q: nat) {
    && |b| == |curve| + 1
    && p < q < |b|
    && FirstTrough(b, q + 1, p)
    && b[q] - b[p] == r.maxRunUp
    && LowerBefore(b, q, r.maxRunUp)
    && r.troughAt == DateOf(curve, p) && r.peakAt == DateOf(curve, q)
    && IsPercent(r.maxRunUpPercent, r.maxRunUp, b[p])
  }

  ghost predicate FallWitnessed(curve: seq<EquityPoint>, b: seq<real>, r: Drawdown) {
    exists p: nat, q: nat :: FallWitness(curve, b, r, p, q)
  }

  ghost predicate ClimbWitnessed(curve: seq<EquityPoint>, b: seq<real>, r: RunUp) {
    exists p: nat, q: nat :: ClimbWitness(curve, b, r, p, q)
  }

  // ---------------------------------------------------------------------------
  // Point by point
  // ---------------------------------------------------------------------------

  /** Where the first `n` balances first reach their maximum. */
  function PeakAt(b: seq<real>, n: nat): (p: nat)
    requires 0 < n <= |b|
    ensures p < n
  {
    if n == 1 then 0
    else
      var p := PeakAt(b, n - 1);
      if b[n - 1] > b[p] then n - 1 else p
  }

  /** The fall at index `q` from the peak so far. */
  function Decline(b: seq<real>, q: nat): real
    requires q < |b|
  {
    b[PeakAt(b, q + 1)] - b[q]
  }

  function Deepest(b: seq<real>, n: nat): real
    requires 0 < n <= |b|
  {
    if n == 1 then 0.0
    else
      var before := Deepest(b, n - 1);
      if Decline(b, n - 1) > before then Decline(b, n - 1) else before
  }

  lemma {:induction false} PeakIsFirst(b: seq<real>, n: nat)
    requires 0 < n <= |b|
    ensures FirstPeak(b, n, PeakAt(b, n))
  {
    if n > 1 {
      PeakIsFirst(b, n - 1);
    }
  }

  lemma {:induction false} NoneDeeper(b: seq<real>, n: nat)
    requires 0 < n <= |b|
    ensures FallsWithin(b, n, Deepest(b, n)) && Deepest(b, n) >= 0.0
  {
    PeakIsFirst(b, n);
    if n > 1 {
      NoneDeeper(b, n - 1);
      assert FallsTo(b, n - 1, Deepest(b, n));
      forall j | 0 <= j < n
        ensures FallsTo(b, j, Deepest(b, n))
      {
        assert j < n - 1 ==> FallsTo(b, j, Deepest(b, n - 1));
      }
    }
  }

  lemma {:induction false} DeepestIsReached(b: seq<real>, n: nat)
    requires 0 < n <= |b|
    ensures SomeFall(b, Deepest(b, n))
  {
    if n == 1 {
      assert FallBetween(b, 0, 0, Deepest(b, n));
    } else if Decline(b, n - 1) > Deepest(b, n - 1) {
      assert FallBetween(b, PeakAt(b, n), n - 1, Deepest(b, n));
    } else {
      DeepestIsReached(b, n - 1);
    }
  }

  lemma DeepestIsWorst(b: seq<real>)
    requires |b| > 0
    ensures IsWorstFall(b, Deepest(b, |b|))
  {
    NoneDeeper(b, |b|);
    DeepestIsReached(b, |b|);
  }

  /** A run-up is the drawdown of the balances turned upside down. */
  function Negated(b: seq<real>): (r: seq<real>)
    ensures |r| == |b|
    ensures forall i :: 0 <= i < |b| ==> r[i] == -b[i]
  {
    seq(|b|, i requires 0 <= i < |b| => -b[i])
  }

  lemma RunUpIsDrawdownNegated(b: seq<real>, x: real)
    ensures IsBestClimb(b, x) <==> IsWorstFall(Negated(b), x)
  {
    var n := Negated(b);
    assert forall j :: 0 <= j < |b| ==> FallsTo(n, j, x) == ClimbsTo(b, j, x);
    assert forall i: nat, j: nat :: FallBetween(n, i, j, x) == ClimbBetween(b, i, j, x);
  }

  // ---------------------------------------------------------------------------
  // One pass
  // ---------------------------------------------------------------------------

  /** What the variables of the loop hold after the first `n` balances. */
  ghost predicate FallSoFar(
      curve: seq<EquityPoint>, b: seq<real>, n: nat, peak: real, peakAt: Option<int>, r: Drawdown)
    requires |b| == |curve| + 1 && 0 < n <= |b|
  {
    && peak == b[PeakAt(b, n)] && peakAt == DateOf(curve, PeakAt(b, n))
    && r.maxDrawdown == Deepest(b, n) && r == FallUpTo(curve, b, n)
  }

  lemma FallStart(curve: seq<EquityPoint>, b: seq<real>)
    requires |b| == |curve| + 1
    ensures FallSoFar(curve, b, 1, b[0], None, Drawdown(0.0, 0.0, None, None))
  {
  }

  lemma FallStep(curve: seq<EquityPoint>, b: seq<real>, k: nat, peak: real, peakAt: Option<int>, r: Drawdown)
    requires |b| == |curve| + 1 && k < |curve| && FallSoFar(curve, b, k + 1, peak, peakAt, r)
    ensures var higher := b[k + 1] > peak;
            var peak', peakAt' := if higher then b[k + 1] else peak, if higher then Some(curve[k].closeAt) else peakAt;
            var decline := peak' - b[k + 1];
            FallSoFar(curve, b, k + 2, peak', peakAt',
                      if decline > r.maxDrawdown
                      then Drawdown(decline, PercentOf(decline, peak'), peakAt', Some(curve[k].closeAt)) else r)
  {
  }

  method MaxDrawdown(curve: seq<EquityPoint>, startBalance: real) returns (r: Drawdown)
    ensures IsWorstFall(Balances(curve, startBalance), r.maxDrawdown)
    ensures r.maxDrawdown == 0.0 ==> r == Drawdown(0.0, 0.0, None, None)
    ensures r.maxDrawdown > 0.0 ==> FallWitnessed(curve, Balances(curve, startBalance), r)
  {
    ghost var b := Balances(curve, startBalance);
    var peak, worst, worstPercent := startBalance, 0.0, 0.0;
    var peakAt, bestPeakAt, troughAt := None, None, None;
    FallStart(curve, b);
    for k := 0 to |curve|
      invariant FallSoFar(curve, b, k + 1, peak, peakAt, Drawdown(worst, worstPercent, bestPeakAt, troughAt))
    {
      var point := curve[k];
      assert b[k + 1] == point.balance;
      FallStep(curve, b, k, peak, peakAt, Drawdown(worst, worstPercent, bestPeakAt, troughAt));
      if point.balance > peak {
        peak, peakAt := point.balance, Some(point.closeAt);
      }
      var decline := peak - point.balance;
      if decline > worst {
        worst := decline;
        worstPercent := PercentOf(decline, peak);
        bestPeakAt, troughAt := peakAt, Some(point.closeAt);
      }
    }
    r := Drawdown(worst, worstPercent, bestPeakAt, troughAt);
    RecordedFall(curve, b);
  }

  lemma RecordedFall(curve: seq<EquityPoint>, b: seq<real>)
    requires |b| == |curve| + 1
    ensures var r := FallUpTo(curve, b, |b|);
            && IsWorstFall(b, r.maxDrawdown)
            && (r.maxDrawdown == 0.0 ==> r == Drawdown(0.0, 0.0, None, None))
            && (r.maxDrawdown > 0.0 ==> FallWitnessed(curve, b, r))
  {
    DeepestIsWorst(b);
    FallIsWitnessed(curve, b, |b|);
  }

  /** The record of the deepest fall among the first `n` balances. */
  ghost function FallUpTo(curve: seq<EquityPoint>, b: seq<real>, n: nat): Drawdown
    requires |b| == |curve| + 1 && 0 < n <= |b|
  {
    if n == 1 then Drawdown(0.0, 0.0, None, None)
    else if Decline(b, n - 1) > Deepest(b, n - 1) then
      var p := PeakAt(b, n);
      Drawdown(Decline(b, n - 1), PercentOf(Decline(b, n - 1), b[p]), DateOf(curve, p), DateOf(curve, n - 1))
    else FallUpTo(curve, b, n - 1)
  }

  lemma {:induction false} FallIsWitnessed(curve: seq<EquityPoint>, b: seq<real>, n: nat)
    requires |b| == |curve| + 1 && 0 < n <= |b|
    ensures var r := FallUpTo(curve, b, n);
            && r.maxDrawdown == Deepest(b, n)
            && if r.maxDrawdown > 0.0 then FallWitnessed(curve, b, r) else r == Drawdown(0.0, 0.0, None, None)
  {
    if n > 1 {
      NoneDeeper(b, n - 1);
      if Decline(b, n - 1) > Deepest(b, n - 1) {
        PeakIsFirst(b, n);
        assert ShallowerBefore(b, n - 1, Decline(b, n - 1));
        PercentIsPercent(Decline(b, n - 1), b[PeakAt(b, n)]);
        assert FallWitness(curve, b, FallUpTo(curve, b, n), PeakAt(b, n), n - 1);
      } else {
        FallIsWitnessed(curve, b, n - 1);
      }
    }
  }

  /** What the variables of the loop hold after the first `k` balances. */
  ghost predicate ClimbSoFar(
      curve: seq<EquityPoint>, b: seq<real>, k: nat, trough: real, troughAt: Option<int>, r: RunUp)
    requires |b| == |curve| + 1 && 0 < k <= |b|
  {
    var n := Negated(b);
    && trough == b[PeakAt(n, k)] && troughAt == DateOf(curve, PeakAt(n, k))
    && r.maxRunUp == Deepest(n, k) && r == ClimbUpTo(curve, b, n, k)
  }

  lemma ClimbStart(curve: seq<EquityPoint>, b: seq<real>)
    requires |b| == |curve| + 1
    ensures ClimbSoFar(curve, b, 1, b[0], None, RunUp(0.0, 0.0, None, None))
  {
  }

  lemma ClimbStep(curve: seq<EquityPoint>, b: seq<real>, k: nat, trough: real, troughAt: Option<int>, r: RunUp)
    requires |b| == |curve| + 1 && k < |curve|
    requires ClimbSoFar(curve, b, k + 1, trough, troughAt, r)
    ensures var lower := b[k + 1] < trough;
            var trough' := if lower then b[k + 1] else trough;
            var troughAt' := if lower then Some(curve[k].closeAt) else troughAt;
            var rise := b[k + 1] - trough';
            ClimbSoFar(curve, b, k + 2, trough', troughAt',
                       if rise > r.maxRunUp
                       then RunUp(rise, PercentOf(rise, trough'), troughAt', Some(curve[k].closeAt)) else r)
  {
  }

  method MaxRunUp(curve: seq<EquityPoint>, startBalance: real) returns (r: RunUp)
    ensures IsBestClimb(Balances(curve, startBalance), r.maxRunUp)
    ensures r.maxRunUp == 0.0 ==> r == RunUp(0.0, 0.0, None, None)
    ensures r.maxRunUp > 0.0 ==> ClimbWitnessed(curve, Balances(curve, startBalance), r)
  {
    ghost var b := Balances(curve, startBalance);
    var trough, best, bestPercent := startBalance, 0.0, 0.0;
    var troughAt, bestTroughAt, peakAt := None, None, None;
    ClimbStart(curve, b);
    for k := 0 to |curve|
      invariant ClimbSoFar(curve, b, k + 1, trough, troughAt, RunUp(best, bestPercent, bestTroughAt, peakAt))
    {
      var point := curve[k];
      assert b[k + 1] == point.balance;
      ClimbStep(curve, b, k, trough, troughAt, RunUp(best, bestPercent, bestTroughAt, peakAt));
      if point.balance < trough {
        trough, troughAt := point.balance, Some(point.closeAt);
      }
      var rise := point.balance - trough;
      if rise > best {
        best := rise;
        bestPercent := PercentOf(rise, trough);
        bestTroughAt, peakAt := troughAt, Some(point.closeAt);
      }
    }
    r := RunUp(best, bestPercent, bestTroughAt, peakAt);
    RecordedClimb(curve, b);
  }

  lemma RecordedClimb(curve: seq<EquityPoint>, b: seq<real>)
    requires |b| == |curve| + 1
    ensures var r := ClimbUpTo(curve, b, Negated(b), |b|);
            && IsBestClimb(b, r.maxRunUp)
            && (r.maxRunUp == 0.0 ==> r == RunUp(0.0, 0.0, None, None))
            && (r.maxRunUp > 0.0 ==> ClimbWitnessed(curve, b, r))
  {
    DeepestIsWorst(Negated(b));
    ClimbIsWitnessed(curve, b, Negated(b), |b|);
    RunUpIsDrawdownNegated(b, ClimbUpTo(curve, b, Negated(b), |b|).maxRunUp);
  }

  /** The record of the highest climb among the first `k` balances `b`, which are `n` negated. */
  ghost function ClimbUpTo(curve: seq<EquityPoint>, b: seq<real>, n: seq<real>, k: nat): RunUp
    requires |n| == |b| == |curve| + 1 && 0 < k <= |b|
  {
    if k == 1 then RunUp(0.0, 0.0, None, None)
    else if Decline(n, k - 1) > Deepest(n, k - 1) then
      var p := PeakAt(n, k);
      RunUp(Decline(n, k - 1), PercentOf(Decline(n, k - 1), b[p]), DateOf(curve, p), DateOf(curve, k - 1))
    else ClimbUpTo(curve, b, n, k - 1)
  }

  lemma {:induction false} ClimbIsWitnessed(curve: seq<EquityPoint>, b: seq<real>, n: seq<real>, k: nat)
    requires |b| == |curve| + 1 && n == Negated(b) && 0 < k <= |b|
    ensures var r := ClimbUpTo(curve, b, n, k);
            && r.maxRunUp == Deepest(n, k)
            && if r.maxRunUp > 0.0 then ClimbWitnessed(curve, b, r) else r == RunUp(0.0, 0.0, None, None)
  {
    if k > 1 {
      NoneDeeper(n, k - 1);
      if Decline(n, k - 1) > Deepest(n, k - 1) {
        assert ShallowerBefore(n, k - 1, Decline(n, k - 1));
        LowerOfNegated(b, k - 1, Decline(n, k - 1));
        FirstTroughOfNegated(b, k);
        PercentIsPercent(Decline(n, k - 1), b[PeakAt(n, k)]);
        assert ClimbWitness(curve, b, ClimbUpTo(curve, b, n, k), PeakAt(n, k), k - 1);
      } else {
        ClimbIsWitnessed(curve, b, n, k - 1);
      }
    }
  }

  lemma LowerOfNegated(b: seq<real>, q: nat, height: real)
    requires q <= |b| && ShallowerBefore(Negated(b), q, height)
    ensures LowerBefore(b, q, height)
  {
    var less :| less < height && FallsWithin(Negated(b), q, less);
    assert forall j :: 0 <= j < q ==> FallsTo(Negated(b), j, less) == ClimbsTo(b, j, less);
    assert ClimbsWithin(b, q, less);
  }

  lemma FirstTroughOfNegated(b: seq<real>, k: nat)
    requires 0 < k <= |b|
    ensures FirstTrough(b, k, PeakAt(Negated(b), k))
  {
    PeakIsFirst(Negated(b), k);
    assert forall i :: 0 <= i < |b| ==> b[i] == -Negated(b)[i];
  }

  // ---------------------------------------------------------------------------
  // Laws
  // ---------------------------------------------------------------------------

  lemma WorstFallIsUnique(b: seq<real>, x: real, y: real)
    requires IsWorstFall(b, x) && IsWorstFall(b, y)
    ensures x == y
  {
    var i: nat, j: nat :| FallBetween(b, i, j, x);
    var k: nat, l: nat :| FallBetween(b, k, l, y);
    assert FallsTo(b, j, y) && FallsTo(b, l, x);
  }

  ghost predicate IsMax(b: seq<real>, m: real) {
    m in b && forall i :: 0 <= i < |b| ==> b[i] <= m
  }

  ghost predicate IsMin(b: seq<real>, m: real) {
    m in b && forall i :: 0 <= i < |b| ==> m <= b[i]
  }

  function Larger(x: real, y: real): real {
    if x >= y then x else y
  }

  /** Two windows laid end to end: the worst fall is in one of them, or from one into the other. */
  lemma WorstFallOfConcatenation(a: seq<real>, b: seq<real>, x: real, y: real, high: real, low: real)
    requires IsWorstFall(a, x) && IsWorstFall(b, y)
    requires IsMax(a, high) && IsMin(b, low)
    ensures IsWorstFall(a + b, Larger(Larger(x, y), high - low))
  {
    var c, worst := a + b, Larger(Larger(x, y), high - low);
    forall j | 0 <= j < |c|
      ensures FallsTo(c, j, worst)
    {
      if j < |a| {
        assert FallsTo(a, j, x);
      } else {
        assert FallsTo(b, j - |a|, y) && low <= b[j - |a|];
        assert forall i :: |a| <= i <= j ==> c[i] == b[i - |a|];
      }
    }
    if worst == x {
      var i: nat, j: nat :| FallBetween(a, i, j, x);
      assert FallBetween(c, i, j, worst);
    } else if worst == y {
      var i: nat, j: nat :| FallBetween(b, i, j, y);
      assert FallBetween(c, i + |a|, j + |a|, worst);
    } else {
      var i: nat :| i < |a| && a[i] == high;
      var j: nat :| j < |b| && b[j] == low;
      assert FallBetween(c, i, j + |a|, worst);
    }
  }

  /** And the best climb is in one of them, or from the first's lowest to the second's highest. */
  lemma BestClimbOfConcatenation(a: seq<real>, b: seq<real>, x: real, y: real, low: real, high: real)
    requires IsBestClimb(a, x) && IsBestClimb(b, y)
    requires IsMin(a, low) && IsMax(b, high)
    ensures IsBestClimb(a + b, Larger(Larger(x, y), high - low))
  {
    RunUpIsDrawdownNegated(a, x);
    RunUpIsDrawdownNegated(b, y);
    NegatedExtremes(a, low);
    NegatedExtremes(b, high);
    WorstFallOfConcatenation(Negated(a), Negated(b), x, y, -low, -high);
    assert Negated(a) + Negated(b) == Negated(a + b);
    RunUpIsDrawdownNegated(a + b, Larger(Larger(x, y), high - low));
  }

  lemma NegatedExtremes(b: seq<real>, m: real)
    ensures IsMin(b, m) ==> IsMax(Negated(b), -m)
    ensures IsMax(b, m) ==> IsMin(Negated(b), -m)
  {
    if m in b {
      var i :| 0 <= i < |b| && b[i] == m;
      assert Negated(b)[i] == -m;
    }
  }

  /** The whole result lies between the worst fall and the best climb. */
  lemma NetIsBracketed(curve: seq<EquityPoint>, startBalance: real, fall: real, climb: real)
    requires IsWorstFall(Balances(curve, startBalance), fall)
    requires IsBestClimb(Balances(curve, startBalance), climb)
    requires curve != []
    ensures -fall <= curve[|curve| - 1].balance - startBalance <= climb
  {
    var b := Balances(curve, startBalance);
    assert b[0] == startBalance && b[|b| - 1] == curve[|curve| - 1].balance;
    assert FallsTo(b, |b| - 1, fall) && ClimbsTo(b, |b| - 1, climb);
  }
}
