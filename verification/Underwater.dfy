/** Time below a previous high, in one pass over the curve (src/lib/analytics/consistency.ts). */
module Underwater {
  // Stated against its definition over every stretch between two highs.

  import opened Prelude
  import opened AnalyticsTypes
  import Drawdown

  datatype Underwater = Underwater(
    longestDays: int,
    from: Option<int>,
    recoveredAt: Option<int>,
    ongoing: bool,
    ongoingDays: int)

  function EmptyUnderwater(): Underwater {
    Underwater(0, None, None, false, 0)
  }

  const DAY_MS := 86_400_000

  /** Whole days between two instants, rounded down. */
  function WholeDays(from: int, to: int): int {
    (to - from) / DAY_MS
  }

  /** A stretch of `days` days: that many times 86 400 000 ms have passed, and not once more. */
  lemma DaysAreWhole(from: int, to: int, days: int)
    ensures WholeDays(from, to) == days <==> 86_400_000 * days <= to - from < 86_400_000 * (days + 1)
  {
  }

  // ---------------------------------------------------------------------------
  // What a spell is
  // ---------------------------------------------------------------------------

  /** No earlier balance, the starting one included, is above point `i`. */
  ghost predicate AtHigh(curve: seq<EquityPoint>, start: real, i: nat) {
    && i < |curve|
    && start <= curve[i].balance
    && forall k :: 0 <= k < i ==> curve[k].balance <= curve[i].balance
  }

  /** Every point strictly between `i` and `n` is below point `i`. */
  ghost predicate BelowUntil(curve: seq<EquityPoint>, i: nat, n: nat) {
    && i < n <= |curve|
    && forall k :: i < k < n ==> curve[k].balance < curve[i].balance
  }

  /** The account left a high at `i` and first got back to it at `j`. */
  ghost predicate Spell(curve: seq<EquityPoint>, start: real, i: nat, j: nat) {
    && i + 1 < j < |curve|
    && AtHigh(curve, start, i)
    && BelowUntil(curve, i, j)
    && curve[j].balance >= curve[i].balance
  }

  function SpellDays(curve: seq<EquityPoint>, i: nat, j: nat): int
    requires i < |curve| && j < |curve|
  {
    WholeDays(curve[i].closeAt, curve[j].closeAt)
  }

  ghost predicate SpellsTo(curve: seq<EquityPoint>, start: real, j: nat, days: int) {
    forall i: nat :: Spell(curve, start, i, j) ==> SpellDays(curve, i, j) <= days
  }

  /** No spell that ended before `n` took longer than `days`. */
  ghost predicate SpellsWithin(curve: seq<EquityPoint>, start: real, n: nat, days: int) {
    forall j: nat :: j < n ==> SpellsTo(curve, start, j, days)
  }

  /** The first spell of `days` whole days; every one that ended earlier was shorter. */
  ghost predicate FirstSpell(curve: seq<EquityPoint>, start: real, i: nat, j: nat, days: int) {
    && Spell(curve, start, i, j)
    && SpellDays(curve, i, j) == days
    && SpellsWithin(curve, start, j, days - 1)
  }

  ghost predicate RecoveredSpell(curve: seq<EquityPoint>, start: real, days: int, from: Option<int>, to: Option<int>) {
    exists i: nat, j: nat ::
      FirstSpell(curve, start, i, j, days) && from == Some(curve[i].closeAt) && to == Some(curve[j].closeAt)
  }

  /** Where the unfinished spell is measured from: the last high, or the first point when there was none. */
  ghost predicate OpenFrom(curve: seq<EquityPoint>, start: real, from: int) {
    || (exists i: nat :: AtHigh(curve, start, i) && BelowUntil(curve, i, |curve|) && from == curve[i].closeAt)
    || ((forall i: nat :: !AtHigh(curve, start, i)) && curve != [] && from == curve[0].closeAt)
  }

  /** The unfinished spell has the reported length. */
  ghost predicate OpenSpell(curve: seq<EquityPoint>, start: real, days: int, from: int) {
    && curve != []
    && !AtHigh(curve, start, |curve| - 1)
    && OpenFrom(curve, start, from)
    && days == WholeDays(from, curve[|curve| - 1].closeAt)
  }

  /** Everything the report promises about a curve. */
  ghost predicate Reports(curve: seq<EquityPoint>, start: real, r: Underwater) {
    && SpellsWithin(curve, start, |curve|, r.longestDays)
    && 0 <= r.longestDays && r.ongoingDays <= r.longestDays
    && (r.ongoing <==> curve != [] && !AtHigh(curve, start, |curve| - 1))
    && (if r.ongoing then exists from :: OpenSpell(curve, start, r.ongoingDays, from) else r.ongoingDays == 0)
    && (r.longestDays == 0 ==> r.from == None && r.recoveredAt == None)
    && (r.longestDays > 0 ==> Attained(curve, start, r))
  }

  /** A longest stretch that is not zero is a real one, and a recovered one is preferred on a tie. */
  ghost predicate Attained(curve: seq<EquityPoint>, start: real, r: Underwater) {
    if r.recoveredAt == None then
      && r.ongoing && r.ongoingDays == r.longestDays
      && r.from.Some? && OpenSpell(curve, start, r.longestDays, r.from.value)
      && SpellsWithin(curve, start, |curve|, r.longestDays - 1)
    else
      RecoveredSpell(curve, start, r.longestDays, r.from, r.recoveredAt)
  }

  // ---------------------------------------------------------------------------
  // Point by point
  // ---------------------------------------------------------------------------

  function Peak(curve: seq<EquityPoint>, start: real, n: nat): real
    requires n <= |curve|
  {
    if n == 0 then start
    else if curve[n - 1].balance < Peak(curve, start, n - 1) then Peak(curve, start, n - 1)
    else curve[n - 1].balance
  }

  /** The last of the first `n` points that was at a high. */
  function LastHigh(curve: seq<EquityPoint>, start: real, n: nat): (i: Option<nat>)
    requires n <= |curve|
    ensures i.Some? ==> i.value < n
  {
    if n == 0 then None
    else if curve[n - 1].balance < Peak(curve, start, n - 1) then LastHigh(curve, start, n - 1)
    else Some(n - 1)
  }

  function HighDate(curve: seq<EquityPoint>, start: real, n: nat): Option<int>
    requires n <= |curve|
  {
    var i := LastHigh(curve, start, n);
    if i.Some? then Some(curve[i.value].closeAt) else None
  }

  /** Below the last high, or never at one. */
  function Dipped(curve: seq<EquityPoint>, start: real, n: nat): bool
    requires n <= |curve|
  {
    n > 0 && curve[n - 1].balance < Peak(curve, start, n - 1)
  }

  datatype Stretch = Stretch(days: int, from: Option<int>, to: Option<int>)

  /** The longest stretch recovered from within the first `n` points. */
  function LongestRecovered(curve: seq<EquityPoint>, start: real, n: nat): Stretch
    requires n <= |curve|
  {
    if n == 0 then Stretch(0, None, None)
    else
      var before := LongestRecovered(curve, start, n - 1);
      var high := LastHigh(curve, start, n - 1);
      if Dipped(curve, start, n) || !Dipped(curve, start, n - 1) || high.None? then before
      else if SpellDays(curve, high.value, n - 1) > before.days then
        Stretch(SpellDays(curve, high.value, n - 1), Some(curve[high.value].closeAt), Some(curve[n - 1].closeAt))
      else before
  }

  lemma {:induction false} PeakIsHighest(curve: seq<EquityPoint>, start: real, n: nat)
    requires n <= |curve|
    ensures start <= Peak(curve, start, n)
    ensures forall k :: 0 <= k < n ==> curve[k].balance <= Peak(curve, start, n)
    ensures var i := LastHigh(curve, start, n);
            Peak(curve, start, n) == if i.Some? then curve[i.value].balance else start
  {
    if n > 0 {
      PeakIsHighest(curve, start, n - 1);
    }
  }

  /** The running comparison with the peak finds exactly the highs. */
  lemma DippedIsNotHigh(curve: seq<EquityPoint>, start: real, n: nat)
    requires 0 < n <= |curve|
    ensures Dipped(curve, start, n) <==> !AtHigh(curve, start, n - 1)
  {
    PeakIsHighest(curve, start, n - 1);
  }

  lemma {:induction false} LastHighIsHigh(curve: seq<EquityPoint>, start: real, n: nat)
    requires n <= |curve|
    ensures var i := LastHigh(curve, start, n);
            if i.Some? then AtHigh(curve, start, i.value) && BelowUntil(curve, i.value, n)
            else forall k: nat :: k < n ==> !AtHigh(curve, start, k)
  {
    if n > 0 {
      LastHighIsHigh(curve, start, n - 1);
      PeakIsHighest(curve, start, n - 1);
      DippedIsNotHigh(curve, start, n);
    }
  }

  lemma {:induction false} LastHighIsTheHigh(curve: seq<EquityPoint>, start: real, i: nat, n: nat)
    requires AtHigh(curve, start, i) && BelowUntil(curve, i, n)
    ensures LastHigh(curve, start, n) == Some(i)
  {
    PeakIsHighest(curve, start, n - 1);
    if n - 1 == i {
      DippedIsNotHigh(curve, start, n);
    } else {
      LastHighIsTheHigh(curve, start, i, n - 1);
    }
  }

  /** The spell that the `n`-th point ends, if it ends one, runs from the last high. */
  lemma SpellsEndingAt(curve: seq<EquityPoint>, start: real, n: nat, days: int)
    requires 0 < n <= |curve|
    requires var high := LastHigh(curve, start, n - 1);
             !Dipped(curve, start, n) && Dipped(curve, start, n - 1) && high.Some? ==>
                 SpellDays(curve, high.value, n - 1) <= days
    ensures SpellsTo(curve, start, n - 1, days)
  {
    var j: nat := n - 1;
    forall i: nat | Spell(curve, start, i, j)
      ensures SpellDays(curve, i, j) <= days
    {
      LastHighIsTheHigh(curve, start, i, n - 1);
      PeakIsHighest(curve, start, n - 1);
    }
  }

  lemma SpellFound(curve: seq<EquityPoint>, start: real, n: nat)
    requires 0 < n <= |curve| && !Dipped(curve, start, n) && Dipped(curve, start, n - 1)
    requires LastHigh(curve, start, n - 1).Some?
    ensures Spell(curve, start, LastHigh(curve, start, n - 1).value, n - 1)
  {
    LastHighIsHigh(curve, start, n - 1);
    PeakIsHighest(curve, start, n - 1);
  }

  lemma {:induction false} LongestIsLongest(curve: seq<EquityPoint>, start: real, n: nat)
    requires n <= |curve|
    ensures var l := LongestRecovered(curve, start, n);
            && 0 <= l.days && SpellsWithin(curve, start, n, l.days)
            && if l.days == 0 then l == Stretch(0, None, None) else RecoveredSpell(curve, start, l.days, l.from, l.to)
  {
    if n > 0 {
      LongestIsLongest(curve, start, n - 1);
      var before, l := LongestRecovered(curve, start, n - 1), LongestRecovered(curve, start, n);
      SpellsEndingAt(curve, start, n, l.days);
      forall j: nat | j < n
        ensures SpellsTo(curve, start, j, l.days)
      {
        assert j < n - 1 ==> SpellsTo(curve, start, j, before.days);
      }
      if l != before {
        SpellFound(curve, start, n);
        var i := LastHigh(curve, start, n - 1).value;
        SpellsRelax(curve, start, n - 1, before.days, l.days - 1);
        assert FirstSpell(curve, start, i, n - 1, l.days);
      }
    }
  }

  lemma SpellsRelax(curve: seq<EquityPoint>, start: real, n: nat, days: int, more: int)
    requires SpellsWithin(curve, start, n, days) && days <= more
    ensures SpellsWithin(curve, start, n, more)
  {
    forall j: nat | j < n
      ensures SpellsTo(curve, start, j, more)
    {
      assert SpellsTo(curve, start, j, days);
    }
  }

  // ---------------------------------------------------------------------------
  // One pass
  // ---------------------------------------------------------------------------

  method ComputeUnderwater(curve: seq<EquityPoint>, start: real) returns (r: Underwater)
    ensures Reports(curve, start, r)
  {
    if |curve| == 0 {
      return EmptyUnderwater();
    }
    var peak, peakAt, dipped := start, None, false;
    var longestDays, longestFrom, recoveredAt := 0, None, None;
    for k := 0 to |curve|
      invariant peak == Peak(curve, start, k)
      invariant peakAt == HighDate(curve, start, k)
      invariant dipped == Dipped(curve, start, k)
      invariant Stretch(longestDays, longestFrom, recoveredAt) == LongestRecovered(curve, start, k)
    {
      var point := curve[k];
      if point.balance < peak {
        dipped := true;
        continue;
      }
      if dipped && peakAt.Some? {
        var days := WholeDays(peakAt.value, point.closeAt);
        if days > longestDays {
          longestDays, longestFrom, recoveredAt := days, peakAt, Some(point.closeAt);
        }
      }
      peak, peakAt, dipped := point.balance, Some(point.closeAt), false;
    }
    var last := curve[|curve| - 1];
    var ongoing := last.balance < peak;
    var measuredFrom := peakAt.GetOr(curve[0].closeAt);
    var ongoingDays := if ongoing then WholeDays(measuredFrom, last.closeAt) else 0;
    ReportIsTrue(curve, start);
    if ongoingDays > longestDays {
      r := Underwater(ongoingDays, Some(measuredFrom), None, true, ongoingDays);
    } else {
      r := Underwater(longestDays, longestFrom, recoveredAt, ongoing, ongoingDays);
    }
  }

  /** The report on what the loop found: the unfinished spell counts when it is the longest. */
  function Report(curve: seq<EquityPoint>, start: real): Underwater
    requires curve != []
  {
    var recovered, last := LongestRecovered(curve, start, |curve|), curve[|curve| - 1];
    var from := HighDate(curve, start, |curve|).GetOr(curve[0].closeAt);
    var ongoing := last.balance < Peak(curve, start, |curve|);
    var ongoingDays := if ongoing then WholeDays(from, last.closeAt) else 0;
    if ongoingDays > recovered.days then Underwater(ongoingDays, Some(from), None, true, ongoingDays)
    else Underwater(recovered.days, recovered.from, recovered.to, ongoing, ongoingDays)
  }

  lemma ReportIsTrue(curve: seq<EquityPoint>, start: real)
    requires curve != []
    ensures Reports(curve, start, Report(curve, start))
  {
    var from := HighDate(curve, start, |curve|).GetOr(curve[0].closeAt);
    var days := WholeDays(from, curve[|curve| - 1].closeAt);
    var longest := LongestRecovered(curve, start, |curve|);
    LongestIsLongest(curve, start, |curve|);
    OpenSpellFound(curve, start, from);
    if days > longest.days {
      SpellsRelax(curve, start, |curve|, longest.days, days - 1);
      SpellsRelax(curve, start, |curve|, longest.days, days);
    }
  }

  lemma OpenSpellFound(curve: seq<EquityPoint>, start: real, from: int)
    requires curve != [] && from == HighDate(curve, start, |curve|).GetOr(curve[0].closeAt)
    ensures curve[|curve| - 1].balance < Peak(curve, start, |curve|) <==> !AtHigh(curve, start, |curve| - 1)
    ensures !AtHigh(curve, start, |curve| - 1) ==>
              OpenSpell(curve, start, WholeDays(from, curve[|curve| - 1].closeAt), from)
  {
    DippedIsNotHigh(curve, start, |curve|);
    PeakIsHighest(curve, start, |curve|);
    LastHighIsHigh(curve, start, |curve|);
    assert OpenFrom(curve, start, from);
  }

  // ---------------------------------------------------------------------------
  // Laws
  // ---------------------------------------------------------------------------

  ghost predicate CloseOrdered(curve: seq<EquityPoint>) {
    forall i, j :: 0 <= i <= j < |curve| ==> curve[i].closeAt <= curve[j].closeAt
  }

  /** On a curve in closing order no stretch outlasts the curve itself. */
  lemma LongestWithinSpan(curve: seq<EquityPoint>, start: real, r: Underwater)
    requires Reports(curve, start, r) && CloseOrdered(curve) && curve != []
    ensures 0 <= r.longestDays <= WholeDays(curve[0].closeAt, curve[|curve| - 1].closeAt)
    ensures 0 <= r.ongoingDays
  {
    if r.longestDays > 0 && r.recoveredAt.Some? {
      var i: nat, j: nat :| FirstSpell(curve, start, i, j, r.longestDays);
    }
    if r.ongoing {
      var from :| OpenSpell(curve, start, r.ongoingDays, from);
    }
  }

  /** The reported length of a recovered spell is the whole days from one reported date to the other. */
  lemma LengthIsItsDates(curve: seq<EquityPoint>, start: real, r: Underwater)
    requires Reports(curve, start, r) && r.longestDays > 0 && r.recoveredAt.Some?
    ensures r.from.Some?
    ensures 86_400_000 * r.longestDays <= r.recoveredAt.value - r.from.value < 86_400_000 * (r.longestDays + 1)
  {
    var i: nat, j: nat :|
      FirstSpell(curve, start, i, j, r.longestDays)
      && r.from == Some(curve[i].closeAt) && r.recoveredAt == Some(curve[j].closeAt);
    DaysAreWhole(curve[i].closeAt, curve[j].closeAt, r.longestDays);
  }

  /** An account that never fell was never under water. */
  lemma NoFallNoSpell(curve: seq<EquityPoint>, start: real, r: Underwater)
    requires Reports(curve, start, r)
    requires Drawdown.IsWorstFall(Drawdown.Balances(curve, start), 0.0)
    ensures r == EmptyUnderwater()
  {
    forall i: nat | i < |curve|
      ensures AtHigh(curve, start, i)
    {
      NoFallIsHigh(curve, start, i);
    }
    forall i: nat, j: nat
      ensures !Spell(curve, start, i, j)
    {
      assert i + 1 < |curve| ==> AtHigh(curve, start, i + 1);
    }
  }

  lemma NoFallIsHigh(curve: seq<EquityPoint>, start: real, i: nat)
    requires i < |curve|
    requires Drawdown.IsWorstFall(Drawdown.Balances(curve, start), 0.0)
    ensures AtHigh(curve, start, i)
  {
    var b := Drawdown.Balances(curve, start);
    assert Drawdown.FallsTo(b, i + 1, 0.0);
    assert b[0] == start && b[i + 1] == curve[i].balance;
    assert forall k :: 0 <= k < i ==> b[k + 1] == curve[k].balance;
  }
}
