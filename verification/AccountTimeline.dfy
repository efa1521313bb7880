/**
 The timeline of one account: requests read its row and write to it at instants of their own, and
 the last spent step and the unused recovery codes just before each instant follow from that. How
 they stay, grow and come back between two instants.

 What follows for spending a factor once is in Overlap. The sources are src/lib/auth/two-factor.ts
 and src/lib/db/two-factor.ts.
 */
module AccountTimeline {
  import opened Prelude
  import opened Totp

  /** One request: the instant it reads the row, and the later instant it would write to it. */
  datatype Request = Request(read: nat, write: nat)

  ghost predicate OwnInstant(rs: seq<Request>, p: nat)
    requires p < |rs|
  {
    forall q :: 0 <= q < |rs| && q != p ==> rs[q].write != rs[p].write
  }

  /** Every write at an instant of its own, after its read. */
  ghost predicate WellTimed(rs: seq<Request>) {
    && (forall p :: 0 <= p < |rs| ==> rs[p].read < rs[p].write)
    && (forall p :: 0 <= p < |rs| ==> OwnInstant(rs, p))
  }

  /** Two requests have both read before either has written. */
  ghost predicate Overlaps(rs: seq<Request>, p: nat, q: nat) {
    && p < |rs| && q < |rs| && p != q
    && rs[p].read <= rs[q].write && rs[q].read <= rs[p].write
  }

  ghost predicate NoOverlap(rs: seq<Request>) {
    forall p: nat, q: nat :: !Overlaps(rs, p, q)
  }

  /** The request that writes at an instant, if one does; the number of requests otherwise. */
  function WriterAt(rs: seq<Request>, t: nat): (p: nat)
    ensures p <= |rs|
    ensures p < |rs| ==> rs[p].write == t
    ensures p == |rs| ==> forall q :: 0 <= q < |rs| ==> rs[q].write != t
  {
    if rs == [] then 0 else if rs[0].write == t then 0 else 1 + WriterAt(rs[1..], t)
  }

  lemma WriterIs(rs: seq<Request>, p: nat)
    requires WellTimed(rs) && p < |rs|
    ensures WriterAt(rs, rs[p].write) == p
  {
    assert OwnInstant(rs, p);
  }

  // ---------------------------------------------------------------------------
  // Authenticator codes: the step is written whatever is stored by then
  // ---------------------------------------------------------------------------

  /** The last spent step just before an instant; request `p` shows the code of `steps(p)`. */
  function LastStep(rs: seq<Request>, steps: nat -> int, initial: Option<int>, t: nat): Option<int>
    requires WellTimed(rs)
    decreases t
  {
    if t == 0 then initial
    else
      var p := WriterAt(rs, t - 1);
      if p < |rs| && !Spent(LastStep(rs, steps, initial, rs[p].read), steps(p)) then Some(steps(p))
      else LastStep(rs, steps, initial, t - 1)
  }

  /** A request starts a session when its step was past the last one at the time it read. */
  predicate Accepts(rs: seq<Request>, steps: nat -> int, initial: Option<int>, p: nat)
    requires WellTimed(rs) && p < |rs|
  {
    !Spent(LastStep(rs, steps, initial, rs[p].read), steps(p))
  }

  /** `b` is past `a`, or nothing was spent. */
  ghost predicate AtLeast(b: Option<int>, a: Option<int>) {
    a.Some? ==> b.Some? && a.value <= b.value
  }

  /** Without overlap nothing is written between a request's read and its write. */
  lemma {:induction false} QuietBetween(rs: seq<Request>, steps: nat -> int, initial: Option<int>, p: nat, t: nat)
    requires WellTimed(rs) && NoOverlap(rs) && p < |rs| && rs[p].read <= t <= rs[p].write
    ensures LastStep(rs, steps, initial, t) == LastStep(rs, steps, initial, rs[p].read)
    decreases t
  {
    if rs[p].read < t {
      QuietBetween(rs, steps, initial, p, t - 1);
      assert !Overlaps(rs, p, WriterAt(rs, t - 1));
    }
  }

  lemma OneWriteGrows(rs: seq<Request>, steps: nat -> int, initial: Option<int>, t: nat)
    requires WellTimed(rs) && NoOverlap(rs)
    ensures AtLeast(LastStep(rs, steps, initial, t + 1), LastStep(rs, steps, initial, t))
  {
    var q := WriterAt(rs, t);
    if q < |rs| {
      QuietBetween(rs, steps, initial, q, t);
    }
  }

  lemma {:induction false} LastStepGrows(rs: seq<Request>, steps: nat -> int, initial: Option<int>, from: nat, t: nat)
    requires WellTimed(rs) && NoOverlap(rs) && from <= t
    ensures AtLeast(LastStep(rs, steps, initial, t), LastStep(rs, steps, initial, from))
    decreases t
  {
    if from < t {
      LastStepGrows(rs, steps, initial, from, t - 1);
      OneWriteGrows(rs, steps, initial, t - 1);
    }
  }

  /** Two requests showing one code: everyone else shows a step long spent. */
  function SameCode(p: nat, q: nat): nat -> int {
    (r: nat) => if r == p || r == q then 1 else 0
  }

  /** Until one of the two has written, the last step is still the initial one. */
  lemma {:induction false} UntilOneWrites(rs: seq<Request>, p: nat, q: nat, t: nat)
    requires WellTimed(rs) && p < |rs| && q < |rs|
    ensures LastStep(rs, SameCode(p, q), Some(0), t) == Some(0) || LastStep(rs, SameCode(p, q), Some(0), t) == Some(1)
    ensures t <= rs[p].write && t <= rs[q].write ==> LastStep(rs, SameCode(p, q), Some(0), t) == Some(0)
    decreases t
  {
    if t > 0 {
      UntilOneWrites(rs, p, q, t - 1);
      var r := WriterAt(rs, t - 1);
      if r < |rs| {
        UntilOneWrites(rs, p, q, rs[r].read);
      }
    }
  }

  // ---------------------------------------------------------------------------
  // Recovery codes: the write is conditional, but puts back the list that was read
  // ---------------------------------------------------------------------------

  /** The unused codes just before an instant; request `p` enters the code `codes(p)`. */
  function Unused(rs: seq<Request>, codes: nat -> int, initial: set<int>, t: nat): set<int>
    requires WellTimed(rs)
    decreases t
  {
    if t == 0 then initial
    else
      var p := WriterAt(rs, t - 1);
      var now := Unused(rs, codes, initial, t - 1);
      if p < |rs| && codes(p) in Unused(rs, codes, initial, rs[p].read) && codes(p) in now then
        Unused(rs, codes, initial, rs[p].read) - {codes(p)}
      else now
  }

  /** A request wins when its code was unused both when it read and when it wrote. */
  predicate Wins(rs: seq<Request>, codes: nat -> int, initial: set<int>, p: nat)
    requires WellTimed(rs) && p < |rs|
  {
    codes(p) in Unused(rs, codes, initial, rs[p].read) && codes(p) in Unused(rs, codes, initial, rs[p].write)
  }

  /** While `p` writes between `q`'s read and write, `q` can put `p`'s code back for `r`. */
  ghost predicate PutsBack(rs: seq<Request>, p: nat, q: nat, r: nat) {
    && p < |rs| && q < |rs| && r < |rs| && p != q && q != r && p != r
    && rs[q].read <= rs[p].write < rs[q].write < rs[r].write
    && (rs[r].read <= rs[p].write || rs[q].write < rs[r].read)
  }

  ghost predicate NonePutBack(rs: seq<Request>) {
    forall p: nat, q: nat, r: nat :: !PutsBack(rs, p, q, r)
  }

  /** A winner's code is gone right after its write. */
  lemma GoneAfterWin(rs: seq<Request>, codes: nat -> int, initial: set<int>, p: nat)
    requires WellTimed(rs) && p < |rs| && Wins(rs, codes, initial, p)
    ensures codes(p) !in Unused(rs, codes, initial, rs[p].write + 1)
  {
    WriterIs(rs, p);
  }

  /** A code that is gone and back again was put back by a winner that had read it before it was gone. */
  lemma {:induction false} WhoPutsBack(
      rs: seq<Request>, codes: nat -> int, initial: set<int>, code: int, from: nat, t: nat)
    returns (q: nat)
    requires WellTimed(rs) && from < t
    requires code !in Unused(rs, codes, initial, from) && code in Unused(rs, codes, initial, t)
    ensures q < |rs| && from <= rs[q].write < t && rs[q].read < from && codes(q) != code
    ensures forall u :: from <= u <= rs[q].write ==> code !in Unused(rs, codes, initial, u)
    decreases t
  {
    if t - 1 > from && code in Unused(rs, codes, initial, t - 1) {
      q := WhoPutsBack(rs, codes, initial, code, from, t - 1);
    } else if exists u :: from < u < t && code in Unused(rs, codes, initial, u) {
      var u :| from < u < t && code in Unused(rs, codes, initial, u);
      q := WhoPutsBack(rs, codes, initial, code, from, u);
    } else {
      q := WriterAt(rs, t - 1);
      assert forall u :: from <= u < t ==> code !in Unused(rs, codes, initial, u);
    }
  }

  /** Two requests enter one code, a third another; everyone else enters codes that were never issued. */
  function TwoCodes(p: nat, q: nat, r: nat): nat -> int {
    (s: nat) => if s == p || s == r then 1 else if s == q then 2 else 0
  }

  lemma {:induction false} UntouchedUntil(rs: seq<Request>, p: nat, q: nat, r: nat, t: nat)
    requires WellTimed(rs) && p < |rs| && q < |rs| && r < |rs| && p != q && q != r && p != r
    requires t <= rs[p].write < rs[q].write < rs[r].write
    ensures Unused(rs, TwoCodes(p, q, r), {1, 2}, t) == {1, 2}
    decreases t
  {
    if t > 0 {
      UntouchedUntil(rs, p, q, r, t - 1);
    }
  }

  ghost predicate Outside(r: Request, from: nat, t: nat) {
    r.write < from || t <= r.write
  }

  lemma {:induction false} QuietAfter(rs: seq<Request>, p: nat, q: nat, r: nat, from: nat, t: nat)
    requires WellTimed(rs) && p < |rs| && q < |rs| && r < |rs| && from <= t
    requires Outside(rs[p], from, t) && Outside(rs[q], from, t) && Outside(rs[r], from, t)
    requires 0 !in Unused(rs, TwoCodes(p, q, r), {1, 2}, from)
    ensures Unused(rs, TwoCodes(p, q, r), {1, 2}, t) == Unused(rs, TwoCodes(p, q, r), {1, 2}, from)
    decreases t
  {
    if from < t {
      QuietAfter(rs, p, q, r, from, t - 1);
    }
  }

  /** The first of the three writes spends its code. */
  lemma FirstSpends(rs: seq<Request>, p: nat, q: nat, r: nat)
    requires WellTimed(rs) && PutsBack(rs, p, q, r)
    ensures Unused(rs, TwoCodes(p, q, r), {1, 2}, rs[p].write + 1) == {2}
  {
    WriterIs(rs, p);
    UntouchedUntil(rs, p, q, r, rs[p].read);
    UntouchedUntil(rs, p, q, r, rs[p].write);
    assert {1, 2} - {1} == {2};
  }

  /** The second puts it back. */
  lemma SecondPutsBack(rs: seq<Request>, p: nat, q: nat, r: nat)
    requires WellTimed(rs) && PutsBack(rs, p, q, r)
    ensures Unused(rs, TwoCodes(p, q, r), {1, 2}, rs[q].write + 1) == {1}
  {
    WriterIs(rs, q);
    FirstSpends(rs, p, q, r);
    UntouchedUntil(rs, p, q, r, rs[q].read);
    QuietAfter(rs, p, q, r, rs[p].write + 1, rs[q].write);
    assert {1, 2} - {2} == {1};
  }

  lemma FirstWins(rs: seq<Request>, p: nat, q: nat, r: nat)
    requires WellTimed(rs) && PutsBack(rs, p, q, r)
    ensures Wins(rs, TwoCodes(p, q, r), {1, 2}, p)
  {
    UntouchedUntil(rs, p, q, r, rs[p].read);
    UntouchedUntil(rs, p, q, r, rs[p].write);
  }

  lemma ThirdWins(rs: seq<Request>, p: nat, q: nat, r: nat)
    requires WellTimed(rs) && PutsBack(rs, p, q, r)
    requires Unused(rs, TwoCodes(p, q, r), {1, 2}, rs[q].write + 1) == {1}
    ensures Wins(rs, TwoCodes(p, q, r), {1, 2}, r)
  {
    QuietAfter(rs, p, q, r, rs[q].write + 1, rs[r].write);
    if rs[r].read <= rs[p].write {
      UntouchedUntil(rs, p, q, r, rs[r].read);
    } else {
      QuietAfter(rs, p, q, r, rs[q].write + 1, rs[r].read);
    }
  }
}
