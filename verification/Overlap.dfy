/** Answers to the challenges of one account that overlap in time (src/lib/auth/two-factor.ts). */
module Overlap {
  // Judging a code reads the account's row once and writes to it later (two-factor.ts:98-134 and
  // src/lib/db/two-factor.ts:101-128), so another request's write can fall in between. When each
  // factor is still spent once, exactly.

  import opened Prelude
  import opened AccountTimeline

  // ---------------------------------------------------------------------------
  // Authenticator codes
  // ---------------------------------------------------------------------------

  /** No step starts two sessions. */
  ghost predicate StepsSpentOnce(rs: seq<Request>, steps: nat -> int, initial: Option<int>)
    requires WellTimed(rs)
  {
    forall p, q :: 0 <= p < |rs| && 0 <= q < |rs| && p != q && steps(p) == steps(q) ==>
      !(Accepts(rs, steps, initial, p) && Accepts(rs, steps, initial, q))
  }

  lemma LaterIsPast(rs: seq<Request>, steps: nat -> int, initial: Option<int>, p: nat, q: nat)
    requires WellTimed(rs) && NoOverlap(rs) && p < |rs| && q < |rs| && rs[p].write < rs[q].read
    requires Accepts(rs, steps, initial, p) && Accepts(rs, steps, initial, q)
    ensures steps(p) < steps(q)
  {
    WriterIs(rs, p);
    LastStepGrows(rs, steps, initial, rs[p].write + 1, rs[q].read);
  }

  lemma OverlapSpendsTwice(rs: seq<Request>, p: nat, q: nat)
    requires WellTimed(rs) && Overlaps(rs, p, q)
    ensures !StepsSpentOnce(rs, SameCode(p, q), Some(0))
  {
    UntilOneWrites(rs, p, q, rs[p].read);
    UntilOneWrites(rs, p, q, rs[q].read);
    assert Accepts(rs, SameCode(p, q), Some(0), p) && Accepts(rs, SameCode(p, q), Some(0), q);
    assert SameCode(p, q)(p) == SameCode(p, q)(q);
  }

  lemma ApartSpendsOnce(rs: seq<Request>, steps: nat -> int, initial: Option<int>)
    requires WellTimed(rs) && NoOverlap(rs)
    ensures StepsSpentOnce(rs, steps, initial)
  {
    forall p, q | 0 <= p < |rs| && 0 <= q < |rs| && p != q && Accepts(rs, steps, initial, p)
        && Accepts(rs, steps, initial, q)
      ensures steps(p) != steps(q)
    {
      assert !Overlaps(rs, p, q);
      if rs[p].write < rs[q].read {
        LaterIsPast(rs, steps, initial, p, q);
      } else {
        LaterIsPast(rs, steps, initial, q, p);
      }
    }
  }

  /**
   Whatever codes are typed, each step starts at most one session: exactly when no two requests
   of the account overlap.
   */
  lemma StepsSpentOnceExactly(rs: seq<Request>)
    requires WellTimed(rs)
    ensures (forall steps: nat -> int, initial: Option<int> :: StepsSpentOnce(rs, steps, initial)) <==> NoOverlap(rs)
  {
    if NoOverlap(rs) {
      forall steps: nat -> int, initial: Option<int>
        ensures StepsSpentOnce(rs, steps, initial)
      {
        ApartSpendsOnce(rs, steps, initial);
      }
    } else {
      var p: nat, q: nat :| Overlaps(rs, p, q);
      OverlapSpendsTwice(rs, p, q);
    }
  }

  // ---------------------------------------------------------------------------
  // Recovery codes
  // ---------------------------------------------------------------------------

  ghost predicate CodesSpentOnce(rs: seq<Request>, codes: nat -> int, initial: set<int>)
    requires WellTimed(rs)
  {
    forall p, q :: 0 <= p < |rs| && 0 <= q < |rs| && p != q && codes(p) == codes(q) ==>
      !(Wins(rs, codes, initial, p) && Wins(rs, codes, initial, q))
  }

  lemma TwiceNeedsPutBack(rs: seq<Request>, codes: nat -> int, initial: set<int>, p: nat, r: nat)
    requires WellTimed(rs) && p < |rs| && r < |rs| && rs[p].write < rs[r].write
    requires Wins(rs, codes, initial, p) && Wins(rs, codes, initial, r) && codes(p) == codes(r)
    ensures !NonePutBack(rs)
  {
    GoneAfterWin(rs, codes, initial, p);
    var q := WhoPutsBack(rs, codes, initial, codes(p), rs[p].write + 1, rs[r].write);
    assert q != p && q != r;
    assert PutsBack(rs, p, q, r);
  }

  lemma PutBackSpendsTwice(rs: seq<Request>, p: nat, q: nat, r: nat)
    requires WellTimed(rs) && PutsBack(rs, p, q, r)
    ensures !CodesSpentOnce(rs, TwoCodes(p, q, r), {1, 2})
  {
    SecondPutsBack(rs, p, q, r);
    FirstWins(rs, p, q, r);
    ThirdWins(rs, p, q, r);
    assert TwoCodes(p, q, r)(p) == TwoCodes(p, q, r)(r);
  }

  lemma NonePutBackSpendsOnce(rs: seq<Request>, codes: nat -> int, initial: set<int>)
    requires WellTimed(rs) && NonePutBack(rs)
    ensures CodesSpentOnce(rs, codes, initial)
  {
    forall p, q | 0 <= p < |rs| && 0 <= q < |rs| && p != q && codes(p) == codes(q)
      ensures !(Wins(rs, codes, initial, p) && Wins(rs, codes, initial, q))
    {
      assert OwnInstant(rs, p);
      if rs[p].write < rs[q].write {
        PairSpendsOnce(rs, codes, initial, p, q);
      } else {
        PairSpendsOnce(rs, codes, initial, q, p);
      }
    }
  }

  lemma PairSpendsOnce(rs: seq<Request>, codes: nat -> int, initial: set<int>, p: nat, r: nat)
    requires WellTimed(rs) && NonePutBack(rs) && p < |rs| && r < |rs| && rs[p].write < rs[r].write
               && codes(p) == codes(r)
    ensures !(Wins(rs, codes, initial, p) && Wins(rs, codes, initial, r))
  {
    if Wins(rs, codes, initial, p) && Wins(rs, codes, initial, r) {
      TwiceNeedsPutBack(rs, codes, initial, p, r);
    }
  }

  /**
   Whatever codes are entered, each is spent at most once: exactly when no request can put back,
   with the list it had read, a code that another has spent meanwhile and a third then enters.
   */
  lemma CodesSpentOnceExactly(rs: seq<Request>)
    requires WellTimed(rs)
    ensures (forall codes: nat -> int, initial: set<int> :: CodesSpentOnce(rs, codes, initial)) <==> NonePutBack(rs)
  {
    if NonePutBack(rs) {
      forall codes: nat -> int, initial: set<int>
        ensures CodesSpentOnce(rs, codes, initial)
      {
        NonePutBackSpendsOnce(rs, codes, initial);
      }
    } else {
      var p: nat, q: nat, r: nat :| PutsBack(rs, p, q, r);
      PutBackSpendsTwice(rs, p, q, r);
    }
  }

  /** The promise the conditional write does keep: of any number entering one and the same code, one wins. */
  lemma SameCodeWinsOnce(rs: seq<Request>, code: int, initial: set<int>, p: nat, q: nat)
    requires WellTimed(rs) && p < |rs| && q < |rs| && p != q
    ensures var codes: nat -> int := _ => code;
            !(Wins(rs, codes, initial, p) && Wins(rs, codes, initial, q))
  {
    var codes: nat -> int := _ => code;
    assert OwnInstant(rs, p);
    if rs[p].write < rs[q].write {
      EarlierWinsAlone(rs, code, initial, p, q);
    } else {
      EarlierWinsAlone(rs, code, initial, q, p);
    }
  }

  lemma EarlierWinsAlone(rs: seq<Request>, code: int, initial: set<int>, p: nat, q: nat)
    requires WellTimed(rs) && p < |rs| && q < |rs| && rs[p].write < rs[q].write
    ensures var codes: nat -> int := _ => code;
            !(Wins(rs, codes, initial, p) && Wins(rs, codes, initial, q))
  {
    var codes: nat -> int := _ => code;
    if Wins(rs, codes, initial, p) && Wins(rs, codes, initial, q) {
      GoneAfterWin(rs, codes, initial, p);
      var w := WhoPutsBack(rs, codes, initial, code, rs[p].write + 1, rs[q].write);
      assert false;
    }
  }
}
