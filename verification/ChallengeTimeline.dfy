/**
 The timeline of one challenge: requests look it up, settle and drop it at instants of their own,
 and the wrong codes counted just before each instant follow from that. How long the challenge is
 there when every code is wrong, and until when a right code makes no difference.

 What follows for sessions and guesses is in ChallengeOverlap. The source is src/lib/db/two-factor.ts.
 */
module ChallengeTimeline {
  import opened Prelude
  import opened SignIn

  // ---------------------------------------------------------------------------
  // Any number of requests on one challenge
  // ---------------------------------------------------------------------------

  /**
   The instants of a request: it looks the challenge up; it settles, by deleting the challenge for
   a right code or counting a wrong one; and it drops the challenge if that was the fifth.
   */
  datatype Guess = Guess(look: nat, settle: nat, drop: nat)

  ghost predicate OwnInstants(gs: seq<Guess>, p: nat)
    requires p < |gs|
  {
    forall q :: 0 <= q < |gs| ==> (q != p ==> gs[q].settle != gs[p].settle) && gs[q].settle != gs[p].drop
  }

  ghost predicate WellTimed(gs: seq<Guess>) {
    && (forall p :: 0 <= p < |gs| ==> gs[p].look < gs[p].settle < gs[p].drop)
    && (forall p :: 0 <= p < |gs| ==> OwnInstants(gs, p))
  }

  /** The request that settles at an instant, if one does; the number of requests otherwise. */
  ghost function SettlerAt(gs: seq<Guess>, t: nat): (p: nat)
    ensures p <= |gs|
    ensures p < |gs| ==> gs[p].settle == t
    ensures p == |gs| ==> forall q :: 0 <= q < |gs| ==> gs[q].settle != t
  {
    if exists p: nat :: p < |gs| && gs[p].settle == t then
      var p: nat :| p < |gs| && gs[p].settle == t;
      p
    else |gs|
  }

  lemma SettlerIs(gs: seq<Guess>, p: nat)
    requires WellTimed(gs) && p < |gs|
    ensures SettlerAt(gs, gs[p].settle) == p
  {
    assert OwnInstants(gs, p);
  }

  /** Which requests enter a right code. */
  type Verdicts = nat -> bool

  /** The wrong codes counted just before an instant, while the challenge is there. */
  ghost function Attempts(gs: seq<Guess>, right: Verdicts, t: nat): Option<nat>
    requires WellTimed(gs)
    decreases t, 0
  {
    if t == 0 then Some(0)
    else
      var now := Attempts(gs, right, t - 1);
      var p := SettlerAt(gs, t - 1);
      if now.None? then None
      else if p < |gs| then
        if Attempts(gs, right, gs[p].look).None? then now else if right(p) then None else Some(now.value + 1)
      else if DroppedAt(gs, right, t - 1) then None
      else now
  }

  /** A request is judged when it finds the challenge. */
  ghost predicate Judged(gs: seq<Guess>, right: Verdicts, p: nat)
    requires WellTimed(gs) && p < |gs|
    decreases gs[p].look, 1
  {
    Attempts(gs, right, gs[p].look).Some?
  }

  /** A request counts a wrong code, and it is the fifth or a later one. */
  ghost predicate Exhausts(gs: seq<Guess>, right: Verdicts, q: nat)
    requires WellTimed(gs) && q < |gs|
    decreases gs[q].drop, 1
  {
    var after := Attempts(gs, right, gs[q].settle + 1);
    Judged(gs, right, q) && !right(q) && after.Some? && after.value >= MAX_CHALLENGE_ATTEMPTS
  }

  /** Somebody who has exhausted the challenge drops it at an instant. */
  ghost predicate DroppedAt(gs: seq<Guess>, right: Verdicts, t: nat)
    requires WellTimed(gs)
    decreases t, 2
  {
    exists q :: 0 <= q < |gs| && gs[q].drop == t && Exhausts(gs, right, q)
  }

  lemma {:induction false} GoneStaysGone(gs: seq<Guess>, right: Verdicts, from: nat, t: nat)
    requires WellTimed(gs) && from <= t && Attempts(gs, right, from).None?
    ensures Attempts(gs, right, t).None?
    decreases t
  {
    if from < t {
      GoneStaysGone(gs, right, from, t - 1);
    }
  }

  /** Whoever settles while the challenge is there had found it. */
  lemma SettlerWasJudged(gs: seq<Guess>, right: Verdicts, p: nat, t: nat)
    requires WellTimed(gs) && p < |gs| && gs[p].look <= t && Attempts(gs, right, t).Some?
    ensures Judged(gs, right, p)
  {
    if !Judged(gs, right, p) {
      GoneStaysGone(gs, right, gs[p].look, t);
    }
  }

  // ---------------------------------------------------------------------------
  // When every code is wrong
  // ---------------------------------------------------------------------------

  function AllWrong(): Verdicts {
    _ => false
  }

  ghost function SettledBefore(gs: seq<Guess>, t: nat): set<nat> {
    set p: nat | p < |gs| && gs[p].settle < t
  }

  lemma OneMoreSettles(gs: seq<Guess>, t: nat)
    requires WellTimed(gs)
    ensures var p := SettlerAt(gs, t);
            && p !in SettledBefore(gs, t)
            && SettledBefore(gs, t + 1) == SettledBefore(gs, t) + if p < |gs| then {p} else {}
  {
    var p := SettlerAt(gs, t);
    if p < |gs| {
      assert OwnInstants(gs, p);
    }
  }

  /** One instant after which the challenge is still there: nobody settled, or a wrong code was counted. */
  lemma AttemptsStep(gs: seq<Guess>, right: Verdicts, t: nat)
    requires WellTimed(gs) && Attempts(gs, right, t + 1).Some?
    ensures Attempts(gs, right, t).Some?
    ensures var p := SettlerAt(gs, t);
            if p < |gs| then !right(p) && Attempts(gs, right, t + 1) == Some(Attempts(gs, right, t).value + 1)
            else Attempts(gs, right, t + 1) == Attempts(gs, right, t)
  {
    var p := SettlerAt(gs, t);
    if p < |gs| {
      SettlerWasJudged(gs, right, p, t);
    }
  }

  /** While the challenge is there, everybody who has settled has been counted. */
  lemma {:induction false} AttemptsCount(gs: seq<Guess>, right: Verdicts, t: nat)
    requires WellTimed(gs) && Attempts(gs, right, t).Some?
    ensures Attempts(gs, right, t).value == |SettledBefore(gs, t)|
    decreases t
  {
    if t == 0 {
      assert SettledBefore(gs, 0) == {};
    } else {
      AttemptsStep(gs, right, t - 1);
      AttemptsCount(gs, right, t - 1);
      OneMoreSettles(gs, t - 1);
    }
  }

  lemma StillThere(gs: seq<Guess>, right: Verdicts, from: nat, t: nat)
    requires WellTimed(gs) && from <= t && Attempts(gs, right, t).Some?
    ensures Attempts(gs, right, from).Some?
  {
    if Attempts(gs, right, from).None? {
      GoneStaysGone(gs, right, from, t);
    }
  }

  ghost predicate WrongBefore(gs: seq<Guess>, right: Verdicts, t: nat) {
    forall p :: 0 <= p < |gs| && gs[p].settle < t ==> !right(p)
  }

  /** And everybody who has settled was wrong. */
  lemma SettledWasWrong(gs: seq<Guess>, right: Verdicts, p: nat, t: nat)
    requires WellTimed(gs) && p < |gs| && gs[p].settle < t && Attempts(gs, right, t).Some?
    ensures !right(p)
  {
    SettlerIs(gs, p);
    StillThere(gs, right, gs[p].settle + 1, t);
    AttemptsStep(gs, right, gs[p].settle);
  }

  lemma AllWereWrong(gs: seq<Guess>, right: Verdicts, t: nat)
    requires WellTimed(gs) && Attempts(gs, right, t).Some?
    ensures WrongBefore(gs, right, t)
  {
    forall p | 0 <= p < |gs| && gs[p].settle < t
      ensures !right(p)
    {
      SettledWasWrong(gs, right, p, t);
    }
  }

  /** Two patterns of verdicts that the challenge cannot tell apart at an instant. */
  ghost predicate Alike(gs: seq<Guess>, right: Verdicts, t: nat)
    requires WellTimed(gs)
  {
    Attempts(gs, right, t) == Attempts(gs, AllWrong(), t)
  }

  lemma ExhaustsAlike(gs: seq<Guess>, right: Verdicts, q: nat)
    requires WellTimed(gs) && q < |gs| && !right(q)
    requires Alike(gs, right, gs[q].look) && Alike(gs, right, gs[q].settle + 1)
    ensures Exhausts(gs, right, q) <==> Exhausts(gs, AllWrong(), q)
  {
  }

  lemma NextAlike(gs: seq<Guess>, right: Verdicts, t: nat)
    requires WellTimed(gs) && Alike(gs, right, t)
    requires var p := SettlerAt(gs, t); p < |gs| ==> !right(p) && Alike(gs, right, gs[p].look)
    requires DroppedAt(gs, right, t) <==> DroppedAt(gs, AllWrong(), t)
    ensures Alike(gs, right, t + 1)
  {
  }

  /** Until a right code settles, it makes no difference that it is right. */
  lemma {:induction false} SameUntilRight(gs: seq<Guess>, right: Verdicts, t: nat)
    requires WellTimed(gs) && WrongBefore(gs, right, t)
    ensures Alike(gs, right, t)
    decreases t, 1
  {
    if t > 0 {
      SameUntilRight(gs, right, t - 1);
      var p := SettlerAt(gs, t - 1);
      if p < |gs| {
        SameUntilRight(gs, right, gs[p].look);
      }
      DroppedAlike(gs, right, t - 1);
      NextAlike(gs, right, t - 1);
    }
  }

  lemma {:induction false} DroppedAlike(gs: seq<Guess>, right: Verdicts, t: nat)
    requires WellTimed(gs) && WrongBefore(gs, right, t)
    ensures DroppedAt(gs, right, t) <==> DroppedAt(gs, AllWrong(), t)
    decreases t, 2
  {
    forall q | 0 <= q < |gs| && gs[q].drop == t
      ensures Exhausts(gs, right, q) <==> Exhausts(gs, AllWrong(), q)
    {
      SameUntilRight(gs, right, gs[q].look);
      SameUntilRight(gs, right, gs[q].settle + 1);
      ExhaustsAlike(gs, right, q);
    }
  }

  /** Four others settle before this one: it is the fifth, or later. */
  ghost predicate Fifth(gs: seq<Guess>, m: nat) {
    m < |gs| && |SettledBefore(gs, gs[m].settle)| >= MAX_CHALLENGE_ATTEMPTS - 1
  }

  ghost predicate NoneDropped(gs: seq<Guess>, t: nat) {
    forall m: nat :: Fifth(gs, m) ==> t <= gs[m].drop
  }

  /** A request looks the challenge up before a fifth has dropped it. */
  ghost predicate InTime(gs: seq<Guess>, p: nat) {
    p < |gs| && NoneDropped(gs, gs[p].look)
  }

  /** Right after it has settled, a request is counted with all before it. */
  lemma CountAtSettling(gs: seq<Guess>, right: Verdicts, m: nat)
    requires WellTimed(gs) && m < |gs| && Attempts(gs, right, gs[m].settle + 1).Some?
    ensures Attempts(gs, right, gs[m].settle + 1).value == |SettledBefore(gs, gs[m].settle)| + 1
  {
    AttemptsCount(gs, right, gs[m].settle + 1);
    SettlerIs(gs, m);
    OneMoreSettles(gs, gs[m].settle);
  }

  lemma FifthExhausts(gs: seq<Guess>, m: nat)
    requires WellTimed(gs) && m < |gs|
    requires Judged(gs, AllWrong(), m) && Attempts(gs, AllWrong(), gs[m].settle + 1).Some?
    ensures Exhausts(gs, AllWrong(), m) <==> Fifth(gs, m)
  {
    CountAtSettling(gs, AllWrong(), m);
  }

  /** When every code is wrong, the challenge is there until the first of the fifth or later drops it. */
  lemma {:induction false} ThereUntilDropped(gs: seq<Guess>, t: nat)
    requires WellTimed(gs)
    ensures Attempts(gs, AllWrong(), t).Some? <==> NoneDropped(gs, t)
    decreases t
  {
    if t > 0 {
      ThereUntilDropped(gs, t - 1);
      if Attempts(gs, AllWrong(), t - 1).Some? {
        forall m: nat | m < |gs| && gs[m].drop == t - 1
          ensures Exhausts(gs, AllWrong(), m) <==> Fifth(gs, m)
          ensures SettlerAt(gs, t - 1) == |gs|
        {
          SettlerWasJudged(gs, AllWrong(), m, t - 1);
          StillThere(gs, AllWrong(), gs[m].settle + 1, t - 1);
          FifthExhausts(gs, m);
          assert OwnInstants(gs, m);
        }
      }
    }
  }

  // ---------------------------------------------------------------------------
  // Who settles when
  // ---------------------------------------------------------------------------

  /** The last of some requests to settle. */
  lemma {:induction false} LastToSettle(gs: seq<Guess>, s: set<nat>) returns (last: nat)
    requires s != {} && forall p :: p in s ==> p < |gs|
    ensures last in s && forall p :: p in s ==> gs[p].settle <= gs[last].settle
    decreases s
  {
    last :| last in s;
    if s != {last} {
      var other := LastToSettle(gs, s - {last});
      last := if gs[last].settle < gs[other].settle then other else last;
    }
  }

  lemma SmallerSet(a: set<nat>, b: set<nat>)
    requires a <= b
    ensures |a| <= |b|
  {
    if a != b {
      var x :| x in b && x !in a;
      SmallerSet(a, b - {x});
    }
  }

  /** If more than `n` have settled, one of them was the `n`-th, counting from 0. */
  lemma {:induction false} NthToSettle(gs: seq<Guess>, n: nat, t: nat) returns (f: nat)
    requires WellTimed(gs) && |SettledBefore(gs, t)| > n
    ensures f < |gs| && gs[f].settle < t && |SettledBefore(gs, gs[f].settle)| == n
    decreases t
  {
    assert SettledBefore(gs, 0) == {};
    OneMoreSettles(gs, t - 1);
    if |SettledBefore(gs, t - 1)| > n {
      f := NthToSettle(gs, n, t - 1);
    } else {
      f := SettlerAt(gs, t - 1);
    }
  }

  /** The first five to settle are all in time. */
  lemma FirstFiveInTime(gs: seq<Guess>, f: nat, p: nat)
    requires WellTimed(gs) && p < |gs| && f < |gs| && gs[p].settle <= gs[f].settle
    requires |SettledBefore(gs, gs[f].settle)| == MAX_CHALLENGE_ATTEMPTS - 1
    ensures InTime(gs, p)
  {
    forall m: nat | Fifth(gs, m)
      ensures gs[p].look <= gs[m].drop
    {
      if gs[m].settle < gs[p].settle {
        SettlerIs(gs, m);
        OneMoreSettles(gs, gs[m].settle);
        SmallerSet(SettledBefore(gs, gs[m].settle + 1), SettledBefore(gs, gs[f].settle));
        assert false;
      }
    }
  }
}
