/** Sign-ins of one account that overlap (src/lib/db/two-factor.ts:173-188). */
module SupersessionLaws {
  // The timeline of creations, tied to the table of challenges that the transactions work on.

  import opened Prelude
  import opened SignIn
  import opened ChallengeOverlap
  import opened Supersession

  lemma SignInAloneIsSerial(
      o: Outside, s: State, found: Option<string>, passwordOk: bool, token: string, now: int)
    ensures PasswordAmong(o, s, found, passwordOk, token, now, NoPauses()) ==
              PasswordResult(s, found, passwordOk, token, now)
  {
    if found.Some? {
      var userId := found.value;
      assert s.challenges - (ChallengesOf(s, userId) * ChallengesOf(s, userId)) == ChallengesOfOthers(s, userId);
    }
  }

  /** A sign-in within another, between its deletion and its commit: two challenges of one user are live. */
  lemma TwoChallengesOfOneUser(o: Outside, s: State, userId: string, token: string, other: string, now: int)
    requires userId in s.users && TwoFactorIsOn(s.users[userId])
    requires token != other && token !in s.challenges && other !in s.challenges
    ensures var pauses := During(AfterSweep, [Whole(PasswordStep(Some(userId), true, other, now))]);
            var r := PasswordAmong(o, s, Some(userId), true, token, now, pauses);
            && r.1 == Challenged
            && Pending(r.0, token, s.users[userId].tenantId, now).Some?
            && Pending(r.0, other, s.users[userId].tenantId, now).Some?
            && r.0.challenges[token].userId == r.0.challenges[other].userId == userId
  {
    var within := Whole(PasswordStep(Some(userId), true, other, now));
    assert Others(o, s, [within]) == Executed(o, s, within);
  }

  // ---------------------------------------------------------------------------
  // Any number of sign-ins
  // ---------------------------------------------------------------------------

  /** The creation that commits at an instant, if one does; their number otherwise. */
  ghost function CommitterAt(cs: seq<Creation>, t: nat): (p: nat)
    ensures p <= |cs|
    ensures p < |cs| ==> cs[p].commit == t
    ensures p == |cs| ==> forall q :: 0 <= q < |cs| ==> cs[q].commit != t
  {
    if exists p: nat :: p < |cs| && cs[p].commit == t then
      var p: nat :| p < |cs| && cs[p].commit == t;
      p
    else |cs|
  }

  /** The tokens of a user's sign-ins, one each, none of them in the table before. */
  ghost predicate OwnTokens(s: State, userId: string, tokens: seq<string>) {
    && userId in s.users && ChallengesOf(s, userId) == {}
    && (forall p :: 0 <= p < |tokens| ==> tokens[p] !in s.challenges)
    && (forall p, q :: 0 <= p < |tokens| && 0 <= q < |tokens| && tokens[p] == tokens[q] ==> p == q)
  }

  /** The tables after instant `t`: each transaction commits with the challenges it saw when it deleted. */
  ghost function TablesAfter(cs: seq<Creation>, s: State, userId: string, tokens: seq<string>, t: nat): State
    requires WellTimed(cs) && |tokens| == |cs|
    decreases t
  {
    var before := if t == 0 then s else TablesAfter(cs, s, userId, tokens, t - 1);
    var p := CommitterAt(cs, t);
    if p < |cs| then
      var seen := ChallengesOf(TablesAfter(cs, s, userId, tokens, cs[p].sweep), userId);
      OpenSwept(before, userId, tokens[p], t, seen).GetOr(before)
    else before
  }

  /** The user's challenges are those of the live creations. */
  ghost predicate TableIsTimeline(cs: seq<Creation>, s: State, userId: string, tokens: seq<string>, t: nat)
    requires WellTimed(cs) && |tokens| == |cs|
  {
    var u := TablesAfter(cs, s, userId, tokens, t);
    && userId in u.users
    && (forall p :: 0 <= p < |cs| ==> (tokens[p] in ChallengesOf(u, userId) <==> Live(cs, p, t)))
    && (forall token :: token in ChallengesOf(u, userId) ==> token in tokens)
  }

  /** What one instant does to the live creations. */
  lemma LiveStep(cs: seq<Creation>, p: nat, t: nat)
    requires WellTimed(cs) && p < |cs|
    ensures var q := CommitterAt(cs, t);
            Live(cs, p, t) <==> q == p || (t > 0 && Live(cs, p, t - 1) && !(q < |cs| && Sees(cs, q, p)))
  {
    var q := CommitterAt(cs, t);
    assert OwnCommit(cs, p);
    forall r: nat | r < |cs| && cs[r].commit == t
      ensures r == q
    {
      assert OwnCommit(cs, r);
    }
  }

  /** A creation sees what is live when it deletes, and nothing else can still be there when it commits. */
  lemma SeenIsLive(cs: seq<Creation>, p: nat, q: nat)
    requires WellTimed(cs) && p < |cs| && q < |cs| && Live(cs, p, cs[q].commit - 1)
    ensures Live(cs, p, cs[q].sweep) <==> Sees(cs, q, p)
  {
  }

  /** A commit takes away what the transaction saw, and brings its own. */
  lemma CommitChanges(s: State, userId: string, token: string, now: int, seen: set<string>)
    requires userId in s.users
    ensures var t := OpenSwept(s, userId, token, now, seen);
            && t.Some? && userId in t.value.users
            && ChallengesOf(t.value, userId) == ChallengesOf(s, userId) - seen + {token}
  {
  }

  lemma {:induction false} TablesFollow(cs: seq<Creation>, s: State, userId: string, tokens: seq<string>, t: nat)
    requires WellTimed(cs) && |tokens| == |cs| && OwnTokens(s, userId, tokens)
    ensures TableIsTimeline(cs, s, userId, tokens, t)
    decreases t
  {
    var before := if t == 0 then s else TablesAfter(cs, s, userId, tokens, t - 1);
    if t > 0 {
      TablesFollow(cs, s, userId, tokens, t - 1);
    }
    var q := CommitterAt(cs, t);
    if q < |cs| {
      TablesFollow(cs, s, userId, tokens, cs[q].sweep);
      var seen := ChallengesOf(TablesAfter(cs, s, userId, tokens, cs[q].sweep), userId);
      CommitChanges(before, userId, tokens[q], t, seen);
    }
    forall p | 0 <= p < |cs|
      ensures tokens[p] in ChallengesOf(TablesAfter(cs, s, userId, tokens, t), userId) <==> Live(cs, p, t)
    {
      LiveStep(cs, p, t);
      if q < |cs| && t > 0 && Live(cs, p, t - 1) {
        SeenIsLive(cs, p, q);
      }
    }
  }

  lemma AtMostOne<T>(s: set<T>)
    ensures |s| <= 1 <==> forall x, y :: x in s && y in s ==> x == y
  {
    if |s| <= 1 {
      forall x, y | x in s && y in s
        ensures x == y
      {
        assert |s - {x}| == |s| - 1;
        assert s - {x} == {};
      }
    } else {
      var x :| x in s;
      assert |s - {x}| > 0;
      var y :| y in s - {x};
    }
  }

  /** The table holds at most one challenge of the user at an instant. */
  ghost predicate OneAt(cs: seq<Creation>, s: State, userId: string, tokens: seq<string>, t: nat)
    requires WellTimed(cs) && |tokens| == |cs|
  {
    |ChallengesOf(TablesAfter(cs, s, userId, tokens, t), userId)| <= 1
  }

  lemma OneAtExactly(cs: seq<Creation>, s: State, userId: string, tokens: seq<string>, t: nat)
    requires WellTimed(cs) && |tokens| == |cs| && OwnTokens(s, userId, tokens)
    ensures OneAt(cs, s, userId, tokens, t) <==> OneLiveAt(cs, t)
  {
    var mine := ChallengesOf(TablesAfter(cs, s, userId, tokens, t), userId);
    TablesFollow(cs, s, userId, tokens, t);
    AtMostOne(mine);
    if OneLiveAt(cs, t) {
      forall x, y | x in mine && y in mine
        ensures x == y
      {
        var p :| 0 <= p < |tokens| && tokens[p] == x;
        var q :| 0 <= q < |tokens| && tokens[q] == y;
        assert Live(cs, p, t) && Live(cs, q, t);
      }
    }
    if OneAt(cs, s, userId, tokens, t) {
      forall p: nat, q: nat | Live(cs, p, t) && Live(cs, q, t)
        ensures p == q
      {
        assert tokens[p] in mine && tokens[q] in mine;
      }
    }
  }

  /**
   However the sign-ins of an account are timed, the table never holds two challenges of it: exactly
   if none commits between the deletion of another and its commit.
   */
  lemma OneChallengeExactly(cs: seq<Creation>, s: State, userId: string, tokens: seq<string>)
    requires WellTimed(cs) && |tokens| == |cs| && OwnTokens(s, userId, tokens)
    ensures (forall t: nat :: OneAt(cs, s, userId, tokens, t)) <==> NoneOverlap(cs)
  {
    OneLiveExactly(cs);
    forall t: nat
      ensures OneAt(cs, s, userId, tokens, t) <==> OneLiveAt(cs, t)
    {
      OneAtExactly(cs, s, userId, tokens, t);
    }
  }
}
