module ChallengeOverlap {
  // Answers to one challenge that overlap in time (src/lib/auth/two-factor.ts, src/lib/db/two-factor.ts).
  //
  // Looking a challenge up and deleting it, or counting against it, are statements of their own,
  // and others can run in between. What a request keeps to all the same, what it does not, and
  // for which timings a challenge still gives one session and five guesses, exactly.

  import opened Prelude
  import opened Totp
  import opened SignIn
  import opened SignInLaws
  import opened EnrolmentLaws
  import opened ChallengeTimeline
  import Account = AccountTimeline

  // ---------------------------------------------------------------------------
  // One request among others
  // ---------------------------------------------------------------------------

  function NoPauses(): Pauses {
    _ => []
  }

  /** With nobody in between, the statements of a request come to the one step of the serial model. */
  lemma AloneIsSerial(o: Outside, s: State, token: string, tenantId: string, submitted: string, now: int)
    ensures CodeAmong(o, s, token, tenantId, submitted, now, NoPauses()) ==
              CodeResult(o, s, token, tenantId, submitted, now)
  {
    if token in s.challenges {
      var c := s.challenges[token].(attempts := s.challenges[token].attempts + 1);
      assert s.challenges[token := c] - {token} == s.challenges - {token};
    }
  }

  /** The account as a request read it. */
  function AccountRead(o: Outside, s: State, pauses: Pauses): State {
    Others(o, s, pauses(AfterLookup))
  }

  /** The tables as they are when a request goes to read the list of recovery codes. */
  function ListRead(o: Outside, s: State, pauses: Pauses): State {
    Others(o, AccountRead(o, s, pauses), pauses(AfterAccount))
  }

  /** The tables as they are when a recovery code is about to be written off. */
  function BeforeWrite(o: Outside, s: State, pauses: Pauses): State {
    Others(o, ListRead(o, s, pauses), pauses(AfterList))
  }

  /**
   What a session was paid with: a factor that was good when the request read it, and a code still
   so when it wrote.
   */
  ghost predicate PaidAmong(o: Outside, s: State, pauses: Pauses, start: Start) {
    var read, list, write := AccountRead(o, s, pauses), ListRead(o, s, pauses), BeforeWrite(o, s, pauses);
    match start.factor
    case PasswordOnly => !Protected(read, start.userId)
    case Step(userId, key, _) =>
      && Protected(read, userId) && key == read.users[userId].keys
      && !UsedUp(read, start.factor)
    case Code(userId, sheet, hash) =>
      && Protected(read, userId)
      && userId in list.users && sheet == list.users[userId].sheets && !UsedUp(list, start.factor)
      && userId in write.users && hash in write.users[userId].recovery
  }

  /**
   Whatever others do in any pause: a request that signs somebody in has found a live challenge of
   that user, and has had a factor that was still good when it was read.
   */
  lemma EveryPassIsPaidFor(
      o: Outside, s: State, token: string, tenantId: string, submitted: string, now: int, pauses: Pauses)
    requires CodeAmong(o, s, token, tenantId, submitted, now, pauses).1 == SignedIn
    ensures var r := CodeAmong(o, s, token, tenantId, submitted, now, pauses);
            && Waiting(s, token, tenantId, s.challenges[token].userId, now) && r.0.started != []
            && var start := r.0.started[|r.0.started| - 1];
               && start.userId == s.challenges[token].userId && start.challenge == Some(token) && start.at == now
               && OwnFactor(start) && PaidAmong(o, s, pauses, start)
  {
    var userId := Pending(s, token, tenantId, now).value.userId;
    var read := AccountRead(o, s, pauses);
    var entered := o.trim(submitted);
    if userId in read.users && TwoFactorIsOn(read.users[userId]) && o.recoveryHash(entered).None? {
      AcceptedIsFresh(o.codes(read.users[userId].secret.value), Attempt(entered, now), read.users[userId].lastStep);
    }
  }

  // ---------------------------------------------------------------------------
  // What overlapping requests do to one challenge
  // ---------------------------------------------------------------------------

  /** Others run in one of a request's pauses. */
  function During(pause: Pause, es: seq<Statement>): Pauses {
    k => if k == pause then es else []
  }

  /** Two unused recovery codes and one challenge: a whole request within another, and both sign in. */
  lemma OneChallengeTwoSessions(
      o: Outside, s: State, token: string, tenantId: string, first: string, second: string, now: int)
    requires Pending(s, token, tenantId, now).Some?
    requires var u := s.users[s.challenges[token].userId];
             var a, b := o.recoveryHash(o.trim(first)), o.recoveryHash(o.trim(second));
             TwoFactorIsOn(u) && a.Some? && b.Some? && a != b && a.value in u.recovery && b.value in u.recovery
    ensures var r := CodeAmong(o, s, token, tenantId, second, now,
              During(AfterLookup, [Whole(CodeStep(token, tenantId, first, now))]));
            && r.1 == SignedIn
            && |r.0.started| == |s.started| + 2
            && r.0.started[|s.started|].challenge == r.0.started[|s.started| + 1].challenge == Some(token)
  {
    var userId := s.challenges[token].userId;
    var u := s.users[userId];
    var other := Whole(CodeStep(token, tenantId, first, now));
    assert Others(o, s, [other]) == Executed(o, s, other);
    WithoutMembers(u.recovery, o.recoveryHash(o.trim(first)).value);
  }

  /**
   Two requests show one authenticator code: the second reads the account before the first writes,
   and both sign in.
   */
  lemma OneStepTwoSessions(o: Outside, s: State, token: string, tenantId: string, submitted: string, now: int)
    requires Pending(s, token, tenantId, now).Some?
    requires var u := s.users[s.challenges[token].userId];
             && TwoFactorIsOn(u) && o.recoveryHash(o.trim(submitted)).None?
             && var verdict := Judge(o.codes(u.secret.value), o.trim(submitted), now, u.lastStep);
                verdict.Ok? && verdict.value.Accepted?
    ensures var pauses := During(AfterAccount, [Whole(CodeStep(token, tenantId, submitted, now))]);
            var r := CodeAmong(o, s, token, tenantId, submitted, now, pauses);
            && r.1 == SignedIn
            && |r.0.started| == |s.started| + 2
            && r.0.started[|s.started|].factor.Step?
            && r.0.started[|s.started|].factor == r.0.started[|s.started| + 1].factor
  {
    var other := Whole(CodeStep(token, tenantId, submitted, now));
    assert Others(o, s, [other]) == Executed(o, s, other);
  }

  /** The same wrong answer a number of times. */
  function Wrongs(token: string, tenantId: string, wrong: string, now: int, n: nat): seq<Statement> {
    seq(n, _ => Whole(CodeStep(token, tenantId, wrong, now)))
  }

  lemma {:induction false} WrongsCount(
      o: Outside, s: State, token: string, tenantId: string, wrong: string, now: int, n: nat)
    requires Pending(s, token, tenantId, now).Some? && s.challenges[token].attempts == 0 && n <= 5
    requires var u := s.users[s.challenges[token].userId];
             && TwoFactorIsOn(u) && o.recoveryHash(o.trim(wrong)).Some?
             && o.recoveryHash(o.trim(wrong)).value !in u.recovery
    ensures var t := Others(o, s, Wrongs(token, tenantId, wrong, now, n));
            && t.users == s.users && t.started == s.started
            && (n < 5 ==> t.challenges == s.challenges[token := s.challenges[token].(attempts := n)])
            && (n == 5 ==> token !in t.challenges)
  {
    var es := Wrongs(token, tenantId, wrong, now, n);
    if n > 0 {
      WrongsCount(o, s, token, tenantId, wrong, now, n - 1);
      assert es[..n - 1] == Wrongs(token, tenantId, wrong, now, n - 1);
    } else {
      assert s.challenges == s.challenges[token := s.challenges[token].(attempts := 0)];
    }
  }

  /** Five wrong answers after a request has looked its challenge up destroy it, and a sixth guess still signs in. */
  lemma SixthGuessSignsIn(
      o: Outside, s: State, token: string, tenantId: string, wrong: string, right: string, now: int)
    requires Pending(s, token, tenantId, now).Some? && s.challenges[token].attempts == 0
    requires var u := s.users[s.challenges[token].userId];
             var a, b := o.recoveryHash(o.trim(wrong)), o.recoveryHash(o.trim(right));
             TwoFactorIsOn(u) && a.Some? && b.Some? && a.value !in u.recovery && b.value in u.recovery
    ensures var others := Wrongs(token, tenantId, wrong, now, 5);
            && token !in Others(o, s, others).challenges
            && CodeAmong(o, s, token, tenantId, right, now, During(AfterLookup, others)).1 == SignedIn
  {
    WrongsCount(o, s, token, tenantId, wrong, now, 5);
  }

  // ---------------------------------------------------------------------------
  // Any number of requests: one session
  // ---------------------------------------------------------------------------

  /** Whatever is typed, only requests in time are judged. */
  lemma JudgedIsInTime(gs: seq<Guess>, right: Verdicts, p: nat)
    requires WellTimed(gs) && p < |gs| && Judged(gs, right, p)
    ensures InTime(gs, p)
  {
    AllWereWrong(gs, right, gs[p].look);
    SameUntilRight(gs, right, gs[p].look);
    ThereUntilDropped(gs, gs[p].look);
  }

  /** No two right codes are judged on the challenge. */
  ghost predicate OneSession(gs: seq<Guess>, right: Verdicts)
    requires WellTimed(gs)
  {
    forall p, q :: 0 <= p < |gs| && 0 <= q < |gs| && p != q && right(p) && right(q) ==>
      !(Judged(gs, right, p) && Judged(gs, right, q))
  }

  /** Two requests both look the challenge up, while it is there, before either has settled. */
  ghost predicate Meet(gs: seq<Guess>, p: nat, q: nat) {
    && InTime(gs, p) && InTime(gs, q) && p != q
    && gs[p].look <= gs[q].settle && gs[q].look <= gs[p].settle
  }

  ghost predicate NoneMeet(gs: seq<Guess>) {
    forall p: nat, q: nat :: !Meet(gs, p, q)
  }

  function OnlyRight(p: nat, q: nat): Verdicts {
    r => r == p || r == q
  }

  lemma MeetingGivesTwo(gs: seq<Guess>, p: nat, q: nat)
    requires WellTimed(gs) && Meet(gs, p, q)
    ensures !OneSession(gs, OnlyRight(p, q))
  {
    var right := OnlyRight(p, q);
    SameUntilRight(gs, right, gs[p].look);
    SameUntilRight(gs, right, gs[q].look);
    ThereUntilDropped(gs, gs[p].look);
    ThereUntilDropped(gs, gs[q].look);
    assert right(p) && right(q) && Judged(gs, right, p) && Judged(gs, right, q);
  }

  /** After a right code has settled, nobody finds the challenge. */
  lemma RightEndsIt(gs: seq<Guess>, right: Verdicts, p: nat, q: nat)
    requires WellTimed(gs) && p < |gs| && q < |gs| && right(p) && gs[p].settle < gs[q].look
    ensures !Judged(gs, right, q)
  {
    if Judged(gs, right, q) {
      AllWereWrong(gs, right, gs[q].look);
    }
  }

  /**
   Whatever is typed, a challenge gives at most one session: exactly when no two requests look it
   up before either has settled.
   */
  lemma OneSessionExactly(gs: seq<Guess>)
    requires WellTimed(gs)
    ensures (forall right: Verdicts :: OneSession(gs, right)) <==> NoneMeet(gs)
  {
    if NoneMeet(gs) {
      forall right: Verdicts
        ensures OneSession(gs, right)
      {
        forall p, q | 0 <= p < |gs| && 0 <= q < |gs| && p != q && right(p) && right(q) && Judged(gs, right, p)
          ensures !Judged(gs, right, q)
        {
          if Judged(gs, right, q) {
            JudgedIsInTime(gs, right, p);
            JudgedIsInTime(gs, right, q);
            assert !Meet(gs, p, q);
            if gs[p].settle < gs[q].look {
              RightEndsIt(gs, right, p, q);
            } else {
              RightEndsIt(gs, right, q, p);
            }
          }
        }
      }
    } else {
      var p: nat, q: nat :| Meet(gs, p, q);
      MeetingGivesTwo(gs, p, q);
    }
  }

  // ---------------------------------------------------------------------------
  // Any number of requests: five guesses
  // ---------------------------------------------------------------------------

  ghost function AllJudged(gs: seq<Guess>, right: Verdicts): set<nat>
    requires WellTimed(gs)
  {
    set p: nat | p < |gs| && Judged(gs, right, p)
  }

  /** A request that settles after five others, and still looks the challenge up before it is dropped. */
  ghost predicate SixthInTime(gs: seq<Guess>, q: nat) {
    InTime(gs, q) && |SettledBefore(gs, gs[q].settle)| >= 5
  }

  ghost predicate NoSixth(gs: seq<Guess>) {
    forall q: nat :: !SixthInTime(gs, q)
  }

  lemma AtMostFive(gs: seq<Guess>, right: Verdicts)
    requires WellTimed(gs) && NoSixth(gs)
    ensures |AllJudged(gs, right)| <= 5
  {
    var judged := AllJudged(gs, right);
    if judged != {} {
      var last := LastToSettle(gs, judged);
      JudgedIsInTime(gs, right, last);
      assert !SixthInTime(gs, last);
      var before := SettledBefore(gs, gs[last].settle);
      forall p | p in judged && p != last
        ensures p in before
      {
        assert OwnInstants(gs, p);
      }
      SmallerSet(judged - {last}, before);
    }
  }

  lemma SixthIsJudged(gs: seq<Guess>, q: nat)
    requires WellTimed(gs) && SixthInTime(gs, q)
    ensures |AllJudged(gs, AllWrong())| > 5
  {
    var f := NthToSettle(gs, MAX_CHALLENGE_ATTEMPTS - 1, gs[q].settle);
    var five := SettledBefore(gs, gs[f].settle) + {f};
    forall p | p in five + {q}
      ensures p in AllJudged(gs, AllWrong())
    {
      if p != q {
        FirstFiveInTime(gs, f, p);
      }
      ThereUntilDropped(gs, gs[p].look);
    }
    SmallerSet(five + {q}, AllJudged(gs, AllWrong()));
  }

  /**
   Whatever is typed, a challenge lets at most five guesses be judged: exactly when no request
   that settles after five others looks it up before the fifth, or one after it, has dropped it.
   */
  lemma FiveGuessesExactly(gs: seq<Guess>)
    requires WellTimed(gs)
    ensures (forall right: Verdicts :: |AllJudged(gs, right)| <= 5) <==> NoSixth(gs)
  {
    if NoSixth(gs) {
      forall right: Verdicts
        ensures |AllJudged(gs, right)| <= 5
      {
        AtMostFive(gs, right);
      }
    } else {
      var q: nat :| SixthInTime(gs, q);
      SixthIsJudged(gs, q);
    }
  }

  /** Requests that run one after another, each to its end, meet both conditions. */
  lemma OneAfterAnotherIsSafe(gs: seq<Guess>)
    requires WellTimed(gs)
    requires forall p, q :: 0 <= p < |gs| && 0 <= q < |gs| && p != q ==>
               gs[p].drop < gs[q].look || gs[q].drop < gs[p].look
    ensures NoneMeet(gs) && NoSixth(gs)
  {
    forall q: nat
      ensures !SixthInTime(gs, q)
    {
      if SixthInTime(gs, q) {
        var f := NthToSettle(gs, MAX_CHALLENGE_ATTEMPTS - 1, gs[q].settle);
        assert Fifth(gs, f);
      }
    }
  }

  // ---------------------------------------------------------------------------
  // Every pattern of verdicts comes from codes
  // ---------------------------------------------------------------------------

  /** Those who shall win enter a code of their own, the others one that was never issued. */
  function OwnCodes(right: Verdicts): nat -> int {
    (p: nat) => if right(p) then p + 1 else 0
  }

  function Issued(right: Verdicts, n: nat): set<int> {
    set p: nat | p < n && right(p) :: p + 1
  }

  lemma {:induction false} OwnCodesStay(rs: seq<Account.Request>, right: Verdicts, p: nat, t: nat)
    requires Account.WellTimed(rs) && p < |rs| && right(p) && t <= rs[p].write
    ensures p + 1 in Account.Unused(rs, OwnCodes(right), Issued(right, |rs|), t)
    decreases t
  {
    if t > 0 {
      OwnCodesStay(rs, right, p, t - 1);
      var q := Account.WriterAt(rs, t - 1);
      if q < |rs| {
        OwnCodesStay(rs, right, p, rs[q].read);
      }
    }
  }

  lemma {:induction false} OnlyIssued(rs: seq<Account.Request>, right: Verdicts, t: nat)
    requires Account.WellTimed(rs)
    ensures 0 !in Account.Unused(rs, OwnCodes(right), Issued(right, |rs|), t)
    decreases t
  {
    if t > 0 {
      OnlyIssued(rs, right, t - 1);
      var q := Account.WriterAt(rs, t - 1);
      if q < |rs| {
        OnlyIssued(rs, right, rs[q].read);
      }
    }
  }

  /** However requests overlap on the account's row, any of them can be right and any wrong. */
  lemma AnyVerdictsHappen(rs: seq<Account.Request>, right: Verdicts, p: nat)
    requires Account.WellTimed(rs) && p < |rs|
    ensures Account.Wins(rs, OwnCodes(right), Issued(right, |rs|), p) <==> right(p)
  {
    if right(p) {
      OwnCodesStay(rs, right, p, rs[p].read);
      OwnCodesStay(rs, right, p, rs[p].write);
    } else {
      OnlyIssued(rs, right, rs[p].read);
    }
  }
}
