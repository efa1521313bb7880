/** Which accounts the second factor protects (src/lib/auth/two-factor.ts). */
module EnrolmentLaws {
  // Stated on the columns of the account's row and on the requests that change them, over whole runs.

  import opened Prelude
  import opened Totp
  import opened SignIn

  /** A secret is stored and has been confirmed. */
  ghost predicate Protected(s: State, userId: string) {
    userId in s.users && s.users[userId].secret != None && s.users[userId].confirmed
  }

  /** A challenge of a user of this tenant, not yet expired. */
  ghost predicate Waiting(s: State, token: string, tenantId: string, userId: string, now: int) {
    && token in s.challenges && s.challenges[token].userId == userId && now < s.challenges[token].expiresAt
    && userId in s.users && s.users[userId].tenantId == tenantId
  }

  /** The requests that take the second factor away: a new set-up, turning it off, the end of the account. */
  predicate Lifts(e: Event, userId: string) {
    match e
    case BeginSetup(owner, _) => owner == userId
    case TurnOff(owner) => owner == userId
    case DeleteAccount(owner) => owner == userId
    case _ => false
  }

  predicate NoneLifts(es: seq<Event>, userId: string) {
    forall e :: e in es ==> !Lifts(e, userId)
  }

  /** A set-up in progress is confirmed with a code that is accepted. */
  predicate Confirms(o: Outside, s: State, e: Event, userId: string) {
    && e.ConfirmSetup? && e.userId == userId && userId in s.users
    && s.users[userId].secret.Some? && !s.users[userId].confirmed
    && var u := s.users[userId];
       var verdict := Judge(o.codes(u.secret.value), e.submitted, e.now, u.lastStep);
       verdict.Ok? && verdict.value.Accepted?
  }

  lemma ConfirmingProtects(o: Outside, s: State, e: Event, userId: string)
    requires Confirms(o, s, e, userId)
    ensures Protected(Next(o, s, e), userId) && Next(o, s, e).started == s.started
  {
  }

  /** From `n` on, every session of the user has been paid with a second factor, at a challenge. */
  ghost predicate SecondFactorSince(s: State, userId: string, n: nat) {
    && n <= |s.started|
    && forall i :: n <= i < |s.started| && s.started[i].userId == userId ==>
         s.started[i].challenge != None && s.started[i].factor != PasswordOnly
  }

  /** Entering a code changes nobody's secret, and confirms or unconfirms nobody's. */
  lemma CodeKeepsColumns(
      o: Outside, s: State, token: string, tenantId: string, submitted: string, now: int, userId: string)
    ensures var t := CodeResult(o, s, token, tenantId, submitted, now).0;
            && (userId in t.users <==> userId in s.users)
            && (userId in s.users ==>
                  && t.users[userId].secret == s.users[userId].secret
                  && t.users[userId].confirmed == s.users[userId].confirmed)
  {
  }

  /** A code that signs a protected account in is a second factor, at a challenge. */
  lemma CodeIsSecondFactor(
      o: Outside, s: State, token: string, tenantId: string, submitted: string, now: int, userId: string, n: nat)
    requires Protected(s, userId) && SecondFactorSince(s, userId, n)
    ensures SecondFactorSince(CodeResult(o, s, token, tenantId, submitted, now).0, userId, n)
  {
  }

  lemma ProtectionLasts(o: Outside, s: State, e: Event, userId: string, n: nat)
    requires Protected(s, userId) && SecondFactorSince(s, userId, n) && !Lifts(e, userId)
    ensures Protected(Next(o, s, e), userId) && SecondFactorSince(Next(o, s, e), userId, n)
  {
    if e.CodeStep? {
      CodeKeepsColumns(o, s, e.token, e.tenantId, e.submitted, e.now, userId);
      CodeIsSecondFactor(o, s, e.token, e.tenantId, e.submitted, e.now, userId, n);
    }
  }

  lemma {:induction false} ProtectionLastsOver(o: Outside, s: State, es: seq<Event>, userId: string)
    requires Protected(s, userId) && NoneLifts(es, userId)
    ensures Protected(Run(o, s, es), userId) && SecondFactorSince(Run(o, s, es), userId, |s.started|)
    decreases es
  {
    if es != [] {
      var init, e := es[..|es| - 1], es[|es| - 1];
      assert es == init + [e];
      assert e in es;
      ProtectionLastsOver(o, s, init, userId);
      ProtectionLasts(o, Run(o, s, init), e, userId, |s.started|);
    }
  }

  lemma {:induction false} RunAppend(o: Outside, s: State, es: seq<Event>, fs: seq<Event>)
    ensures Run(o, s, es + fs) == Run(o, Run(o, s, es), fs)
    decreases fs
  {
    if fs == [] {
      assert es + fs == es;
    } else {
      var init, last := fs[..|fs| - 1], fs[|fs| - 1];
      RunAppend(o, s, es, init);
      assert es + fs == (es + init) + [last];
      assert ((es + init) + [last])[..|es + init|] == es + init;
    }
  }

  /** What the right password does at the password step. */
  ghost predicate Challenges(s: State, userId: string, token: string, now: int) {
    var r := PasswordResult(s, Some(userId), true, token, now);
    && r.1 == Challenged && r.0.started == s.started
    && token in r.0.challenges && r.0.challenges[token].userId == userId
  }

  ghost predicate LetsIn(s: State, userId: string, token: string, now: int) {
    var r := PasswordResult(s, Some(userId), true, token, now);
    && r.1 == SignedIn && r.0.challenges == s.challenges
    && r.0.started == s.started + [Start(userId, None, PasswordOnly, now)]
  }

  /**
   From a set-up confirmed with an accepted code until the user's next set-up, his turning it off or
   the end of his account: the right password opens a challenge and starts no session, and every
   session of his has taken a second factor.
   */
  lemma ConfirmedIsProtected(
      o: Outside, s: State, es: seq<Event>, e: Event, fs: seq<Event>, userId: string, token: string, now: int)
    requires Confirms(o, Run(o, s, es), e, userId) && NoneLifts(fs, userId)
    ensures var t := Run(o, s, es + [e] + fs);
            && Challenges(t, userId, token, now)
            && SecondFactorSince(t, userId, |Run(o, s, es).started|)
  {
    RunAppend(o, s, es, [e]);
    assert [e][..0] == [];
    assert Run(o, Run(o, s, es), [e]) == Next(o, Run(o, s, es), e);
    RunAppend(o, s, es + [e], fs);
    ConfirmingProtects(o, Run(o, s, es), e, userId);
    ProtectionLastsOver(o, Run(o, s, es + [e]), fs, userId);
  }

  predicate NoneConfirms(es: seq<Event>, userId: string) {
    forall e :: e in es ==> !(e.ConfirmSetup? && e.userId == userId)
  }

  lemma UnconfirmedStep(o: Outside, s: State, e: Event, userId: string)
    requires userId in s.users ==> !s.users[userId].confirmed
    requires !(e.ConfirmSetup? && e.userId == userId)
    ensures var t := Next(o, s, e); userId in t.users ==> !t.users[userId].confirmed
  {
    if e.CodeStep? {
      CodeKeepsColumns(o, s, e.token, e.tenantId, e.submitted, e.now, userId);
    }
  }

  lemma {:induction false} UnconfirmedStays(o: Outside, s: State, es: seq<Event>, userId: string)
    requires userId in s.users ==> !s.users[userId].confirmed
    requires NoneConfirms(es, userId)
    ensures var t := Run(o, s, es); userId in t.users ==> !t.users[userId].confirmed
    decreases es
  {
    if es != [] {
      var init, e := es[..|es| - 1], es[|es| - 1];
      assert es == init + [e];
      assert e in es;
      UnconfirmedStays(o, s, init, userId);
      UnconfirmedStep(o, Run(o, s, init), e, userId);
    }
  }

  /** An account that has not confirmed a set-up, or has since begun another or turned it off, signs in by password. */
  lemma UnconfirmedSignsIn(o: Outside, s: State, es: seq<Event>, userId: string, token: string, now: int)
    requires userId in s.users ==> !s.users[userId].confirmed
    requires NoneConfirms(es, userId) && userId in Run(o, s, es).users
    ensures LetsIn(Run(o, s, es), userId, token, now)
  {
    UnconfirmedStays(o, s, es, userId);
  }

  lemma LiftingUnconfirms(o: Outside, s: State, e: Event, userId: string)
    requires Lifts(e, userId)
    ensures userId in Next(o, s, e).users ==> !Next(o, s, e).users[userId].confirmed
  {
  }

  // ---------------------------------------------------------------------------
  // With others in every pause
  // ---------------------------------------------------------------------------

  /** The password step among others: the columns as it read them decide between challenge and session. */
  lemma PasswordStepReadsColumns(
      o: Outside, s: State, userId: string, token: string, now: int, pauses: Pauses)
    requires userId in s.users
    ensures var read := Others(o, s, pauses(AfterLookup));
            var later := Others(o, read, pauses(AfterAccount));
            var r := PasswordAmong(o, s, Some(userId), true, token, now, pauses);
            if userId in read.users && read.users[userId].confirmed && read.users[userId].secret != None then
              && r.1 in {Challenged, Failed}
              && r.0.started == Others(o, later, pauses(AfterSweep)).started
            else
              if userId in later.users then
                r.1 == SignedIn && r.0.started == later.started + [Start(userId, None, PasswordOnly, now)]
              else r == (later, Failed)
  {
  }

  /** The code step among others: a session without a second factor only for an account read as unprotected. */
  lemma CodeStepReadsColumns(
      o: Outside, s: State, token: string, userId: string, submitted: string, now: int, pauses: Pauses)
    ensures var r := AnswerAmong(o, s, token, userId, submitted, now, pauses);
            var protects := userId in s.users && s.users[userId].confirmed && s.users[userId].secret != None;
            && (!protects ==> r.1 in {SignedIn, InvalidCredentials})
            && (r.1 == SignedIn ==>
                  && r.0.started != []
                  && (r.0.started[|r.0.started| - 1].factor == PasswordOnly <==> !protects))
  {
  }
}
