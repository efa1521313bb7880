/** Which codes sign an account in (src/lib/auth/two-factor.ts). */
module FactorLaws {
  // Told from its set-up, and from the sessions that have been paid with one since.

  import opened Prelude
  import opened Totp
  import opened SignIn
  import opened EnrolmentLaws

  // ---------------------------------------------------------------------------
  // Looking the challenge up
  // ---------------------------------------------------------------------------

  /**
   A code is turned back to the password, with nothing changed, exactly when its token names no
   challenge, an expired one, or one of another tenant's user.
   */
  lemma TurnedBackExactly(
      o: Outside, s: State, token: string, tenantId: string, submitted: string, now: int, pauses: Pauses)
    ensures var r := CodeAmong(o, s, token, tenantId, submitted, now, pauses);
            && (r.1 == BackToPassword <==> forall userId :: !Waiting(s, token, tenantId, userId, now))
            && (r.1 == BackToPassword ==> r.0 == s)
  {
    if token in s.challenges {
      var userId := s.challenges[token].userId;
      assert Pending(s, token, tenantId, now).Some? <==> Waiting(s, token, tenantId, userId, now);
    }
  }

  lemma WaitingIsAnswered(
      o: Outside, s: State, token: string, tenantId: string, userId: string, submitted: string, now: int)
    requires Waiting(s, token, tenantId, userId, now)
    ensures CodeResult(o, s, token, tenantId, submitted, now) == Answer(o, s, token, userId, submitted, now)
  {
  }

  /** A sweep takes exactly the challenges that had expired before it, and turns nobody back who was not. */
  lemma SweepTakesTheExpired(o: Outside, s: State, at: int, token: string)
    ensures var t := Next(o, s, Sweep(at));
            && (token in t.challenges <==> token in s.challenges && at <= s.challenges[token].expiresAt)
            && (forall tenantId, userId, now: int :: now >= at ==>
                  (Waiting(t, token, tenantId, userId, now) <==> Waiting(s, token, tenantId, userId, now)))
            && t.users == s.users && t.started == s.started
  {
  }

  // ---------------------------------------------------------------------------
  // The authenticator
  // ---------------------------------------------------------------------------

  /** A set-up has been begun with this secret and not confirmed. */
  ghost predicate SettingUp(s: State, userId: string, secret: string) {
    && userId in s.users
    && var u := s.users[userId];
       u.secret == Some(secret) && !u.confirmed && u.lastStep == None && u.recovery == []
  }

  predicate IsPaidByStep(start: Start, userId: string) {
    start.userId == userId && start.factor.Step?
  }

  /** The step of the last session that was paid with one, or else the given one. */
  function LastPaid(starts: seq<Start>, userId: string, first: int): int {
    if starts == [] then first
    else
      var last := starts[|starts| - 1];
      if IsPaidByStep(last, userId) then last.factor.step
      else LastPaid(starts[..|starts| - 1], userId, first)
  }

  /** The account takes codes of this secret, after the step of the last one taken. */
  ghost predicate TakesCodes(s: State, userId: string, secret: string, first: int, n: nat) {
    && n <= |s.started| && Protected(s, userId)
    && s.users[userId].secret == Some(secret)
    && s.users[userId].lastStep == Some(LastPaid(s.started[n..], userId, first))
  }

  /** At most one session is started, and what it was paid with is written off in its own account. */
  lemma StartsOneByOne(o: Outside, s: State, e: Event, n: nat)
    requires n <= |s.started|
    ensures var t := Next(o, s, e);
            || t.started == s.started
            || (&& t.started != [] && t.started[..|t.started| - 1] == s.started
                && t.started[n..] == s.started[n..] + [t.started[|s.started|]])
  {
    var t := Next(o, s, e);
    if t.started != s.started {
      var last := t.started[|t.started| - 1];
      assert t.started == s.started + [last];
    }
  }

  lemma LastPaidSnoc(starts: seq<Start>, start: Start, userId: string, first: int)
    ensures LastPaid(starts + [start], userId, first) ==
            if IsPaidByStep(start, userId) then start.factor.step
            else LastPaid(starts, userId, first)
  {
    assert (starts + [start])[..|starts|] == starts;
  }

  lemma TakesCodesStep(o: Outside, s: State, e: Event, userId: string, secret: string, first: int, n: nat)
    requires TakesCodes(s, userId, secret, first, n) && !Lifts(e, userId)
    ensures TakesCodes(Next(o, s, e), userId, secret, first, n)
  {
    var t := Next(o, s, e);
    StartsOneByOne(o, s, e, n);
    StepIsWritten(o, s, e, userId);
    if t.started != s.started {
      LastPaidSnoc(s.started[n..], t.started[|s.started|], userId, first);
    }
  }

  /** A request leaves a protected account its secret, and the step of the session paid with one, if it starts any. */
  lemma StepIsWritten(o: Outside, s: State, e: Event, userId: string)
    requires Protected(s, userId) && !Lifts(e, userId)
    ensures var t := Next(o, s, e);
            && Protected(t, userId) && t.users[userId].secret == s.users[userId].secret
            && (t.started == s.started ==> t.users[userId].lastStep == s.users[userId].lastStep)
            && (t.started != s.started ==>
                  && t.started != []
                  && var last := t.started[|t.started| - 1];
                     t.users[userId].lastStep ==
                     if IsPaidByStep(last, userId) then Some(last.factor.step) else s.users[userId].lastStep)
  {
    if e.CodeStep? {
      CodeIsWritten(o, s, e.token, e.tenantId, e.submitted, e.now, userId);
    }
  }

  /** A code that passes changes the recorded step, or the recovery codes; the session it starts says which. */
  lemma CodeIsWritten(
      o: Outside, s: State, token: string, tenantId: string, submitted: string, now: int, userId: string)
    requires Protected(s, userId)
    ensures var t := CodeResult(o, s, token, tenantId, submitted, now).0;
            && userId in t.users && t.users[userId].(lastStep := None, recovery := []) ==
                                    s.users[userId].(lastStep := None, recovery := [])
            && (t.started == s.started ==> t.users[userId] == s.users[userId])
            && (t.started != s.started ==>
                  && t.started != []
                  && var last := t.started[|t.started| - 1];
                     t.users[userId].lastStep ==
                     if IsPaidByStep(last, userId) then Some(last.factor.step) else s.users[userId].lastStep)
  {
  }

  lemma {:induction false} TakesCodesOver(
      o: Outside, s: State, es: seq<Event>, userId: string, secret: string, first: int, n: nat)
    requires TakesCodes(s, userId, secret, first, n) && NoneLifts(es, userId)
    ensures TakesCodes(Run(o, s, es), userId, secret, first, n)
    decreases es
  {
    if es != [] {
      var init, e := es[..|es| - 1], es[|es| - 1];
      assert es == init + [e];
      assert e in es;
      TakesCodesOver(o, s, init, userId, secret, first, n);
      TakesCodesStep(o, Run(o, s, init), e, userId, secret, first, n);
    }
  }

  /** A code that is entered leaves the row of an account as it is, unless it is protected. */
  lemma CodeSparesUnprotected(
      o: Outside, s: State, token: string, tenantId: string, submitted: string, now: int, userId: string)
    requires userId in s.users && !Protected(s, userId)
    ensures var t := CodeResult(o, s, token, tenantId, submitted, now).0;
            userId in t.users && t.users[userId] == s.users[userId]
  {
  }

  /** A request leaves the row of an unprotected account as it is, unless it is about its set-up or its end. */
  lemma UnprotectedStays(o: Outside, s: State, e: Event, userId: string)
    requires userId in s.users && !s.users[userId].confirmed && !Lifts(e, userId)
    requires e.ConfirmSetup? && e.userId == userId ==> s.users[userId].secret.None?
    ensures userId in Next(o, s, e).users && Next(o, s, e).users[userId] == s.users[userId]
  {
    if e.CodeStep? {
      CodeSparesUnprotected(o, s, e.token, e.tenantId, e.submitted, e.now, userId);
    }
  }

  lemma {:induction false} SetUpStays(o: Outside, s: State, es: seq<Event>, userId: string, secret: string)
    requires SettingUp(s, userId, secret) && NoneLifts(es, userId) && NoneConfirms(es, userId)
    ensures SettingUp(Run(o, s, es), userId, secret)
    decreases es
  {
    if es != [] {
      var init, e := es[..|es| - 1], es[|es| - 1];
      assert es == init + [e];
      assert e in es;
      SetUpStays(o, s, init, userId, secret);
      UnprotectedStays(o, Run(o, s, init), e, userId);
    }
  }

  /** The verdict on a code that was entered, or shown at the end of a set-up, is "accepted" at this step. */
  ghost predicate Accepts(o: Outside, secret: string, entered: string, now: int, lastStep: Option<int>, step: int) {
    Judge(o.codes(secret), entered, now, lastStep) == Ok(Accepted(step))
  }

  ghost predicate AcceptsNow(o: Outside, secret: string, entered: string, now: int, last: int) {
    exists step :: Accepts(o, secret, entered, now, Some(last), step)
  }

  /** A set-up begun with this secret and confirmed with a code of this step, as the last thing that happened. */
  ghost predicate SetUpWith(
      o: Outside, s: State, userId: string, secret: string, es: seq<Event>, confirm: Event, step: int) {
    && userId in s.users && NoneLifts(es, userId) && NoneConfirms(es, userId)
    && confirm.ConfirmSetup? && confirm.userId == userId
    && Accepts(o, secret, confirm.submitted, confirm.now, None, step)
  }

  /** The state in which such a set-up ends. */
  function SetUp(o: Outside, s: State, userId: string, secret: string, es: seq<Event>, confirm: Event): State {
    Next(o, Run(o, Next(o, s, BeginSetup(userId, secret)), es), confirm)
  }

  lemma SetUpTakesCodes(
      o: Outside, s: State, userId: string, secret: string, es: seq<Event>, confirm: Event, step: int)
    requires SetUpWith(o, s, userId, secret, es, confirm, step)
    ensures var t := SetUp(o, s, userId, secret, es, confirm);
            TakesCodes(t, userId, secret, step, |t.started|) && t.users[userId].recovery == confirm.hashes
  {
    var begun := Next(o, s, BeginSetup(userId, secret));
    SetUpStays(o, begun, es, userId, secret);
    var t := SetUp(o, s, userId, secret, es, confirm);
    assert t.started[|t.started|..] == [];
  }

  /**
   From a confirmed set-up on, until it is lifted: what is no recovery code signs in exactly when it
   is a code of the secret that was set up that has not been shown before, neither to confirm the
   set-up nor for the last session paid with one.
   */
  lemma AuthenticatorSignsIn(
      o: Outside, s: State, userId: string, secret: string, es: seq<Event>, confirm: Event, step: int,
      fs: seq<Event>, token: string, tenantId: string, submitted: string, now: int)
    requires SetUpWith(o, s, userId, secret, es, confirm, step) && NoneLifts(fs, userId)
    requires Waiting(Run(o, SetUp(o, s, userId, secret, es, confirm), fs), token, tenantId, userId, now)
    requires o.recoveryHash(o.trim(submitted)).None?
    ensures var enrolled := SetUp(o, s, userId, secret, es, confirm);
            var t := Run(o, enrolled, fs);
            && |enrolled.started| <= |t.started|
            && var last := LastPaid(t.started[|enrolled.started|..], userId, step);
               CodeResult(o, t, token, tenantId, submitted, now).1 == SignedIn <==>
                 AcceptsNow(o, secret, o.trim(submitted), now, last)
  {
    var enrolled := SetUp(o, s, userId, secret, es, confirm);
    SetUpTakesCodes(o, s, userId, secret, es, confirm, step);
    TakesCodesOver(o, enrolled, fs, userId, secret, step, |enrolled.started|);
    var t := Run(o, enrolled, fs);
    var last := LastPaid(t.started[|enrolled.started|..], userId, step);
    WaitingIsAnswered(o, t, token, tenantId, userId, submitted, now);
    TotpAnswerExactly(o, t, token, userId, submitted, now, secret, last);
  }

  lemma TotpAnswerExactly(
      o: Outside, s: State, token: string, userId: string, submitted: string, now: int, secret: string, last: int)
    requires token in s.challenges && Protected(s, userId) && o.recoveryHash(o.trim(submitted)).None?
    requires s.users[userId].secret == Some(secret) && s.users[userId].lastStep == Some(last)
    ensures Answer(o, s, token, userId, submitted, now).1 == SignedIn <==>
            AcceptsNow(o, secret, o.trim(submitted), now, last)
  {
    var verdict := Judge(o.codes(secret), o.trim(submitted), now, Some(last));
    if verdict.Ok? && verdict.value.Accepted? {
      assert Accepts(o, secret, o.trim(submitted), now, Some(last), verdict.value.step);
    }
  }

  // ---------------------------------------------------------------------------
  // Recovery codes
  // ---------------------------------------------------------------------------

  predicate IsPaidWith(start: Start, userId: string, hash: string) {
    start.userId == userId && start.factor.Code? && start.factor.hash == hash
  }

  /** A session has been paid with this recovery code. */
  ghost predicate CodePaid(starts: seq<Start>, userId: string, hash: string) {
    exists i :: 0 <= i < |starts| && IsPaidWith(starts[i], userId, hash)
  }

  lemma CodePaidSnoc(starts: seq<Start>, start: Start, userId: string, hash: string)
    ensures CodePaid(starts + [start], userId, hash) <==>
            CodePaid(starts, userId, hash) || IsPaidWith(start, userId, hash)
  {
    var more := starts + [start];
    if CodePaid(starts, userId, hash) {
      var i :| 0 <= i < |starts| && IsPaidWith(starts[i], userId, hash);
      assert IsPaidWith(more[i], userId, hash);
    }
    assert more[|starts|] == start;
  }

  /** The account takes each of these recovery codes that no session since has been paid with. */
  ghost predicate TakesRecovery(s: State, userId: string, hashes: seq<string>, n: nat) {
    && n <= |s.started| && Protected(s, userId)
    && forall hash :: hash in s.users[userId].recovery <==> hash in hashes && !CodePaid(s.started[n..], userId, hash)
  }

  predicate Renews(e: Event, userId: string) {
    Lifts(e, userId) || (e.NewRecoveryCodes? && e.userId == userId)
  }

  predicate NoneRenews(es: seq<Event>, userId: string) {
    forall e :: e in es ==> !Renews(e, userId)
  }

  lemma TakesRecoveryStep(o: Outside, s: State, e: Event, userId: string, hashes: seq<string>, n: nat)
    requires TakesRecovery(s, userId, hashes, n) && !Renews(e, userId)
    ensures TakesRecovery(Next(o, s, e), userId, hashes, n)
  {
    var t := Next(o, s, e);
    StartsOneByOne(o, s, e, n);
    ProtectionLasts(o, s, e, userId, |s.started|);
    RecoveryStep(o, s, e, userId);
    forall hash
      ensures hash in t.users[userId].recovery <==> hash in hashes && !CodePaid(t.started[n..], userId, hash)
    {
      if t.started != s.started {
        CodePaidSnoc(s.started[n..], t.started[|s.started|], userId, hash);
      }
    }
  }

  /** A request leaves an account all its recovery codes but the one it has paid a session of his with. */
  lemma RecoveryStep(o: Outside, s: State, e: Event, userId: string)
    requires Protected(s, userId) && !Renews(e, userId)
    ensures var t := Next(o, s, e);
            && userId in t.users
            && forall hash :: hash in t.users[userId].recovery <==>
                 && hash in s.users[userId].recovery
                 && (t.started != s.started ==>
                       t.started != [] && !IsPaidWith(t.started[|t.started| - 1], userId, hash))
  {
    if e.CodeStep? && o.recoveryHash(o.trim(e.submitted)).Some? {
      WithoutMembers(s.users[userId].recovery, o.recoveryHash(o.trim(e.submitted)).value);
    }
  }

  lemma {:induction false} TakesRecoveryOver(
      o: Outside, s: State, es: seq<Event>, userId: string, hashes: seq<string>, n: nat)
    requires TakesRecovery(s, userId, hashes, n) && NoneRenews(es, userId)
    ensures TakesRecovery(Run(o, s, es), userId, hashes, n)
    decreases es
  {
    if es != [] {
      var init, e := es[..|es| - 1], es[|es| - 1];
      assert es == init + [e];
      assert e in es;
      TakesRecoveryOver(o, s, init, userId, hashes, n);
      TakesRecoveryStep(o, Run(o, s, init), e, userId, hashes, n);
    }
  }

  /** New recovery codes are given: with a set-up that is confirmed, or to an account already protected. */
  ghost predicate Gives(o: Outside, s: State, e: Event, userId: string) {
    || Confirms(o, s, e, userId)
    || (e.NewRecoveryCodes? && e.userId == userId && Protected(s, userId))
  }

  /**
   From the moment recovery codes are given, until the next ones are or the second factor is lifted:
   a recovery code signs in exactly when it is one of those given and no session has been paid with it.
   */
  lemma RecoveryCodeSignsIn(
      o: Outside, s: State, e: Event, userId: string, fs: seq<Event>, token: string, tenantId: string,
      submitted: string, now: int)
    requires Gives(o, s, e, userId) && NoneRenews(fs, userId)
    requires Waiting(Run(o, Next(o, s, e), fs), token, tenantId, userId, now)
    requires o.recoveryHash(o.trim(submitted)).Some?
    ensures var t := Run(o, Next(o, s, e), fs);
            var hash := o.recoveryHash(o.trim(submitted)).value;
            && |s.started| <= |t.started|
            && (CodeResult(o, t, token, tenantId, submitted, now).1 == SignedIn <==>
                  hash in e.hashes && !CodePaid(t.started[|s.started|..], userId, hash))
  {
    var given := Next(o, s, e);
    assert given.started[|s.started|..] == [];
    assert TakesRecovery(given, userId, e.hashes, |s.started|);
    TakesRecoveryOver(o, given, fs, userId, e.hashes, |s.started|);
  }

  // ---------------------------------------------------------------------------
  // Turned off, and closed
  // ---------------------------------------------------------------------------

  ghost predicate IsOff(s: State, userId: string) {
    userId in s.users ==>
      var u := s.users[userId];
      u.secret == None && !u.confirmed && u.lastStep == None && u.recovery == []
  }

  /** Turned off, the factor leaves nothing behind and stays off, whatever is confirmed, until a set-up is begun. */
  lemma {:induction false} TurnedOffStaysOff(o: Outside, s: State, es: seq<Event>, userId: string)
    requires forall e :: e in es ==> !(e.BeginSetup? && e.userId == userId)
    ensures IsOff(Run(o, Next(o, s, TurnOff(userId)), es), userId)
    decreases es
  {
    if es != [] {
      var init, e := es[..|es| - 1], es[|es| - 1];
      assert es == init + [e];
      assert e in es;
      TurnedOffStaysOff(o, s, init, userId);
      OffStaysOff(o, Run(o, Next(o, s, TurnOff(userId)), init), e, userId);
    }
  }

  lemma OffStaysOff(o: Outside, s: State, e: Event, userId: string)
    requires IsOff(s, userId) && !(e.BeginSetup? && e.userId == userId)
    ensures IsOff(Next(o, s, e), userId)
  {
    if userId in s.users && !Lifts(e, userId) {
      UnprotectedStays(o, s, e, userId);
    } else if userId !in s.users {
      NoNewUsers(o, s, e);
    }
  }

  lemma NoNewUsers(o: Outside, s: State, e: Event)
    ensures Next(o, s, e).users.Keys <= s.users.Keys
  {
  }

  /** The account is gone with its challenges, and has had no session since. */
  ghost predicate IsClosed(s: State, userId: string, n: nat) {
    && userId !in s.users
    && (forall token :: token in s.challenges ==> s.challenges[token].userId != userId)
    && n <= |s.started| && forall i :: n <= i < |s.started| ==> s.started[i].userId != userId
  }

  /** An account that was deleted has no challenge and starts no session any more. */
  lemma {:induction false} ClosedForGood(o: Outside, s: State, es: seq<Event>, userId: string)
    ensures IsClosed(Run(o, Next(o, s, DeleteAccount(userId)), es), userId, |s.started|)
    decreases es
  {
    if es != [] {
      var init, e := es[..|es| - 1], es[|es| - 1];
      ClosedForGood(o, s, init, userId);
      StaysClosed(o, Run(o, Next(o, s, DeleteAccount(userId)), init), e, userId, |s.started|);
    }
  }

  lemma StaysClosed(o: Outside, s: State, e: Event, userId: string, n: nat)
    requires IsClosed(s, userId, n)
    ensures IsClosed(Next(o, s, e), userId, n)
  {
  }

  /** Every challenge is of an account that is there. */
  ghost predicate ChallengesHaveUsers(s: State) {
    forall token :: token in s.challenges ==> s.challenges[token].userId in s.users
  }

  lemma StatementKeepsUsers(o: Outside, s: State, e: Statement)
    requires ChallengesHaveUsers(s)
    ensures ChallengesHaveUsers(Executed(o, s, e))
  {
    if e.Whole? {
      RequestKeepsUsers(o, s, e.event);
    }
  }

  lemma RequestKeepsUsers(o: Outside, s: State, e: Event)
    requires ChallengesHaveUsers(s)
    ensures ChallengesHaveUsers(Next(o, s, e))
  {
  }

  /** However the statements of requests interleave, none leaves a challenge without its account. */
  lemma {:induction false} NoChallengeWithoutAccount(o: Outside, s: State, es: seq<Statement>)
    requires ChallengesHaveUsers(s)
    ensures ChallengesHaveUsers(Others(o, s, es))
    decreases es
  {
    if es != [] {
      NoChallengeWithoutAccount(o, s, es[..|es| - 1]);
      StatementKeepsUsers(o, Others(o, s, es[..|es| - 1]), es[|es| - 1]);
    }
  }
}
