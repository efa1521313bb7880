/** What holds over every run of sign-ins and settings changes (src/lib/auth/two-factor.ts). */
module SignInLaws {
  import opened Prelude
  import opened Totp
  import opened SignIn
  import opened EnrolmentLaws

  // ---------------------------------------------------------------------------
  // The invariant
  // ---------------------------------------------------------------------------

  /** A live challenge was opened for its user five minutes before it expires, and has tries left. */
  ghost predicate GoodChallenge(s: State, token: string) {
    && token in s.challenges && token in s.openings
    && s.challenges[token].userId == s.openings[token].userId
    && s.challenges[token].expiresAt == s.openings[token].at + 300_000
    && s.challenges[token].attempts < 5
  }

  /** A factor that has been used up: its account would not take it again. */
  ghost predicate UsedUp(s: State, f: Factor) {
    match f
    case PasswordOnly => true
    case Step(userId, key, step) =>
      userId in s.users ==>
        && key <= s.users[userId].keys
        && (key == s.users[userId].keys ==> Spent(s.users[userId].lastStep, step))
    case Code(userId, sheet, hash) =>
      userId in s.users ==>
        && sheet <= s.users[userId].sheets
        && (sheet == s.users[userId].sheets ==> hash !in s.users[userId].recovery)
  }

  /** A session's challenge was opened for the same user less than five minutes before, and is gone. */
  ghost predicate GoodStart(s: State, start: Start) {
    && UsedUp(s, start.factor)
    && OwnFactor(start)
    && (start.challenge.Some? ==>
          && start.challenge.value in s.openings && start.challenge.value !in s.challenges
          && s.openings[start.challenge.value].userId == start.userId
          && start.at < s.openings[start.challenge.value].at + 300_000)
  }

  /** A factor is its own user's. */
  ghost predicate OwnFactor(start: Start) {
    match start.factor
    case PasswordOnly => true
    case Step(userId, _, _) => userId == start.userId && start.challenge.Some?
    case Code(userId, _, _) => userId == start.userId && start.challenge.Some?
  }

  /** Two sessions share neither challenge nor factor. */
  ghost predicate Apart(a: Start, b: Start) {
    && (a.challenge.Some? ==> a.challenge != b.challenge)
    && (!a.factor.PasswordOnly? ==> a.factor != b.factor)
  }

  ghost predicate AllApart(starts: seq<Start>) {
    starts != [] ==>
      && AllApart(starts[..|starts| - 1])
      && forall i :: 0 <= i < |starts| - 1 ==> Apart(starts[i], starts[|starts| - 1])
  }

  ghost predicate Inv(s: State) {
    && (forall token :: token in s.challenges ==> GoodChallenge(s, token))
    && (forall i :: 0 <= i < |s.started| ==> GoodStart(s, s.started[i]))
    && AllApart(s.started)
  }

  // ---------------------------------------------------------------------------
  // Steps that start no session
  // ---------------------------------------------------------------------------

  /** Nobody's used-up factor becomes usable again. */
  ghost predicate KeepsUsedUp(s: State, t: State) {
    forall f: Factor :: UsedUp(s, f) ==> UsedUp(t, f)
  }

  /** No challenge comes back under a token that was used before. */
  ghost predicate KeepsHistory(s: State, t: State) {
    && (forall token :: token in s.openings ==> token in t.openings && t.openings[token] == s.openings[token])
    && (forall token :: token in s.openings && token !in s.challenges ==> token !in t.challenges)
  }

  lemma StartsStayGood(s: State, t: State)
    requires Inv(s) && KeepsUsedUp(s, t) && KeepsHistory(s, t) && t.started == s.started
    requires forall token :: token in t.challenges ==> GoodChallenge(t, token)
    ensures Inv(t)
  {
    forall i | 0 <= i < |t.started|
      ensures GoodStart(t, t.started[i])
    {
      assert GoodStart(s, s.started[i]);
    }
  }

  /** A new secret, a new set of codes, or fewer of the old: nothing used up comes back. */
  ghost predicate Advances(u: User, v: User) {
    && u.keys <= v.keys && u.sheets <= v.sheets
    && (u.keys == v.keys ==> forall step :: Spent(u.lastStep, step) ==> Spent(v.lastStep, step))
    && (u.sheets == v.sheets ==> forall h :: h in v.recovery ==> h in u.recovery)
  }

  lemma AdvanceKeepsUsedUp(s: State, userId: string, v: User)
    requires userId in s.users && Advances(s.users[userId], v)
    ensures KeepsUsedUp(s, WithUser(s, userId, v))
  {
  }

  lemma UserChangeKeepsInv(s: State, userId: string, v: User)
    requires Inv(s) && userId in s.users && Advances(s.users[userId], v)
    ensures Inv(WithUser(s, userId, v))
  {
    var t := WithUser(s, userId, v);
    AdvanceKeepsUsedUp(s, userId, v);
    forall token | token in t.challenges
      ensures GoodChallenge(t, token)
    {
      assert GoodChallenge(s, token);
    }
    StartsStayGood(s, t);
  }

  lemma OpeningKeepsInv(s: State, userId: string, token: string, now: int)
    requires Inv(s) && token !in s.openings
    ensures Inv(OpenChallenge(s, userId, token, now))
  {
    var t := OpenChallenge(s, userId, token, now);
    forall u | u in t.challenges
      ensures GoodChallenge(t, u)
    {
      assert u != token ==> GoodChallenge(s, u);
    }
    StartsStayGood(s, t);
  }

  lemma FailKeepsInv(s: State, token: string)
    requires Inv(s) && token in s.challenges
    ensures Inv(Fail(s, token).0)
  {
    var t := Fail(s, token).0;
    forall u | u in t.challenges
      ensures GoodChallenge(t, u)
    {
      assert GoodChallenge(s, u) && GoodChallenge(s, token);
    }
    StartsStayGood(s, t);
  }

  lemma FewerChallengesKeepInv(s: State, t: State)
    requires Inv(s) && t == s.(challenges := t.challenges)
    requires forall token :: token in t.challenges ==>
               token in s.challenges && t.challenges[token] == s.challenges[token]
    ensures Inv(t)
  {
    forall u | u in t.challenges
      ensures GoodChallenge(t, u)
    {
      assert GoodChallenge(s, u);
    }
    StartsStayGood(s, t);
  }

  // ---------------------------------------------------------------------------
  // Steps that start one
  // ---------------------------------------------------------------------------

  lemma StartKeepsInv(s: State, start: Start)
    requires Inv(s) && GoodStart(s, start)
    requires forall i :: 0 <= i < |s.started| ==> Apart(s.started[i], start)
    ensures Inv(WithStart(s, start))
  {
    var t := WithStart(s, start);
    assert t.started[..|t.started| - 1] == s.started;
    forall token | token in t.challenges
      ensures GoodChallenge(t, token)
    {
      assert GoodChallenge(s, token);
    }
    forall i | 0 <= i < |t.started|
      ensures GoodStart(t, t.started[i])
    {
      assert i < |s.started| ==> GoodStart(s, s.started[i]);
    }
  }

  /** A factor not used up before, used up now, on a challenge that was still live. */
  lemma PassKeepsInv(s: State, spent: State, token: string, userId: string, factor: Factor, now: int)
    requires Inv(s) && Inv(spent) && token in s.challenges && s.challenges[token].userId == userId
    requires now < s.challenges[token].expiresAt
    requires spent == s.(users := spent.users)
    requires factor.PasswordOnly? || !UsedUp(s, factor)
    requires UsedUp(spent, factor) && OwnFactor(Start(userId, Some(token), factor, now))
    ensures Inv(Passed(spent, token, userId, factor, now))
  {
    var gone := spent.(challenges := spent.challenges - {token});
    var start := Start(userId, Some(token), factor, now);
    assert GoodChallenge(s, token);
    FewerChallengesKeepInv(spent, gone);
    forall i | 0 <= i < |gone.started|
      ensures Apart(gone.started[i], start)
    {
      assert GoodStart(s, s.started[i]);
    }
    StartKeepsInv(gone, start);
  }

  lemma RecoveryKeepsInv(s: State, token: string, userId: string, hash: string, now: int)
    requires Inv(s) && token in s.challenges && userId in s.users
    requires s.challenges[token].userId == userId && now < s.challenges[token].expiresAt
    ensures Inv(AnswerRecovery(s, token, userId, hash, now).0)
  {
    var u := s.users[userId];
    if hash in u.recovery {
      var v := u.(recovery := Without(u.recovery, hash));
      WithoutMembers(u.recovery, hash);
      UserChangeKeepsInv(s, userId, v);
      PassKeepsInv(s, WithUser(s, userId, v), token, userId, Code(userId, u.sheets, hash), now);
    } else {
      FailKeepsInv(s, token);
    }
  }

  lemma TotpKeepsInv(o: Outside, s: State, token: string, userId: string, entered: string, now: int)
    requires Inv(s) && token in s.challenges && userId in s.users && s.users[userId].secret.Some?
    requires s.challenges[token].userId == userId && now < s.challenges[token].expiresAt
    ensures Inv(AnswerTotp(o, s, token, userId, entered, now).0)
  {
    var u := s.users[userId];
    var verdict := Judge(o.codes(u.secret.value), entered, now, u.lastStep);
    if verdict.Ok? && verdict.value.Accepted? {
      var step := verdict.value.step;
      var v := u.(lastStep := Some(step));
      AcceptedIsFresh(o.codes(u.secret.value), Attempt(entered, now), u.lastStep);
      UserChangeKeepsInv(s, userId, v);
      PassKeepsInv(s, WithUser(s, userId, v), token, userId, Step(userId, u.keys, step), now);
    } else if verdict.Ok? {
      FailKeepsInv(s, token);
    }
  }

  lemma AnswerKeepsInv(o: Outside, s: State, token: string, userId: string, submitted: string, now: int)
    requires Inv(s) && token in s.challenges && userId in s.users
    requires s.challenges[token].userId == userId && now < s.challenges[token].expiresAt
    ensures Inv(Answer(o, s, token, userId, submitted, now).0)
  {
    var entered := o.trim(submitted);
    if !TwoFactorIsOn(s.users[userId]) {
      PassKeepsInv(s, s, token, userId, PasswordOnly, now);
    } else if o.recoveryHash(entered).Some? {
      RecoveryKeepsInv(s, token, userId, o.recoveryHash(entered).value, now);
    } else {
      TotpKeepsInv(o, s, token, userId, entered, now);
    }
  }

  // ---------------------------------------------------------------------------
  // Whole runs
  // ---------------------------------------------------------------------------

  /** The token a request would open a challenge under has not been used before. */
  ghost predicate FreshToken(s: State, e: Event) {
    e.PasswordStep? ==> e.token !in s.openings
  }

  lemma PasswordKeepsInv(s: State, found: Option<string>, passwordOk: bool, token: string, now: int)
    requires Inv(s) && token !in s.openings
    ensures Inv(PasswordResult(s, found, passwordOk, token, now).0)
  {
    if found.Some? && found.value in s.users && passwordOk {
      if TwoFactorIsOn(s.users[found.value]) {
        OpeningKeepsInv(s, found.value, token, now);
      } else {
        StartKeepsInv(s, Start(found.value, None, PasswordOnly, now));
      }
    }
  }

  lemma DeletionKeepsInv(s: State, userId: string)
    requires Inv(s)
    ensures Inv(s.(users := s.users - {userId}, challenges := ChallengesOfOthers(s, userId)))
  {
    var t := s.(users := s.users - {userId}, challenges := ChallengesOfOthers(s, userId));
    forall u | u in t.challenges
      ensures GoodChallenge(t, u)
    {
      assert GoodChallenge(s, u);
    }
    StartsStayGood(s, t);
  }

  lemma SettingsKeepInv(o: Outside, s: State, e: Event)
    requires Inv(s) && !e.PasswordStep? && !e.CodeStep? && !e.Sweep? && !e.DeleteAccount?
    ensures Inv(Next(o, s, e))
  {
    if e.userId in s.users {
      var u := s.users[e.userId];
      if e.ConfirmSetup? && u.secret.Some? && !u.confirmed {
        AcceptedIsFresh(o.codes(u.secret.value), Attempt(e.submitted, e.now), u.lastStep);
      }
      if Next(o, s, e) != s {
        UserChangeKeepsInv(s, e.userId, Next(o, s, e).users[e.userId]);
      }
    }
  }

  lemma NextKeepsInv(o: Outside, s: State, e: Event)
    requires Inv(s) && FreshToken(s, e)
    ensures Inv(Next(o, s, e))
  {
    match e
    case PasswordStep(found, passwordOk, token, now) =>
      PasswordKeepsInv(s, found, passwordOk, token, now);
    case CodeStep(token, tenantId, submitted, now) =>
      if Pending(s, token, tenantId, now).Some? {
        AnswerKeepsInv(o, s, token, s.challenges[token].userId, submitted, now);
      }
    case DeleteAccount(userId) =>
      DeletionKeepsInv(s, userId);
    case Sweep(_) =>
      FewerChallengesKeepInv(s, Next(o, s, e));
    case _ =>
      SettingsKeepInv(o, s, e);
  }

  /** Tokens are random: no sign-in opens a challenge under a token used before. */
  ghost predicate FreshTokens(o: Outside, s: State, es: seq<Event>) {
    es != [] ==> FreshTokens(o, s, es[..|es| - 1]) && FreshToken(Run(o, s, es[..|es| - 1]), es[|es| - 1])
  }

  function Empty(users: map<string, User>): State {
    State(users, map[], map[], [])
  }

  lemma {:induction false} RunKeepsInv(o: Outside, users: map<string, User>, es: seq<Event>)
    requires FreshTokens(o, Empty(users), es)
    ensures Inv(Run(o, Empty(users), es))
    decreases es
  {
    if es != [] {
      RunKeepsInv(o, users, es[..|es| - 1]);
      NextKeepsInv(o, Run(o, Empty(users), es[..|es| - 1]), es[|es| - 1]);
    }
  }

  lemma {:induction false} ApartPairs(starts: seq<Start>, i: nat, j: nat)
    requires AllApart(starts) && i < j < |starts|
    ensures Apart(starts[i], starts[j])
  {
    if j < |starts| - 1 {
      ApartPairs(starts[..|starts| - 1], i, j);
    }
  }

  /**
   Over every run: no challenge yields two sessions, no factor is spent on two sessions, and a
   session with a challenge belongs to the user whose password opened it less than five minutes
   before.
   */
  lemma EachSessionItsOwnFactor(o: Outside, users: map<string, User>, es: seq<Event>)
    requires FreshTokens(o, Empty(users), es)
    ensures var s := Run(o, Empty(users), es);
            && (forall i, j :: 0 <= i < j < |s.started| ==> Apart(s.started[i], s.started[j]))
            && (forall i :: 0 <= i < |s.started| ==> GoodStart(s, s.started[i]))
  {
    var s := Run(o, Empty(users), es);
    RunKeepsInv(o, users, es);
    forall i, j | 0 <= i < j < |s.started|
      ensures Apart(s.started[i], s.started[j])
    {
      ApartPairs(s.started, i, j);
    }
  }

  // ---------------------------------------------------------------------------
  // What a session costs
  // ---------------------------------------------------------------------------

  /** What a request must have brought for the session it started. */
  ghost predicate Paid(s: State, t: State, e: Event, start: Start) {
    match e
    case PasswordStep(found, passwordOk, _, now) =>
      && passwordOk && found == Some(start.userId) && start.userId in s.users && !Protected(s, start.userId)
      && start.challenge == None && start.factor.PasswordOnly? && start.at == now
    case CodeStep(token, tenantId, _, now) =>
      && Waiting(s, token, tenantId, start.userId, now)
      && start.challenge == Some(token) && start.at == now && OwnFactor(start)
      && (start.factor.PasswordOnly? <==> !Protected(s, start.userId))
      && (!start.factor.PasswordOnly? ==> !UsedUp(s, start.factor) && UsedUp(t, start.factor))
    case _ => false
  }

  /**
   A request starts at most one session. At the password step it takes the right password and
   the second factor off; at the code step a live challenge, and, unless the second factor has
   been turned off meanwhile, a factor that was still good and is used up afterwards.
   */
  lemma SessionsArePaidFor(o: Outside, s: State, e: Event)
    ensures var t := Next(o, s, e);
            || t.started == s.started
            || exists start :: t.started == s.started + [start] && Paid(s, t, e, start)
  {
    var t := Next(o, s, e);
    if t.started != s.started {
      var start := t.started[|t.started| - 1];
      if e.CodeStep? {
        AnswerIsPaidFor(o, s, e.token, e.tenantId, e.submitted, e.now);
      }
      assert t.started == s.started + [start] && Paid(s, t, e, start);
    }
  }

  lemma AnswerIsPaidFor(o: Outside, s: State, token: string, tenantId: string, submitted: string, now: int)
    ensures var t := CodeResult(o, s, token, tenantId, submitted, now).0;
            t.started != s.started ==>
              && |t.started| == |s.started| + 1 && t.started[..|s.started|] == s.started
              && Paid(s, t, CodeStep(token, tenantId, submitted, now), t.started[|s.started|])
  {
    var c := Pending(s, token, tenantId, now);
    if c.Some? {
      var u := s.users[c.value.userId];
      var entered := o.trim(submitted);
      if TwoFactorIsOn(u) {
        if o.recoveryHash(entered).Some? {
          WithoutMembers(u.recovery, o.recoveryHash(entered).value);
        } else {
          AcceptedIsFresh(o.codes(u.secret.value), Attempt(entered, now), u.lastStep);
        }
      }
    }
  }

  // ---------------------------------------------------------------------------
  // How often a challenge can be answered wrongly
  // ---------------------------------------------------------------------------

  /** Whether a request is a wrong answer to the challenge of this token. */
  predicate WrongAnswer(o: Outside, s: State, e: Event, token: string) {
    && e.CodeStep? && e.token == token
    && CodeResult(o, s, token, e.tenantId, e.submitted, e.now).1 in {WrongCode, Exhausted}
  }

  function WrongAnswers(o: Outside, s: State, es: seq<Event>, token: string): nat {
    if es == [] then 0
    else
      var init := es[..|es| - 1];
      WrongAnswers(o, s, init, token) + if WrongAnswer(o, Run(o, s, init), es[|es| - 1], token) then 1 else 0
  }

  /** What the count of wrong answers must be, by the state of the challenge. */
  ghost predicate Counted(s: State, token: string, wrong: nat) {
    if token in s.challenges then wrong == s.challenges[token].attempts
    else if token in s.openings then wrong <= 5
    else wrong == 0
  }

  lemma CountStep(o: Outside, s: State, e: Event, token: string, wrong: nat)
    requires Inv(s) && FreshToken(s, e) && Counted(s, token, wrong)
    ensures Counted(Next(o, s, e), token, wrong + if WrongAnswer(o, s, e, token) then 1 else 0)
  {
    if token in s.challenges {
      assert GoodChallenge(s, token);
    }
    match e
    case CodeStep(answered, tenantId, submitted, now) =>
      CodeStepCounts(o, s, answered, tenantId, submitted, now, token, wrong);
    case _ =>
  }

  lemma CodeStepCounts(
      o: Outside, s: State, answered: string, tenantId: string, submitted: string, now: int, token: string, wrong: nat)
    requires Inv(s) && Counted(s, token, wrong)
    ensures var r := CodeResult(o, s, answered, tenantId, submitted, now);
            Counted(r.0, token, wrong + if answered == token && r.1 in {WrongCode, Exhausted} then 1 else 0)
  {
    if answered in s.challenges {
      assert GoodChallenge(s, answered);
    }
    if token in s.challenges {
      assert GoodChallenge(s, token);
    }
  }

  lemma {:induction false} WrongAnswersCounted(o: Outside, users: map<string, User>, es: seq<Event>, token: string)
    requires FreshTokens(o, Empty(users), es)
    ensures Counted(Run(o, Empty(users), es), token, WrongAnswers(o, Empty(users), es, token))
    decreases es
  {
    if es != [] {
      var init := es[..|es| - 1];
      WrongAnswersCounted(o, users, init, token);
      RunKeepsInv(o, users, init);
      CountStep(o, Run(o, Empty(users), init), es[|es| - 1], token, WrongAnswers(o, Empty(users), init, token));
    }
  }

  /** One verified password buys at most five wrong codes. */
  lemma FiveWrongCodesAtMost(o: Outside, users: map<string, User>, es: seq<Event>, token: string)
    requires FreshTokens(o, Empty(users), es)
    ensures WrongAnswers(o, Empty(users), es, token) <= 5
  {
    WrongAnswersCounted(o, users, es, token);
    RunKeepsInv(o, users, es);
    var s := Run(o, Empty(users), es);
    if token in s.challenges {
      assert GoodChallenge(s, token);
    }
  }

  /** And it buys five: the wrong code that destroys a challenge is its fifth, never an earlier one. */
  lemma FifthWrongCodeDestroys(o: Outside, users: map<string, User>, es: seq<Event>, e: Event)
    requires FreshTokens(o, Empty(users), es)
    requires e.CodeStep? && WrongAnswer(o, Run(o, Empty(users), es), e, e.token)
    ensures var s := Run(o, Empty(users), es);
            var r := CodeResult(o, s, e.token, e.tenantId, e.submitted, e.now);
            && (r.1 == Exhausted <==> WrongAnswers(o, Empty(users), es, e.token) == 4)
            && (r.1 == Exhausted <==> e.token !in r.0.challenges)
  {
    WrongAnswersCounted(o, users, es, e.token);
    RunKeepsInv(o, users, es);
    var s := Run(o, Empty(users), es);
    assert GoodChallenge(s, e.token);
  }

  // ---------------------------------------------------------------------------
  // One live challenge per user
  // ---------------------------------------------------------------------------

  ghost predicate OnlyChallenge(s: State, token: string) {
    token in s.challenges ==>
      forall other :: other in s.challenges && s.challenges[other].userId == s.challenges[token].userId ==>
          other == token
  }

  ghost predicate OnePerUser(s: State) {
    forall token :: token in s.challenges ==> OnlyChallenge(s, token)
  }

  /** No challenge of `t` is new, or another user's than it was. */
  ghost predicate NoneNew(s: State, t: State) {
    forall token :: token in t.challenges ==>
        token in s.challenges && t.challenges[token].userId == s.challenges[token].userId
  }

  lemma FewerStayOnePerUser(s: State, t: State)
    requires OnePerUser(s) && NoneNew(s, t)
    ensures OnePerUser(t)
  {
    forall token | token in t.challenges
      ensures OnlyChallenge(t, token)
    {
      assert OnlyChallenge(s, token);
    }
  }

  lemma OpeningStaysOnePerUser(s: State, userId: string, token: string, now: int)
    requires OnePerUser(s)
    ensures OnePerUser(OpenChallenge(s, userId, token, now))
  {
    var t := OpenChallenge(s, userId, token, now);
    forall u | u in t.challenges
      ensures OnlyChallenge(t, u)
    {
      assert u in s.challenges ==> OnlyChallenge(s, u);
    }
  }

  lemma CodeStepOpensNone(o: Outside, s: State, token: string, tenantId: string, submitted: string, now: int)
    ensures NoneNew(s, CodeResult(o, s, token, tenantId, submitted, now).0)
  {
  }

  /** A request drops challenges, counts one up, or opens one for a user left without any other. */
  lemma OnePerUserKept(o: Outside, s: State, e: Event)
    requires OnePerUser(s)
    ensures OnePerUser(Next(o, s, e))
  {
    match e
    case PasswordStep(found, _, token, now) =>
      if Next(o, s, e).challenges != s.challenges {
        OpeningStaysOnePerUser(s, found.value, token, now);
      } else {
        FewerStayOnePerUser(s, Next(o, s, e));
      }
    case CodeStep(token, tenantId, submitted, now) =>
      CodeStepOpensNone(o, s, token, tenantId, submitted, now);
      FewerStayOnePerUser(s, Next(o, s, e));
    case _ =>
      FewerStayOnePerUser(s, Next(o, s, e));
  }

  lemma {:induction false} OneChallengePerUser(o: Outside, users: map<string, User>, es: seq<Event>)
    ensures OnePerUser(Run(o, Empty(users), es))
    decreases es
  {
    if es != [] {
      OneChallengePerUser(o, users, es[..|es| - 1]);
      OnePerUserKept(o, Run(o, Empty(users), es[..|es| - 1]), es[|es| - 1]);
    }
  }
}
