/**
 Signing in with a second factor (src/lib/auth/two-factor.ts, src/lib/db/two-factor.ts and the
 two sign-in actions of src/app/(auth)/actions.ts): requests as single steps, and both steps also
 statement by statement with others in between.
 */
module SignIn {
  import opened Prelude
  import opened Totp

  const TWO_FACTOR_TTL_MS := 300_000
  const MAX_CHALLENGE_ATTEMPTS := 5

  /**
   The columns of a user row that signing in reads. `keys` and `sheets` are no columns: they
   number the secrets and the sets of recovery codes the account has had, to name factors by.
   */
  datatype User = User(
    tenantId: string,
    secret: Option<string>,
    confirmed: bool,
    lastStep: Option<int>,
    recovery: seq<string>,
    keys: nat,
    sheets: nat)

  datatype Challenge = Challenge(userId: string, attempts: nat, expiresAt: int)

  /** What a session was started on. */
  datatype Factor =
    | PasswordOnly
    | Step(userId: string, key: nat, step: int)
    | Code(userId: string, sheet: nat, hash: string)

  datatype Start = Start(userId: string, challenge: Option<string>, factor: Factor, at: int)

  /** A challenge that was opened: for whom the password had verified, and when. */
  datatype Opening = Opening(userId: string, at: int)

  /** The tables, and the history of challenges opened and sessions started. */
  datatype State = State(
    users: map<string, User>,
    challenges: map<string, Challenge>,
    openings: map<string, Opening>,
    started: seq<Start>)

  datatype Outcome = SignedIn | Challenged | InvalidCredentials | BackToPassword | WrongCode | Exhausted | Failed

  /** What lies outside: the authenticator of a secret, trimming, and hashes of what looks like a recovery code. */
  datatype Outside = Outside(
    codes: string -> Codes,
    trim: string -> string,
    recoveryHash: string -> Option<string>)

  predicate TwoFactorIsOn(u: User) {
    u.confirmed && u.secret.Some?
  }

  function Without(codes: seq<string>, hash: string): seq<string> {
    if codes == [] then []
    else
      var last := codes[|codes| - 1];
      Without(codes[..|codes| - 1], hash) + if last == hash then [] else [last]
  }

  lemma {:induction false} WithoutMembers(codes: seq<string>, hash: string)
    ensures forall c :: c in Without(codes, hash) <==> c in codes && c != hash
  {
    if codes != [] {
      WithoutMembers(codes[..|codes| - 1], hash);
      assert codes == codes[..|codes| - 1] + [codes[|codes| - 1]];
    }
  }

  // ---------------------------------------------------------------------------
  // Requests
  // ---------------------------------------------------------------------------

  datatype Event =
    | PasswordStep(found: Option<string>, passwordOk: bool, token: string, now: int)
    | CodeStep(token: string, tenantId: string, submitted: string, now: int)
    | BeginSetup(userId: string, secret: string)
    | ConfirmSetup(userId: string, submitted: string, now: int, hashes: seq<string>)
    | NewRecoveryCodes(userId: string, hashes: seq<string>)
    | TurnOff(userId: string)
    | DeleteAccount(userId: string)
    | Sweep(now: int)

  /** The live challenge a token names, within its tenant. */
  function Pending(s: State, token: string, tenantId: string, now: int): Option<Challenge> {
    if token in s.challenges then
      var c := s.challenges[token];
      if c.expiresAt > now && c.userId in s.users && s.users[c.userId].tenantId == tenantId then Some(c) else None
    else None
  }

  function WithUser(s: State, userId: string, u: User): State {
    s.(users := s.users[userId := u])
  }

  function WithStart(s: State, start: Start): State {
    s.(started := s.started + [start])
  }

  /** A code passed: the challenge goes, and the session starts. */
  function Passed(s: State, token: string, userId: string, factor: Factor, now: int): State {
    WithStart(s.(challenges := s.challenges - {token}), Start(userId, Some(token), factor, now))
  }

  function ChallengesOfOthers(s: State, userId: string): map<string, Challenge> {
    map t | t in s.challenges && s.challenges[t].userId != userId :: s.challenges[t]
  }

  function OpenChallenge(s: State, userId: string, token: string, now: int): State {
    var others := ChallengesOfOthers(s, userId);
    s.(challenges := others[token := Challenge(userId, 0, now + TWO_FACTOR_TTL_MS)],
       openings := s.openings[token := Opening(userId, now)])
  }

  function PasswordResult(
      s: State, userId: Option<string>, passwordOk: bool, token: string, now: int): (State, Outcome) {
    if userId.None? || userId.value !in s.users || !passwordOk then (s, InvalidCredentials)
    else if TwoFactorIsOn(s.users[userId.value]) then (OpenChallenge(s, userId.value, token, now), Challenged)
    else (WithStart(s, Start(userId.value, None, PasswordOnly, now)), SignedIn)
  }

  /** A wrong code counts against the challenge, and the last one destroys it. */
  function Fail(s: State, token: string): (State, Outcome)
    requires token in s.challenges
  {
    var c := s.challenges[token].(attempts := s.challenges[token].attempts + 1);
    if c.attempts >= MAX_CHALLENGE_ATTEMPTS then (s.(challenges := s.challenges - {token}), Exhausted)
    else (s.(challenges := s.challenges[token := c]), WrongCode)
  }

  function AnswerRecovery(s: State, token: string, userId: string, hash: string, now: int): (State, Outcome)
    requires token in s.challenges && userId in s.users
  {
    var u := s.users[userId];
    if hash in u.recovery then
      var spent := WithUser(s, userId, u.(recovery := Without(u.recovery, hash)));
      (Passed(spent, token, userId, Code(userId, u.sheets, hash), now), SignedIn)
    else Fail(s, token)
  }

  function AnswerTotp(o: Outside, s: State, token: string, userId: string, entered: string, now: int): (State, Outcome)
    requires token in s.challenges && userId in s.users && s.users[userId].secret.Some?
  {
    var u := s.users[userId];
    var verdict := Judge(o.codes(u.secret.value), entered, now, u.lastStep);
    if verdict.Err? then (s, Failed)
    else if verdict.value.Accepted? then
      var spent := WithUser(s, userId, u.(lastStep := Some(verdict.value.step)));
      (Passed(spent, token, userId, Step(userId, u.keys, verdict.value.step), now), SignedIn)
    else Fail(s, token)
  }

  function Answer(o: Outside, s: State, token: string, userId: string, submitted: string, now: int): (State, Outcome)
    requires token in s.challenges && userId in s.users
  {
    var entered := o.trim(submitted);
    if !TwoFactorIsOn(s.users[userId]) then (Passed(s, token, userId, PasswordOnly, now), SignedIn)
    else if o.recoveryHash(entered).Some? then AnswerRecovery(s, token, userId, o.recoveryHash(entered).value, now)
    else AnswerTotp(o, s, token, userId, entered, now)
  }

  function CodeResult(
      o: Outside, s: State, token: string, tenantId: string, submitted: string, now: int): (State, Outcome) {
    var c := Pending(s, token, tenantId, now);
    if c.None? then (s, BackToPassword) else Answer(o, s, token, c.value.userId, submitted, now)
  }

  function ConfirmResult(
      o: Outside, s: State, userId: string, submitted: string, now: int, hashes: seq<string>): State {
    if userId !in s.users || s.users[userId].secret.None? || s.users[userId].confirmed then s
    else
      var u := s.users[userId];
      var step := StoredStep(Judge(o.codes(u.secret.value), submitted, now, u.lastStep));
      if step.None? then s
      else WithUser(s, userId, u.(confirmed := true, lastStep := step, recovery := hashes, sheets := u.sheets + 1))
  }

  function Next(o: Outside, s: State, e: Event): State {
    match e
    case PasswordStep(found, passwordOk, token, now) => PasswordResult(s, found, passwordOk, token, now).0
    case CodeStep(token, tenantId, submitted, now) => CodeResult(o, s, token, tenantId, submitted, now).0
    case BeginSetup(userId, secret) =>
      if userId !in s.users then s
      else
        var u := s.users[userId];
        WithUser(s, userId, u.(secret := Some(secret), confirmed := false, lastStep := None, recovery := [],
                               keys := u.keys + 1, sheets := u.sheets + 1))
    case ConfirmSetup(userId, submitted, now, hashes) => ConfirmResult(o, s, userId, submitted, now, hashes)
    case NewRecoveryCodes(userId, hashes) =>
      if userId !in s.users || !s.users[userId].confirmed then s
      else
        var u := s.users[userId];
        WithUser(s, userId, u.(recovery := hashes, sheets := u.sheets + 1))
    case TurnOff(userId) =>
      if userId !in s.users then s
      else
        var u := s.users[userId];
        WithUser(s, userId, u.(secret := None, confirmed := false, lastStep := None, recovery := [],
                               keys := u.keys + 1, sheets := u.sheets + 1))
    case DeleteAccount(userId) => s.(users := s.users - {userId}, challenges := ChallengesOfOthers(s, userId))
    case Sweep(now) =>
      s.(challenges := map t | t in s.challenges && s.challenges[t].expiresAt >= now :: s.challenges[t])
  }

  function Run(o: Outside, s: State, es: seq<Event>): State {
    if es == [] then s else Next(o, Run(o, s, es[..|es| - 1]), es[|es| - 1])
  }

  // ---------------------------------------------------------------------------
  // Both steps, statement by statement
  // ---------------------------------------------------------------------------

  /** The step is written whatever is stored by then; the statement throws when the account is gone. */
  function Recorded(s: State, userId: string, step: int): Option<State> {
    if userId in s.users then Some(WithUser(s, userId, s.users[userId].(lastStep := Some(step)))) else None
  }

  /** While the code is still there, the list that was read is put back without it. */
  function Consumed(s: State, userId: string, stored: seq<string>, hash: string): Option<State> {
    if userId in s.users && hash in s.users[userId].recovery then
      Some(WithUser(s, userId, s.users[userId].(recovery := Without(stored, hash))))
    else None
  }

  function ChallengesOf(s: State, userId: string): set<string> {
    set t | t in s.challenges && s.challenges[t].userId == userId
  }

  /**
   A transaction that opens a challenge commits: the user's challenges it had seen are gone, and the
   new one is there. It fails as a whole when the account is gone.
   */
  function OpenSwept(s: State, userId: string, token: string, now: int, seen: set<string>): Option<State> {
    if userId !in s.users then None
    else
      var rest := s.challenges - (seen * ChallengesOf(s, userId));
      Some(s.(challenges := rest[token := Challenge(userId, 0, now + TWO_FACTOR_TTL_MS)],
              openings := s.openings[token := Opening(userId, now)]))
  }

  /** Deleting a challenge that is gone is no error. */
  function Dropped(s: State, token: string): State {
    s.(challenges := s.challenges - {token})
  }

  /** Counting against a challenge that is gone is one. */
  function Counted(s: State, token: string): Option<State> {
    if token in s.challenges then
      Some(s.(challenges := s.challenges[token := s.challenges[token].(attempts := s.challenges[token].attempts + 1)]))
    else None
  }

  /** What others do between two statements of a request: whole requests, or single statements of theirs. */
  datatype Statement =
    | Whole(event: Event)
    | Open(userId: string, token: string, now: int, seen: set<string>)
    | Record(userId: string, step: int)
    | Consume(userId: string, stored: seq<string>, hash: string)
    | Drop(token: string)
    | Count(token: string)
    | Enter(start: Start)

  function Executed(o: Outside, s: State, e: Statement): State {
    match e
    case Whole(event) => Next(o, s, event)
    case Open(userId, token, now, seen) => OpenSwept(s, userId, token, now, seen).GetOr(s)
    case Record(userId, step) => Recorded(s, userId, step).GetOr(s)
    case Consume(userId, stored, hash) => Consumed(s, userId, stored, hash).GetOr(s)
    case Drop(token) => Dropped(s, token)
    case Count(token) => Counted(s, token).GetOr(s)
    case Enter(start) => WithStart(s, start)
  }

  function Others(o: Outside, s: State, es: seq<Statement>): State {
    if es == [] then s else Executed(o, Others(o, s, es[..|es| - 1]), es[|es| - 1])
  }

  /** Where a request waits for the database: after it has looked something up, or written something off. */
  datatype Pause = AfterLookup | AfterAccount | AfterList | AfterFactor | AfterChallenge | AfterSweep

  /** What others do in each pause of a request. */
  type Pauses = Pause -> seq<Statement>

  /** The password step: find the account, read whether the second factor is on, open a challenge or start a session. */
  function PasswordAmong(
      o: Outside, s: State, found: Option<string>, passwordOk: bool, token: string, now: int, pauses: Pauses)
    : (State, Outcome)
  {
    if found.None? || found.value !in s.users || !passwordOk then (s, InvalidCredentials)
    else
      var userId := found.value;
      var read := Others(o, s, pauses(AfterLookup));
      var t := Others(o, read, pauses(AfterAccount));
      if userId in read.users && TwoFactorIsOn(read.users[userId]) then ChallengeAmong(o, t, userId, token, now, pauses)
      else if userId in t.users then (WithStart(t, Start(userId, None, PasswordOnly, now)), SignedIn)
      else (t, Failed)
  }

  /** The transaction sees the challenges there are when it deletes, and takes effect when it commits. */
  function ChallengeAmong(
      o: Outside, s: State, userId: string, token: string, now: int, pauses: Pauses): (State, Outcome) {
    var t := Others(o, s, pauses(AfterSweep));
    var committed := OpenSwept(t, userId, token, now, ChallengesOf(s, userId));
    (committed.GetOr(t), if committed.Some? then Challenged else Failed)
  }

  function CodeAmong(
      o: Outside, s: State, token: string, tenantId: string, submitted: string, now: int, pauses: Pauses)
    : (State, Outcome)
  {
    var c := Pending(s, token, tenantId, now);
    if c.None? then (s, BackToPassword)
    else AnswerAmong(o, Others(o, s, pauses(AfterLookup)), token, c.value.userId, submitted, now, pauses)
  }

  function AnswerAmong(
      o: Outside, s: State, token: string, userId: string, submitted: string, now: int, pauses: Pauses)
    : (State, Outcome)
  {
    var entered := o.trim(submitted);
    var t := Others(o, s, pauses(AfterAccount));
    if userId !in s.users || !TwoFactorIsOn(s.users[userId]) then
      PassAmong(o, t, token, userId, PasswordOnly, now, pauses)
    else if o.recoveryHash(entered).Some? then
      RecoveryAmong(o, t, token, userId, o.recoveryHash(entered).value, now, pauses)
    else
      var u := s.users[userId];
      var verdict := Judge(o.codes(u.secret.value), entered, now, u.lastStep);
      if verdict.Err? then (s, Failed)
      else if !verdict.value.Accepted? then FailAmong(o, t, token, pauses)
      else
        var recorded := Recorded(t, userId, verdict.value.step);
        if recorded.None? then (t, Failed)
        else
          var factor := Step(userId, u.keys, verdict.value.step);
          PassAmong(o, Others(o, recorded.value, pauses(AfterFactor)), token, userId, factor, now, pauses)
  }

  function SheetOf(s: State, userId: string): nat {
    if userId in s.users then s.users[userId].sheets else 0
  }

  function RecoveryAmong(
      o: Outside, s: State, token: string, userId: string, hash: string, now: int, pauses: Pauses): (State, Outcome) {
    var consumed := ConsumeAmong(o, s, userId, hash, pauses);
    var t := Others(o, consumed.0, pauses(AfterFactor));
    if consumed.1 then PassAmong(o, t, token, userId, Code(userId, SheetOf(s, userId), hash), now, pauses)
    else FailAmong(o, t, token, pauses)
  }

  function ConsumeAmong(o: Outside, s: State, userId: string, hash: string, pauses: Pauses): (State, bool) {
    if userId !in s.users || hash !in s.users[userId].recovery then (s, false)
    else
      var t := Others(o, s, pauses(AfterList));
      var consumed := Consumed(t, userId, s.users[userId].recovery, hash);
      (consumed.GetOr(t), consumed.Some?)
  }

  function PassAmong(
      o: Outside, s: State, token: string, userId: string, factor: Factor, now: int, pauses: Pauses): (State, Outcome) {
    var t := Others(o, Dropped(s, token), pauses(AfterChallenge));
    if userId in t.users then (WithStart(t, Start(userId, Some(token), factor, now)), SignedIn)
    else (t, InvalidCredentials)
  }

  function FailAmong(o: Outside, s: State, token: string, pauses: Pauses): (State, Outcome) {
    var counted := Counted(s, token);
    if counted.None? then (s, Failed)
    else if counted.value.challenges[token].attempts >= MAX_CHALLENGE_ATTEMPTS then
      (Dropped(Others(o, counted.value, pauses(AfterChallenge)), token), Exhausted)
    else (counted.value, WrongCode)
  }

  // ---------------------------------------------------------------------------
  // The request handlers
  // ---------------------------------------------------------------------------

  class AuthStore {
    var users: map<string, User>
    var challenges: map<string, Challenge>
    var openings: map<string, Opening>
    var started: seq<Start>

    function Current(): State
      reads this
    {
      State(users, challenges, openings, started)
    }

    constructor (rows: map<string, User>)
      ensures Current() == State(rows, map[], map[], [])
    {
      users, challenges, openings, started := rows, map[], map[], [];
    }

    method StartSession(userId: string, challenge: Option<string>, factor: Factor, now: int)
      modifies this`started
      ensures Current() == WithStart(old(Current()), Start(userId, challenge, factor, now))
    {
      started := started + [Start(userId, challenge, factor, now)];
    }

    /** Whatever others do while a request waits for its next statement. */
    method OthersRun(o: Outside, es: seq<Statement>)
      modifies this
      ensures Current() == Others(o, old(Current()), es)
    {
      for i := 0 to |es|
        invariant Current() == Others(o, old(Current()), es[..i])
      {
        assert es[..i + 1][..i] == es[..i];
        var t := Executed(o, Current(), es[i]);
        users, challenges, openings, started := t.users, t.challenges, t.openings, t.started;
      }
      assert es[..|es|] == es;
    }

    /** `createTwoFactorChallenge`: the user's challenges that are there when it deletes go when it commits. */
    method StartChallenge(o: Outside, userId: string, token: string, now: int, pauses: Pauses)
      returns (outcome: Outcome)
      modifies this
      ensures (Current(), outcome) == ChallengeAmong(o, old(Current()), userId, token, now, pauses)
    {
      var seen := set t | t in challenges && challenges[t].userId == userId;
      OthersRun(o, pauses(AfterSweep));
      if userId !in users {
        return Failed;
      }
      challenges := challenges - (seen * ChallengesOf(Current(), userId));
      challenges := challenges[token := Challenge(userId, 0, now + TWO_FACTOR_TTL_MS)];
      openings := openings[token := Opening(userId, now)];
      outcome := Challenged;
    }

    method SignInAction(
        o: Outside, userId: Option<string>, passwordOk: bool, token: string, now: int, pauses: Pauses)
      returns (outcome: Outcome)
      modifies this
      ensures (Current(), outcome) == PasswordAmong(o, old(Current()), userId, passwordOk, token, now, pauses)
    {
      if userId.None? || userId.value !in users {
        return InvalidCredentials;
      }
      if !passwordOk {
        return InvalidCredentials;
      }
      OthersRun(o, pauses(AfterLookup));
      var challenged := userId.value in users && TwoFactorIsOn(users[userId.value]);
      OthersRun(o, pauses(AfterAccount));
      if challenged {
        outcome := StartChallenge(o, userId.value, token, now, pauses);
        return;
      }
      if userId.value !in users {
        return Failed;
      }
      StartSession(userId.value, None, PasswordOnly, now);
      outcome := SignedIn;
    }

    method DeleteChallenge(token: string)
      modifies this`challenges
      ensures Current() == Dropped(old(Current()), token)
    {
      challenges := challenges - {token};
    }

    /** Throws when the account is gone. */
    method RecordStep(userId: string, step: int) returns (ok: bool)
      modifies this`users
      ensures ok == Recorded(old(Current()), userId, step).Some?
      ensures Current() == Recorded(old(Current()), userId, step).GetOr(old(Current()))
    {
      if userId !in users {
        return false;
      }
      users := users[userId := users[userId].(lastStep := Some(step))];
      ok := true;
    }

    /**
     Spends a recovery code, and says whether it was an unused one: reads the list, then writes it
     back under a condition.
     */
    method ConsumeRecoveryCodeHash(o: Outside, userId: string, hash: string, pauses: Pauses) returns (won: bool)
      modifies this
      ensures (Current(), won) == ConsumeAmong(o, old(Current()), userId, hash, pauses)
    {
      if userId !in users {
        return false;
      }
      var stored := users[userId].recovery;
      if hash !in stored {
        return false;
      }
      OthersRun(o, pauses(AfterList));
      if userId !in users || hash !in users[userId].recovery {
        return false;
      }
      users := users[userId := users[userId].(recovery := Without(stored, hash))];
      won := true;
    }

    /** Counts a wrong code; the fifth deletes the challenge. Throws when the challenge is gone. */
    method FailChallenge(o: Outside, token: string, pauses: Pauses) returns (outcome: Outcome)
      modifies this
      ensures (Current(), outcome) == FailAmong(o, old(Current()), token, pauses)
    {
      if token !in challenges {
        return Failed;
      }
      var attempts := challenges[token].attempts + 1;
      challenges := challenges[token := challenges[token].(attempts := attempts)];
      if attempts >= MAX_CHALLENGE_ATTEMPTS {
        OthersRun(o, pauses(AfterChallenge));
        DeleteChallenge(token);
        return Exhausted;
      }
      outcome := WrongCode;
    }

    /** The end of a request whose code was right: the challenge goes, the account is read again, the session starts. */
    method Pass(o: Outside, token: string, userId: string, factor: Factor, now: int, pauses: Pauses)
      returns (outcome: Outcome)
      modifies this
      ensures (Current(), outcome) == PassAmong(o, old(Current()), token, userId, factor, now, pauses)
    {
      DeleteChallenge(token);
      OthersRun(o, pauses(AfterChallenge));
      if userId !in users {
        return InvalidCredentials;
      }
      StartSession(userId, Some(token), factor, now);
      outcome := SignedIn;
    }

    method AnswerChallenge(o: Outside, token: string, userId: string, submitted: string, now: int, pauses: Pauses)
      returns (outcome: Outcome)
      modifies this
      ensures (Current(), outcome) == AnswerAmong(o, old(Current()), token, userId, submitted, now, pauses)
    {
      if userId !in users || users[userId].secret.None? || !users[userId].confirmed {
        OthersRun(o, pauses(AfterAccount));
        outcome := Pass(o, token, userId, PasswordOnly, now, pauses);
        return;
      }
      var user := users[userId];
      var entered := o.trim(submitted);
      var hash := o.recoveryHash(entered);
      if hash.Some? {
        OthersRun(o, pauses(AfterAccount));
        var sheet := SheetOf(Current(), userId);
        var won := ConsumeRecoveryCodeHash(o, userId, hash.value, pauses);
        OthersRun(o, pauses(AfterFactor));
        if won {
          outcome := Pass(o, token, userId, Code(userId, sheet, hash.value), now, pauses);
          return;
        }
        outcome := FailChallenge(o, token, pauses);
        return;
      }
      var verdict := Judge(o.codes(user.secret.value), entered, now, user.lastStep);
      if verdict.Err? {
        return Failed;
      }
      OthersRun(o, pauses(AfterAccount));
      if !verdict.value.Accepted? {
        outcome := FailChallenge(o, token, pauses);
        return;
      }
      var ok := RecordStep(userId, verdict.value.step);
      if !ok {
        return Failed;
      }
      OthersRun(o, pauses(AfterFactor));
      outcome := Pass(o, token, userId, Step(userId, user.keys, verdict.value.step), now, pauses);
    }

    method VerifyTwoFactorAction(
        o: Outside, token: string, tenantId: string, submitted: string, now: int, pauses: Pauses)
      returns (outcome: Outcome)
      modifies this
      ensures (Current(), outcome) == CodeAmong(o, old(Current()), token, tenantId, submitted, now, pauses)
    {
      if token !in challenges {
        return BackToPassword;
      }
      var c := challenges[token];
      if !(c.expiresAt > now && c.userId in users && users[c.userId].tenantId == tenantId) {
        return BackToPassword;
      }
      OthersRun(o, pauses(AfterLookup));
      outcome := AnswerChallenge(o, token, c.userId, submitted, now, pauses);
    }
  }
}
