/**
 Password-reset links (src/lib/db/reset-tokens.ts and the reset actions of src/app/(auth)/actions.ts):
 finding and redeeming are two steps with a slow hash in between, during which anything may happen,
 and so may it between a new link's deletion of the older ones and its commit.
 */
module ResetTokens {
  import opened Prelude

  datatype Token = Token(userId: string, tokenHash: string, expiresAt: int, used: bool)

  datatype User = User(tenantId: string, passwordHash: string)

  /** Token and session ids are positions: new rows come at the end, deleted ones leave a gap. */
  datatype State = State(
    users: map<string, User>,
    tokens: seq<Option<Token>>,
    sessions: seq<Option<string>>)

  predicate Live(s: State, id: nat) {
    id < |s.tokens| && s.tokens[id].Some?
  }

  predicate Unused(s: State, id: nat) {
    Live(s, id) && !s.tokens[id].value.used
  }

  // ---------------------------------------------------------------------------
  // Transactions
  // ---------------------------------------------------------------------------

  /**
   A transaction that creates a link commits: the user's unused tokens among the first `seen`, those
   that were there when it deleted, are gone, and the new one is there. Nothing when the account is gone.
   */
  function CreateLink(s: State, userId: string, tokenHash: string, expiresAt: int, seen: nat): State {
    if userId !in s.users then s
    else s.(tokens := WithoutUnused(s.tokens, userId, seen) + [Some(Token(userId, tokenHash, expiresAt, false))])
  }

  function WithoutUnused(tokens: seq<Option<Token>>, userId: string, seen: nat): (r: seq<Option<Token>>)
    ensures |r| == |tokens|
  {
    seq(|tokens|, i requires 0 <= i < |tokens| =>
      if i < seen && tokens[i].Some? && tokens[i].value.userId == userId && !tokens[i].value.used
      then None else tokens[i])
  }

  /** Whether a token is the one a link names, still valid and of this tenant. */
  predicate Valid(s: State, id: nat, tokenHash: string, tenantId: string, now: int) {
    && Unused(s, id)
    && s.tokens[id].value.tokenHash == tokenHash
    && s.tokens[id].value.expiresAt > now
    && s.tokens[id].value.userId in s.users && s.users[s.tokens[id].value.userId].tenantId == tenantId
  }

  function FindFrom(s: State, from: nat, tokenHash: string, tenantId: string, now: int): (id: Option<nat>)
    ensures id.Some? ==> Valid(s, id.value, tokenHash, tenantId, now)
    decreases |s.tokens| - from
  {
    if from >= |s.tokens| then None
    else if Valid(s, from, tokenHash, tenantId, now) then Some(from)
    else FindFrom(s, from + 1, tokenHash, tenantId, now)
  }

  function FindValid(s: State, tokenHash: string, tenantId: string, now: int): (id: Option<nat>)
    ensures id.Some? ==> Valid(s, id.value, tokenHash, tenantId, now)
  {
    FindFrom(s, 0, tokenHash, tenantId, now)
  }

  function WithoutSessions(sessions: seq<Option<string>>, userId: string): (r: seq<Option<string>>)
    ensures |r| == |sessions|
  {
    seq(|sessions|, i requires 0 <= i < |sessions| => if sessions[i] == Some(userId) then None else sessions[i])
  }

  /** Claim the token, set the password, revoke every session; nothing at all when the token is gone or used. */
  function Redeem(s: State, id: nat, userId: string, passwordHash: string): (State, bool) {
    if !Unused(s, id) || userId !in s.users then (s, false)
    else
      (State(s.users[userId := s.users[userId].(passwordHash := passwordHash)],
             s.tokens[id := Some(s.tokens[id].value.(used := true))],
             WithoutSessions(s.sessions, userId)),
       true)
  }

  // ---------------------------------------------------------------------------
  // Everybody else
  // ---------------------------------------------------------------------------

  datatype Other =
    | NewLink(userId: string, tokenHash: string, expiresAt: int, seen: nat)
    | SignIn(userId: string)
    | SignOut(session: nat)
    | NewPassword(userId: string, passwordHash: string)
    | CloseAccount(userId: string)

  /** Deleting an account takes its tokens and sessions with it. */
  function Closed(s: State, userId: string): State {
    State(s.users - {userId}, WithoutTokens(s.tokens, userId), WithoutSessions(s.sessions, userId))
  }

  function WithoutTokens(tokens: seq<Option<Token>>, userId: string): (r: seq<Option<Token>>)
    ensures |r| == |tokens|
  {
    seq(|tokens|, i requires 0 <= i < |tokens| =>
      if tokens[i].Some? && tokens[i].value.userId == userId then None else tokens[i])
  }

  function OtherStep(s: State, e: Other): State {
    match e
    case NewLink(userId, tokenHash, expiresAt, seen) => CreateLink(s, userId, tokenHash, expiresAt, seen)
    case SignIn(userId) => if userId in s.users then s.(sessions := s.sessions + [Some(userId)]) else s
    case SignOut(session) => if session < |s.sessions| then s.(sessions := s.sessions[session := None]) else s
    case NewPassword(userId, passwordHash) =>
      if userId in s.users then s.(users := s.users[userId := s.users[userId].(passwordHash := passwordHash)]) else s
    case CloseAccount(userId) => Closed(s, userId)
  }

  function Others(s: State, es: seq<Other>): State {
    if es == [] then s else OtherStep(Others(s, es[..|es| - 1]), es[|es| - 1])
  }

  // ---------------------------------------------------------------------------
  // The code
  // ---------------------------------------------------------------------------

  /** A creation with others running between its deletion and its commit. */
  function Created(s: State, userId: string, tokenHash: string, expiresAt: int, meanwhile: seq<Other>): State {
    CreateLink(Others(s, meanwhile), userId, tokenHash, expiresAt, |s.tokens|)
  }

  /** The whole action, with others running while the new password is hashed. */
  function Completed(
      s: State, tokenHash: string, tenantId: string, now: int, passwordHash: string, meanwhile: seq<Other>)
    : (State, bool)
  {
    var id := FindValid(s, tokenHash, tenantId, now);
    if id.None? then (s, false)
    else Redeem(Others(s, meanwhile), id.value, s.tokens[id.value].value.userId, passwordHash)
  }

  class ResetStore {
    var users: map<string, User>
    var tokens: seq<Option<Token>>
    var sessions: seq<Option<string>>

    ghost function Current(): State
      reads this
    {
      State(users, tokens, sessions)
    }

    constructor (initial: State)
      ensures Current() == initial
    {
      users, tokens, sessions := initial.users, initial.tokens, initial.sessions;
    }

    method CommitLink(userId: string, tokenHash: string, expiresAt: int, seen: nat)
      modifies this`tokens
      ensures Current() == CreateLink(old(Current()), userId, tokenHash, expiresAt, seen)
    {
      if userId !in users {
        return;
      }
      tokens := WithoutUnused(tokens, userId, seen);
      tokens := tokens + [Some(Token(userId, tokenHash, expiresAt, false))];
    }

    /** The deletion sees the tokens there are; both statements take effect when the transaction commits. */
    method CreateResetToken(userId: string, tokenHash: string, expiresAt: int, meanwhile: seq<Other>)
      modifies this
      ensures Current() == Created(old(Current()), userId, tokenHash, expiresAt, meanwhile)
    {
      var seen := |tokens|;
      OthersRun(meanwhile);
      CommitLink(userId, tokenHash, expiresAt, seen);
    }

    method FindValidResetToken(tokenHash: string, tenantId: string, now: int) returns (id: Option<nat>)
      ensures id == FindValid(Current(), tokenHash, tenantId, now)
    {
      var i := 0;
      while i < |tokens|
        invariant i <= |tokens|
        invariant FindValid(Current(), tokenHash, tenantId, now) == FindFrom(Current(), i, tokenHash, tenantId, now)
      {
        if tokens[i].Some? {
          var t := tokens[i].value;
          if !t.used && t.tokenHash == tokenHash && t.expiresAt > now && t.userId in users
              && users[t.userId].tenantId == tenantId {
            return Some(i);
          }
        }
        i := i + 1;
      }
      id := None;
    }

    /** One transaction: rolled back as a whole when the user is gone. */
    method RedeemResetToken(id: nat, userId: string, passwordHash: string) returns (ok: bool)
      modifies this
      ensures (Current(), ok) == Redeem(old(Current()), id, userId, passwordHash)
    {
      var count := 0;
      if id < |tokens| && tokens[id].Some? && !tokens[id].value.used {
        count := 1;
      }
      if count == 0 || userId !in users {
        return false;
      }
      tokens := tokens[id := Some(tokens[id].value.(used := true))];
      users := users[userId := users[userId].(passwordHash := passwordHash)];
      sessions := WithoutSessions(sessions, userId);
      ok := true;
    }

    method OthersRun(es: seq<Other>)
      modifies this
      ensures Current() == Others(old(Current()), es)
    {
      for i := 0 to |es|
        invariant Current() == Others(old(Current()), es[..i])
      {
        assert es[..i + 1][..i] == es[..i];
        match es[i]
        case NewLink(userId, tokenHash, expiresAt, seen) =>
          CommitLink(userId, tokenHash, expiresAt, seen);
        case SignIn(userId) =>
          if userId in users {
            sessions := sessions + [Some(userId)];
          }
        case SignOut(session) =>
          if session < |sessions| {
            sessions := sessions[session := None];
          }
        case NewPassword(userId, passwordHash) =>
          if userId in users {
            users := users[userId := users[userId].(passwordHash := passwordHash)];
          }
        case CloseAccount(userId) =>
          users := users - {userId};
          tokens := WithoutTokens(tokens, userId);
          sessions := WithoutSessions(sessions, userId);
      }
      assert es[..|es|] == es;
    }

    method CompleteResetAction(
        tokenHash: string, tenantId: string, now: int, passwordHash: string, meanwhile: seq<Other>)
      returns (ok: bool)
      modifies this
      ensures (Current(), ok) == Completed(old(Current()), tokenHash, tenantId, now, passwordHash, meanwhile)
    {
      var id := FindValidResetToken(tokenHash, tenantId, now);
      if id.None? {
        return false;
      }
      var userId := tokens[id.value].value.userId;
      OthersRun(meanwhile);
      ok := RedeemResetToken(id.value, userId, passwordHash);
    }
  }
}
