/** Session rows (src/lib/db/sessions.ts) and the rolling refresh (src/lib/auth/session.ts). */
module Sessions {
  // An idle window that use pushes out, and an absolute cap that nothing moves.

  import opened Prelude

  const MINUTE_MS := 60_000
  const SESSION_IDLE_TTL_MS := 60 * MINUTE_MS
  const SESSION_ABSOLUTE_TTL_MS := 12 * 60 * MINUTE_MS
  const SESSION_REFRESH_AFTER_MS := 5 * MINUTE_MS

  datatype Session = Session(userId: string, tenantId: string, createdAt: int, expiresAt: int)

  /** Rows by token hash, which is unique. */
  type Table = map<string, Session>

  // ---------------------------------------------------------------------------
  // One row
  // ---------------------------------------------------------------------------

  /** Both clocks of the WHERE clause. */
  predicate IsLive(s: Session, now: int) {
    s.expiresAt > now && s.createdAt > now - SESSION_ABSOLUTE_TTL_MS
  }

  /** The row after an authenticated request: rewritten only once five minutes of it are used up. */
  function Used(s: Session, now: int): Session {
    if s.expiresAt - now < SESSION_IDLE_TTL_MS - SESSION_REFRESH_AFTER_MS
    then s.(expiresAt := now + SESSION_IDLE_TTL_MS) else s
  }

  function Found(t: Table, token: string, tenantId: string, now: int): Option<Session> {
    if token in t && IsLive(t[token], now) && t[token].tenantId == tenantId then Some(t[token]) else None
  }

  // ---------------------------------------------------------------------------
  // The table
  // ---------------------------------------------------------------------------

  class SessionTable {
    var rows: Table

    constructor ()
      ensures rows == map[]
    {
      rows := map[];
    }

    /** `createSession`; false when the unique index on the token hash refuses. */
    method StartSession(userId: string, tenantId: string, token: string, now: int) returns (ok: bool)
      modifies this
      ensures rows == Step(old(rows), Start(userId, tenantId, token, now))
      ensures ok == (token !in old(rows))
    {
      ok := token !in rows;
      if ok {
        rows := rows[token := Session(userId, tenantId, now, now + SESSION_IDLE_TTL_MS)];
      }
    }

    method FindSession(token: string, tenantId: string, now: int) returns (r: Option<Session>)
      ensures r == Found(rows, token, tenantId, now)
    {
      if token !in rows {
        return None;
      }
      var row := rows[token];
      if row.expiresAt > now && row.createdAt > now - SESSION_ABSOLUTE_TTL_MS && row.tenantId == tenantId {
        return Some(row);
      }
      r := None;
    }

    /** Throws when the row is gone. */
    method TouchSession(token: string, expiresAt: int) returns (ok: bool)
      modifies this
      ensures ok == (token in old(rows))
      ensures rows == if ok then old(rows)[token := old(rows)[token].(expiresAt := expiresAt)] else old(rows)
    {
      ok := token in rows;
      if ok {
        rows := rows[token := rows[token].(expiresAt := expiresAt)];
      }
    }

    /**
     Looks the session up and rolls its idle window: a query at `now`, the clock read again at `later`,
     and the write, before which others have done `meanwhile`.
     */
    method GetSession(token: string, tenantId: string, now: int, later: int, meanwhile: seq<Event>) returns (r: Reply)
      modifies this
      ensures (rows, r) == RequestAmong(old(rows), token, tenantId, now, later, meanwhile)
    {
      var record := FindSession(token, tenantId, now);
      if record.None? {
        return Nobody;
      }
      var remaining := record.value.expiresAt - later;
      if remaining < SESSION_IDLE_TTL_MS - SESSION_REFRESH_AFTER_MS {
        rows := After(rows, meanwhile);
        var ok := TouchSession(token, later + SESSION_IDLE_TTL_MS);
        if !ok {
          return Failed;
        }
      }
      r := SignedIn(record.value);
    }

    method EndSession(token: string, now: int)
      modifies this
      ensures rows == Step(old(rows), End(token, now))
    {
      rows := rows - {token};
    }

    method DeleteOtherUserSessions(userId: string, keep: Option<string>, now: int) returns (count: nat)
      modifies this
      ensures rows == Step(old(rows), EndOthers(userId, keep, now))
      ensures count == |old(rows)| - |rows|
    {
      var before := rows;
      var gone := set token | token in rows && rows[token].userId == userId && Some(token) != keep;
      rows := rows - gone;
      assert before.Keys == rows.Keys + gone;
      count := |gone|;
    }

    method PruneExpiredSessions(now: int) returns (count: nat)
      modifies this
      ensures rows == Step(old(rows), Prune(now))
      ensures count == |old(rows)| - |rows|
    {
      var before := rows;
      var gone := set token | token in rows
        && (rows[token].expiresAt <= now || rows[token].createdAt <= now - SESSION_ABSOLUTE_TTL_MS);
      rows := rows - gone;
      assert before.Keys == rows.Keys + gone;
      count := |gone|;
    }
  }

  // ---------------------------------------------------------------------------
  // Runs
  // ---------------------------------------------------------------------------

  datatype Event =
    | Start(userId: string, tenantId: string, token: string, at: int)
    | Request(token: string, tenantId: string, at: int)
    | End(token: string, at: int)
    | EndOthers(userId: string, keep: Option<string>, at: int)
    | Prune(at: int)

  function Step(t: Table, e: Event): Table {
    match e
    case Start(userId, tenantId, token, at) =>
      if token in t then t else t[token := Session(userId, tenantId, at, at + SESSION_IDLE_TTL_MS)]
    case Request(token, tenantId, at) =>
      if Found(t, token, tenantId, at).Some? then t[token := Used(t[token], at)] else t
    case End(token, _) => t - {token}
    case EndOthers(userId, keep, _) =>
      map token | token in t && (t[token].userId != userId || Some(token) == keep) :: t[token]
    case Prune(at) => map token | token in t && IsLive(t[token], at) :: t[token]
  }

  function After(t: Table, es: seq<Event>): Table
    decreases es
  {
    if es == [] then t else After(Step(t, es[0]), es[1..])
  }

  /** What a request sees: the session it is authenticated as, or nobody. */
  function Answer(t: Table, e: Event): seq<Option<(string, string)>> {
    if e.Request? then
      var s := Found(t, e.token, e.tenantId, e.at);
      [if s.Some? then Some((s.value.userId, s.value.tenantId)) else None]
    else []
  }

  function Answers(t: Table, es: seq<Event>): seq<Option<(string, string)>>
    decreases es
  {
    if es == [] then [] else Answer(t, es[0]) + Answers(Step(t, es[0]), es[1..])
  }

  ghost predicate Monotone(es: seq<Event>, from: int) {
    es == [] || (from <= es[0].at && Monotone(es[1..], es[0].at))
  }

  // ---------------------------------------------------------------------------
  // The sweep
  // ---------------------------------------------------------------------------

  /** A sweep removes exactly the rows no request of any tenant could be answered from. */
  lemma PruneRemovesTheDead(t: Table, token: string, at: int)
    requires token in t
    ensures token !in Step(t, Prune(at)) <==> forall tenantId :: Found(t, token, tenantId, at).None?
    ensures token in Step(t, Prune(at)) ==> Step(t, Prune(at))[token] == t[token]
  {
    if token !in Step(t, Prune(at)) {
      assert !IsLive(t[token], at);
    } else {
      assert Found(t, token, t[token].tenantId, at).Some?;
    }
  }

  predicate Holds(t: Table, token: string, now: int) {
    token in t && IsLive(t[token], now)
  }

  ghost predicate SameLive(t: Table, u: Table, now: int) {
    forall token :: Holds(t, token, now) || Holds(u, token, now) ==>
      Holds(t, token, now) && Holds(u, token, now) && t[token] == u[token]
  }

  function WithoutPrunes(es: seq<Event>): seq<Event> {
    if es == [] then []
    else if es[0].Prune? then WithoutPrunes(es[1..])
    else [es[0]] + WithoutPrunes(es[1..])
  }

  /** A token is issued once: no run starts a session under a token it has issued before. */
  ghost predicate IssuesFreshTokens(es: seq<Event>, used: set<string>) {
    es == [] ||
    (if es[0].Start? then es[0].token !in used && IssuesFreshTokens(es[1..], used + {es[0].token})
     else IssuesFreshTokens(es[1..], used))
  }

  lemma SameLiveStep(t: Table, u: Table, e: Event, now: int)
    requires SameLive(t, u, now) && now <= e.at
    requires e.Start? ==> e.token !in t && e.token !in u
    ensures !e.Prune? ==> SameLive(Step(t, e), Step(u, e), e.at) && Answer(t, e) == Answer(u, e)
    ensures e.Prune? ==> SameLive(Step(t, e), u, e.at)
  {
    forall token
      ensures Holds(t, token, e.at) == Holds(u, token, e.at)
      ensures Holds(t, token, e.at) ==> t[token] == u[token]
    {
      assert Holds(t, token, e.at) ==> Holds(t, token, now);
      assert Holds(u, token, e.at) ==> Holds(u, token, now);
    }
  }

  lemma {:induction false} RunsAgree(t: Table, u: Table, es: seq<Event>, used: set<string>, now: int)
    requires SameLive(t, u, now) && Monotone(es, now)
    requires t.Keys <= used && u.Keys <= used && IssuesFreshTokens(es, used)
    ensures Answers(t, es) == Answers(u, WithoutPrunes(es))
    decreases es
  {
    if es != [] {
      var e, rest := es[0], WithoutPrunes(es[1..]);
      SameLiveStep(t, u, e, now);
      var used' := if e.Start? then used + {e.token} else used;
      assert Step(t, e).Keys <= used' && Step(u, e).Keys <= used';
      if e.Prune? {
        RunsAgree(Step(t, e), u, es[1..], used', e.at);
      } else {
        RunsAgree(Step(t, e), Step(u, e), es[1..], used', e.at);
        assert ([e] + rest)[1..] == rest;
      }
    }
  }

  /** Two runs that differ only in when the sweep ran authenticate the same requests alike. */
  lemma PruneIsUnobservable(t: Table, swept: seq<Event>, unswept: seq<Event>, from: int)
    requires Monotone(swept, from) && Monotone(unswept, from)
    requires IssuesFreshTokens(swept, t.Keys) && IssuesFreshTokens(unswept, t.Keys)
    requires WithoutPrunes(swept) == WithoutPrunes(unswept)
    ensures Answers(t, swept) == Answers(t, unswept)
  {
    RunsAgree(t, t, swept, t.Keys, from);
    RunsAgree(t, t, unswept, t.Keys, from);
  }

  // ---------------------------------------------------------------------------
  // The life of one session
  // ---------------------------------------------------------------------------

  /** Nobody ends the session or issues its token again; sweeps may run, other sessions may do anything. */
  ghost predicate LeftAlone(es: seq<Event>, token: string, userId: string) {
    forall e :: e in es ==>
      && !((e.Start? || e.End?) && e.token == token)
      && !(e.EndOthers? && e.userId == userId && e.keep != Some(token))
  }

  predicate IsUse(e: Event, token: string, tenantId: string) {
    e == Request(token, tenantId, e.at)
  }

  /** The state of a session opened at `createdAt` and last authenticated at `lastUse`. */
  ghost predicate Tracks(t: Table, token: string, userId: string, tenantId: string, createdAt: int, lastUse: int) {
    token in t ==>
      && t[token].userId == userId && t[token].tenantId == tenantId && t[token].createdAt == createdAt
      && lastUse + SESSION_IDLE_TTL_MS - SESSION_REFRESH_AFTER_MS <= t[token].expiresAt
                                                                  <= lastUse + SESSION_IDLE_TTL_MS
  }

  function NextUse(t: Table, e: Event, token: string, lastUse: int): int {
    if e.Request? && e.token == token && Found(t, token, e.tenantId, e.at).Some? then e.at else lastUse
  }

  /** When the session was last authenticated, after a run. */
  function LastUse(t: Table, es: seq<Event>, token: string, lastUse: int): int
    decreases es
  {
    if es == [] then lastUse else LastUse(Step(t, es[0]), es[1..], token, NextUse(t, es[0], token, lastUse))
  }

  lemma TracksStep(t: Table, e: Event, token: string, userId: string, tenantId: string, createdAt: int, lastUse: int)
    requires Tracks(t, token, userId, tenantId, createdAt, lastUse)
    requires LeftAlone([e], token, userId) && lastUse <= e.at
    ensures Tracks(Step(t, e), token, userId, tenantId, createdAt, NextUse(t, e, token, lastUse))
    ensures token in Step(t, e) <==> token in t && (e.Prune? ==> IsLive(t[token], e.at))
  {
    assert e in [e];
  }

  lemma LeftAloneSplit(es: seq<Event>, token: string, userId: string)
    requires LeftAlone(es, token, userId) && es != []
    ensures LeftAlone([es[0]], token, userId) && LeftAlone(es[1..], token, userId)
  {
    assert es[0] in es;
  }

  /**
   Over every run the expiry stays between 55 and 60 minutes past the last authenticated
   request, and the creation time never moves.
   */
  lemma {:induction false} ExpiryTracksUse(
      t: Table, es: seq<Event>, token: string, userId: string, tenantId: string, createdAt: int, lastUse: int, now: int)
    requires Tracks(t, token, userId, tenantId, createdAt, lastUse)
    requires LeftAlone(es, token, userId) && Monotone(es, now) && lastUse <= now
    ensures Tracks(After(t, es), token, userId, tenantId, createdAt, LastUse(t, es, token, lastUse))
    decreases es
  {
    if es != [] {
      LeftAloneSplit(es, token, userId);
      TracksStep(t, es[0], token, userId, tenantId, createdAt, lastUse);
      ExpiryTracksUse(Step(t, es[0]), es[1..], token, userId, tenantId, createdAt,
                      NextUse(t, es[0], token, lastUse), es[0].at);
    }
  }

  /**
   From the sign-in on, whatever else happens: a request an hour or more after the last
   authenticated one, or twelve hours or more after the sign-in, is nobody's.
   */
  lemma IdleOrOldIsRefused(
      t: Table, es: seq<Event>, token: string, userId: string, tenantId: string, createdAt: int, at: int,
      anyTenant: string)
    requires token !in t && LeftAlone(es, token, userId) && Monotone(es, createdAt)
    ensures var t0 := Step(t, Start(userId, tenantId, token, createdAt));
            at >= LastUse(t0, es, token, createdAt) + 3_600_000 || at >= createdAt + 43_200_000 ==>
              Found(After(t0, es), token, anyTenant, at).None?
  {
    var t0 := Step(t, Start(userId, tenantId, token, createdAt));
    ExpiryTracksUse(t0, es, token, userId, tenantId, createdAt, createdAt, createdAt);
  }

  /** Every use comes less than 55 minutes after the one before, and before the twelve hours are up. */
  ghost predicate SteadyUse(es: seq<Event>, token: string, tenantId: string, createdAt: int, lastUse: int) {
    es == [] ||
    (if IsUse(es[0], token, tenantId) then
       && es[0].at < lastUse + SESSION_IDLE_TTL_MS - SESSION_REFRESH_AFTER_MS
       && es[0].at < createdAt + SESSION_ABSOLUTE_TTL_MS
       && SteadyUse(es[1..], token, tenantId, createdAt, es[0].at)
     else SteadyUse(es[1..], token, tenantId, createdAt, lastUse))
  }

  ghost predicate EveryUseAnswered(t: Table, es: seq<Event>, token: string, tenantId: string)
    decreases es
  {
    es != [] ==>
      && (IsUse(es[0], token, tenantId) ==> Found(t, token, tenantId, es[0].at).Some?)
      && EveryUseAnswered(Step(t, es[0]), es[1..], token, tenantId)
  }

  lemma {:induction false} SteadyStep(
      t: Table, es: seq<Event>, token: string, userId: string, tenantId: string, createdAt: int, lastUse: int, now: int)
    requires Tracks(t, token, userId, tenantId, createdAt, lastUse)
    requires LeftAlone(es, token, userId) && Monotone(es, now) && lastUse <= now
    requires SteadyUse(es, token, tenantId, createdAt, lastUse)
    requires || token in t
             || now >= lastUse + SESSION_IDLE_TTL_MS - SESSION_REFRESH_AFTER_MS
             || now >= createdAt + SESSION_ABSOLUTE_TTL_MS
    ensures EveryUseAnswered(t, es, token, tenantId)
    decreases es
  {
    if es != [] {
      LeftAloneSplit(es, token, userId);
      TracksStep(t, es[0], token, userId, tenantId, createdAt, lastUse);
      SteadyStep(Step(t, es[0]), es[1..], token, userId, tenantId, createdAt,
                 NextUse(t, es[0], token, lastUse), es[0].at);
    }
  }

  /** A session used at gaps below 55 minutes is never lost before the twelve-hour cap. */
  lemma SteadyUseSurvives(t: Table, es: seq<Event>, token: string, userId: string, tenantId: string, createdAt: int)
    requires token !in t && LeftAlone(es, token, userId) && Monotone(es, createdAt)
    requires SteadyUse(es, token, tenantId, createdAt, createdAt)
    ensures EveryUseAnswered(Step(t, Start(userId, tenantId, token, createdAt)), es, token, tenantId)
  {
    SteadyStep(Step(t, Start(userId, tenantId, token, createdAt)), es, token, userId, tenantId,
               createdAt, createdAt, createdAt);
  }

  /** Fifty-five minutes is the exact bound: a gap of that length can already be too long. */
  lemma FiftyFiveMinutesCanBeTooLong(userId: string, tenantId: string, token: string)
    ensures var es := [Request(token, tenantId, 5 * MINUTE_MS), Request(token, tenantId, 60 * MINUTE_MS)];
            var user := Some((userId, tenantId));
            Answers(map[], [Start(userId, tenantId, token, 0)] + es) == [user, None]
  {
    var t := Step(map[], Start(userId, tenantId, token, 0));
    var first, second := Request(token, tenantId, 5 * MINUTE_MS), Request(token, tenantId, 60 * MINUTE_MS);
    var run := [Start(userId, tenantId, token, 0)] + [first, second];
    assert run[1..] == [first, second] && [first, second][1..] == [second];
    assert Step(t, first)[token] == t[token];
    assert Answers(Step(t, first), [second]) == [None] + Answers(Step(Step(t, first), second), [second][1..]);
  }

  // ---------------------------------------------------------------------------
  // Writes
  // ---------------------------------------------------------------------------

  /** Whether an event rewrites the row's expiry. */
  predicate Touches(t: Table, e: Event, token: string) {
    token in t && token in Step(t, e) && t[token].expiresAt != Step(t, e)[token].expiresAt
  }

  function TouchCount(t: Table, es: seq<Event>, token: string): nat
    decreases es
  {
    if es == [] then 0
    else (if Touches(t, es[0], token) then 1 else 0) + TouchCount(Step(t, es[0]), es[1..], token)
  }

  /** A rewrite always moves the expiry forward, and by more than five minutes. */
  lemma TouchMovesForward(t: Table, e: Event, token: string)
    requires Touches(t, e, token)
    ensures e.Request? && Step(t, e)[token].expiresAt > t[token].expiresAt + SESSION_REFRESH_AFTER_MS
    ensures e.at < t[token].createdAt + SESSION_ABSOLUTE_TTL_MS
    ensures Step(t, e)[token] == t[token].(expiresAt := e.at + SESSION_IDLE_TTL_MS)
  {
  }

  lemma {:induction false} TouchBudget(t: Table, es: seq<Event>, token: string, userId: string)
    requires LeftAlone(es, token, userId)
    ensures token !in t ==> TouchCount(t, es, token) == 0
    ensures token in t && t[token].userId == userId
            && t[token].expiresAt < t[token].createdAt + SESSION_ABSOLUTE_TTL_MS + SESSION_IDLE_TTL_MS ==>
      (SESSION_REFRESH_AFTER_MS + 1) * TouchCount(t, es, token) + t[token].expiresAt
        < t[token].createdAt + SESSION_ABSOLUTE_TTL_MS + SESSION_IDLE_TTL_MS
    decreases es
  {
    if es != [] {
      LeftAloneSplit(es, token, userId);
      var e := es[0];
      assert e in [e];
      TouchBudget(Step(t, e), es[1..], token, userId);
      if Touches(t, e, token) {
        TouchMovesForward(t, e, token);
      } else if token in t && token in Step(t, e) {
        assert Step(t, e)[token] == t[token];
      }
    }
  }

  /** However busy the session, its row is rewritten fewer than 144 times (12 h / 5 min). */
  lemma FewWrites(t: Table, es: seq<Event>, token: string, userId: string, tenantId: string, createdAt: int)
    requires token !in t && LeftAlone(es, token, userId)
    ensures TouchCount(Step(t, Start(userId, tenantId, token, createdAt)), es, token) < 144
  {
    TouchBudget(Step(t, Start(userId, tenantId, token, createdAt)), es, token, userId);
  }

  // ---------------------------------------------------------------------------
  // A request among others
  // ---------------------------------------------------------------------------

  /** How a request comes out: as somebody, as nobody, or in an error. */
  datatype Reply = SignedIn(session: Session) | Nobody | Failed

  /** The row found is the one judged; the row written is whatever others have made of it by then. */
  function RequestAmong(
      t: Table, token: string, tenantId: string, now: int, later: int, meanwhile: seq<Event>): (Table, Reply)
  {
    var s := Found(t, token, tenantId, now);
    if s.None? then (t, Nobody)
    else if s.value.expiresAt - later < SESSION_IDLE_TTL_MS - SESSION_REFRESH_AFTER_MS then
      var u := After(t, meanwhile);
      if token in u then (u[token := u[token].(expiresAt := later + SESSION_IDLE_TTL_MS)], SignedIn(s.value))
      else (u, Failed)
    else (t, SignedIn(s.value))
  }

  /** With nobody in between, the two statements come to the single step that the laws over runs are about. */
  lemma RequestAloneIsStep(t: Table, token: string, tenantId: string, now: int)
    ensures var r := RequestAmong(t, token, tenantId, now, now, []);
            && r.0 == Step(t, Request(token, tenantId, now))
            && r.1 == match Found(t, token, tenantId, now) case None => Nobody case Some(s) => SignedIn(s)
  {
    if token in t {
      assert t[token := t[token]] == t;
    }
  }

  /** A request fails exactly if it is due to write and its session has been ended, or swept, meanwhile. */
  lemma RequestFailsExactly(t: Table, token: string, tenantId: string, now: int, later: int, meanwhile: seq<Event>)
    ensures RequestAmong(t, token, tenantId, now, later, meanwhile).1.Failed? <==>
            && Found(t, token, tenantId, now).Some?
            && t[token].expiresAt < later + SESSION_IDLE_TTL_MS - SESSION_REFRESH_AFTER_MS
            && token !in After(t, meanwhile)
  {
  }

  /** Others leave the expiry alone, or move it to an hour after one of their own requests. */
  lemma {:induction false} ExpiryMeanwhile(t: Table, es: seq<Event>, token: string, userId: string, now: int)
    requires token in t && t[token].userId == userId && LeftAlone(es, token, userId) && Monotone(es, now)
    requires token in After(t, es)
    ensures var expiresAt := After(t, es)[token].expiresAt;
            expiresAt == t[token].expiresAt || expiresAt >= now + SESSION_IDLE_TTL_MS
    decreases es
  {
    if es != [] {
      LeftAloneSplit(es, token, userId);
      assert es[0] in [es[0]];
      if token in Step(t, es[0]) {
        ExpiryMeanwhile(Step(t, es[0]), es[1..], token, userId, es[0].at);
      } else {
        GoneStaysGone(Step(t, es[0]), es[1..], token, userId);
      }
    }
  }

  lemma {:induction false} GoneStaysGone(t: Table, es: seq<Event>, token: string, userId: string)
    requires token !in t && LeftAlone(es, token, userId)
    ensures token !in After(t, es)
    decreases es
  {
    if es != [] {
      LeftAloneSplit(es, token, userId);
      assert es[0] in [es[0]];
      GoneStaysGone(Step(t, es[0]), es[1..], token, userId);
    }
  }

  /**
   A write that others may have overtaken moves the expiry forward by more than five minutes exactly
   if nobody has written it meanwhile, for pauses of up to five minutes.
   */
  lemma LateTouchExactly(
      t: Table, token: string, tenantId: string, now: int, later: int, meanwhile: seq<Event>, userId: string)
    requires Found(t, token, tenantId, now).Some? && t[token].userId == userId
    requires t[token].expiresAt < later + SESSION_IDLE_TTL_MS - SESSION_REFRESH_AFTER_MS
    requires LeftAlone(meanwhile, token, userId) && Monotone(meanwhile, now)
    requires now <= later <= now + SESSION_REFRESH_AFTER_MS
    requires token in After(t, meanwhile)
    ensures var before := After(t, meanwhile)[token].expiresAt;
            var after := RequestAmong(t, token, tenantId, now, later, meanwhile).0[token].expiresAt;
            after > before + SESSION_REFRESH_AFTER_MS <==> before == t[token].expiresAt
  {
    ExpiryMeanwhile(t, meanwhile, token, userId, now);
  }

  /** Two requests that have both found the session before either writes it: it is written twice within no time. */
  lemma OverlapWritesTwice(t: Table, token: string, tenantId: string, now: int)
    requires Found(t, token, tenantId, now).Some?
    requires t[token].expiresAt < now + SESSION_IDLE_TTL_MS - SESSION_REFRESH_AFTER_MS
    ensures var other := Request(token, tenantId, now);
            && Step(t, other)[token].expiresAt > t[token].expiresAt
            && RequestAmong(t, token, tenantId, now, now, [other]) == (Step(t, other), SignedIn(t[token]))
  {
    var other := Request(token, tenantId, now);
    var u := Step(t, other);
    assert [other][1..] == [];
    assert After(t, [other]) == u;
    assert u[token := u[token].(expiresAt := now + SESSION_IDLE_TTL_MS)] == u;
  }
}
