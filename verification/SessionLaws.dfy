/** Who a session's token is answered for, and until when (src/lib/db/sessions.ts). */
module SessionLaws {
  // Told from the sign-in and the requests alone, in milliseconds: an hour without use is 3 600 000,
  // fifty-five minutes 3 300 000, twelve hours 43 200 000.

  import opened Prelude
  import opened Sessions

  /** The row is still there as long as nothing could have swept it. */
  ghost predicate Kept(t: Table, token: string, createdAt: int, lastUse: int, now: int) {
    token in t || now >= lastUse + 3_300_000 || now >= createdAt + 43_200_000
  }

  lemma {:induction false} KeptUntilDue(
      t: Table, es: seq<Event>, token: string, userId: string, tenantId: string, createdAt: int, lastUse: int, now: int)
    requires Tracks(t, token, userId, tenantId, createdAt, lastUse) && Kept(t, token, createdAt, lastUse, now)
    requires LeftAlone(es, token, userId) && Monotone(es, now) && lastUse <= now
    ensures var end := if es == [] then now else es[|es| - 1].at;
            Kept(After(t, es), token, createdAt, LastUse(t, es, token, lastUse), end)
    decreases es
  {
    if es != [] {
      var e := es[0];
      LeftAloneSplit(es, token, userId);
      TracksStep(t, e, token, userId, tenantId, createdAt, lastUse);
      var use := NextUse(t, e, token, lastUse);
      assert Kept(Step(t, e), token, createdAt, use, e.at);
      KeptUntilDue(Step(t, e), es[1..], token, userId, tenantId, createdAt, use, e.at);
    }
  }

  /**
   A token is answered only to the tenant it was started for, only within the hour after its last
   use and within twelve hours of the sign-in; and always up to fifty-five minutes after that use.
   */
  lemma AnsweredWithinItsHour(
      t: Table, es: seq<Event>, token: string, userId: string, tenantId: string, createdAt: int, asked: string, at: int)
    requires token !in t && LeftAlone(es, token, userId) && Monotone(es + [Request(token, asked, at)], createdAt)
    ensures var t0 := Step(t, Start(userId, tenantId, token, createdAt));
            var answer := Answer(After(t0, es), Request(token, asked, at))[0];
            var used := LastUse(t0, es, token, createdAt);
            && (answer.Some? ==>
                  && answer == Some((userId, tenantId)) && asked == tenantId
                  && at < used + 3_600_000 && at < createdAt + 43_200_000)
            && (asked == tenantId && at < used + 3_300_000 && at < createdAt + 43_200_000 ==> answer.Some?)
  {
    var t0 := Step(t, Start(userId, tenantId, token, createdAt));
    EndsBy(es, Request(token, asked, at), createdAt);
    ExpiryTracksUse(t0, es, token, userId, tenantId, createdAt, createdAt, createdAt);
    KeptUntilDue(t0, es, token, userId, tenantId, createdAt, createdAt, createdAt);
  }

  lemma {:induction false} EndsBy(es: seq<Event>, last: Event, from: int)
    requires Monotone(es + [last], from)
    ensures Monotone(es, from) && (if es == [] then from else es[|es| - 1].at) <= last.at
    decreases es
  {
    if es == [] {
      assert (es + [last])[0] == last;
    } else {
      assert (es + [last])[1..] == es[1..] + [last];
      EndsBy(es[1..], last, es[0].at);
    }
  }

  /** The last answer of a run is the answer to its last request. */
  lemma {:induction false} AnswersSnoc(t: Table, es: seq<Event>, e: Event)
    ensures Answers(t, es + [e]) == Answers(t, es) + Answer(After(t, es), e)
    decreases es
  {
    if es == [] {
      assert [] + [e] == [e] && [e][1..] == [];
    } else {
      assert (es + [e])[1..] == es[1..] + [e];
      AnswersSnoc(Step(t, es[0]), es[1..], e);
    }
  }

  /** Writes are counted one by one. */
  lemma {:induction false} TouchCountSnoc(t: Table, es: seq<Event>, e: Event, token: string)
    ensures TouchCount(t, es + [e], token) ==
            TouchCount(t, es, token) + if Touches(After(t, es), e, token) then 1 else 0
    decreases es
  {
    if es == [] {
      assert [] + [e] == [e] && [e][1..] == [];
    } else {
      assert (es + [e])[1..] == es[1..] + [e];
      TouchCountSnoc(Step(t, es[0]), es[1..], e, token);
    }
  }

  // ---------------------------------------------------------------------------
  // Signing out
  // ---------------------------------------------------------------------------

  ghost predicate NotIssued(es: seq<Event>, token: string) {
    forall e :: e in es ==> !(e.Start? && e.token == token)
  }

  /** Two tables hold the same under one token. */
  predicate AgreeOn(t: Table, u: Table, token: string) {
    (token in t <==> token in u) && (token in t ==> t[token] == u[token])
  }

  /** What becomes of a token depends on its own row only. */
  lemma {:induction false} TokensAreApart(t: Table, u: Table, es: seq<Event>, token: string)
    requires AgreeOn(t, u, token)
    ensures AgreeOn(After(t, es), After(u, es), token)
    decreases es
  {
    if es != [] {
      assert AgreeOn(Step(t, es[0]), Step(u, es[0]), token);
      TokensAreApart(Step(t, es[0]), Step(u, es[0]), es[1..], token);
    }
  }

  lemma {:induction false} UnissuedStaysGone(t: Table, es: seq<Event>, token: string)
    requires token !in t && NotIssued(es, token)
    ensures token !in After(t, es)
    decreases es
  {
    if es != [] {
      assert es[0] in es;
      UnissuedStaysGone(Step(t, es[0]), es[1..], token);
    }
  }

  /** Ending a session: no request with its token is ever answered again, all others as if nothing had happened. */
  lemma EndedForGood(t: Table, ended: string, at: int, es: seq<Event>, token: string, tenantId: string, later: int)
    requires NotIssued(es, token)
    ensures var after := Answer(After(Step(t, End(ended, at)), es), Request(token, tenantId, later));
            after == if token == ended then [None] else Answer(After(t, es), Request(token, tenantId, later))
  {
    if token == ended {
      UnissuedStaysGone(Step(t, End(ended, at)), es, token);
    } else {
      TokensAreApart(Step(t, End(ended, at)), t, es, token);
    }
  }

  /**
   Signing out everywhere else: every token the user had, but the one kept, is nobody's from then on,
   and whoever else's token, and the one kept, is answered as if nothing had happened.
   */
  lemma EndedElsewhere(
      t: Table, userId: string, keep: Option<string>, at: int, es: seq<Event>, token: string, tenantId: string,
      later: int)
    requires NotIssued(es, token)
    ensures var after := Answer(After(Step(t, EndOthers(userId, keep, at)), es), Request(token, tenantId, later));
            after == if token in t && t[token].userId == userId && keep != Some(token) then [None]
                     else Answer(After(t, es), Request(token, tenantId, later))
  {
    var t' := Step(t, EndOthers(userId, keep, at));
    if token in t && t[token].userId == userId && keep != Some(token) {
      UnissuedStaysGone(t', es, token);
    } else {
      assert AgreeOn(t', t, token);
      TokensAreApart(t', t, es, token);
    }
  }
}
