/** What any interleaving of redemptions, new links, sign-ins and password changes keeps. */
module ResetTokenLaws {
  import opened Prelude
  import opened ResetTokens

  /** Somebody completing a reset: the link and the new password. */
  datatype Call = Call(tokenHash: string, tenantId: string, now: int, passwordHash: string)

  datatype Phase = Begin | Holding(id: nat, userId: string) | Invalid(held: Option<nat>) | Won(id: nat, userId: string)

  datatype World = World(state: State, phases: seq<Phase>)

  datatype Event = Turn(p: nat) | Else(other: Other)

  function CallStep(s: State, c: Call, phase: Phase): (State, Phase) {
    match phase
    case Begin =>
      var id := FindValid(s, c.tokenHash, c.tenantId, c.now);
      (s, if id.None? then Invalid(None) else Holding(id.value, s.tokens[id.value].value.userId))
    case Holding(id, userId) =>
      var r := Redeem(s, id, userId, c.passwordHash);
      (r.0, if r.1 then Won(id, userId) else Invalid(Some(id)))
    case _ => (s, phase)
  }

  function Next(calls: seq<Call>, w: World, e: Event): World
    requires |w.phases| == |calls|
  {
    match e
    case Turn(p) =>
      if p >= |calls| then w
      else
        var r := CallStep(w.state, calls[p], w.phases[p]);
        World(r.0, w.phases[p := r.1])
    case Else(other) => w.(state := OtherStep(w.state, other))
  }

  function Run(calls: seq<Call>, w: World, es: seq<Event>): (r: World)
    requires |w.phases| == |calls|
    ensures |r.phases| == |calls|
  {
    if es == [] then w else Next(calls, Run(calls, w, es[..|es| - 1]), es[|es| - 1])
  }

  function Started(s: State, calls: seq<Call>): (w: World)
    ensures |w.phases| == |calls|
  {
    World(s, seq(|calls|, _ => Begin))
  }

  lemma RunSnoc(calls: seq<Call>, w: World, es: seq<Event>, e: Event)
    requires |w.phases| == |calls|
    ensures Run(calls, w, es + [e]) == Next(calls, Run(calls, w, es), e)
  {
    assert (es + [e])[..|es|] == es;
  }

  lemma {:induction false} RunAppend(calls: seq<Call>, w: World, es: seq<Event>, fs: seq<Event>)
    requires |w.phases| == |calls|
    ensures Run(calls, w, es + fs) == Run(calls, Run(calls, w, es), fs)
    decreases fs
  {
    if fs == [] {
      assert es + fs == es;
    } else {
      var init, last := fs[..|fs| - 1], fs[|fs| - 1];
      RunAppend(calls, w, es, init);
      RunSnoc(calls, w, es + init, last);
      assert es + fs == (es + init) + [last];
    }
  }

  // ---------------------------------------------------------------------------
  // Which links are found
  // ---------------------------------------------------------------------------

  /** A row that answers to a link: this hash, not used, not expired, of an account of this tenant. */
  ghost predicate Answers(s: State, id: nat, tokenHash: string, tenantId: string, now: int) {
    id < |s.tokens| &&
    match s.tokens[id]
    case None => false
    case Some(Token(userId, hash, expiresAt, used)) =>
      hash == tokenHash && !used && now < expiresAt && userId in s.users && s.users[userId].tenantId == tenantId
  }

  lemma {:induction false} FindFromExactly(s: State, from: nat, tokenHash: string, tenantId: string, now: int)
    ensures var found := FindFrom(s, from, tokenHash, tenantId, now);
            && (found.Some? ==> Answers(s, found.value, tokenHash, tenantId, now))
            && (found.None? ==> forall id: nat :: from <= id ==> !Answers(s, id, tokenHash, tenantId, now))
    decreases |s.tokens| - from
  {
    if from < |s.tokens| && !Answers(s, from, tokenHash, tenantId, now) {
      FindFromExactly(s, from + 1, tokenHash, tenantId, now);
    }
  }

  /** The search finds a row that answers, and finds one exactly when there is one. */
  lemma FindsExactly(s: State, tokenHash: string, tenantId: string, now: int)
    ensures var found := FindValid(s, tokenHash, tenantId, now);
            && (found.Some? <==> exists id: nat :: Answers(s, id, tokenHash, tenantId, now))
            && (found.Some? ==> Answers(s, found.value, tokenHash, tenantId, now))
  {
    FindFromExactly(s, 0, tokenHash, tenantId, now);
  }

  /**
   A link whose every row is used, expired, or another tenant's changes nothing, whoever else does
   what meanwhile; and a reset that succeeds had found a row that answers.
   */
  lemma DeadLinkChangesNothing(
      s: State, tokenHash: string, tenantId: string, now: int, passwordHash: string, meanwhile: seq<Other>)
    ensures var r := Completed(s, tokenHash, tenantId, now, passwordHash, meanwhile);
            && ((forall id: nat :: !Answers(s, id, tokenHash, tenantId, now)) ==> r == (s, false))
            && (r.1 ==> exists id: nat :: Answers(s, id, tokenHash, tenantId, now))
  {
    FindsExactly(s, tokenHash, tenantId, now);
  }

  /** A link of this hash has been created for a user, expiring then: before the run, or in it. */
  ghost predicate Issued(s: State, es: seq<Event>, userId: string, tokenHash: string, expiresAt: int) {
    || (exists id: nat, used: bool ::
          id < |s.tokens| && s.tokens[id] == Some(Token(userId, tokenHash, expiresAt, used)))
    || (exists seen: nat :: Else(NewLink(userId, tokenHash, expiresAt, seen)) in es)
  }

  /** Every row was issued, and nobody's tenant has changed. */
  ghost predicate AllIssued(s: State, es: seq<Event>, t: State) {
    && (forall id: nat :: Live(t, id) ==>
          Issued(s, es, t.tokens[id].value.userId, t.tokens[id].value.tokenHash, t.tokens[id].value.expiresAt))
    && (forall u :: u in t.users ==> u in s.users && t.users[u].tenantId == s.users[u].tenantId)
  }

  lemma IssuedStays(s: State, es: seq<Event>, e: Event, userId: string, tokenHash: string, expiresAt: int)
    requires Issued(s, es, userId, tokenHash, expiresAt)
    ensures Issued(s, es + [e], userId, tokenHash, expiresAt)
  {
    if seen: nat :| Else(NewLink(userId, tokenHash, expiresAt, seen)) in es {
      assert Else(NewLink(userId, tokenHash, expiresAt, seen)) in es + [e];
    }
  }

  /** A row after an event is one from before, used or not, or the event has just created it. */
  lemma WhereRowsComeFrom(calls: seq<Call>, w: World, e: Event, id: nat)
    requires |w.phases| == |calls| && Live(Next(calls, w, e).state, id)
    ensures var row := Next(calls, w, e).state.tokens[id].value;
            || (Live(w.state, id) && row == w.state.tokens[id].value.(used := row.used))
            || exists seen: nat :: e == Else(NewLink(row.userId, row.tokenHash, row.expiresAt, seen))
  {
    if e.Else? && e.other.NewLink? && id == |w.state.tokens| {
      assert e == Else(NewLink(e.other.userId, e.other.tokenHash, e.other.expiresAt, e.other.seen));
    }
  }

  lemma {:induction false} RunIssued(calls: seq<Call>, s: State, es: seq<Event>)
    ensures AllIssued(s, es, Run(calls, Started(s, calls), es).state)
    decreases es
  {
    if es == [] {
      forall id: nat | Live(s, id)
        ensures Issued(s, es, s.tokens[id].value.userId, s.tokens[id].value.tokenHash, s.tokens[id].value.expiresAt)
      {
        var t := s.tokens[id].value;
        assert s.tokens[id] == Some(Token(t.userId, t.tokenHash, t.expiresAt, t.used));
      }
    } else {
      var init, e := es[..|es| - 1], es[|es| - 1];
      var w := Run(calls, Started(s, calls), init);
      RunIssued(calls, s, init);
      assert es == init + [e];
      var v := Next(calls, w, e).state;
      forall id: nat | Live(v, id)
        ensures Issued(s, es, v.tokens[id].value.userId, v.tokens[id].value.tokenHash, v.tokens[id].value.expiresAt)
      {
        var row := v.tokens[id].value;
        WhereRowsComeFrom(calls, w, e, id);
        if Live(w.state, id) && row == w.state.tokens[id].value.(used := row.used) {
          IssuedStays(s, init, e, row.userId, row.tokenHash, row.expiresAt);
        } else {
          var seen: nat :| e == Else(NewLink(row.userId, row.tokenHash, row.expiresAt, seen));
          assert e in es;
        }
      }
    }
  }

  /**
   Over any run, a caller comes to hold a token only through a link that was created with its hash
   for a user of its tenant, and strictly before that link's expiry.
   */
  lemma HeldLinkWasIssued(calls: seq<Call>, s: State, es: seq<Event>, p: nat)
    requires p < |calls| && Run(calls, Started(s, calls), es).phases[p].Begin?
    requires Next(calls, Run(calls, Started(s, calls), es), Turn(p)).phases[p].Holding?
    ensures var held := Next(calls, Run(calls, Started(s, calls), es), Turn(p)).phases[p];
            && held.userId in s.users && s.users[held.userId].tenantId == calls[p].tenantId
            && exists expiresAt :: calls[p].now < expiresAt
                                   && Issued(s, es, held.userId, calls[p].tokenHash, expiresAt)
  {
    var w := Run(calls, Started(s, calls), es);
    RunIssued(calls, s, es);
    FindsExactly(w.state, calls[p].tokenHash, calls[p].tenantId, calls[p].now);
    var id := FindValid(w.state, calls[p].tokenHash, calls[p].tenantId, calls[p].now).value;
    assert calls[p].now < w.state.tokens[id].value.expiresAt;
  }

  /** A link created for a user of the caller's tenant, with the caller's hash, that expires after the caller came. */
  ghost predicate GoodLink(s: State, es: seq<Event>, c: Call, userId: string) {
    && userId in s.users && s.users[userId].tenantId == c.tenantId
    && exists expiresAt :: c.now < expiresAt && Issued(s, es, userId, c.tokenHash, expiresAt)
  }

  ghost predicate HoldsGoodLink(s: State, es: seq<Event>, c: Call, phase: Phase) {
    phase.Holding? || phase.Won? ==> GoodLink(s, es, c, phase.userId)
  }

  lemma GoodLinkStays(s: State, es: seq<Event>, e: Event, c: Call, userId: string)
    requires GoodLink(s, es, c, userId)
    ensures GoodLink(s, es + [e], c, userId)
  {
    var expiresAt :| c.now < expiresAt && Issued(s, es, userId, c.tokenHash, expiresAt);
    IssuedStays(s, es, e, userId, c.tokenHash, expiresAt);
  }

  /**
   Over any run a reset succeeds only for a hash some link was created with, for a user of that
   tenant, and only if the request came strictly before that link's expiry.
   */
  lemma {:induction false} WinnerWasIssued(calls: seq<Call>, s: State, es: seq<Event>, p: nat)
    requires p < |calls|
    ensures HoldsGoodLink(s, es, calls[p], Run(calls, Started(s, calls), es).phases[p])
    decreases es
  {
    if es != [] {
      var init, e := es[..|es| - 1], es[|es| - 1];
      var w := Run(calls, Started(s, calls), init);
      assert es == init + [e];
      WinnerWasIssued(calls, s, init, p);
      if w.phases[p].Holding? || w.phases[p].Won? {
        GoodLinkStays(s, init, e, calls[p], w.phases[p].userId);
      } else if e == Turn(p) && w.phases[p].Begin? && Next(calls, w, e).phases[p].Holding? {
        HeldLinkWasIssued(calls, s, init, p);
        GoodLinkStays(s, init, e, calls[p], Next(calls, w, e).phases[p].userId);
      }
    }
  }

  // ---------------------------------------------------------------------------
  // Dead tokens stay dead
  // ---------------------------------------------------------------------------

  /** A token that can no longer be redeemed: used, or deleted for a newer link. */
  ghost predicate Dead(s: State, id: nat) {
    id < |s.tokens| && !Unused(s, id)
  }

  /** Tokens come at the end, dead ones stay dead, an unused one keeps its user, and no account comes back. */
  ghost predicate Later(s: State, t: State) {
    && t.users.Keys <= s.users.Keys
    && |s.tokens| <= |t.tokens|
    && (forall id: nat :: Dead(s, id) ==> Dead(t, id))
    && (forall id: nat :: id < |s.tokens| && Live(t, id) ==>
         Live(s, id) && t.tokens[id].value.userId == s.tokens[id].value.userId)
  }

  lemma CallStepLater(s: State, c: Call, phase: Phase)
    ensures Later(s, CallStep(s, c, phase).0)
  {
  }

  lemma OtherStepLater(s: State, e: Other)
    ensures Later(s, OtherStep(s, e))
  {
  }

  lemma NextLater(calls: seq<Call>, w: World, e: Event)
    requires |w.phases| == |calls|
    ensures Later(w.state, Next(calls, w, e).state)
  {
    match e
    case Turn(p) =>
      if p < |calls| {
        CallStepLater(w.state, calls[p], w.phases[p]);
      }
    case Else(other) =>
      OtherStepLater(w.state, other);
  }

  lemma {:induction false} RunLater(calls: seq<Call>, w: World, es: seq<Event>)
    requires |w.phases| == |calls|
    ensures Later(w.state, Run(calls, w, es).state)
    decreases es
  {
    if es != [] {
      RunLater(calls, w, es[..|es| - 1]);
      NextLater(calls, Run(calls, w, es[..|es| - 1]), es[|es| - 1]);
    }
  }

  // ---------------------------------------------------------------------------
  // At most one redemption
  // ---------------------------------------------------------------------------

  /** What a caller holds or has won is a token of its user; a won one is dead. */
  ghost predicate Honest(s: State, phase: Phase) {
    match phase
    case Holding(id, userId) => id < |s.tokens| && (Live(s, id) ==> s.tokens[id].value.userId == userId)
    case Won(id, userId) => Dead(s, id)
    case _ => true
  }

  ghost predicate OneWinner(phases: seq<Phase>) {
    forall p, q :: 0 <= p < |phases| && 0 <= q < |phases| && p != q && phases[p].Won? && phases[q].Won? ==>
      phases[p].id != phases[q].id
  }

  ghost predicate Inv(w: World) {
    && (forall p :: 0 <= p < |w.phases| ==> Honest(w.state, w.phases[p]))
    && OneWinner(w.phases)
  }

  lemma LaterKeepsHonest(s: State, t: State, phase: Phase)
    requires Honest(s, phase) && Later(s, t)
    ensures Honest(t, phase)
  {
  }

  /** A redemption wins exactly when the token is unused, and then it is dead. */
  lemma TurnIsHonest(s: State, c: Call, phase: Phase)
    requires Honest(s, phase)
    ensures var r := CallStep(s, c, phase);
            && Honest(r.0, r.1)
            && (r.1.Won? && !phase.Won? ==> Unused(s, r.1.id) && s.tokens[r.1.id].value.userId == r.1.userId)
            && (phase.Won? ==> r.1 == phase)
  {
  }

  lemma NextKeepsInv(calls: seq<Call>, w: World, e: Event)
    requires |w.phases| == |calls| && Inv(w)
    ensures Inv(Next(calls, w, e))
  {
    var v := Next(calls, w, e);
    NextLater(calls, w, e);
    if e.Turn? && e.p < |calls| {
      TurnIsHonest(w.state, calls[e.p], w.phases[e.p]);
    }
    forall q | 0 <= q < |v.phases|
      ensures Honest(v.state, v.phases[q])
    {
      if e != Turn(q) {
        LaterKeepsHonest(w.state, v.state, w.phases[q]);
      }
    }
    forall q | 0 <= q < |w.phases| && w.phases[q].Won?
      ensures v.phases[q] == w.phases[q] && Dead(w.state, w.phases[q].id)
    {
      assert Honest(w.state, w.phases[q]);
    }
  }

  lemma {:induction false} RunKeepsInv(calls: seq<Call>, s: State, es: seq<Event>)
    ensures Inv(Run(calls, Started(s, calls), es))
    decreases es
  {
    if es != [] {
      RunKeepsInv(calls, s, es[..|es| - 1]);
      NextKeepsInv(calls, Run(calls, Started(s, calls), es[..|es| - 1]), es[|es| - 1]);
    }
  }

  /** Of any number of callers holding one link, at most one redeems it, whatever happens in between. */
  lemma RedeemedAtMostOnce(calls: seq<Call>, s: State, es: seq<Event>, p: nat, q: nat)
    requires p < |calls| && q < |calls| && p != q
    requires Run(calls, Started(s, calls), es).phases[p].Won? && Run(calls, Started(s, calls), es).phases[q].Won?
    ensures Run(calls, Started(s, calls), es).phases[p].id != Run(calls, Started(s, calls), es).phases[q].id
  {
    RunKeepsInv(calls, s, es);
  }

  // ---------------------------------------------------------------------------
  // Why a redemption fails
  // ---------------------------------------------------------------------------

  /** Some caller has redeemed the token. */
  ghost predicate Redeemed(phases: seq<Phase>, id: nat) {
    exists q :: 0 <= q < |phases| && phases[q].Won? && phases[q].id == id
  }

  /** A newer link for the user whose creation has seen the token, or the end of his account. */
  predicate Ends(e: Event, id: nat, userId: string) {
    && e.Else?
    && match e.other
       case NewLink(owner, _, _, seen) => owner == userId && id < seen
       case CloseAccount(owner) => owner == userId
       case _ => false
  }

  predicate Ended(es: seq<Event>, id: nat, userId: string) {
    exists i :: 0 <= i < |es| && Ends(es[i], id, userId)
  }

  lemma EndedSnoc(es: seq<Event>, id: nat, userId: string)
    requires es != []
    ensures Ended(es, id, userId) <==> Ended(es[..|es| - 1], id, userId) || Ends(es[|es| - 1], id, userId)
  {
    var init := es[..|es| - 1];
    if Ended(init, id, userId) {
      var i :| 0 <= i < |init| && Ends(init[i], id, userId);
      assert es[i] == init[i];
    }
  }

  /** An unused token of an account that exists. */
  ghost predicate Redeemable(s: State, id: nat, userId: string) {
    Unused(s, id) && s.tokens[id].value.userId == userId && userId in s.users
  }

  /** What one event does to a redeemable token: its redemption uses it, and what ends it deletes it. */
  lemma NextOnUnused(calls: seq<Call>, w: World, e: Event, id: nat, userId: string)
    requires |w.phases| == |calls| && Inv(w) && Redeemable(w.state, id, userId)
    ensures var v := Next(calls, w, e);
            && (Unused(v.state, id) <==> !Redeemed(v.phases, id) && !Ends(e, id, userId))
            && (Unused(v.state, id) ==> Redeemable(v.state, id, userId))
  {
    var v := Next(calls, w, e);
    NextLater(calls, w, e);
    NextKeepsInv(calls, w, e);
    assert forall q :: 0 <= q < |v.phases| && v.phases[q].Won? ==> Dead(v.state, v.phases[q].id) by {
      assert forall q :: 0 <= q < |v.phases| ==> Honest(v.state, v.phases[q]);
    }
    if !Unused(v.state, id) && e.Turn? && e.p < |calls| {
      assert v.phases[e.p].Won? && v.phases[e.p].id == id;
    }
  }

  lemma RedeemedStays(calls: seq<Call>, w: World, e: Event, id: nat)
    requires |w.phases| == |calls| && Redeemed(w.phases, id)
    ensures Redeemed(Next(calls, w, e).phases, id)
  {
    var q :| 0 <= q < |w.phases| && w.phases[q].Won? && w.phases[q].id == id;
    assert Next(calls, w, e).phases[q] == w.phases[q];
  }

  /**
   A redeemable token stays unused over any run, exactly until somebody redeems it, a newer link whose
   creation has seen it is made for its user, or his account is deleted: nothing else uses it up.
   */
  lemma {:induction false} WhatEndsAToken(calls: seq<Call>, w: World, es: seq<Event>, id: nat, userId: string)
    requires |w.phases| == |calls| && Inv(w) && Redeemable(w.state, id, userId)
    ensures var v := Run(calls, w, es);
            && Inv(v)
            && (Unused(v.state, id) <==> !Redeemed(v.phases, id) && !Ended(es, id, userId))
            && (Unused(v.state, id) ==> Redeemable(v.state, id, userId))
    decreases es
  {
    if es == [] {
      assert forall q :: 0 <= q < |w.phases| && w.phases[q].Won? ==> Dead(w.state, w.phases[q].id) by {
        assert forall q :: 0 <= q < |w.phases| ==> Honest(w.state, w.phases[q]);
      }
    } else {
      var u, e := Run(calls, w, es[..|es| - 1]), es[|es| - 1];
      WhatEndsAToken(calls, w, es[..|es| - 1], id, userId);
      EndedSnoc(es, id, userId);
      NextKeepsInv(calls, u, e);
      NextLater(calls, u, e);
      if Unused(u.state, id) {
        NextOnUnused(calls, u, e, id, userId);
      } else {
        RunLater(calls, w, es[..|es| - 1]);
        assert Dead(u.state, id);
        if Redeemed(u.phases, id) {
          RedeemedStays(calls, u, e, id);
        }
      }
    }
  }

  /** A caller that still holds a token holds the one it held. */
  lemma {:induction false} StillHolding(calls: seq<Call>, w: World, es: seq<Event>, p: nat)
    requires |w.phases| == |calls| && p < |calls| && w.phases[p].Holding?
    ensures var phase := Run(calls, w, es).phases[p]; phase == w.phases[p] || phase.Won? || phase.Invalid?
    decreases es
  {
    if es != [] {
      StillHolding(calls, w, es[..|es| - 1], p);
    }
  }

  /** The state of a run right after caller `p` has found its link. */
  ghost predicate JustFound(calls: seq<Call>, s: State, es: seq<Event>, p: nat, w: World) {
    && p < |calls| && Run(calls, Started(s, calls), es).phases[p].Begin?
    && w == Next(calls, Run(calls, Started(s, calls), es), Turn(p)) && w.phases[p].Holding?
  }

  /**
   Redeeming now succeeds exactly if nobody has redeemed the token, and since the caller found it no
   newer link that has seen it has been made and the account is still there; a failure changes nothing.
   */
  ghost predicate RedeemsExactly(calls: seq<Call>, u: World, p: nat, since: seq<Event>) {
    && p < |calls| == |u.phases| && u.phases[p].Holding?
    && var v := Next(calls, u, Turn(p));
       var held := u.phases[p];
       && (v.phases[p].Won? <==> !Redeemed(u.phases, held.id) && !Ended(since, held.id, held.userId))
       && (!v.phases[p].Won? ==> v.state == u.state)
  }

  /** A caller finds its link, anything happens, and then it redeems. */
  lemma WhyRedemptionFails(calls: seq<Call>, s: State, es: seq<Event>, p: nat, w: World, fs: seq<Event>)
    requires JustFound(calls, s, es, p, w)
    requires Run(calls, w, fs).phases[p].Holding?
    ensures RedeemsExactly(calls, Run(calls, w, fs), p, fs)
  {
    assert (es + [Turn(p)])[..|es|] == es;
    RunKeepsInv(calls, s, es + [Turn(p)]);
    StillHolding(calls, w, fs, p);
    WhatEndsAToken(calls, w, fs, w.phases[p].id, w.phases[p].userId);
  }

  // ---------------------------------------------------------------------------
  // Superseded links
  // ---------------------------------------------------------------------------

  /** After a new link whose creation has seen it, whoever holds an older one of the user wins nothing with it, ever. */
  lemma SupersededRedeemsNothing(calls: seq<Call>, s: State, es: seq<Event>, link: Other, fs: seq<Event>, p: nat)
    requires p < |calls| && link.NewLink?
    requires var w := Run(calls, Started(s, calls), es);
             && w.phases[p].Holding? && w.phases[p].userId == link.userId && w.phases[p].id < link.seen
    ensures var v := Run(calls, Started(s, calls), es + [Else(link)] + fs);
            v.phases[p].Holding? || v.phases[p].Invalid?
  {
    var w := Run(calls, Started(s, calls), es);
    var held := w.phases[p];
    RunKeepsInv(calls, s, es);
    assert Honest(w.state, held);
    assert (es + [Else(link)])[..|es|] == es;
    var w' := Run(calls, Started(s, calls), es + [Else(link)]);
    assert Hopeless(w'.state, held);
    RunAppend(calls, Started(s, calls), es + [Else(link)], fs);
    HopelessIsNotWon(calls, w', fs, p, held);
  }

  /** The token a caller holds is dead, or its account is gone. */
  ghost predicate Hopeless(s: State, held: Phase) {
    held.Holding? && (Dead(s, held.id) || held.userId !in s.users)
  }

  lemma {:induction false} HopelessIsNotWon(calls: seq<Call>, w: World, es: seq<Event>, p: nat, held: Phase)
    requires |w.phases| == |calls| && p < |calls| && w.phases[p] == held && Hopeless(w.state, held)
    ensures var v := Run(calls, w, es); v.phases[p] == held || v.phases[p].Invalid?
    decreases es
  {
    if es != [] {
      var before := Run(calls, w, es[..|es| - 1]);
      HopelessIsNotWon(calls, w, es[..|es| - 1], p, held);
      RunLater(calls, w, es[..|es| - 1]);
      assert Hopeless(before.state, held);
    }
  }

  /** A link created with nobody in between leaves its user no other unused one. */
  lemma AloneLeavesOneLink(s: State, userId: string, tokenHash: string, expiresAt: int, id: nat)
    requires userId in s.users
    ensures var t := Created(s, userId, tokenHash, expiresAt, []);
            Redeemable(t, id, userId) <==> id == |s.tokens|
  {
    var t := Created(s, userId, tokenHash, expiresAt, []);
    assert t.tokens[|s.tokens|] == Some(Token(userId, tokenHash, expiresAt, false));
    if id < |s.tokens| {
      assert t.tokens[id] == WithoutUnused(s.tokens, userId, |s.tokens|)[id];
    }
  }

  /** A link created within the creation of another: neither ends the other, and both redeem. */
  lemma TwoLinksRedeem(
      s: State, userId: string, first: string, second: string, expiresAt: int, passwords: (string, string))
    requires userId in s.users
    ensures var within := NewLink(userId, first, expiresAt, |s.tokens|);
            var t := Created(s, userId, second, expiresAt, [within]);
            var one := Redeem(t, |s.tokens|, userId, passwords.0);
            var two := Redeem(one.0, |s.tokens| + 1, userId, passwords.1);
            one.1 && two.1
  {
    var within := NewLink(userId, first, expiresAt, |s.tokens|);
    assert [within][..0] == [];
    assert Others(s, [within]) == OtherStep(s, within);
  }

  // ---------------------------------------------------------------------------
  // The password
  // ---------------------------------------------------------------------------

  /** The password an event sets for a user, if it sets one. */
  function Sets(calls: seq<Call>, w: World, e: Event, userId: string): Option<string>
    requires |w.phases| == |calls|
  {
    match e
    case Turn(p) =>
      if p < |calls| && w.phases[p].Holding? && w.phases[p].userId == userId && Next(calls, w, e).phases[p].Won? then
        Some(calls[p].passwordHash)
      else None
    case Else(other) =>
      if other.NewPassword? && other.userId == userId then Some(other.passwordHash) else None
  }

  /** The password set last in a run. */
  function LastSet(calls: seq<Call>, w: World, es: seq<Event>, userId: string): Option<string>
    requires |w.phases| == |calls|
  {
    if es == [] then None
    else
      var init := es[..|es| - 1];
      var now := Sets(calls, Run(calls, w, init), es[|es| - 1], userId);
      if now.Some? then now else LastSet(calls, w, init, userId)
  }

  /** While the account is there, its password is the one the latest winner, or the user himself, has set. */
  lemma {:induction false} PasswordIsLastSet(calls: seq<Call>, s: State, es: seq<Event>, userId: string)
    requires userId in s.users
    ensures var w := Run(calls, Started(s, calls), es);
            userId in w.state.users ==>
              w.state.users[userId].passwordHash ==
                  LastSet(calls, Started(s, calls), es, userId).GetOr(s.users[userId].passwordHash)
    decreases es
  {
    if es != [] {
      PasswordIsLastSet(calls, s, es[..|es| - 1], userId);
    }
  }

  // ---------------------------------------------------------------------------
  // The sessions
  // ---------------------------------------------------------------------------

  /** The user's sessions are all among those opened from position `from` on. */
  ghost predicate OnlySince(s: State, userId: string, from: nat) {
    && from <= |s.sessions|
    && forall i :: 0 <= i < from ==> s.sessions[i] != Some(userId)
  }

  lemma NextOnlySince(calls: seq<Call>, w: World, e: Event, userId: string, from: nat)
    requires |w.phases| == |calls| && OnlySince(w.state, userId, from)
    ensures OnlySince(Next(calls, w, e).state, userId, from)
  {
  }

  lemma {:induction false} RunOnlySince(calls: seq<Call>, w: World, es: seq<Event>, userId: string, from: nat)
    requires |w.phases| == |calls| && OnlySince(w.state, userId, from)
    ensures OnlySince(Run(calls, w, es).state, userId, from)
    decreases es
  {
    if es != [] {
      RunOnlySince(calls, w, es[..|es| - 1], userId, from);
      NextOnlySince(calls, Run(calls, w, es[..|es| - 1]), es[|es| - 1], userId, from);
    }
  }

  /** No session that existed when a link was redeemed survives it, however the run goes on. */
  lemma NoOldSessionSurvives(calls: seq<Call>, s: State, es: seq<Event>, p: nat, fs: seq<Event>)
    requires p < |calls|
    requires var w := Run(calls, Started(s, calls), es);
             w.phases[p].Holding? && Next(calls, w, Turn(p)).phases[p].Won?
    ensures var w := Run(calls, Started(s, calls), es);
            var v := Run(calls, Started(s, calls), es + [Turn(p)] + fs);
            OnlySince(v.state, w.phases[p].userId, |w.state.sessions|)
  {
    var w := Run(calls, Started(s, calls), es);
    assert (es + [Turn(p)])[..|es|] == es;
    RunAppend(calls, Started(s, calls), es + [Turn(p)], fs);
    RunOnlySince(calls, Next(calls, w, Turn(p)), fs, w.phases[p].userId, |w.state.sessions|);
  }

  /** Signing it out, closing its account, or redeeming a link of its user: what ends a session. */
  predicate EndsSession(calls: seq<Call>, w: World, e: Event, i: nat, userId: string)
    requires |w.phases| == |calls|
  {
    match e
    case Turn(p) =>
      && p < |calls| && w.phases[p].Holding? && w.phases[p].userId == userId
      && Next(calls, w, e).phases[p].Won?
    case Else(other) => other == SignOut(i) || other == CloseAccount(userId)
  }

  predicate NeverEnded(calls: seq<Call>, s: State, es: seq<Event>, i: nat, userId: string) {
    es == [] ||
    var init := es[..|es| - 1];
    && NeverEnded(calls, s, init, i, userId)
    && !EndsSession(calls, Run(calls, Started(s, calls), init), es[|es| - 1], i, userId)
  }

  /** The session at a position is there, or has been ended. */
  ghost predicate SessionIs(s: State, i: nat, userId: string, there: bool) {
    i < |s.sessions| && s.sessions[i] == if there then Some(userId) else None
  }

  lemma NextSessionIs(calls: seq<Call>, w: World, e: Event, i: nat, userId: string, there: bool)
    requires |w.phases| == |calls| && SessionIs(w.state, i, userId, there)
    ensures SessionIs(Next(calls, w, e).state, i, userId, there && !EndsSession(calls, w, e, i, userId))
  {
  }

  /**
   Over any run a session lasts exactly until it is signed out, a link of its user is redeemed, or
   its account is closed; somebody else's reset never ends it, and a failed one of the user's neither.
   */
  lemma {:induction false} SessionLastsExactly(calls: seq<Call>, s: State, es: seq<Event>, i: nat, userId: string)
    requires SessionIs(s, i, userId, true)
    ensures SessionIs(Run(calls, Started(s, calls), es).state, i, userId, NeverEnded(calls, s, es, i, userId))
    decreases es
  {
    if es != [] {
      var init := es[..|es| - 1];
      SessionLastsExactly(calls, s, init, i, userId);
      NextSessionIs(calls, Run(calls, Started(s, calls), init), es[|es| - 1], i, userId,
                    NeverEnded(calls, s, init, i, userId));
    }
  }

  /** A session begins only where somebody signs in to an account that is there. */
  lemma SessionsBeginBySigningIn(calls: seq<Call>, w: World, e: Event)
    requires |w.phases| == |calls|
    ensures var before, after := w.state.sessions, Next(calls, w, e).state.sessions;
            if e.Else? && e.other.SignIn? && e.other.userId in w.state.users
            then after == before + [Some(e.other.userId)]
            else |after| == |before|
  {
  }

  /** A token that has been used stays on record, as it is, until its user's account is closed. */
  lemma {:induction false} UsedTokensStay(calls: seq<Call>, s: State, es: seq<Event>, id: nat)
    requires Live(s, id) && s.tokens[id].value.used
    requires Else(CloseAccount(s.tokens[id].value.userId)) !in es
    ensures var t := Run(calls, Started(s, calls), es).state;
            id < |t.tokens| && t.tokens[id] == s.tokens[id]
    decreases es
  {
    if es != [] {
      var init, e := es[..|es| - 1], es[|es| - 1];
      assert es == init + [e];
      assert e in es;
      UsedTokensStay(calls, s, init, id);
    }
  }

  /** Every token is of an account that is there. */
  ghost predicate TokensHaveUsers(s: State) {
    forall id: nat :: Live(s, id) ==> s.tokens[id].value.userId in s.users
  }

  /** No run leaves a token without its account. */
  lemma {:induction false} TokensKeepUsers(calls: seq<Call>, s: State, es: seq<Event>)
    requires TokensHaveUsers(s)
    ensures TokensHaveUsers(Run(calls, Started(s, calls), es).state)
    decreases es
  {
    if es != [] {
      TokensKeepUsers(calls, s, es[..|es| - 1]);
      NextHasUsers(calls, Run(calls, Started(s, calls), es[..|es| - 1]), es[|es| - 1]);
    }
  }

  lemma NextHasUsers(calls: seq<Call>, w: World, e: Event)
    requires |w.phases| == |calls| && TokensHaveUsers(w.state)
    ensures TokensHaveUsers(Next(calls, w, e).state)
  {
    var v := Next(calls, w, e).state;
    forall id: nat | Live(v, id)
      ensures v.tokens[id].value.userId in v.users
    {
      assert Live(w.state, id) || id == |w.state.tokens|;
    }
  }
}
