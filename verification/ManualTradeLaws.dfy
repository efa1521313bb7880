/** What any interleaving of hand-typed trades, syncs, journal edits and corrections keeps. */
module ManualTradeLaws {
  import opened Prelude
  import opened ManualTrades
  import opened ManualTradeFacts

  // ---------------------------------------------------------------------------
  // What a caller's statement touches
  // ---------------------------------------------------------------------------

  lemma {:induction false} RunKeeps(hash: Hash, calls: seq<Call>, s: Store, es: seq<Event>)
    requires UniqueKeys(s.rows)
    ensures var w := Run(hash, calls, Started(s, calls), es); UniqueKeys(w.store.rows) && AllKnow(hash, calls, w)
    decreases es
  {
    if es != [] {
      RunKeeps(hash, calls, s, es[..|es| - 1]);
      NextKeeps(hash, calls, Run(hash, calls, Started(s, calls), es[..|es| - 1]), es[|es| - 1]);
    }
  }

  /**
   In any run, a caller's statement leaves every row of another key exactly as it was, the
   broker's among them, and every journal; and what it writes is its whole input.
   */
  lemma TurnTouchesOnlyItsRow(hash: Hash, calls: seq<Call>, s: Store, es: seq<Event>, p: nat, id: nat)
    requires UniqueKeys(s.rows) && p < |calls|
    requires Live(Run(hash, calls, Started(s, calls), es).store.rows, id)
    ensures var w := Run(hash, calls, Started(s, calls), es);
            var v := Next(hash, calls, w, Turn(p));
            && Live(v.store.rows, id) && SameButFacts(w.store.rows[id].value, v.store.rows[id].value)
            && (v.store.rows[id] != w.store.rows[id] ==>
                  && w.store.rows[id].value.key == CallKey(hash, calls[p])
                  && v.store.rows[id].value.facts == calls[p].input)
  {
    RunKeeps(hash, calls, s, es);
    var w := Run(hash, calls, Started(s, calls), es);
    assert Knows(w.store.rows, CallKey(hash, calls[p]), w.phases[p]);
  }

  /** The keys of callers are typed ones: no account, and a ticket no broker issues. */
  lemma CallersNeverTouchTheBrokers(hash: Hash, calls: seq<Call>, s: Store, es: seq<Event>, p: nat, id: nat)
    requires UniqueKeys(s.rows) && p < |calls|
    requires Live(Run(hash, calls, Started(s, calls), es).store.rows, id)
    requires var key := Run(hash, calls, Started(s, calls), es).store.rows[id].value.key;
             key.account.Some? || !IsManualTicket(key.ticket)
    ensures var w := Run(hash, calls, Started(s, calls), es);
            var v := Next(hash, calls, w, Turn(p));
            id < |v.store.rows| && v.store.rows[id] == w.store.rows[id]
  {
    TurnTouchesOnlyItsRow(hash, calls, s, es, p, id);
  }

  // ---------------------------------------------------------------------------
  // Whose facts
  // ---------------------------------------------------------------------------

  lemma {:induction false} RunTyped(hash: Hash, calls: seq<Call>, s: Store, es: seq<Event>)
    requires UniqueKeys(s.rows) && NoCorrections(es)
    ensures Typed(hash, calls, Run(hash, calls, Started(s, calls), es))
    decreases es
  {
    if es != [] {
      RunTyped(hash, calls, s, es[..|es| - 1]);
      RunKeeps(hash, calls, s, es[..|es| - 1]);
      NextTyped(hash, calls, Run(hash, calls, Started(s, calls), es[..|es| - 1]), es[|es| - 1]);
    }
  }

  // ---------------------------------------------------------------------------
  // Everybody gets there
  // ---------------------------------------------------------------------------

  /**
   Any number of callers, any interleaving with syncs and journal edits, no deletion and no
   correction in between: four statements each, and every caller has the id of the one row of
   its ticket, whose facts are one caller's input and nobody's mixture.
   */
  lemma {:induction false} ConcurrentEntryConverges(hash: Hash, calls: seq<Call>, s: Store, es: seq<Event>, p: nat)
    requires UniqueKeys(s.rows) && NoDeletes(es) && NoCorrections(es)
    requires p < |calls| && calls[p].userId in s.users && Turns(es, p) >= 4
    ensures Settled(hash, calls, Run(hash, calls, Started(s, calls), es), p)
  {
    var w := Run(hash, calls, Started(s, calls), es);
    var key := CallKey(hash, calls[p]);
    TurnsCount(hash, calls, s, es, p);
    RunKeeps(hash, calls, s, es);
    RunSure(hash, calls, s, es);
    RunTyped(hash, calls, s, es);
    assert Sure(w.store.rows, key, w.phases[p]);
    forall id: nat | HasKey(w.store.rows, id, key)
      ensures id == w.phases[p].id
    {
      OnlyRowWithKey(w.store.rows, id, w.phases[p].id, key);
    }
  }

  /** A caller with an account ends in an error only if a row, or the account, has been deleted under it. */
  lemma ErrorsComeFromDeletions(hash: Hash, calls: seq<Call>, s: Store, es: seq<Event>, p: nat)
    requires p < |calls| && calls[p].userId in s.users && NoDeletes(es)
    ensures !Run(hash, calls, Started(s, calls), es).phases[p].Threw?
  {
    var w := Run(hash, calls, Started(s, calls), es);
    RunSure(hash, calls, s, es);
    assert Sure(w.store.rows, CallKey(hash, calls[p]), w.phases[p]);
  }

  // ---------------------------------------------------------------------------
  // When an account is gone
  // ---------------------------------------------------------------------------

  /**
   A caller ends in an error exactly when, at one of its own turns, a deletion has taken away the
   row it was waiting on, the one it had found or the one it had collided with; or when it had found
   none and its account is gone before the insert.
   */
  lemma {:induction false} ErrorsExactly(hash: Hash, calls: seq<Call>, s: Store, es: seq<Event>, p: nat)
    requires p < |calls| && Owned(s)
    ensures Run(hash, calls, Started(s, calls), es).phases[p].Threw? <==> OnceFailed(hash, calls, s, es, p)
    decreases es
  {
    if es != [] {
      ErrorsExactly(hash, calls, s, es[..|es| - 1], p);
      ThrewSnoc(hash, calls, s, es, p);
      OnceFailedSnoc(hash, calls, s, es, p);
    }
  }

  /** One caller alone: the trade is entered once however often it is submitted, and keeps its journal. */
  lemma SubmittingAgainIsHarmless(hash: Hash, s: Store, c: Call)
    requires UniqueKeys(s.rows) && c.userId in s.users
    ensures var once := CallAmong(hash, s, c, [], [], []);
            var t := once.0.rows;
            && once.1.Done?
            && HasKey(t, once.1.id, CallKey(hash, c)) && t[once.1.id].value.facts == c.input
            && CallAmong(hash, once.0, c, [], [], []) == once
  {
    var key := CallKey(hash, c);
    var once := CallAmong(hash, s, c, [], [], []);
    CallStepStaysUnique(hash, s, c, NotFound);
    if Find(s.rows, key).Some? {
      CallStepStaysUnique(hash, s, c, Found(Find(s.rows, key).value));
    }
    FindIs(once.0.rows, once.1.id, key);
    assert SetFacts(once.0.rows, once.1.id, c.input) == once.0.rows;
  }

  // ---------------------------------------------------------------------------
  // The method is a run
  // ---------------------------------------------------------------------------

  /** The statements of others. */
  function Elses(os: seq<Other>): seq<Event> {
    if os == [] then [] else Elses(os[..|os| - 1]) + [Else(os[|os| - 1])]
  }

  /** One caller's turns, with pauses in between. */
  function Paused(pauses: seq<seq<Other>>): seq<Event> {
    if pauses == [] then [Turn(0)]
    else Paused(pauses[..|pauses| - 1]) + Elses(pauses[|pauses| - 1]) + [Turn(0)]
  }

  lemma RunSnoc(hash: Hash, calls: seq<Call>, w: World, es: seq<Event>, e: Event)
    requires |w.phases| == |calls|
    ensures Run(hash, calls, w, es + [e]) == Next(hash, calls, Run(hash, calls, w, es), e)
  {
    assert (es + [e])[..|es|] == es;
  }

  lemma {:induction false} RunElses(hash: Hash, c: Call, w: World, es: seq<Event>, os: seq<Other>)
    requires |w.phases| == 1
    ensures var v := Run(hash, [c], w, es);
            Run(hash, [c], w, es + Elses(os)) == v.(store := Others(v.store, os))
    decreases os
  {
    if os == [] {
      assert es + [] == es;
    } else {
      var init, last := os[..|os| - 1], os[|os| - 1];
      RunElses(hash, c, w, es, init);
      RunSnoc(hash, [c], w, es + Elses(init), Else(last));
      assert es + Elses(os) == es + Elses(init) + [Else(last)];
    }
  }

  /** With these pauses, this is where the caller and the table stand. */
  ghost predicate Reaches(hash: Hash, s: Store, c: Call, pauses: seq<seq<Other>>, r: (Store, Phase)) {
    Run(hash, [c], Started(s, [c]), Paused(pauses)) == World(r.0, [r.1])
  }

  lemma FirstTurn(hash: Hash, s: Store, c: Call)
    ensures Reaches(hash, s, c, [], CallStep(hash, s, c, Begin))
  {
    RunSnoc(hash, [c], Started(s, [c]), [], Turn(0));
    assert [] + [Turn(0)] == [Turn(0)];
  }

  lemma PauseStep(hash: Hash, s: Store, c: Call, pauses: seq<seq<Other>>, os: seq<Other>, r: (Store, Phase))
    requires Reaches(hash, s, c, pauses, r)
    ensures Reaches(hash, s, c, pauses + [os], CallStep(hash, Others(r.0, os), c, r.1))
  {
    assert (pauses + [os])[..|pauses|] == pauses;
    RunElses(hash, c, Started(s, [c]), Paused(pauses), os);
    RunSnoc(hash, [c], Started(s, [c]), Paused(pauses) + Elses(os), Turn(0));
  }

  /** A caller is through with its statements. */
  predicate IsThrough(phase: Phase) {
    phase.Done? || phase.Threw?
  }

  /** After these pauses the caller has statements left. */
  ghost predicate StillAt(hash: Hash, s: Store, c: Call, pauses: seq<seq<Other>>) {
    exists r: (Store, Phase) :: Reaches(hash, s, c, pauses, r) && !IsThrough(r.1)
  }

  /** Before its `n`-th pause, and before every earlier one, the caller has statements left. */
  ghost predicate StillBefore(hash: Hash, s: Store, c: Call, pauses: seq<seq<Other>>, n: nat)
    requires n <= |pauses|
  {
    n == 0 || (StillAt(hash, s, c, pauses[..n - 1]) && StillBefore(hash, s, c, pauses, n - 1))
  }

  /** The caller reaches this after the `n`-th pause, and was not through before. */
  ghost predicate ReachesAfter(hash: Hash, s: Store, c: Call, pauses: seq<seq<Other>>, n: nat, r: (Store, Phase)) {
    n <= |pauses| && Reaches(hash, s, c, pauses[..n], r) && StillBefore(hash, s, c, pauses, n)
  }

  /** Where a call stands after each of its turns. */
  lemma CallStages(hash: Hash, s: Store, c: Call, pauses: seq<seq<Other>>)
    returns (found: (Store, Phase), wrote: (Store, Phase), reread: (Store, Phase), last: (Store, Phase))
    requires |pauses| == 3
    ensures found == CallStep(hash, s, c, Begin) && Reaches(hash, s, c, pauses[..0], found)
    ensures wrote == CallStep(hash, Others(found.0, pauses[0]), c, found.1) && Reaches(hash, s, c, pauses[..1], wrote)
    ensures reread == CallStep(hash, Others(wrote.0, pauses[1]), c, wrote.1) && Reaches(hash, s, c, pauses[..2], reread)
    ensures last == CallStep(hash, Others(reread.0, pauses[2]), c, reread.1) && Reaches(hash, s, c, pauses[..3], last)
  {
    found := CallStep(hash, s, c, Begin);
    wrote := CallStep(hash, Others(found.0, pauses[0]), c, found.1);
    reread := CallStep(hash, Others(wrote.0, pauses[1]), c, wrote.1);
    last := CallStep(hash, Others(reread.0, pauses[2]), c, reread.1);
    FirstTurn(hash, s, c);
    assert pauses[..0] == [] && pauses[..1] == pauses[..0] + [pauses[0]];
    assert pauses[..2] == pauses[..1] + [pauses[1]] && pauses[..3] == pauses[..2] + [pauses[2]];
    PauseStep(hash, s, c, pauses[..0], pauses[0], found);
    PauseStep(hash, s, c, pauses[..1], pauses[1], wrote);
    PauseStep(hash, s, c, pauses[..2], pauses[2], reread);
  }

  /** The phase a turn ends in is one that can follow. */
  lemma PhaseFollows(hash: Hash, s: Store, c: Call, phase: Phase)
    ensures var next := CallStep(hash, s, c, phase).1;
            && (phase.Begin? ==> next.Found? || next.NotFound?)
            && (phase.Found? || phase.Reread? ==> IsThrough(next))
            && (phase.NotFound? ==> IsThrough(next) || next.Collided?)
            && (phase.Collided? ==> next.Reread? || next.Threw?)
  {
  }

  /** What one call comes to is a run of its statements among those of others, up to where it is through. */
  lemma CallIsARun(hash: Hash, s: Store, c: Call, first: seq<Other>, second: seq<Other>, third: seq<Other>)
    ensures var r := CallAmong(hash, s, c, first, second, third);
            && IsThrough(r.1)
            && exists n: nat :: n >= 1 && ReachesAfter(hash, s, c, [first, second, third], n, r)
  {
    var found, wrote, reread, last := CallStages(hash, s, c, [first, second, third]);
    PhaseFollows(hash, s, c, Begin);
    PhaseFollows(hash, Others(found.0, first), c, found.1);
    PhaseFollows(hash, Others(wrote.0, second), c, wrote.1);
    PhaseFollows(hash, Others(reread.0, third), c, reread.1);
    assert CallAmong(hash, s, c, first, second, third) ==
           if !wrote.1.Collided? then wrote else if !reread.1.Reread? then reread else last;
    StagesEnd(hash, s, c, [first, second, third], found, wrote, reread, last);
  }

  lemma StagesEnd(
      hash: Hash, s: Store, c: Call, pauses: seq<seq<Other>>, found: (Store, Phase), wrote: (Store, Phase),
      reread: (Store, Phase), last: (Store, Phase))
    requires |pauses| == 3 && Reaches(hash, s, c, pauses[..0], found) && Reaches(hash, s, c, pauses[..1], wrote)
    requires Reaches(hash, s, c, pauses[..2], reread) && Reaches(hash, s, c, pauses[..3], last)
    requires !IsThrough(found.1) && (IsThrough(wrote.1) || wrote.1.Collided?)
    requires wrote.1.Collided? ==> reread.1.Threw? || (reread.1.Reread? && IsThrough(last.1))
    ensures var r := if !wrote.1.Collided? then wrote else if !reread.1.Reread? then reread else last;
            IsThrough(r.1) && exists n: nat :: n >= 1 && ReachesAfter(hash, s, c, pauses, n, r)
  {
    assert StillAt(hash, s, c, pauses[..0]);
    if !wrote.1.Collided? {
      assert ReachesAfter(hash, s, c, pauses, 1, wrote);
    } else if !reread.1.Reread? {
      assert StillAt(hash, s, c, pauses[..1]);
      assert ReachesAfter(hash, s, c, pauses, 2, reread);
    } else {
      assert StillAt(hash, s, c, pauses[..1]) && StillAt(hash, s, c, pauses[..2]);
      assert StillBefore(hash, s, c, pauses, 1);
      assert ReachesAfter(hash, s, c, pauses, 3, last);
    }
  }

  /** A caller that finds its row, and finds it still there when it writes, is through with two statements. */
  lemma FoundIsCorrected(
      hash: Hash, s: Store, c: Call, id: nat, first: seq<Other>, second: seq<Other>, third: seq<Other>)
    requires UniqueKeys(s.rows) && HasKey(s.rows, id, CallKey(hash, c)) && Live(Others(s, first).rows, id)
    ensures var t := Others(s, first);
            CallAmong(hash, s, c, first, second, third) == (t.(rows := SetFacts(t.rows, id, c.input)), Done(id))
  {
    FindIs(s.rows, id, CallKey(hash, c));
  }

  // ---------------------------------------------------------------------------
  // Which trades are one
  // ---------------------------------------------------------------------------

  /** Two calls enter one and the same trade: same user, and the same hash of what identifies it. */
  predicate SameTrade(hash: Hash, a: Call, b: Call) {
    a.userId == b.userId && hash(a.input.identity) == hash(b.input.identity)
  }

  lemma SameKeyExactly(hash: Hash, a: Call, b: Call)
    ensures CallKey(hash, a) == CallKey(hash, b) <==> SameTrade(hash, a, b)
  {
    var x, y := hash(a.input.identity), hash(b.input.identity);
    if MANUAL_TICKET_PREFIX + x == MANUAL_TICKET_PREFIX + y {
      assert x == (MANUAL_TICKET_PREFIX + x)[|MANUAL_TICKET_PREFIX|..] == y;
    }
  }

  /** Without deletions, two callers that are done share a row exactly if they entered one trade. */
  lemma SameRowExactly(hash: Hash, calls: seq<Call>, s: Store, es: seq<Event>, p: nat, q: nat)
    requires UniqueKeys(s.rows) && NoDeletes(es) && p < |calls| && q < |calls|
    requires calls[p].userId in s.users && calls[q].userId in s.users
    requires var w := Run(hash, calls, Started(s, calls), es); w.phases[p].Done? && w.phases[q].Done?
    ensures var w := Run(hash, calls, Started(s, calls), es);
            w.phases[p].id == w.phases[q].id <==> SameTrade(hash, calls[p], calls[q])
  {
    var w := Run(hash, calls, Started(s, calls), es);
    RunKeeps(hash, calls, s, es);
    RunSure(hash, calls, s, es);
    SameKeyExactly(hash, calls[p], calls[q]);
    assert Sure(w.store.rows, CallKey(hash, calls[p]), w.phases[p]);
    assert Sure(w.store.rows, CallKey(hash, calls[q]), w.phases[q]);
    if SameTrade(hash, calls[p], calls[q]) {
      OnlyRowWithKey(w.store.rows, w.phases[p].id, w.phases[q].id, CallKey(hash, calls[p]));
    }
  }

  /** No row has been typed in yet. */
  ghost predicate NothingTyped(t: Table) {
    forall id: nat :: Live(t, id) ==> t[id].value.key.account.Some?
  }

  /** Every typed row stands under the key of some caller. */
  ghost predicate TypedByCallers(hash: Hash, calls: seq<Call>, t: Table) {
    forall id: nat :: Live(t, id) && t[id].value.key.account.None? ==>
      exists q :: 0 <= q < |calls| && t[id].value.key == CallKey(hash, calls[q])
  }

  lemma NextTypedByCallers(hash: Hash, calls: seq<Call>, w: World, e: Event)
    requires |w.phases| == |calls| && TypedByCallers(hash, calls, w.store.rows)
    ensures TypedByCallers(hash, calls, Next(hash, calls, w, e).store.rows)
  {
    var v := Next(hash, calls, w, e);
    forall id: nat | Live(v.store.rows, id) && v.store.rows[id].value.key.account.None?
      ensures exists q :: 0 <= q < |calls| && v.store.rows[id].value.key == CallKey(hash, calls[q])
    {
      if id < |w.store.rows| {
        assert Live(w.store.rows, id) && w.store.rows[id].value.key == v.store.rows[id].value.key;
      } else {
        assert e.Turn? && v.store.rows[id].value.key == CallKey(hash, calls[e.p]);
      }
    }
  }

  lemma {:induction false} RunTypedByCallers(hash: Hash, calls: seq<Call>, s: Store, es: seq<Event>)
    requires NothingTyped(s.rows)
    ensures TypedByCallers(hash, calls, Run(hash, calls, Started(s, calls), es).store.rows)
    decreases es
  {
    if es != [] {
      RunTypedByCallers(hash, calls, s, es[..|es| - 1]);
      NextTypedByCallers(hash, calls, Run(hash, calls, Started(s, calls), es[..|es| - 1]), es[|es| - 1]);
    }
  }

  /**
   Whatever has been entered by then: a trade that none of the callers entered becomes a new row,
   with its whole input and an empty journal, and every other row stays as it is.
   */
  lemma NewTradeIsNewRow(hash: Hash, calls: seq<Call>, s: Store, es: seq<Event>, c: Call)
    requires NothingTyped(s.rows)
    requires forall q :: 0 <= q < |calls| ==> !SameTrade(hash, c, calls[q])
    requires c.userId in Run(hash, calls, Started(s, calls), es).store.users
    ensures var before := Run(hash, calls, Started(s, calls), es).store;
            var r := CallAmong(hash, before, c, [], [], []);
            var n := |before.rows|;
            && r.1 == Done(n) && |r.0.rows| == n + 1 && r.0.rows[..n] == before.rows
            && r.0.rows[n].Some? && r.0.rows[n].value.key.userId == c.userId && r.0.rows[n].value.key.account == None
            && r.0.rows[n].value.facts == c.input && r.0.rows[n].value.journal == ""
            && r.0.users == before.users
  {
    var before := Run(hash, calls, Started(s, calls), es).store;
    RunTypedByCallers(hash, calls, s, es);
    forall q | 0 <= q < |calls|
      ensures CallKey(hash, c) != CallKey(hash, calls[q])
    {
      SameKeyExactly(hash, c, calls[q]);
    }
    assert Find(before.rows, CallKey(hash, c)).None?;
  }

  /** The ticket of a typed trade, letter by letter. */
  lemma TicketsStartWithManual(hash: Hash, c: Call)
    ensures CallKey(hash, c).ticket == ['m', 'a', 'n', 'u', 'a', 'l', ':'] + hash(c.input.identity)
  {
  }

  /**
   A correction or a deletion reaches exactly the row named, and only if the user himself typed it:
   another user's row, or one whose ticket does not start with "manual:", stays as it is.
   */
  lemma OnlyOwnTypedRows(s: Store, e: Other, id: nat)
    requires (e.Correct? || e.Delete?) && Live(s.rows, id)
    ensures var row := s.rows[id].value;
            var own := id == e.id && row.key.userId == e.userId && "manual:" <= row.key.ticket;
            OtherStep(s, e).rows[id] ==
            if !own then Some(row) else if e.Correct? then Some(row.(facts := e.input)) else None
  {
  }

  /**
   What others' statements do to one row: a sync rewrites the facts of a row under its own key only,
   a journal entry the journal of its row only, and closing an account takes exactly its owner's rows.
   */
  lemma OthersReachOnly(s: Store, e: Other, id: nat)
    requires (e.Sync? || e.Journal? || e.CloseAccount?) && Live(s.rows, id)
    ensures var row, after := s.rows[id].value, OtherStep(s, e).rows;
            && id < |after|
            && (e.Sync? ==>
                  || after[id] == Some(row)
                  || (row.key == Key(e.userId, Some(e.account), e.ticket) && after[id] == Some(row.(facts := e.facts))))
            && (e.Journal? ==> after[id] == if id == e.id then Some(row.(journal := e.text)) else Some(row))
            && (e.CloseAccount? ==> after[id] == if row.key.userId == e.userId then None else Some(row))
  {
  }

  /** After a sync the row of its key is there with the facts it brought, unless the account is gone. */
  lemma SyncIsEntered(s: Store, e: Other)
    requires e.Sync? && e.userId in s.users
    ensures var after := OtherStep(s, e).rows;
            exists id: nat ::
              HasKey(after, id, Key(e.userId, Some(e.account), e.ticket)) && after[id].value.facts == e.facts
  {
    var key := Key(e.userId, Some(e.account), e.ticket);
    var existing, after := Find(s.rows, key), OtherStep(s, e).rows;
    var id: nat := if existing.Some? then existing.value else |s.rows|;
    assert HasKey(after, id, key) && after[id].value.facts == e.facts;
  }
}
