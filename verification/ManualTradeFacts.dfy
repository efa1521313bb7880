/**
 What the laws of typed trades are stated in and rest on: runs of interleaved statements, unique
 keys, what one statement touches and keeps, and the row a waiting caller counts on.

 The laws themselves are in ManualTradeLaws. The source is src/lib/db/manual-trades.ts.
 */
module ManualTradeFacts {
  import opened Prelude
  import opened ManualTrades

  datatype World = World(store: Store, phases: seq<Phase>)

  /** The next statement of one caller, or of anybody else. */
  datatype Event = Turn(p: nat) | Else(other: Other)

  function Next(hash: Hash, calls: seq<Call>, w: World, e: Event): World
    requires |w.phases| == |calls|
  {
    match e
    case Turn(p) =>
      if p >= |calls| then w
      else
        var r := CallStep(hash, w.store, calls[p], w.phases[p]);
        World(r.0, w.phases[p := r.1])
    case Else(other) => w.(store := OtherStep(w.store, other))
  }

  function Run(hash: Hash, calls: seq<Call>, w: World, es: seq<Event>): (r: World)
    requires |w.phases| == |calls|
    ensures |r.phases| == |calls|
  {
    if es == [] then w else Next(hash, calls, Run(hash, calls, w, es[..|es| - 1]), es[|es| - 1])
  }

  // ---------------------------------------------------------------------------
  // The table
  // ---------------------------------------------------------------------------

  /** Every row is the one its key finds: no key is on two rows. */
  ghost predicate UniqueKeys(t: Table) {
    forall id: nat :: Live(t, id) ==> Find(t, t[id].value.key) == Some(id)
  }

  lemma FindIs(t: Table, id: nat, key: Key)
    requires UniqueKeys(t) && HasKey(t, id, key)
    ensures Find(t, key) == Some(id)
  {
  }

  lemma OnlyRowWithKey(t: Table, id: nat, other: nat, key: Key)
    requires UniqueKeys(t) && HasKey(t, id, key) && HasKey(t, other, key)
    ensures id == other
  {
    FindIs(t, id, key);
    FindIs(t, other, key);
  }

  /** The rows of `u` are those of `t`, with their keys, except some that are gone. */
  ghost predicate SameKeys(t: Table, u: Table) {
    |t| == |u| && forall id: nat :: Live(u, id) ==> Live(t, id) && t[id].value.key == u[id].value.key
  }

  lemma SameKeysStayUnique(t: Table, u: Table)
    requires UniqueKeys(t) && SameKeys(t, u)
    ensures UniqueKeys(u)
  {
    forall id: nat | Live(u, id)
      ensures Find(u, u[id].value.key) == Some(id)
    {
      var key := u[id].value.key;
      var found := Find(u, key);
      assert HasKey(u, id, key);
      OnlyRowWithKey(t, id, found.value, key);
    }
  }

  lemma InsertedHasKey(t: Table, key: Key, facts: Input, id: nat, k: Key)
    requires Find(t, key).None?
    ensures HasKey(Insert(t, key, facts), id, k) <==> if id == |t| then k == key else HasKey(t, id, k)
    ensures HasKey(Insert(t, key, facts), id, key) <==> id == |t|
  {
    assert !HasKey(t, id, key);
  }

  lemma InsertStaysUnique(t: Table, key: Key, facts: Input)
    requires UniqueKeys(t) && Find(t, key).None?
    ensures UniqueKeys(Insert(t, key, facts))
  {
    var u := Insert(t, key, facts);
    forall id: nat | Live(u, id)
      ensures Find(u, u[id].value.key) == Some(id)
    {
      var k := u[id].value.key;
      var found := Find(u, k);
      assert HasKey(u, id, k);
      InsertedHasKey(t, key, facts, id, k);
      InsertedHasKey(t, key, facts, found.value, k);
      if k != key {
        OnlyRowWithKey(t, id, found.value, k);
      }
    }
  }

  lemma CallStepStaysUnique(hash: Hash, s: Store, c: Call, phase: Phase)
    requires UniqueKeys(s.rows)
    ensures UniqueKeys(CallStep(hash, s, c, phase).0.rows)
  {
    if phase.NotFound? && Find(s.rows, CallKey(hash, c)).None? {
      InsertStaysUnique(s.rows, CallKey(hash, c), c.input);
    } else {
      SameKeysStayUnique(s.rows, CallStep(hash, s, c, phase).0.rows);
    }
  }

  lemma OtherStepStaysUnique(s: Store, e: Other)
    requires UniqueKeys(s.rows)
    ensures UniqueKeys(OtherStep(s, e).rows)
  {
    if e.Sync? && Find(s.rows, Key(e.userId, Some(e.account), e.ticket)).None? {
      InsertStaysUnique(s.rows, Key(e.userId, Some(e.account), e.ticket), e.facts);
    } else {
      SameKeysStayUnique(s.rows, OtherStep(s, e).rows);
    }
  }

  // ---------------------------------------------------------------------------
  // What a caller's statement touches
  // ---------------------------------------------------------------------------

  /** Ids a caller carries are rows with its key, if they are still there. */
  ghost predicate Knows(t: Table, key: Key, phase: Phase) {
    match phase
    case Found(id) => id < |t| && (Live(t, id) ==> t[id].value.key == key)
    case Reread(id) => id < |t| && (Live(t, id) ==> t[id].value.key == key)
    case Done(id) => id < |t| && (Live(t, id) ==> t[id].value.key == key)
    case _ => true
  }

  /** Rows only ever go away; a new one comes at the end. */
  ghost predicate Grows(t: Table, u: Table) {
    && |t| <= |u|
    && forall id: nat :: id < |t| && Live(u, id) ==> Live(t, id) && t[id].value.key == u[id].value.key
  }

  lemma OtherStepGrows(s: Store, e: Other)
    ensures Grows(s.rows, OtherStep(s, e).rows)
  {
  }

  lemma CallStepGrows(hash: Hash, s: Store, c: Call, phase: Phase)
    ensures Grows(s.rows, CallStep(hash, s, c, phase).0.rows)
  {
  }

  lemma CallStepKnows(hash: Hash, s: Store, c: Call, phase: Phase)
    requires Knows(s.rows, CallKey(hash, c), phase)
    ensures var r := CallStep(hash, s, c, phase); Knows(r.0.rows, CallKey(hash, c), r.1)
  {
  }

  ghost predicate AllKnow(hash: Hash, calls: seq<Call>, w: World) {
    && |w.phases| == |calls|
    && forall p :: 0 <= p < |calls| ==> Knows(w.store.rows, CallKey(hash, calls[p]), w.phases[p])
  }

  lemma GrowingKeepsKnowledge(t: Table, u: Table, key: Key, phase: Phase)
    requires Knows(t, key, phase) && Grows(t, u)
    ensures Knows(u, key, phase)
  {
  }

  lemma NextKeeps(hash: Hash, calls: seq<Call>, w: World, e: Event)
    requires UniqueKeys(w.store.rows) && AllKnow(hash, calls, w)
    ensures var v := Next(hash, calls, w, e); UniqueKeys(v.store.rows) && AllKnow(hash, calls, v)
  {
    var v := Next(hash, calls, w, e);
    match e
    case Turn(p) =>
      if p < |calls| {
        CallStepStaysUnique(hash, w.store, calls[p], w.phases[p]);
        CallStepGrows(hash, w.store, calls[p], w.phases[p]);
        CallStepKnows(hash, w.store, calls[p], w.phases[p]);
      }
    case Else(other) =>
      OtherStepStaysUnique(w.store, other);
      OtherStepGrows(w.store, other);
    forall q | 0 <= q < |calls|
      ensures Knows(v.store.rows, CallKey(hash, calls[q]), v.phases[q])
    {
      if e != Turn(q) {
        GrowingKeepsKnowledge(w.store.rows, v.store.rows, CallKey(hash, calls[q]), w.phases[q]);
      }
    }
  }

  function Started(s: Store, calls: seq<Call>): (w: World)
    ensures |w.phases| == |calls|
  {
    World(s, seq(|calls|, _ => Begin))
  }

  /** A row as it was, but perhaps for its facts. */
  ghost predicate SameButFacts(a: Row, b: Row) {
    a.key == b.key && a.journal == b.journal
  }

  // ---------------------------------------------------------------------------
  // Without deletions
  // ---------------------------------------------------------------------------

  predicate Deletes(e: Event) {
    e.Else? && (e.other.Delete? || e.other.CloseAccount?)
  }

  ghost predicate NoDeletes(es: seq<Event>) {
    forall i :: 0 <= i < |es| ==> !Deletes(es[i])
  }

  /** The row a caller counts on is there. */
  ghost predicate Sure(t: Table, key: Key, phase: Phase) {
    match phase
    case Found(id) => HasKey(t, id, key)
    case Collided => Find(t, key).Some?
    case Reread(id) => HasKey(t, id, key)
    case Done(id) => HasKey(t, id, key)
    case Threw => false
    case _ => true
  }

  ghost predicate AllSure(hash: Hash, calls: seq<Call>, w: World) {
    && |w.phases| == |calls|
    && forall p :: 0 <= p < |calls| && calls[p].userId in w.store.users ==>
         Sure(w.store.rows, CallKey(hash, calls[p]), w.phases[p])
  }

  /** Every row stays, with its key. */
  ghost predicate Stays(t: Table, u: Table) {
    forall id: nat :: Live(t, id) ==> HasKey(u, id, t[id].value.key)
  }

  lemma OtherStepStays(s: Store, e: Other)
    requires !e.Delete? && !e.CloseAccount?
    ensures Stays(s.rows, OtherStep(s, e).rows)
  {
  }

  lemma CallStepStays(hash: Hash, s: Store, c: Call, phase: Phase)
    ensures Stays(s.rows, CallStep(hash, s, c, phase).0.rows)
  {
  }

  lemma StayingKeepsSure(t: Table, u: Table, key: Key, phase: Phase)
    requires Sure(t, key, phase) && Stays(t, u)
    ensures Sure(u, key, phase)
  {
    if phase.Collided? {
      assert HasKey(u, Find(t, key).value, key);
    }
  }

  lemma CallStepSure(hash: Hash, s: Store, c: Call, phase: Phase)
    requires Sure(s.rows, CallKey(hash, c), phase) && c.userId in s.users
    ensures var r := CallStep(hash, s, c, phase); Sure(r.0.rows, CallKey(hash, c), r.1)
  {
  }

  lemma NextSure(hash: Hash, calls: seq<Call>, w: World, e: Event)
    requires AllSure(hash, calls, w) && !Deletes(e)
    ensures AllSure(hash, calls, Next(hash, calls, w, e)) && Next(hash, calls, w, e).store.users == w.store.users
  {
    var v := Next(hash, calls, w, e);
    match e
    case Turn(p) =>
      if p < |calls| {
        CallStepStays(hash, w.store, calls[p], w.phases[p]);
        if calls[p].userId in w.store.users {
          CallStepSure(hash, w.store, calls[p], w.phases[p]);
        }
      }
    case Else(other) =>
      OtherStepStays(w.store, other);
    forall q | 0 <= q < |calls| && calls[q].userId in v.store.users
      ensures Sure(v.store.rows, CallKey(hash, calls[q]), v.phases[q])
    {
      if e != Turn(q) {
        StayingKeepsSure(w.store.rows, v.store.rows, CallKey(hash, calls[q]), w.phases[q]);
      }
    }
  }

  lemma {:induction false} RunSure(hash: Hash, calls: seq<Call>, s: Store, es: seq<Event>)
    requires NoDeletes(es)
    ensures var w := Run(hash, calls, Started(s, calls), es); AllSure(hash, calls, w) && w.store.users == s.users
    decreases es
  {
    if es != [] {
      RunSure(hash, calls, s, es[..|es| - 1]);
      NextSure(hash, calls, Run(hash, calls, Started(s, calls), es[..|es| - 1]), es[|es| - 1]);
    }
  }

  // ---------------------------------------------------------------------------
  // Whose facts
  // ---------------------------------------------------------------------------

  predicate Corrects(e: Event) {
    e.Else? && e.other.Correct?
  }

  ghost predicate NoCorrections(es: seq<Event>) {
    forall i :: 0 <= i < |es| ==> !Corrects(es[i])
  }

  /** The facts are some caller's with this key, entire. */
  ghost predicate FromACaller(hash: Hash, calls: seq<Call>, key: Key, facts: Input) {
    exists q :: 0 <= q < |calls| && CallKey(hash, calls[q]) == key && calls[q].input == facts
  }

  ghost predicate Typed(hash: Hash, calls: seq<Call>, w: World) {
    && |w.phases| == |calls|
    && forall p :: 0 <= p < |calls| && w.phases[p].Done? && Live(w.store.rows, w.phases[p].id) ==>
         FromACaller(hash, calls, CallKey(hash, calls[p]), w.store.rows[w.phases[p].id].value.facts)
  }

  /** A statement writes its own input or leaves the facts alone. */
  lemma TurnWrites(hash: Hash, s: Store, c: Call, phase: Phase, id: nat)
    requires Knows(s.rows, CallKey(hash, c), phase)
    ensures var t := s.rows;
            var r := CallStep(hash, s, c, phase);
            var u := r.0.rows;
            && (Live(t, id) ==> Live(u, id) && (u[id] != t[id] ==> t[id].value.key == CallKey(hash, c)))
            && (Live(u, id) && !(Live(t, id) && u[id] == t[id]) ==>
                  u[id].value.key == CallKey(hash, c) && u[id].value.facts == c.input)
            && (r.1.Done? && !phase.Done? ==> Live(u, r.1.id) && u[r.1.id].value.facts == c.input)
  {
  }

  /** A sync, a journal edit or a deletion leaves the facts of rows without an account alone. */
  lemma OthersLeaveFacts(s: Store, e: Other, id: nat)
    requires !e.Correct? && id < |s.rows|
    requires var u := OtherStep(s, e).rows; Live(u, id) && u[id].value.key.account.None?
    ensures Live(s.rows, id) && OtherStep(s, e).rows[id].value.facts == s.rows[id].value.facts
  {
  }

  lemma NextTyped(hash: Hash, calls: seq<Call>, w: World, e: Event)
    requires AllKnow(hash, calls, w) && Typed(hash, calls, w) && !Corrects(e)
    ensures Typed(hash, calls, Next(hash, calls, w, e))
  {
    var v := Next(hash, calls, w, e);
    forall q | 0 <= q < |calls| && v.phases[q].Done? && Live(v.store.rows, v.phases[q].id)
      ensures FromACaller(hash, calls, CallKey(hash, calls[q]), v.store.rows[v.phases[q].id].value.facts)
    {
      var id := v.phases[q].id;
      assert Knows(w.store.rows, CallKey(hash, calls[q]), w.phases[q]);
      if e.Turn? && e.p < |calls| {
        assert Knows(w.store.rows, CallKey(hash, calls[e.p]), w.phases[e.p]);
        TurnWrites(hash, w.store, calls[e.p], w.phases[e.p], id);
      } else if e.Else? {
        OtherStepGrows(w.store, e.other);
        OthersLeaveFacts(w.store, e.other, id);
      }
    }
  }

  // ---------------------------------------------------------------------------
  // Everybody gets there
  // ---------------------------------------------------------------------------

  /** How many statements a caller still has, at most. */
  function Rank(phase: Phase): nat {
    match phase
    case Begin => 4
    case NotFound => 3
    case Collided => 2
    case Found(_) => 1
    case Reread(_) => 1
    case _ => 0
  }

  function Turns(es: seq<Event>, p: nat): nat {
    if es == [] then 0 else Turns(es[..|es| - 1], p) + if es[|es| - 1] == Turn(p) then 1 else 0
  }

  lemma {:induction false} TurnsCount(hash: Hash, calls: seq<Call>, s: Store, es: seq<Event>, p: nat)
    requires p < |calls|
    ensures var rank := Rank(Run(hash, calls, Started(s, calls), es).phases[p]); rank == 0 || rank + Turns(es, p) <= 4
    decreases es
  {
    if es != [] {
      TurnsCount(hash, calls, s, es[..|es| - 1], p);
    }
  }

  /** The outcome promised for one caller: its id is the one row of its key, holding some caller's facts. */
  ghost predicate Settled(hash: Hash, calls: seq<Call>, w: World, p: nat)
    requires |w.phases| == |calls| && p < |calls|
  {
    && w.phases[p].Done?
    && HasKey(w.store.rows, w.phases[p].id, CallKey(hash, calls[p]))
    && (forall id: nat :: HasKey(w.store.rows, id, CallKey(hash, calls[p])) ==> id == w.phases[p].id)
    && FromACaller(hash, calls, CallKey(hash, calls[p]), w.store.rows[w.phases[p].id].value.facts)
  }

  // ---------------------------------------------------------------------------
  // When a caller ends in an error
  // ---------------------------------------------------------------------------

  /** The row a waiting caller counts on: the one it found, or after a collision any of its key. */
  function Awaited(t: Table, key: Key, phase: Phase): Option<nat> {
    match phase
    case Found(id) => if Live(t, id) then Some(id) else None
    case Reread(id) => if Live(t, id) then Some(id) else None
    case Collided => Find(t, key)
    case _ => None
  }

  predicate Waiting(phase: Phase) {
    phase.Found? || phase.Reread? || phase.Collided?
  }

  /** Before event `d` the row a waiting caller counts on is there; it is a deletion, and takes it away. */
  ghost predicate TakenAway(hash: Hash, calls: seq<Call>, s: Store, es: seq<Event>, p: nat, d: nat)
    requires p < |calls| && d < |es|
  {
    var key := CallKey(hash, calls[p]);
    var w := Run(hash, calls, Started(s, calls), es[..d]);
    var v := Next(hash, calls, w, es[d]);
    && Deletes(es[d]) && Waiting(w.phases[p])
    && Awaited(w.store.rows, key, w.phases[p]).Some? && Awaited(v.store.rows, key, v.phases[p]).None?
  }

  ghost predicate NoTurn(es: seq<Event>, p: nat, from: nat, to: nat) {
    forall k :: from <= k < to && k < |es| ==> es[k] != Turn(p)
  }

  /** Since the caller's last turn, a deletion has taken away the row it was waiting on. */
  ghost predicate TakenSince(hash: Hash, calls: seq<Call>, s: Store, es: seq<Event>, p: nat)
    requires p < |calls|
  {
    exists d :: 0 <= d < |es| && TakenAway(hash, calls, s, es, p, d) && NoTurn(es, p, d, |es|)
  }

  /** And nobody has entered it anew. */
  ghost predicate Stranded(hash: Hash, calls: seq<Call>, s: Store, es: seq<Event>, p: nat)
    requires p < |calls|
  {
    var w := Run(hash, calls, Started(s, calls), es);
    TakenSince(hash, calls, s, es, p) && Awaited(w.store.rows, CallKey(hash, calls[p]), w.phases[p]).None?
  }

  /** A caller's own statement never leaves it waiting on a row that is not there. */
  lemma OwnTurnAwaits(hash: Hash, s: Store, c: Call, phase: Phase)
    ensures var r := CallStep(hash, s, c, phase);
            Waiting(r.1) ==> Awaited(r.0.rows, CallKey(hash, c), r.1).Some?
  {
  }

  /** Only a deletion takes a row away. */
  lemma OnlyDeletionsTake(hash: Hash, calls: seq<Call>, w: World, e: Event, key: Key, phase: Phase)
    requires |w.phases| == |calls| && !Deletes(e)
    requires Awaited(w.store.rows, key, phase).Some?
    ensures Awaited(Next(hash, calls, w, e).store.rows, key, phase).Some?
  {
    match e
    case Turn(p) =>
      if p < |calls| {
        CallStepStays(hash, w.store, calls[p], w.phases[p]);
      }
    case Else(other) =>
      OtherStepStays(w.store, other);
    if phase.Collided? {
      assert HasKey(Next(hash, calls, w, e).store.rows, Find(w.store.rows, key).value, key);
    }
  }

  lemma {:induction false} TakenAwaySnoc(hash: Hash, calls: seq<Call>, s: Store, es: seq<Event>, p: nat, d: nat)
    requires p < |calls| && d < |es| - 1
    ensures TakenAway(hash, calls, s, es, p, d) <==> TakenAway(hash, calls, s, es[..|es| - 1], p, d)
  {
    assert es[..|es| - 1][..d] == es[..d];
  }

  ghost predicate RowMissing(hash: Hash, calls: seq<Call>, w: World, p: nat)
    requires p < |calls| == |w.phases|
  {
    Waiting(w.phases[p]) && Awaited(w.store.rows, CallKey(hash, calls[p]), w.phases[p]).None?
  }

  lemma {:induction false} TakenSinceSnoc(hash: Hash, calls: seq<Call>, s: Store, es: seq<Event>, p: nat)
    requires p < |calls| && es != [] && es[|es| - 1] != Turn(p)
    requires TakenSince(hash, calls, s, es[..|es| - 1], p)
    ensures TakenSince(hash, calls, s, es, p)
  {
    var init := es[..|es| - 1];
    var d :| 0 <= d < |init| && TakenAway(hash, calls, s, init, p, d) && NoTurn(init, p, d, |init|);
    TakenAwaySnoc(hash, calls, s, es, p, d);
    assert NoTurn(es, p, d, |es|) by {
      assert forall k :: d <= k < |init| ==> es[k] == init[k];
    }
  }

  /** One event on from a state in which the row was there, it can only have been taken away. */
  lemma {:induction false} TakenByLast(hash: Hash, calls: seq<Call>, s: Store, es: seq<Event>, p: nat)
    requires p < |calls| && es != [] && es[|es| - 1] != Turn(p)
    requires RowMissing(hash, calls, Run(hash, calls, Started(s, calls), es), p)
    requires !RowMissing(hash, calls, Run(hash, calls, Started(s, calls), es[..|es| - 1]), p)
    ensures TakenAway(hash, calls, s, es, p, |es| - 1)
  {
    var u, e := Run(hash, calls, Started(s, calls), es[..|es| - 1]), es[|es| - 1];
    if !Deletes(e) {
      OnlyDeletionsTake(hash, calls, u, e, CallKey(hash, calls[p]), u.phases[p]);
    }
  }

  /** A waiting caller whose row is not there has had it taken away by a deletion. */
  lemma {:induction false} WhoTookIt(hash: Hash, calls: seq<Call>, s: Store, es: seq<Event>, p: nat)
    requires p < |calls| && RowMissing(hash, calls, Run(hash, calls, Started(s, calls), es), p)
    ensures TakenSince(hash, calls, s, es, p)
    decreases es
  {
    assert es != [];
    var init, e := es[..|es| - 1], es[|es| - 1];
    if e == Turn(p) {
      var u := Run(hash, calls, Started(s, calls), init);
      OwnTurnAwaits(hash, u.store, calls[p], u.phases[p]);
    } else if RowMissing(hash, calls, Run(hash, calls, Started(s, calls), init), p) {
      WhoTookIt(hash, calls, s, init, p);
      TakenSinceSnoc(hash, calls, s, es, p);
    } else {
      TakenByLast(hash, calls, s, es, p);
      assert NoTurn(es, p, |es| - 1, |es|);
    }
  }

  /** A caller on which no turn falls keeps its phase. */
  lemma {:induction false} PhaseKept(hash: Hash, calls: seq<Call>, s: Store, es: seq<Event>, p: nat, d: nat)
    requires p < |calls| && d <= |es| && NoTurn(es, p, d, |es|)
    ensures Run(hash, calls, Started(s, calls), es).phases[p] == Run(hash, calls, Started(s, calls), es[..d]).phases[p]
    decreases es
  {
    if d < |es| {
      var init := es[..|es| - 1];
      assert init[..d] == es[..d];
      PhaseKept(hash, calls, s, init, p, d);
    } else {
      assert es[..d] == es;
    }
  }

  lemma {:induction false} StrandedExactly(hash: Hash, calls: seq<Call>, s: Store, es: seq<Event>, p: nat)
    requires p < |calls|
    ensures Stranded(hash, calls, s, es, p) <==> RowMissing(hash, calls, Run(hash, calls, Started(s, calls), es), p)
  {
    if Stranded(hash, calls, s, es, p) {
      var d :| 0 <= d < |es| && TakenAway(hash, calls, s, es, p, d) && NoTurn(es, p, d, |es|);
      PhaseKept(hash, calls, s, es, p, d);
    }
    if RowMissing(hash, calls, Run(hash, calls, Started(s, calls), es), p) {
      WhoTookIt(hash, calls, s, es, p);
    }
  }

  // ---------------------------------------------------------------------------
  // When an account is gone
  // ---------------------------------------------------------------------------

  /** Rows stand under accounts that exist: the foreign key. */
  ghost predicate Owned(s: Store) {
    forall id: nat :: Live(s.rows, id) ==> s.rows[id].value.key.userId in s.users
  }

  lemma NextOwned(hash: Hash, calls: seq<Call>, w: World, e: Event)
    requires |w.phases| == |calls| && Owned(w.store)
    ensures Owned(Next(hash, calls, w, e).store)
  {
  }

  /** An account is there after a run exactly if it was there before and nobody has deleted it. */
  lemma {:induction false} AccountsLeft(hash: Hash, calls: seq<Call>, s: Store, es: seq<Event>, userId: string)
    requires Owned(s)
    ensures var w := Run(hash, calls, Started(s, calls), es);
            Owned(w.store) && (userId in w.store.users <==> userId in s.users && Else(CloseAccount(userId)) !in es)
    decreases es
  {
    if es != [] {
      var init, e := es[..|es| - 1], es[|es| - 1];
      AccountsLeft(hash, calls, s, init, userId);
      NextOwned(hash, calls, Run(hash, calls, Started(s, calls), init), e);
      assert es == init + [e];
    }
  }

  /** A caller has found no row, and its account has been deleted since, or was never there. */
  ghost predicate Orphaned(hash: Hash, calls: seq<Call>, s: Store, es: seq<Event>, p: nat)
    requires p < |calls|
  {
    && Run(hash, calls, Started(s, calls), es).phases[p].NotFound?
    && (calls[p].userId in s.users ==> Else(CloseAccount(calls[p].userId)) in es)
  }

  /** At one of the caller's own turns, a deletion had taken away the row it was waiting on, or the account. */
  ghost predicate FailedAt(hash: Hash, calls: seq<Call>, s: Store, es: seq<Event>, p: nat, u: nat)
    requires p < |calls| && u < |es|
  {
    es[u] == Turn(p) && (Stranded(hash, calls, s, es[..u], p) || Orphaned(hash, calls, s, es[..u], p))
  }

  ghost predicate OnceFailed(hash: Hash, calls: seq<Call>, s: Store, es: seq<Event>, p: nat)
    requires p < |calls|
  {
    exists u :: 0 <= u < |es| && FailedAt(hash, calls, s, es, p, u)
  }

  lemma {:induction false} FailedAtSnoc(hash: Hash, calls: seq<Call>, s: Store, es: seq<Event>, p: nat, u: nat)
    requires p < |calls| && u < |es| - 1
    ensures FailedAt(hash, calls, s, es, p, u) <==> FailedAt(hash, calls, s, es[..|es| - 1], p, u)
  {
    assert es[..|es| - 1][..u] == es[..u];
  }

  lemma {:induction false} OnceFailedSnoc(hash: Hash, calls: seq<Call>, s: Store, es: seq<Event>, p: nat)
    requires p < |calls| && es != []
    ensures var init := es[..|es| - 1];
            OnceFailed(hash, calls, s, es, p) <==>
              OnceFailed(hash, calls, s, init, p) || FailedAt(hash, calls, s, es, p, |init|)
  {
    var init := es[..|es| - 1];
    if OnceFailed(hash, calls, s, es, p) {
      var u :| 0 <= u < |es| && FailedAt(hash, calls, s, es, p, u);
      if u < |init| {
        FailedAtSnoc(hash, calls, s, es, p, u);
      }
    }
    if OnceFailed(hash, calls, s, init, p) {
      var u :| 0 <= u < |init| && FailedAt(hash, calls, s, init, p, u);
      FailedAtSnoc(hash, calls, s, es, p, u);
    }
  }

  /** Without its account a caller finds no row either, and its insert fails on the foreign key. */
  lemma {:induction false} OrphanedExactly(hash: Hash, calls: seq<Call>, s: Store, es: seq<Event>, p: nat)
    requires p < |calls| && Owned(s)
    ensures var w := Run(hash, calls, Started(s, calls), es);
            Orphaned(hash, calls, s, es, p) <==>
              w.phases[p].NotFound? && CallStep(hash, w.store, calls[p], w.phases[p]).1.Threw?
  {
    AccountsLeft(hash, calls, s, es, calls[p].userId);
  }

  lemma {:induction false} ThrewSnoc(hash: Hash, calls: seq<Call>, s: Store, es: seq<Event>, p: nat)
    requires p < |calls| && es != [] && Owned(s)
    ensures var init := es[..|es| - 1];
            Run(hash, calls, Started(s, calls), es).phases[p].Threw? <==>
              Run(hash, calls, Started(s, calls), init).phases[p].Threw? || FailedAt(hash, calls, s, es, p, |init|)
  {
    StrandedExactly(hash, calls, s, es[..|es| - 1], p);
    OrphanedExactly(hash, calls, s, es[..|es| - 1], p);
  }
}
