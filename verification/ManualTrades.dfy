/**
 Trades typed in by hand (src/lib/db/manual-trades.ts): find, insert or update over a table with a
 unique index, by any number of callers whose statements interleave.
 */
module ManualTrades {
  import opened Prelude

  /** What is typed in: the facts the ticket is derived from, and the other columns. */
  datatype Input = Input(identity: string, others: string)

  /** The unique index. A typed trade has no broker account, and such nulls are not distinct. */
  datatype Key = Key(userId: string, account: Option<string>, ticket: string)

  datatype Row = Row(key: Key, facts: Input, journal: string)

  /** A row by its id; deleted rows leave a gap, and ids are never reused. */
  type Table = seq<Option<Row>>

  const MANUAL_TICKET_PREFIX := "manual:"

  predicate IsManualTicket(ticket: string) {
    MANUAL_TICKET_PREFIX <= ticket
  }

  type Hash = string -> string

  function ManualTicket(hash: Hash, input: Input): (ticket: string)
    ensures IsManualTicket(ticket)
  {
    MANUAL_TICKET_PREFIX + hash(input.identity)
  }

  predicate Live(t: Table, id: nat) {
    id < |t| && t[id].Some?
  }

  predicate HasKey(t: Table, id: nat, key: Key) {
    Live(t, id) && t[id].value.key == key
  }

  /** The table of trades, and the accounts there are. */
  datatype Store = Store(rows: Table, users: set<string>)

  // ---------------------------------------------------------------------------
  // Statements, each atomic
  // ---------------------------------------------------------------------------

  function Find(t: Table, key: Key): (id: Option<nat>)
    ensures id.Some? ==> HasKey(t, id.value, key)
    ensures id.None? ==> forall i: nat :: !HasKey(t, i, key)
  {
    if t == [] then None
    else if t[0].Some? && t[0].value.key == key then Some(0)
    else
      var rest := Find(t[1..], key);
      if rest.Some? then Some(rest.value + 1)
      else
        assert forall i: nat :: HasKey(t, i, key) ==> i > 0 && HasKey(t[1..], i - 1, key);
        None
  }

  function SetFacts(t: Table, id: nat, facts: Input): Table
    requires Live(t, id)
  {
    t[id := Some(t[id].value.(facts := facts))]
  }

  function Insert(t: Table, key: Key, facts: Input): Table {
    t + [Some(Row(key, facts, ""))]
  }

  // ---------------------------------------------------------------------------
  // One caller, statement by statement
  // ---------------------------------------------------------------------------

  datatype Call = Call(userId: string, input: Input)

  function CallKey(hash: Hash, c: Call): Key {
    Key(c.userId, None, ManualTicket(hash, c.input))
  }

  /** Where a caller stands between two statements. */
  datatype Phase =
    | Begin
    | Found(id: nat)
    | NotFound
    | Collided
    | Reread(id: nat)
    | Done(id: nat)
    | Threw

  /** Corrects a row; fails when it is gone. */
  function UpdateStep(s: Store, id: nat, facts: Input): (Store, Phase) {
    if Live(s.rows, id) then (s.(rows := SetFacts(s.rows, id, facts)), Done(id)) else (s, Threw)
  }

  /** Inserts a row; fails on the unique index, or when the account is gone. */
  function InsertStep(s: Store, key: Key, facts: Input): (Store, Phase) {
    if Find(s.rows, key).Some? then (s, Collided)
    else if key.userId !in s.users then (s, Threw)
    else (s.(rows := Insert(s.rows, key, facts)), Done(|s.rows|))
  }

  /** The next statement of a caller. */
  function CallStep(hash: Hash, s: Store, c: Call, phase: Phase): (Store, Phase) {
    var key := CallKey(hash, c);
    match phase
    case Begin =>
      var existing := Find(s.rows, key);
      (s, if existing.Some? then Found(existing.value) else NotFound)
    case Found(id) => UpdateStep(s, id, c.input)
    case NotFound => InsertStep(s, key, c.input)
    case Collided =>
      var raced := Find(s.rows, key);
      (s, if raced.Some? then Reread(raced.value) else Threw)
    case Reread(id) => UpdateStep(s, id, c.input)
    case Done(_) => (s, phase)
    case Threw => (s, phase)
  }

  // ---------------------------------------------------------------------------
  // Everybody else
  // ---------------------------------------------------------------------------

  /** Other writers: the sync, the journal, corrections, deletions of a trade and of a whole account. */
  datatype Other =
    | Sync(userId: string, account: string, ticket: string, facts: Input)
    | Journal(id: nat, text: string)
    | Correct(userId: string, id: nat, input: Input)
    | Delete(userId: string, id: nat)
    | CloseAccount(userId: string)

  /** A row the given user typed in. */
  predicate OwnManual(t: Table, id: nat, userId: string) {
    Live(t, id) && t[id].value.key.userId == userId && IsManualTicket(t[id].value.key.ticket)
  }

  function WithoutUser(t: Table, userId: string): (r: Table)
    ensures |r| == |t|
  {
    seq(|t|, i requires 0 <= i < |t| => if t[i].Some? && t[i].value.key.userId == userId then None else t[i])
  }

  /** A statement of others on the rows, given the accounts there are. */
  function RowsStep(t: Table, users: set<string>, e: Other): Table {
    match e
    case Sync(userId, account, ticket, facts) =>
      var key := Key(userId, Some(account), ticket);
      var existing := Find(t, key);
      if existing.Some? then SetFacts(t, existing.value, facts)
      else if userId in users then Insert(t, key, facts)
      else t
    case Journal(id, text) => if Live(t, id) then t[id := Some(t[id].value.(journal := text))] else t
    case Correct(userId, id, input) => if OwnManual(t, id, userId) then SetFacts(t, id, input) else t
    case Delete(userId, id) => if OwnManual(t, id, userId) then t[id := None] else t
    case CloseAccount(userId) => WithoutUser(t, userId)
  }

  function OtherStep(s: Store, e: Other): Store {
    Store(RowsStep(s.rows, s.users, e), if e.CloseAccount? then s.users - {e.userId} else s.users)
  }

  function Others(s: Store, es: seq<Other>): Store {
    if es == [] then s else OtherStep(Others(s, es[..|es| - 1]), es[|es| - 1])
  }

  // ---------------------------------------------------------------------------
  // The code
  // ---------------------------------------------------------------------------

  /** One caller with others in between: find, write, and after a collision find and write again. */
  function CallAmong(
      hash: Hash, s: Store, c: Call, first: seq<Other>, second: seq<Other>, third: seq<Other>): (Store, Phase) {
    var found := CallStep(hash, s, c, Begin);
    var wrote := CallStep(hash, Others(found.0, first), c, found.1);
    if !wrote.1.Collided? then wrote
    else
      var reread := CallStep(hash, Others(wrote.0, second), c, wrote.1);
      if !reread.1.Reread? then reread else CallStep(hash, Others(reread.0, third), c, reread.1)
  }

  class TradeTable {
    var rows: Table
    var users: set<string>

    function Current(): Store
      reads this
    {
      Store(rows, users)
    }

    constructor (initial: Store)
      ensures Current() == initial
    {
      rows, users := initial.rows, initial.users;
    }

    method FindFirst(key: Key) returns (id: Option<nat>)
      ensures id == Find(rows, key)
    {
      var i := 0;
      while i < |rows|
        invariant i <= |rows|
        invariant Find(rows, key) ==
                    (var rest := Find(rows[i..], key); if rest.Some? then Some(rest.value + i) else None)
      {
        if rows[i].Some? && rows[i].value.key == key {
          return Some(i);
        }
        assert rows[i..][1..] == rows[i + 1..];
        i := i + 1;
      }
      id := None;
    }

    /** Fails when the row is gone. */
    method Update(id: nat, facts: Input) returns (phase: Phase)
      modifies this`rows
      ensures (Current(), phase) == UpdateStep(old(Current()), id, facts)
    {
      if id >= |rows| || rows[id].None? {
        return Threw;
      }
      rows := rows[id := Some(rows[id].value.(facts := facts))];
      phase := Done(id);
    }

    /** Fails on the unique index, which is caught, or on the account, which is not. */
    method Create(key: Key, facts: Input) returns (phase: Phase)
      modifies this`rows
      ensures (Current(), phase) == InsertStep(old(Current()), key, facts)
    {
      var clash := FindFirst(key);
      if clash.Some? {
        return Collided;
      }
      if key.userId !in users {
        return Threw;
      }
      rows := rows + [Some(Row(key, facts, ""))];
      phase := Done(|rows| - 1);
    }

    method Upsert(userId: string, account: string, ticket: string, facts: Input)
      modifies this`rows
      ensures rows == RowsStep(old(rows), users, Sync(userId, account, ticket, facts))
    {
      var key := Key(userId, Some(account), ticket);
      var existing := FindFirst(key);
      if existing.Some? {
        rows := rows[existing.value := Some(rows[existing.value].value.(facts := facts))];
      } else if userId in users {
        rows := rows + [Some(Row(key, facts, ""))];
      }
    }

    method UpdateManualTrade(userId: string, id: nat, input: Input) returns (ok: bool)
      modifies this`rows
      ensures ok == OwnManual(old(rows), id, userId)
      ensures rows == RowsStep(old(rows), users, Correct(userId, id, input))
    {
      ok := false;
      if OwnManual(rows, id, userId) {
        rows := rows[id := Some(rows[id].value.(facts := input))];
        ok := true;
      }
    }

    method DeleteManualTrade(userId: string, id: nat) returns (ok: bool)
      modifies this`rows
      ensures ok == OwnManual(old(rows), id, userId)
      ensures rows == RowsStep(old(rows), users, Delete(userId, id))
    {
      ok := OwnManual(rows, id, userId);
      if ok {
        rows := rows[id := None];
      }
    }

    /** Statements of others that run while a caller waits for the database. */
    method OthersRun(es: seq<Other>)
      modifies this
      ensures Current() == Others(old(Current()), es)
    {
      for i := 0 to |es|
        invariant Current() == Others(old(Current()), es[..i])
      {
        assert es[..i + 1][..i] == es[..i];
        match es[i]
        case Sync(userId, account, ticket, facts) =>
          Upsert(userId, account, ticket, facts);
        case Journal(id, text) =>
          if Live(rows, id) {
            rows := rows[id := Some(rows[id].value.(journal := text))];
          }
        case Correct(userId, id, input) =>
          var ok := UpdateManualTrade(userId, id, input);
        case Delete(userId, id) =>
          var ok := DeleteManualTrade(userId, id);
        case CloseAccount(userId) =>
          rows, users := WithoutUser(rows, userId), users - {userId};
      }
      assert es[..|es|] == es;
    }

    method CreateManualTrade(
        hash: Hash, userId: string, input: Input, first: seq<Other>, second: seq<Other>, third: seq<Other>)
      returns (r: Phase)
      modifies this
      ensures (Current(), r) == CallAmong(hash, old(Current()), Call(userId, input), first, second, third)
    {
      var key := Key(userId, None, ManualTicket(hash, input));
      var existing := FindFirst(key);
      OthersRun(first);
      if existing.Some? {
        r := Update(existing.value, input);
        return;
      }
      r := Create(key, input);
      if !r.Collided? {
        return;
      }
      OthersRun(second);
      var raced := FindFirst(key);
      if raced.None? {
        return Threw;
      }
      OthersRun(third);
      r := Update(raced.value, input);
    }
  }
}
