/** The fixed-window rate limiter (src/lib/db/rate-limit.ts). */
module RateLimit {
  // One row a key, and one SQL statement a call.

  import opened Prelude

  datatype Row = Row(count: nat, windowStart: int, expiresAt: int)

  type Table = map<string, Row>

  datatype Verdict = Verdict(allowed: bool, retryAfterMs: int, remaining: int)

  // ---------------------------------------------------------------------------
  // The statements, as functions of the table
  // ---------------------------------------------------------------------------

  predicate IsLive(t: Table, key: string, now: int) {
    key in t && t[key].expiresAt > now
  }

  /** The row a call leaves behind: one more in a live window, else the first of a new one. */
  function Charged(t: Table, key: string, windowMs: int, now: int): Row {
    if IsLive(t, key, now) then t[key].(count := t[key].count + 1) else Row(1, now, now + windowMs)
  }

  function VerdictOn(row: Row, limit: int, now: int): Verdict {
    if row.count > limit then Verdict(false, if row.expiresAt > now then row.expiresAt - now else 0, 0)
    else Verdict(true, 0, limit - row.count)
  }

  function Unexpired(t: Table, now: int): Table {
    map key | key in t && t[key].expiresAt > now :: t[key]
  }

  class RateLimits {
    var rows: Table

    constructor ()
      ensures rows == map[]
    {
      rows := map[];
    }

    /** `INSERT … ON CONFLICT (key) DO UPDATE … RETURNING`, and the verdict read off the row. */
    method ConsumeRateLimit(key: string, limit: int, windowMs: int, now: int) returns (v: Verdict)
      modifies this
      ensures rows == Step(old(rows), Consume(key, limit, windowMs, now))
      ensures [v] == Answer(old(rows), Consume(key, limit, windowMs, now))
    {
      var windowEnd := now + windowMs;
      if key !in rows {
        rows := rows[key := Row(1, now, windowEnd)];
      } else {
        var expired := rows[key].expiresAt <= now;
        var count := if expired then 1 else rows[key].count + 1;
        var windowStart := if expired then now else rows[key].windowStart;
        var expiresAt := if expired then windowEnd else rows[key].expiresAt;
        rows := rows[key := Row(count, windowStart, expiresAt)];
      }
      var row := rows[key];
      if row.count > limit {
        var wait := row.expiresAt - now;
        return Verdict(false, if wait > 0 then wait else 0, 0);
      }
      v := Verdict(true, 0, limit - row.count);
    }

    method ResetRateLimit(key: string)
      modifies this
      ensures forall at :: rows == Step(old(rows), Reset(key, at))
    {
      rows := rows - {key};
    }

    method PruneExpiredRateLimits(now: int) returns (count: nat)
      modifies this
      ensures rows == Step(old(rows), Prune(now))
      ensures count == |old(rows)| - |rows|
    {
      var expired := set key | key in rows && rows[key].expiresAt <= now;
      var before := rows;
      rows := rows - expired;
      assert before.Keys == rows.Keys + expired;
      count := |expired|;
    }
  }

  // ---------------------------------------------------------------------------
  // Runs
  // ---------------------------------------------------------------------------

  datatype Event =
    | Consume(key: string, limit: int, windowMs: int, at: int)
    | Reset(key: string, at: int)
    | Prune(at: int)

  function Step(t: Table, e: Event): Table {
    match e
    case Consume(key, _, windowMs, at) => t[key := Charged(t, key, windowMs, at)]
    case Reset(key, _) => t - {key}
    case Prune(at) => Unexpired(t, at)
  }

  function Answer(t: Table, e: Event): seq<Verdict> {
    if e.Consume? then [VerdictOn(Charged(t, e.key, e.windowMs, e.at), e.limit, e.at)] else []
  }

  function After(t: Table, es: seq<Event>): Table
    decreases es
  {
    if es == [] then t else After(Step(t, es[0]), es[1..])
  }

  /** Every verdict of a run, in order. */
  function Answers(t: Table, es: seq<Event>): seq<Verdict>
    decreases es
  {
    if es == [] then [] else Answer(t, es[0]) + Answers(Step(t, es[0]), es[1..])
  }

  ghost predicate Monotone(es: seq<Event>, from: int) {
    es == [] || (from <= es[0].at && Monotone(es[1..], es[0].at))
  }

  // ---------------------------------------------------------------------------
  // The prune is unobservable
  // ---------------------------------------------------------------------------

  function WithoutPrunes(es: seq<Event>): seq<Event> {
    if es == [] then []
    else if es[0].Prune? then WithoutPrunes(es[1..])
    else [es[0]] + WithoutPrunes(es[1..])
  }

  /** The same rows, as far as anything from `now` on can tell. */
  ghost predicate SameLive(t: Table, u: Table, now: int) {
    forall key :: IsLive(t, key, now) || IsLive(u, key, now) ==>
        IsLive(t, key, now) && IsLive(u, key, now) && t[key] == u[key]
  }

  lemma SameLiveStep(t: Table, u: Table, e: Event, now: int)
    requires SameLive(t, u, now) && now <= e.at
    ensures !e.Prune? ==> SameLive(Step(t, e), Step(u, e), e.at) && Answer(t, e) == Answer(u, e)
    ensures e.Prune? ==> SameLive(Step(t, e), u, e.at)
  {
    assert SameLive(t, u, e.at) by {
      forall key | IsLive(t, key, e.at) || IsLive(u, key, e.at)
        ensures IsLive(t, key, e.at) && IsLive(u, key, e.at) && t[key] == u[key]
      {
        assert IsLive(t, key, now) || IsLive(u, key, now);
      }
    }
    if e.Consume? {
      assert IsLive(t, e.key, e.at) == IsLive(u, e.key, e.at);
    }
  }

  lemma {:induction false} RunsAgree(t: Table, u: Table, es: seq<Event>, now: int) returns (end: int)
    requires SameLive(t, u, now) && Monotone(es, now)
    ensures Answers(t, es) == Answers(u, WithoutPrunes(es))
    ensures end == (if es == [] then now else es[|es| - 1].at)
    ensures SameLive(After(t, es), After(u, WithoutPrunes(es)), end)
    decreases es
  {
    if es == [] {
      end := now;
    } else {
      SameLiveStep(t, u, es[0], now);
      var rest := WithoutPrunes(es[1..]);
      if es[0].Prune? {
        end := RunsAgree(Step(t, es[0]), u, es[1..], es[0].at);
      } else {
        end := RunsAgree(Step(t, es[0]), Step(u, es[0]), es[1..], es[0].at);
        assert ([es[0]] + rest)[1..] == rest;
      }
    }
  }

  /**
   Two runs that make the same calls and resets give the same verdicts, `remaining` and
   `retryAfterMs` included, wherever and however often either of them was swept.
   */
  lemma PruneIsUnobservable(t: Table, swept: seq<Event>, unswept: seq<Event>, from: int)
    requires Monotone(swept, from) && Monotone(unswept, from)
    requires WithoutPrunes(swept) == WithoutPrunes(unswept)
    ensures Answers(t, swept) == Answers(t, unswept)
  {
    var _ := RunsAgree(t, t, swept, from);
    var _ := RunsAgree(t, t, unswept, from);
  }

  /** A row is removed exactly if, from then on, no call could tell that it is gone. */
  lemma PruneRemovesTheForgotten(t: Table, key: string, at: int)
    requires key in t
    ensures key !in Step(t, Prune(at)) <==>
            forall limit, windowMs, later: int :: later >= at ==>
              Answer(t, Consume(key, limit, windowMs, later)) == Answer(t - {key}, Consume(key, limit, windowMs, later))
    ensures key in Step(t, Prune(at)) ==> Step(t, Prune(at))[key] == t[key]
  {
    if t[key].expiresAt > at {
      var call := Consume(key, 0, t[key].expiresAt - at + 1, at);
      assert Answer(t, call) != Answer(t - {key}, call);
    }
  }

  // ---------------------------------------------------------------------------
  // Every verdict, from the calls alone
  // ---------------------------------------------------------------------------

  /** The window of a key's latest call: when it opened, when it closes, and how many calls it has had. */
  datatype Window = Window(start: int, end: int, calls: nat)

  /** A call falls into the window that is open, or opens a new one. */
  function Joined(w: Option<Window>, windowMs: int, at: int): Window {
    if w.Some? && at < w.value.end then w.value.(calls := w.value.calls + 1) else Window(at, at + windowMs, 1)
  }

  /** The window of the latest call on a key, told from the events and from no row. */
  function LatestWindow(es: seq<Event>, key: string): Option<Window> {
    if es == [] then None
    else
      var before := LatestWindow(es[..|es| - 1], key);
      match es[|es| - 1]
      case Consume(k, _, windowMs, at) => if k == key then Some(Joined(before, windowMs, at)) else before
      case Reset(k, _) => if k == key then None else before
      case Prune(_) => before
  }

  /** As far as anything from `now` on can tell, the key's row is its latest window. */
  ghost predicate RowIsWindow(t: Table, key: string, w: Option<Window>, now: int) {
    && (IsLive(t, key, now) <==> w.Some? && w.value.end > now)
    && (IsLive(t, key, now) ==> t[key] == Row(w.value.calls, w.value.start, w.value.end))
  }

  function EndOf(es: seq<Event>, from: int): int {
    if es == [] then from else es[|es| - 1].at
  }

  lemma {:induction false} AfterSnoc(t: Table, es: seq<Event>, e: Event)
    ensures After(t, es + [e]) == Step(After(t, es), e)
    decreases es
  {
    if es == [] {
      assert ([] + [e])[1..] == [];
    } else {
      assert (es + [e])[1..] == es[1..] + [e];
      AfterSnoc(Step(t, es[0]), es[1..], e);
    }
  }

  lemma WindowStep(t: Table, key: string, es: seq<Event>, e: Event, now: int)
    requires RowIsWindow(t, key, LatestWindow(es, key), now) && now <= e.at
    ensures RowIsWindow(Step(t, e), key, LatestWindow(es + [e], key), e.at)
  {
    assert (es + [e])[..|es|] == es;
  }

  lemma {:induction false} RowFollowsWindow(t: Table, key: string, es: seq<Event>, from: int)
    requires key !in t && Monotone(es, from)
    ensures RowIsWindow(After(t, es), key, LatestWindow(es, key), EndOf(es, from))
    decreases es
  {
    if es != [] {
      var init, last := es[..|es| - 1], es[|es| - 1];
      assert es == init + [last];
      MonotoneSplit(init, last, from);
      RowFollowsWindow(t, key, init, from);
      AfterSnoc(t, init, last);
      WindowStep(After(t, init), key, init, last, EndOf(init, from));
    }
  }

  /** The last answer of a run is the answer to its last call. */
  lemma {:induction false} AnswersSnoc(t: Table, es: seq<Event>, e: Event)
    ensures Answers(t, es + [e]) == Answers(t, es) + Answer(After(t, es), e)
    decreases es
  {
    if es == [] {
      assert [] + [e] == [e] && [e][1..] == [];
    } else {
      assert (es + [e])[1..] == es[1..] + [e];
      AnswersSnoc(Step(t, es[0]), es[1..], e);
    }
  }

  /**
   Every verdict of every run, from the calls alone: the n-th call of a window is allowed exactly
   while n is within its limit, with what then remains, and refused until the window closes.
   */
  lemma VerdictFromHistory(t: Table, es: seq<Event>, key: string, limit: int, windowMs: int, at: int, from: int)
    requires key !in t && Monotone(es + [Consume(key, limit, windowMs, at)], from)
    ensures var w := Joined(LatestWindow(es, key), windowMs, at);
            Answer(After(t, es), Consume(key, limit, windowMs, at)) ==
            [if w.calls <= limit then Verdict(true, 0, limit - w.calls)
             else Verdict(false, if at < w.end then w.end - at else 0, 0)]
  {
    MonotoneSplit(es, Consume(key, limit, windowMs, at), from);
    RowFollowsWindow(t, key, es, from);
  }

  predicate IsCall(e: Event, key: string) {
    e.Consume? && e.key == key
  }

  /** How many calls on a key come at an instant or later. */
  function CallsSince(es: seq<Event>, key: string, at: int): nat {
    if es == [] then 0
    else CallsSince(es[..|es| - 1], key, at) + if IsCall(es[|es| - 1], key) && es[|es| - 1].at >= at then 1 else 0
  }

  lemma {:induction false} NoCallsSince(es: seq<Event>, key: string, at: int)
    requires forall e :: e in es && IsCall(e, key) ==> e.at < at
    ensures CallsSince(es, key, at) == 0
  {
    if es != [] {
      var init := es[..|es| - 1];
      assert forall e :: e in init ==> e in es;
      NoCallsSince(init, key, at);
    }
  }

  /** The latest window is a window long, has been open for some time, and no call is later than its end. */
  ghost predicate WindowFits(es: seq<Event>, key: string, windowMs: int, now: int) {
    match LatestWindow(es, key)
    case None => forall e :: e in es ==> !IsCall(e, key)
    case Some(w) =>
      && w.start <= now && w.end == w.start + windowMs && w.calls == CallsSince(es, key, w.start)
      && forall e :: e in es && IsCall(e, key) ==> e.at < w.end
  }

  lemma {:induction false} WindowFitsStep(es: seq<Event>, e: Event, key: string, limit: nat, windowMs: int, now: int)
    requires WindowFits(es, key, windowMs, now) && now <= e.at
    requires windowMs > 0 && Obeys(e, key, limit, windowMs)
    ensures WindowFits(es + [e], key, windowMs, e.at)
  {
    var more := es + [e];
    assert more[..|more| - 1] == es && more[|more| - 1] == e;
    var before, after := LatestWindow(es, key), LatestWindow(more, key);
    if !IsCall(e, key) {
      assert after == before;
    } else if before.Some? && e.at < before.value.end {
      assert CallsSince(more, key, after.value.start) == CallsSince(es, key, before.value.start) + 1;
    } else {
      NoCallsSince(es, key, e.at);
      assert CallsSince(more, key, e.at) == CallsSince(es, key, e.at) + 1;
    }
  }

  /** Without resets, the number of a call in its window is the number of calls since the window opened. */
  lemma {:induction false} WindowsCountCalls(es: seq<Event>, key: string, limit: nat, windowMs: int, from: int)
    requires windowMs > 0 && Monotone(es, from) && OnPolicy(es, key, limit, windowMs)
    ensures WindowFits(es, key, windowMs, EndOf(es, from))
    decreases es
  {
    if es != [] {
      var init, last := es[..|es| - 1], es[|es| - 1];
      assert es == init + [last];
      assert Obeys(last, key, limit, windowMs);
      MonotoneSplit(init, last, from);
      WindowsCountCalls(init, key, limit, windowMs, from);
      WindowFitsStep(init, last, key, limit, windowMs, EndOf(init, from));
    }
  }

  // ---------------------------------------------------------------------------
  // The sliding bound
  // ---------------------------------------------------------------------------

  /** A call answered "allowed", with the start of the window it was charged to. */
  datatype Charge = Charge(at: int, windowStart: int)

  /** Every call on `key` uses this limit and window, and the key is never reset. */
  ghost predicate Obeys(e: Event, key: string, limit: nat, windowMs: int) {
    && (e.Consume? && e.key == key ==> e.limit == limit && e.windowMs == windowMs)
    && !(e.Reset? && e.key == key)
  }

  ghost predicate OnPolicy(es: seq<Event>, key: string, limit: nat, windowMs: int) {
    forall e :: e in es ==> Obeys(e, key, limit, windowMs)
  }

  function ChargeOf(t: Table, e: Event, key: string): seq<Charge> {
    if e.Consume? && e.key == key && Answer(t, e)[0].allowed
    then [Charge(e.at, Charged(t, key, e.windowMs, e.at).windowStart)] else []
  }

  /** The calls on `key` that a run allows. */
  function Allowed(t: Table, es: seq<Event>, key: string): seq<Charge>
    decreases es
  {
    if es == [] then [] else ChargeOf(t, es[0], key) + Allowed(Step(t, es[0]), es[1..], key)
  }

  function Min(a: int, b: int): int {
    if a <= b then a else b
  }

  /** The last `held` charges went to the window at `start`, all others to windows over by then. */
  ghost predicate Tail(cs: seq<Charge>, held: nat, start: int, windowMs: int) {
    && held <= |cs|
    && (forall i :: 0 <= i < |cs| - held ==> cs[i].windowStart + windowMs <= start)
    && (forall i :: |cs| - held <= i < |cs| ==> cs[i].windowStart == start)
  }

  ghost predicate AllBy(cs: seq<Charge>, now: int) {
    forall i :: 0 <= i < |cs| ==> cs[i].at <= now
  }

  /**
   Charge by charge: in time order, inside its window, and either the latest window goes on
   and held fewer than `limit` charges, or a new one starts after all earlier ones are over.
   */
  ghost predicate Windowed(cs: seq<Charge>, limit: nat, windowMs: int) {
    cs == [] ||
    var init, c := cs[..|cs| - 1], cs[|cs| - 1];
    && Windowed(init, limit, windowMs)
    && c.windowStart <= c.at < c.windowStart + windowMs
    && AllBy(init, c.at)
    && exists held: nat :: held < limit && Tail(init, held, c.windowStart, windowMs)
  }

  /** How the key's row accounts for the charges so far. */
  ghost predicate Accounts(t: Table, key: string, cs: seq<Charge>, limit: nat, windowMs: int, now: int) {
    && Windowed(cs, limit, windowMs)
    && AllBy(cs, now)
    && (if key in t then RowAccounts(t[key], cs, limit, windowMs, now) else Tail(cs, 0, now, windowMs))
  }

  ghost predicate RowAccounts(row: Row, cs: seq<Charge>, limit: nat, windowMs: int, now: int) {
    && row.count >= 1
    && row.windowStart <= now
    && row.expiresAt == row.windowStart + windowMs
    && Tail(cs, Min(row.count, limit), row.windowStart, windowMs)
  }

  /** Once a window is over, nothing is charged to the present. */
  lemma TailIsOver(t: Table, key: string, cs: seq<Charge>, limit: nat, windowMs: int, now: int, at: int)
    requires Accounts(t, key, cs, limit, windowMs, now) && windowMs > 0 && now <= at
    requires !IsLive(t, key, at)
    ensures Tail(cs, 0, at, windowMs)
  {
  }

  lemma CallAccounts(t: Table, at: int, key: string, cs: seq<Charge>, limit: nat, windowMs: int, now: int)
    requires Accounts(t, key, cs, limit, windowMs, now)
    requires now <= at && windowMs > 0
    ensures var row := Charged(t, key, windowMs, at);
            && (row.count > limit ==> RowAccounts(row, cs, limit, windowMs, at))
            && (row.count <= limit ==> Tail(cs, row.count - 1, row.windowStart, windowMs))
            && row.windowStart <= at < row.windowStart + windowMs
            && row.expiresAt == row.windowStart + windowMs
            && row.count >= 1
  {
    if !IsLive(t, key, at) {
      TailIsOver(t, key, cs, limit, windowMs, now, at);
    }
  }

  lemma ChargeAccounts(row: Row, at: int, cs: seq<Charge>, limit: nat, windowMs: int)
    requires Windowed(cs, limit, windowMs) && AllBy(cs, at)
    requires 1 <= row.count <= limit && row.expiresAt == row.windowStart + windowMs
    requires Tail(cs, row.count - 1, row.windowStart, windowMs)
    requires row.windowStart <= at < row.windowStart + windowMs
    ensures var cs' := cs + [Charge(at, row.windowStart)];
            Windowed(cs', limit, windowMs) && AllBy(cs', at) && RowAccounts(row, cs', limit, windowMs, at)
  {
    var cs' := cs + [Charge(at, row.windowStart)];
    assert cs'[..|cs'| - 1] == cs;
    assert forall i :: 0 <= i < |cs| ==> cs'[i] == cs[i];
  }

  lemma AccountsStep(t: Table, e: Event, key: string, cs: seq<Charge>, limit: nat, windowMs: int, now: int)
    requires Accounts(t, key, cs, limit, windowMs, now)
    requires now <= e.at && windowMs > 0
    requires Obeys(e, key, limit, windowMs)
    ensures Accounts(Step(t, e), key, cs + ChargeOf(t, e, key), limit, windowMs, e.at)
  {
    assert AllBy(cs, e.at);
    if e.Consume? && e.key == key {
      CallAccounts(t, e.at, key, cs, limit, windowMs, now);
      var row := Charged(t, key, windowMs, e.at);
      if row.count <= limit {
        ChargeAccounts(row, e.at, cs, limit, windowMs);
      } else {
        assert cs + ChargeOf(t, e, key) == cs;
      }
    } else {
      assert cs + ChargeOf(t, e, key) == cs;
      OtherEventAccounts(t, e, key, cs, limit, windowMs, now);
    }
  }

  lemma OtherEventAccounts(t: Table, e: Event, key: string, cs: seq<Charge>, limit: nat, windowMs: int, now: int)
    requires Accounts(t, key, cs, limit, windowMs, now)
    requires now <= e.at && windowMs > 0
    requires !(e.Consume? && e.key == key) && !(e.Reset? && e.key == key)
    ensures Accounts(Step(t, e), key, cs, limit, windowMs, e.at)
  {
    if !IsLive(t, key, e.at) {
      TailIsOver(t, key, cs, limit, windowMs, now, e.at);
    }
    assert key in Step(t, e) ==> key in t && Step(t, e)[key] == t[key];
    assert IsLive(t, key, e.at) ==> key in Step(t, e);
    if key in t && key !in Step(t, e) {
      assert e.Prune?;
    }
  }

  lemma Associative<T>(a: seq<T>, b: seq<T>, c: seq<T>)
    ensures (a + b) + c == a + (b + c)
  {
  }

  lemma {:induction false} AccountsRun(
      t: Table, es: seq<Event>, key: string, cs: seq<Charge>, limit: nat, windowMs: int, now: int)
    requires Accounts(t, key, cs, limit, windowMs, now)
    requires Monotone(es, now) && windowMs > 0
    requires OnPolicy(es, key, limit, windowMs)
    ensures Windowed(cs + Allowed(t, es, key), limit, windowMs)
    decreases es
  {
    if es == [] {
      assert cs + Allowed(t, es, key) == cs;
    } else {
      assert es[0] in es;
      assert OnPolicy(es[1..], key, limit, windowMs);
      AccountsStep(t, es[0], key, cs, limit, windowMs, now);
      var c, rest := ChargeOf(t, es[0], key), Allowed(Step(t, es[0]), es[1..], key);
      AccountsRun(Step(t, es[0]), es[1..], key, cs + c, limit, windowMs, es[0].at);
      assert cs + Allowed(t, es, key) == (cs + c) + rest by {
        Associative(cs, c, rest);
      }
    }
  }

  function CountIn(cs: seq<Charge>, lo: int, hi: int): nat {
    if cs == [] then 0
    else CountIn(cs[..|cs| - 1], lo, hi) + (if lo <= cs[|cs| - 1].at <= hi then 1 else 0)
  }

  lemma {:induction false} CountAtMost(cs: seq<Charge>, lo: int, hi: int, m: nat)
    requires m >= 1
    requires forall i, j :: 0 <= i && i + m == j < |cs| ==> cs[j].at - cs[i].at > hi - lo
    requires forall i, j :: 0 <= i < j < |cs| ==> cs[i].at <= cs[j].at
    ensures CountIn(cs, lo, hi) <= m
  {
    var n := |cs|;
    if n <= m {
      CountAtMostLength(cs, lo, hi);
    } else if cs[n - 1].at > hi {
      CountAtMost(cs[..n - 1], lo, hi, m);
    } else {
      assert cs[n - 1].at - cs[n - 1 - m].at > hi - lo;
      CountDrop(cs, lo, hi, n - m);
    }
  }

  lemma {:induction false} CountAtMostLength(cs: seq<Charge>, lo: int, hi: int)
    ensures CountIn(cs, lo, hi) <= |cs|
  {
    if cs != [] {
      CountAtMostLength(cs[..|cs| - 1], lo, hi);
    }
  }

  /** Nothing before index `k` lies in the range, except possibly the charge at `k - 1`. */
  lemma {:induction false} CountDrop(cs: seq<Charge>, lo: int, hi: int, k: nat)
    requires k <= |cs|
    requires forall i :: 0 <= i < k ==> cs[i].at < lo
    ensures CountIn(cs, lo, hi) <= |cs| - k
    decreases |cs|
  {
    if |cs| > 0 {
      if |cs| == k {
        CountDrop(cs[..k - 1], lo, hi, k - 1);
      } else {
        CountDrop(cs[..|cs| - 1], lo, hi, k);
      }
    }
  }

  /** Any two charges share a window, or the later one's window starts a window length on. */
  lemma {:induction false} WindowsApart(cs: seq<Charge>, limit: nat, windowMs: int, i: nat, j: nat)
    requires Windowed(cs, limit, windowMs)
    requires i < j < |cs|
    ensures cs[i].at <= cs[j].at
    ensures cs[i].windowStart <= cs[i].at < cs[i].windowStart + windowMs
    ensures cs[j].windowStart <= cs[j].at < cs[j].windowStart + windowMs
    ensures cs[i].windowStart == cs[j].windowStart || cs[i].windowStart + windowMs <= cs[j].windowStart
    ensures i + limit <= j ==> cs[i].windowStart + windowMs <= cs[j].windowStart
    decreases |cs|
  {
    var init, c := cs[..|cs| - 1], cs[|cs| - 1];
    if j < |cs| - 1 {
      WindowsApart(init, limit, windowMs, i, j);
    } else {
      var held: nat :| held < limit && Tail(init, held, c.windowStart, windowMs);
      assert init[i] == cs[i];
      ChargeInWindow(init, limit, windowMs, i);
    }
  }

  lemma {:induction false} ChargeInWindow(cs: seq<Charge>, limit: nat, windowMs: int, i: nat)
    requires Windowed(cs, limit, windowMs) && i < |cs|
    ensures cs[i].windowStart <= cs[i].at < cs[i].windowStart + windowMs
    decreases |cs|
  {
    if i < |cs| - 1 {
      ChargeInWindow(cs[..|cs| - 1], limit, windowMs, i);
    }
  }

  /**
   In every run on a key that is never reset, allowed calls fall into windows that start at
   least a window length apart, and no window is charged more than `limit` of them.
   */
  lemma WindowsHoldTheLimit(t: Table, es: seq<Event>, key: string, limit: nat, windowMs: int, from: int)
    requires windowMs > 0 && key !in t
    requires Monotone(es, from) && OnPolicy(es, key, limit, windowMs)
    ensures var cs := Allowed(t, es, key);
      && (forall i, j :: 0 <= i < j < |cs| ==>
            cs[i].windowStart == cs[j].windowStart || cs[i].windowStart + windowMs <= cs[j].windowStart)
      && (forall i, j :: 0 <= i < j < |cs| && i + limit <= j ==> cs[i].windowStart != cs[j].windowStart)
  {
    var cs := AllowedIsWindowed(t, es, key, limit, windowMs, from);
    forall i, j | 0 <= i < j < |cs|
      ensures cs[i].windowStart == cs[j].windowStart || cs[i].windowStart + windowMs <= cs[j].windowStart
      ensures i + limit <= j ==> cs[i].windowStart != cs[j].windowStart
    {
      WindowsApart(cs, limit, windowMs, i, j);
    }
  }

  lemma AllowedIsWindowed(t: Table, es: seq<Event>, key: string, limit: nat, windowMs: int, from: int)
    returns (cs: seq<Charge>)
    requires windowMs > 0 && key !in t
    requires Monotone(es, from) && OnPolicy(es, key, limit, windowMs)
    ensures cs == Allowed(t, es, key) && Windowed(cs, limit, windowMs)
  {
    cs := Allowed(t, es, key);
    AccountsRun(t, es, key, [], limit, windowMs, from);
    assert [] + cs == cs;
  }

  /**
   In every run on a key that is never reset, a closed interval one window long holds at most
   twice the limit of allowed calls, wherever it is placed and whatever is swept.
   */
  lemma SlidingBound(t: Table, es: seq<Event>, key: string, limit: nat, windowMs: int, from: int, lo: int)
    requires windowMs > 0 && key !in t
    requires Monotone(es, from) && OnPolicy(es, key, limit, windowMs)
    ensures CountIn(Allowed(t, es, key), lo, lo + windowMs) <= 2 * limit
  {
    var cs := AllowedIsWindowed(t, es, key, limit, windowMs, from);
    if limit == 0 {
      assert cs == [];
    } else {
      forall i, j | 0 <= i && i + 2 * limit == j < |cs|
        ensures cs[j].at - cs[i].at > windowMs
      {
        WindowsApart(cs, limit, windowMs, i, i + limit);
        WindowsApart(cs, limit, windowMs, i + limit, j);
      }
      forall i, j | 0 <= i < j < |cs|
        ensures cs[i].at <= cs[j].at
      {
        WindowsApart(cs, limit, windowMs, i, j);
      }
      CountAtMost(cs, lo, lo + windowMs, 2 * limit);
    }
  }

  // ---------------------------------------------------------------------------
  // The bound is reached
  // ---------------------------------------------------------------------------

  function Calls(n: nat, key: string, limit: nat, windowMs: int, at: int): seq<Event> {
    if n == 0 then [] else [Consume(key, limit, windowMs, at)] + Calls(n - 1, key, limit, windowMs, at)
  }

  /** `limit` calls as a window opens and `limit` more the moment it closes. */
  function Burst(key: string, limit: nat, windowMs: int): seq<Event> {
    Calls(limit, key, limit, windowMs, 0) + Calls(limit, key, limit, windowMs, windowMs)
  }

  lemma OneCallAllowed(t: Table, used: nat, key: string, limit: nat, windowMs: int, at: int)
    requires windowMs > 0 && used < limit
    requires if used == 0 then !IsLive(t, key, at) else IsLive(t, key, at) && t[key] == Row(used, at, at + windowMs)
    ensures var e := Consume(key, limit, windowMs, at);
            && IsLive(Step(t, e), key, at) && Step(t, e)[key] == Row(used + 1, at, at + windowMs)
            && ChargeOf(t, e, key) == [Charge(at, at)]
  {
  }

  lemma {:induction false} CallsAllowed(
      t: Table, n: nat, used: nat, key: string, limit: nat, windowMs: int, at: int, tail: seq<Event>)
    returns (t': Table)
    requires windowMs > 0 && used + n <= limit
    requires if used == 0 then !IsLive(t, key, at) else IsLive(t, key, at) && t[key] == Row(used, at, at + windowMs)
    ensures var es := Calls(n, key, limit, windowMs, at) + tail;
            && (used + n > 0 ==> IsLive(t', key, at) && t'[key].expiresAt == at + windowMs)
            && (used + n == 0 ==> t' == t)
            && Allowed(t, es, key) == seq(n, _ => Charge(at, at)) + Allowed(t', tail, key)
    decreases n
  {
    var es := Calls(n, key, limit, windowMs, at) + tail;
    if n == 0 {
      t' := t;
      assert es == tail;
    } else {
      var e := Consume(key, limit, windowMs, at);
      assert es[0] == e && es[1..] == Calls(n - 1, key, limit, windowMs, at) + tail;
      OneCallAllowed(t, used, key, limit, windowMs, at);
      t' := CallsAllowed(Step(t, e), n - 1, used + 1, key, limit, windowMs, at, tail);
      var others := seq(n - 1, _ => Charge(at, at));
      assert seq(n, _ => Charge(at, at)) == [Charge(at, at)] + others;
      Associative([Charge(at, at)], others, Allowed(t', tail, key));
    }
  }

  lemma {:induction false} CallsMonotone(
      n: nat, key: string, limit: nat, windowMs: int, at: int, tail: seq<Event>, from: int)
    requires from <= at && Monotone(tail, at)
    ensures Monotone(Calls(n, key, limit, windowMs, at) + tail, from)
    decreases n
  {
    var es := Calls(n, key, limit, windowMs, at) + tail;
    if n == 0 {
      assert es == tail;
    } else {
      CallsMonotone(n - 1, key, limit, windowMs, at, tail, at);
      assert es[1..] == Calls(n - 1, key, limit, windowMs, at) + tail;
    }
  }

  lemma {:induction false} CountSame(n: nat, at: int, lo: int, hi: int, front: seq<Charge>)
    requires lo <= at <= hi
    ensures CountIn(front + seq(n, _ => Charge(at, at)), lo, hi) == CountIn(front, lo, hi) + n
    decreases n
  {
    var cs := front + seq(n, _ => Charge(at, at));
    if n == 0 {
      assert cs == front;
    } else {
      CountSame(n - 1, at, lo, hi, front);
      assert cs[..|cs| - 1] == front + seq(n - 1, _ => Charge(at, at));
    }
  }

  /** No smaller bound holds: for every limit and window there is a run that reaches it. */
  lemma SlidingBoundIsReached(key: string, limit: nat, windowMs: int)
    requires windowMs > 0
    ensures Monotone(Burst(key, limit, windowMs), 0) && OnPolicy(Burst(key, limit, windowMs), key, limit, windowMs)
    ensures CountIn(Allowed(map[], Burst(key, limit, windowMs), key), 0, windowMs) == 2 * limit
  {
    var second := Calls(limit, key, limit, windowMs, windowMs);
    assert second + [] == second;
    CallsMonotone(limit, key, limit, windowMs, windowMs, [], 0);
    CallsMonotone(limit, key, limit, windowMs, 0, second, 0);
    CallsOnPolicy(limit, key, limit, windowMs, 0);
    CallsOnPolicy(limit, key, limit, windowMs, windowMs);
    var t := CallsAllowed(map[], limit, 0, key, limit, windowMs, 0, second);
    var _ := CallsAllowed(t, limit, 0, key, limit, windowMs, windowMs, []);
    var first, again := seq(limit, _ => Charge(0, 0)), seq(limit, _ => Charge(windowMs, windowMs));
    assert Allowed(t, second, key) == again + [] == again;
    assert [] + first == first;
    CountSame(limit, 0, 0, windowMs, []);
    CountSame(limit, windowMs, 0, windowMs, first);
  }

  lemma {:induction false} CallsOnPolicy(n: nat, key: string, limit: nat, windowMs: int, at: int)
    ensures OnPolicy(Calls(n, key, limit, windowMs, at), key, limit, windowMs)
    decreases n
  {
    if n > 0 {
      CallsOnPolicy(n - 1, key, limit, windowMs, at);
    }
  }

  // ---------------------------------------------------------------------------
  // The advised wait is exact
  // ---------------------------------------------------------------------------

  /** The key is exhausted until `expiry`, or that moment has passed and its window is over. */
  ghost predicate Waiting(t: Table, key: string, limit: int, expiry: int, now: int) {
    || (key in t && t[key].count > limit && t[key].expiresAt == expiry)
    || (expiry <= now && !IsLive(t, key, now))
  }

  /** Nothing resets the key, every call on it uses `limit`, and none of them waits for `expiry`. */
  ghost predicate Impatient(es: seq<Event>, key: string, limit: int, expiry: int) {
    forall e :: e in es ==>
      && !(e.Reset? && e.key == key)
      && (e.Consume? && e.key == key ==> e.limit == limit && e.at < expiry)
  }

  lemma {:induction false} StillWaiting(t: Table, es: seq<Event>, key: string, limit: int, expiry: int, now: int)
    requires Waiting(t, key, limit, expiry, now)
    requires Monotone(es, now) && Impatient(es, key, limit, expiry)
    ensures Waiting(After(t, es), key, limit, expiry, if es == [] then now else es[|es| - 1].at)
    decreases es
  {
    if es != [] {
      assert es[0] in es;
      assert Waiting(Step(t, es[0]), key, limit, expiry, es[0].at);
      assert forall e :: e in es[1..] ==> e in es;
      StillWaiting(Step(t, es[0]), es[1..], key, limit, expiry, es[0].at);
    }
  }

  /**
   The wait a refusal advises is exact. Whatever follows it (refused calls, sweeps, other
   keys), a call on the key before the wait is over is refused with the rest of the wait, and
   the first one made after it is allowed, provided the limit allows anything at all.
   */
  lemma AdvisedWaitIsExact(
      t: Table, key: string, limit: int, windowMs: int, refusedAt: int, es: seq<Event>, at: int, windowMs': int)
    requires limit >= 1
    requires !Answer(t, Consume(key, limit, windowMs, refusedAt))[0].allowed
    requires var expiry := refusedAt + Answer(t, Consume(key, limit, windowMs, refusedAt))[0].retryAfterMs;
             Impatient(es, key, limit, expiry)
    requires Monotone(es + [Consume(key, limit, windowMs', at)], refusedAt)
    ensures var expiry := refusedAt + Answer(t, Consume(key, limit, windowMs, refusedAt))[0].retryAfterMs;
            var t' := After(Step(t, Consume(key, limit, windowMs, refusedAt)), es);
            Answer(t', Consume(key, limit, windowMs', at))
              == [if at < expiry then Verdict(false, expiry - at, 0) else Verdict(true, 0, limit - 1)]
  {
    var call := Consume(key, limit, windowMs, refusedAt);
    var row := Charged(t, key, windowMs, refusedAt);
    assert row.count > limit >= 1;
    assert IsLive(t, key, refusedAt);
    MonotoneSplit(es, Consume(key, limit, windowMs', at), refusedAt);
    StillWaiting(Step(t, call), es, key, limit, row.expiresAt, refusedAt);
  }

  lemma {:induction false} MonotoneSplit(es: seq<Event>, last: Event, from: int)
    requires Monotone(es + [last], from)
    ensures Monotone(es, from)
    ensures (if es == [] then from else es[|es| - 1].at) <= last.at
    decreases es
  {
    if es != [] {
      assert (es + [last])[1..] == es[1..] + [last];
      MonotoneSplit(es[1..], last, es[0].at);
    }
  }
}
