/** The browser half of a session's life (live-refresh.tsx and activity.ts in src/components/shell). */
module LiveTabs {
  // Every open tab polls while somebody is there, and all tabs share one activity stamp. Events that
  // mean a person are told apart from timers.

  import opened Prelude
  import S = Sessions

  const MIN_GAP_MS := 5_000
  const POLL_WHILE_ACTIVE_MS := 2 * S.MINUTE_MS
  const WRITE_EVERY_MS := 5_000

  /** One loaded page: its refresh ref, its write throttle, and when it loaded. */
  datatype TabState = TabState(lastRefresh: int, lastWrite: int, loadedAt: int, visible: bool)

  // ---------------------------------------------------------------------------
  // What the handlers compute
  // ---------------------------------------------------------------------------

  predicate Throttled(tab: TabState, now: int) {
    now - tab.lastWrite < WRITE_EVERY_MS
  }

  function Marked(tab: TabState, now: int): TabState {
    if Throttled(tab, now) then tab else tab.(lastWrite := now)
  }

  /** The shared stamp after a tab marked activity; `writable` is false when storage throws. */
  function Stamp(stamp: Option<int>, tab: TabState, now: int, writable: bool): Option<int> {
    if Throttled(tab, now) || !writable then stamp else Some(now)
  }

  /** The stored stamp, or the page's load time when storage is empty or does not read. */
  function LastActivity(stamp: Option<int>, tab: TabState, readable: bool): int {
    if readable && stamp.Some? && stamp.value > 0 then stamp.value else tab.loadedAt
  }

  predicate GapIsOver(tab: TabState, now: int) {
    now - tab.lastRefresh >= MIN_GAP_MS
  }

  function Asked(tab: TabState, now: int): TabState {
    if GapIsOver(tab, now) then tab.(lastRefresh := now) else tab
  }

  predicate PollDue(stamp: Option<int>, tab: TabState, now: int, readable: bool) {
    tab.visible && now - LastActivity(stamp, tab, readable) <= POLL_WHILE_ACTIVE_MS
  }

  // ---------------------------------------------------------------------------
  // The handlers
  // ---------------------------------------------------------------------------

  /** `localStorage`, as far as these two modules use it. */
  class Storage {
    var stamp: Option<int>

    constructor (stamp: Option<int>)
      ensures this.stamp == stamp
    {
      this.stamp := stamp;
    }
  }

  class Tab {
    const loadedAt: int
    var lastRefresh: int
    var lastWrite: int
    var visible: bool

    function View(): TabState
      reads this
    {
      TabState(lastRefresh, lastWrite, loadedAt, visible)
    }

    constructor (now: int, visible: bool)
      ensures View() == TabState(0, 0, now, visible)
    {
      loadedAt := now;
      lastRefresh, lastWrite := 0, 0;
      this.visible := visible;
    }

    method MarkActivity(store: Storage, now: int, writable: bool)
      modifies this`lastWrite, store
      ensures View() == Marked(old(View()), now)
      ensures store.stamp == Stamp(old(store.stamp), old(View()), now, writable)
    {
      if now - lastWrite < WRITE_EVERY_MS {
        return;
      }
      lastWrite := now;
      if writable {
        store.stamp := Some(now);
      }
    }

    method LastActivityAt(store: Storage, readable: bool) returns (at: int)
      ensures at == LastActivity(store.stamp, View(), readable)
    {
      if !readable {
        return loadedAt;
      }
      at := if store.stamp.Some? && store.stamp.value > 0 then store.stamp.value else loadedAt;
    }

    /** `refresh()`: asks the server unless this tab did so within the minimum gap. */
    method Refresh(now: int) returns (asks: bool)
      modifies this`lastRefresh
      ensures asks == GapIsOver(old(View()), now)
      ensures View() == Asked(old(View()), now)
    {
      if now - lastRefresh < MIN_GAP_MS {
        return false;
      }
      lastRefresh := now;
      asks := true;
    }

    method OnTimer(store: Storage, now: int, readable: bool) returns (asks: bool)
      modifies this`lastRefresh
      ensures asks == (PollDue(store.stamp, old(View()), now, readable) && GapIsOver(old(View()), now))
      ensures View() ==
              if PollDue(store.stamp, old(View()), now, readable) then Asked(old(View()), now) else old(View())
    {
      if !visible {
        return false;
      }
      var last := LastActivityAt(store, readable);
      if now - last > POLL_WHILE_ACTIVE_MS {
        return false;
      }
      asks := Refresh(now);
    }

    method OnVisibilityChange(now: int, isVisible: bool) returns (asks: bool)
      modifies this`lastRefresh, this`visible
      ensures asks == (isVisible && GapIsOver(old(View()), now))
      ensures View() == (if isVisible then Asked(old(View()), now) else old(View())).(visible := isVisible)
    {
      visible := isVisible;
      if !isVisible {
        return false;
      }
      asks := Refresh(now);
    }
  }

  // ---------------------------------------------------------------------------
  // One session, any number of tabs
  // ---------------------------------------------------------------------------

  /** `human` is when a person last did anything; `signal`, when they last did something that stamps. */
  datatype World = World(
    server: Option<S.Session>,
    tabs: map<nat, TabState>,
    stamp: Option<int>,
    human: int,
    signal: Option<int>)

  datatype Event =
    | Open(tab: nat, at: int, writable: bool)
    | Signal(tab: nat, at: int, writable: bool)
    | Click(tab: nat, at: int, writable: bool)
    | Focus(tab: nat, at: int)
    | Show(tab: nat, at: int)
    | Hide(tab: nat, at: int)
    | Timer(tab: nat, at: int, readable: bool)
    | Close(tab: nat, at: int)
    | Sweep(at: int)
    | SignOut(at: int)

  /** Opening a page, touching it, or coming back to it. */
  predicate IsHuman(e: Event) {
    e.Open? || e.Signal? || e.Click? || e.Focus? || e.Show?
  }

  predicate IsSignal(e: Event) {
    e.Open? || e.Signal? || e.Click?
  }

  /** Events of a tab that is not open, and a second tab under the same number, do not happen. */
  predicate Happens(w: World, e: Event) {
    match e
    case Open(tab, _, _) => tab !in w.tabs
    case Sweep(_) => true
    case SignOut(_) => true
    case _ => e.tab in w.tabs
  }

  /** Whether the event sends a request with the session's cookie. */
  predicate Asks(w: World, e: Event)
    requires Happens(w, e)
  {
    match e
    case Open(_, _, _) => true
    case Click(_, _, _) => true
    case Focus(tab, at) => GapIsOver(w.tabs[tab], at)
    case Show(tab, at) => GapIsOver(w.tabs[tab], at)
    case Timer(tab, at, readable) => PollDue(w.stamp, w.tabs[tab], at, readable) && GapIsOver(w.tabs[tab], at)
    case _ => false
  }

  predicate Authenticates(w: World, e: Event) {
    Happens(w, e) && Asks(w, e) && w.server.Some? && S.IsLive(w.server.value, e.at)
  }

  function NextServer(w: World, e: Event): Option<S.Session> {
    if Authenticates(w, e) then Some(S.Used(w.server.value, e.at))
    else if e.SignOut? || (e.Sweep? && w.server.Some? && !S.IsLive(w.server.value, e.at)) then None
    else w.server
  }

  /** The tab an event acts on, as its handlers find it. */
  function ActingTab(w: World, e: Event): TabState
    requires Happens(w, e) && !e.Sweep? && !e.SignOut?
  {
    if e.Open? then TabState(0, 0, e.at, true) else w.tabs[e.tab]
  }

  function NextTabs(w: World, e: Event): map<nat, TabState>
    requires Happens(w, e)
  {
    if e.Sweep? || e.SignOut? then w.tabs
    else if e.Close? then w.tabs - {e.tab}
    else
      var tab := ActingTab(w, e);
      w.tabs[e.tab :=
        match e
        case Focus(_, at) => Asked(tab, at)
        case Show(_, at) => Asked(tab, at).(visible := true)
        case Hide(_, _) => tab.(visible := false)
        case Timer(_, at, readable) => if PollDue(w.stamp, tab, at, readable) then Asked(tab, at) else tab
        case _ => Marked(tab, e.at)]
  }

  function NextStamp(w: World, e: Event): Option<int>
    requires Happens(w, e)
  {
    if IsSignal(e) then Stamp(w.stamp, ActingTab(w, e), e.at, e.writable) else w.stamp
  }

  function Step(w: World, e: Event): World {
    if !Happens(w, e) then w
    else World(
      NextServer(w, e), NextTabs(w, e), NextStamp(w, e),
      if IsHuman(e) then e.at else w.human,
      if IsSignal(e) then Some(e.at) else w.signal)
  }

  function After(w: World, es: seq<Event>): World
    decreases es
  {
    if es == [] then w else After(Step(w, es[0]), es[1..])
  }

  ghost predicate Monotone(es: seq<Event>, from: int) {
    es == [] || (from <= es[0].at && Monotone(es[1..], es[0].at))
  }

  /** A fresh sign-in: whatever tabs and stamp are left from before are no newer than it. */
  ghost predicate SignedIn(w: World, createdAt: int) {
    && w.server.Some?
    && w.server.value.createdAt == createdAt
    && w.server.value.expiresAt == createdAt + S.SESSION_IDLE_TTL_MS
    && w.human == createdAt
    && NothingNewer(w)
  }

  ghost predicate NothingNewer(w: World) {
    && (w.stamp.Some? ==> w.stamp.value <= w.human)
    && (forall tab :: tab in w.tabs ==> w.tabs[tab].loadedAt <= w.human)
  }

  /** The server's idle window never reaches further than an hour past the last poll a person earns. */
  ghost predicate Tethered(w: World, createdAt: int) {
    && NothingNewer(w)
    && (w.server.Some? ==>
          && w.server.value.createdAt == createdAt
          && w.server.value.expiresAt <= w.human + POLL_WHILE_ACTIVE_MS + S.SESSION_IDLE_TTL_MS)
  }

  lemma PollsFollowPeople(w: World, e: Event)
    requires NothingNewer(w) && Happens(w, e) && e.Timer?
    requires Asks(w, e)
    ensures e.at <= w.human + POLL_WHILE_ACTIVE_MS
  {
  }

  lemma TetheredStep(w: World, e: Event, createdAt: int)
    requires Tethered(w, createdAt) && w.human <= e.at
    ensures Tethered(Step(w, e), createdAt)
  {
    if Happens(w, e) && e.Timer? && Asks(w, e) {
      PollsFollowPeople(w, e);
    }
  }

  lemma {:induction false} TetheredRun(w: World, es: seq<Event>, createdAt: int, now: int)
    requires Tethered(w, createdAt) && Monotone(es, now) && w.human <= now
    ensures Tethered(After(w, es), createdAt)
    ensures After(w, es).human <= (if es == [] then now else es[|es| - 1].at)
    decreases es
  {
    if es != [] {
      TetheredStep(w, es[0], createdAt);
      TetheredRun(Step(w, es[0]), es[1..], createdAt, es[0].at);
    }
  }

  /**
   With any number of tabs, every reachable state keeps the server's expiry within 62 minutes
   of the last thing a person did. So nothing authenticates later than that, or twelve hours
   after the sign-in; and a tab left to itself stops asking after two minutes.
   */
  lemma AbandonedTabsDie(w: World, es: seq<Event>, e: Event, createdAt: int)
    requires SignedIn(w, createdAt) && Monotone(es, createdAt)
    ensures var w' := After(w, es);
      && (w'.server.Some? ==> w'.server.value.expiresAt <= w'.human + 3_720_000)
      && (Authenticates(w', e) ==>
            && e.at < w'.human + 3_720_000
            && e.at < createdAt + 43_200_000
            && (!IsHuman(e) ==> e.at <= w'.human + 120_000))
  {
    TetheredRun(w, es, createdAt, createdAt);
    var w' := After(w, es);
    if Authenticates(w', e) && !IsHuman(e) {
      PollsFollowPeople(w', e);
    }
  }

  // ---------------------------------------------------------------------------
  // The throttle costs at most five seconds
  // ---------------------------------------------------------------------------

  /** Storage never throws. */
  ghost predicate StorageWorks(es: seq<Event>) {
    forall e :: e in es ==> (IsSignal(e) ==> e.writable) && (e.Timer? ==> e.readable)
  }

  ghost predicate StampIsFresh(w: World) {
    && (w.signal.Some? ==> w.stamp.Some? && w.stamp.value > w.signal.value - WRITE_EVERY_MS && w.stamp.value > 0)
    && (w.tabs != map[] ==> w.signal.Some?)
    && (forall tab :: tab in w.tabs ==> w.stamp.Some? && w.tabs[tab].lastWrite <= w.stamp.value)
  }

  lemma {:induction false} StampStaysFresh(w: World, es: seq<Event>, now: int)
    requires StampIsFresh(w) && Monotone(es, now) && StorageWorks(es) && now >= WRITE_EVERY_MS
    requires w.stamp.Some? ==> w.stamp.value <= now
    ensures StampIsFresh(After(w, es))
    decreases es
  {
    if es != [] {
      assert es[0] in es;
      var w' := Step(w, es[0]);
      assert StampIsFresh(w');
      StampStaysFresh(w', es[1..], es[0].at);
    }
  }

  /**
   The poll follows the person both ways: a visible tab's timer finds the poll due as long as
   anyone touched any tab in the last 115 seconds, and never once two minutes have passed
   since anyone did anything.
   */
  lemma PollWindow(w: World, es: seq<Event>, e: Event, createdAt: int)
    requires SignedIn(w, createdAt) && w.tabs == map[] && w.signal.None? && createdAt >= WRITE_EVERY_MS
    requires Monotone(es, createdAt) && StorageWorks(es)
    requires e.Timer? && e.readable && Happens(After(w, es), e) && After(w, es).tabs[e.tab].visible
    ensures var w' := After(w, es);
      && w'.signal.Some?
      && (e.at <= w'.signal.value + 115_000 ==>
            PollDue(w'.stamp, w'.tabs[e.tab], e.at, true))
      && (e.at > w'.human + 120_000 ==>
            !PollDue(w'.stamp, w'.tabs[e.tab], e.at, true))
  {
    StampStaysFresh(w, es, createdAt);
    TetheredRun(w, es, createdAt, createdAt);
  }
}
