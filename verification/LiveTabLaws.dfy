/** What tabs ask for, told from events (src/components/shell/live-refresh.tsx). */
module LiveTabLaws {
  // In milliseconds: the gap between two refreshes of a tab, and between two writes of the stamp, is
  // 5 000; polls go on for 120 000 after the stamp; sessions last as SessionLaws has it.

  import opened Prelude
  import opened LiveTabs

  lemma {:induction false} AfterSnoc(w: World, es: seq<Event>, e: Event)
    ensures After(w, es + [e]) == Step(After(w, es), e)
    decreases es
  {
    if es == [] {
      assert ([] + [e])[1..] == [];
    } else {
      assert (es + [e])[1..] == es[1..] + [e];
      AfterSnoc(Step(w, es[0]), es[1..], e);
    }
  }

  lemma {:induction false} MonotoneSnoc(es: seq<Event>, last: Event, from: int)
    requires Monotone(es + [last], from)
    ensures Monotone(es, from) && EndOf(es, from) <= last.at && from <= EndOf(es, from)
    decreases es
  {
    if es == [] {
      assert (es + [last])[0] == last;
    } else {
      assert (es + [last])[1..] == es[1..] + [last];
      MonotoneSnoc(es[1..], last, es[0].at);
    }
  }

  function EndOf(es: seq<Event>, from: int): int {
    if es == [] then from else es[|es| - 1].at
  }

  // ---------------------------------------------------------------------------
  // Pages
  // ---------------------------------------------------------------------------

  /** A page that is open: since when, whether it shows, and when coming back or its timer last had it refreshed. */
  datatype Page = Page(openedAt: int, shows: bool, sentAt: Option<int>)

  /** Sends a request now. */
  predicate Sends(w: World, e: Event) {
    Happens(w, e) && Asks(w, e)
  }

  /** The page an event leaves behind under its own number. */
  function Turned(page: Option<Page>, e: Event, sends: bool): Option<Page> {
    if page.None? then if e.Open? then Some(Page(e.at, true, None)) else None
    else
      var sentAt := if sends then Some(e.at) else page.value.sentAt;
      match e
      case Close(_, _) => None
      case Show(_, _) => Some(page.value.(shows := true, sentAt := sentAt))
      case Hide(_, _) => Some(page.value.(shows := false))
      case Focus(_, _) => Some(page.value.(sentAt := sentAt))
      case Timer(_, _, _) => Some(page.value.(sentAt := sentAt))
      case _ => page
  }

  function TurnedAt(page: Option<Page>, e: Event, sends: bool, tab: nat): Option<Page> {
    if e.Sweep? || e.SignOut? || e.tab != tab then page else Turned(page, e, sends)
  }

  /** The page under a number, told from what was done to it and what it sent. */
  function PageOf(w: World, es: seq<Event>, tab: nat): Option<Page> {
    if es == [] then None
    else
      var init, e := es[..|es| - 1], es[|es| - 1];
      TurnedAt(PageOf(w, init, tab), e, Sends(After(w, init), e), tab)
  }

  /** The tab is open exactly when the page is, shows when it does, and was refreshed when it was. */
  ghost predicate IsPage(w: World, tab: nat, page: Option<Page>) {
    && (tab in w.tabs <==> page.Some?)
    && (page.Some? ==>
          && w.tabs[tab].visible == page.value.shows && w.tabs[tab].loadedAt == page.value.openedAt
          && w.tabs[tab].lastRefresh == page.value.sentAt.GetOr(0))
  }

  lemma PageStep(w: World, e: Event, tab: nat, page: Option<Page>)
    requires IsPage(w, tab, page)
    ensures IsPage(Step(w, e), tab, TurnedAt(page, e, Sends(w, e), tab))
  {
  }

  lemma {:induction false} PagesFollow(w: World, es: seq<Event>, tab: nat)
    requires w.tabs == map[]
    ensures IsPage(After(w, es), tab, PageOf(w, es, tab))
  {
    if es != [] {
      var init, e := es[..|es| - 1], es[|es| - 1];
      assert es == init + [e];
      PagesFollow(w, init, tab);
      AfterSnoc(w, init, e);
      PageStep(After(w, init), e, tab, PageOf(w, init, tab));
    }
  }

  // ---------------------------------------------------------------------------
  // What is sent
  // ---------------------------------------------------------------------------

  /** The page is open and has not been refreshed in the last five seconds. */
  predicate Rested(page: Option<Page>, at: int) {
    page.Some? && page.value.sentAt.GetOr(0) + 5_000 <= at
  }

  /** Opening a page or clicking on it always sends a request; coming back does unless it was refreshed just now. */
  lemma TouchingSends(w: World, es: seq<Event>, e: Event)
    requires w.tabs == map[]
    ensures e.Open? ==> (Sends(After(w, es), e) <==> PageOf(w, es, e.tab).None?)
    ensures e.Click? ==> (Sends(After(w, es), e) <==> PageOf(w, es, e.tab).Some?)
    ensures e.Focus? || e.Show? ==> (Sends(After(w, es), e) <==> Rested(PageOf(w, es, e.tab), e.at))
    ensures !(e.Open? || e.Click? || e.Focus? || e.Show? || e.Timer?) ==> !Sends(After(w, es), e)
  {
    if !e.Sweep? && !e.SignOut? {
      PagesFollow(w, es, e.tab);
    }
  }

  /**
   A poll is sent by a page that shows and has not been refreshed in the last five seconds as long as
   anybody touched any page in the last 115 seconds; and none is sent by another page, or once two
   minutes have passed since anybody did anything.
   */
  lemma PollIsSent(w: World, es: seq<Event>, e: Event, createdAt: int)
    requires SignedIn(w, createdAt) && w.tabs == map[] && w.signal.None? && createdAt >= 5_000
    requires Monotone(es, createdAt) && StorageWorks(es) && e.Timer? && e.readable
    ensures var w', page := After(w, es), PageOf(w, es, e.tab);
            && (Rested(page, e.at) && page.value.shows && w'.signal.Some? && e.at <= w'.signal.value + 115_000 ==>
                  Sends(w', e))
            && (Sends(w', e) ==> Rested(page, e.at) && page.value.shows && e.at <= w'.human + 120_000)
  {
    PagesFollow(w, es, e.tab);
    var page := PageOf(w, es, e.tab);
    if page.Some? && page.value.shows {
      PollWindow(w, es, e, createdAt);
    }
  }

  /** Where storage does not read, or holds no positive stamp, a page polls for two minutes from its opening. */
  lemma PollWithoutStorage(w: World, es: seq<Event>, e: Event)
    requires w.tabs == map[] && e.Timer? && (!e.readable || After(w, es).stamp.GetOr(0) <= 0)
    ensures var page := PageOf(w, es, e.tab);
            Sends(After(w, es), e) <==>
              Rested(page, e.at) && page.value.shows && e.at <= page.value.openedAt + 120_000
  {
    PagesFollow(w, es, e.tab);
  }

  // ---------------------------------------------------------------------------
  // Gaps
  // ---------------------------------------------------------------------------

  predicate Wakes(e: Event, tab: nat) {
    (e.Focus? || e.Show? || e.Timer?) && e.tab == tab
  }

  /** The page stays open: neither closed nor, under the same number, opened again. */
  ghost predicate StaysOpen(es: seq<Event>, tab: nat) {
    forall e :: e in es ==> !((e.Open? || e.Close?) && e.tab == tab)
  }

  /** The tab is there, and has refreshed, or written, no earlier than that. */
  ghost predicate Since(w: World, tab: nat, refreshed: int, wrote: int) {
    tab in w.tabs && w.tabs[tab].lastRefresh >= refreshed && w.tabs[tab].lastWrite >= wrote
  }

  lemma {:induction false} SinceStays(w: World, es: seq<Event>, tab: nat, refreshed: int, wrote: int, now: int)
    requires Since(w, tab, refreshed, wrote) && StaysOpen(es, tab)
    requires Monotone(es, now) && refreshed <= now && wrote <= now
    ensures Since(After(w, es), tab, refreshed, wrote)
    decreases es
  {
    if es != [] {
      assert es[0] in es;
      assert Since(Step(w, es[0]), tab, refreshed, wrote);
      SinceStays(Step(w, es[0]), es[1..], tab, refreshed, wrote, es[0].at);
    }
  }

  /** No two refreshes of one page within five seconds, whatever woke it. */
  lemma RefreshesKeepApart(w: World, first: Event, es: seq<Event>, second: Event, tab: nat)
    requires Wakes(first, tab) && Wakes(second, tab) && StaysOpen(es, tab) && Monotone(es, first.at)
    requires Sends(w, first) && Sends(After(Step(w, first), es), second)
    ensures second.at >= first.at + 5_000
  {
    var w' := Step(w, first);
    SinceStays(w', es, tab, first.at, Least(w'.tabs[tab].lastWrite, first.at), first.at);
  }

  function Least(a: int, b: int): int {
    if a <= b then a else b
  }

  /** No two writes of the shared stamp by one page within five seconds. */
  lemma WritesKeepApart(w: World, first: Event, es: seq<Event>, second: Event)
    requires IsSignal(first) && IsSignal(second) && first.tab == second.tab
    requires StaysOpen(es, first.tab) && Monotone(es, first.at)
    requires Step(w, first).stamp != w.stamp
    requires var w' := After(Step(w, first), es); Step(w', second).stamp != w'.stamp
    ensures second.at >= first.at + 5_000
  {
    var w' := Step(w, first);
    SinceStays(w', es, first.tab, Least(w'.tabs[first.tab].lastRefresh, first.at), first.at, first.at);
  }

  // ---------------------------------------------------------------------------
  // The session behind them
  // ---------------------------------------------------------------------------

  /** When the session was last answered. */
  function LastAnswer(w: World, es: seq<Event>, from: int): int {
    if es == [] then from
    else
      var init, e := es[..|es| - 1], es[|es| - 1];
      if Authenticates(After(w, init), e) then e.at else LastAnswer(w, init, from)
  }

  ghost predicate NobodySignsOut(es: seq<Event>) {
    forall e :: e in es ==> !e.SignOut?
  }

  ghost predicate ServerTracks(w: World, createdAt: int, answered: int, now: int) {
    && answered <= now
    && (w.server.Some? ==>
          && w.server.value.createdAt == createdAt
          && answered + 3_300_000 <= w.server.value.expiresAt <= answered + 3_600_000)
    && (w.server.None? ==> now >= answered + 3_300_000 || now >= createdAt + 43_200_000)
  }

  lemma {:induction false} ServerFollows(w: World, es: seq<Event>, createdAt: int)
    requires SignedIn(w, createdAt) && Monotone(es, createdAt) && NobodySignsOut(es)
    ensures ServerTracks(After(w, es), createdAt, LastAnswer(w, es, createdAt), EndOf(es, createdAt))
  {
    if es != [] {
      var init, e := es[..|es| - 1], es[|es| - 1];
      assert es == init + [e];
      assert e in es;
      MonotoneSnoc(init, e, createdAt);
      ServerFollows(w, init, createdAt);
      AfterSnoc(w, init, e);
    }
  }

  /**
   While nobody signs out, every request that a page sends less than fifty-five minutes after the last
   one answered, and less than twelve hours after the sign-in, is answered; one sent an hour after is not.
   */
  lemma RequestsAreAnswered(w: World, es: seq<Event>, e: Event, createdAt: int)
    requires SignedIn(w, createdAt) && Monotone(es + [e], createdAt) && NobodySignsOut(es)
    ensures var w', answered := After(w, es), LastAnswer(w, es, createdAt);
            && (Sends(w', e) && e.at < answered + 3_300_000 && e.at < createdAt + 43_200_000 ==> Authenticates(w', e))
            && (Authenticates(w', e) ==> e.at < answered + 3_600_000 && e.at < createdAt + 43_200_000)
  {
    MonotoneSnoc(es, e, createdAt);
    ServerFollows(w, es, createdAt);
  }

  /** Once somebody has signed out, no page of the session is answered. */
  lemma {:induction false} SignedOutForAll(w: World, es: seq<Event>, e: Event)
    requires w.server.None? || exists i :: 0 <= i < |es| && es[i].SignOut?
    ensures After(w, es).server.None? && !Authenticates(After(w, es), e)
    decreases es
  {
    if es != [] {
      var w' := Step(w, es[0]);
      if w'.server.Some? {
        var i :| 0 <= i < |es| && es[i].SignOut?;
        assert es[1..][i - 1].SignOut?;
      }
      SignedOutForAll(w', es[1..], e);
    }
  }
}
