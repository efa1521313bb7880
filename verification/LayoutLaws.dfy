/** What normalising, editing, saving and loading a layout keep (src/lib/dashboard/layout.ts). */
module LayoutLaws {
  import opened Prelude
  import opened Layout
  import opened LayoutFacts

  // ---------------------------------------------------------------------------
  // Reading what is stored
  // ---------------------------------------------------------------------------

  /** Any stored value at all becomes a layout with every widget once, at a width on the ladder. */
  lemma NormalizedIsNormal(raw: Json)
    ensures IsNormal(Normalized(raw))
  {
    if raw.List? {
      KeptIsClean(Scanned(raw.items));
      CompletedIsNormal(Kept(Scanned(raw.items)));
    } else {
      DefaultIsNormal();
    }
  }

  ghost predicate Names(entry: Json, w: WidgetId) {
    EntryItem(entry).Some? && EntryItem(entry).value.id == w
  }

  ghost predicate NoneNames(entries: seq<Json>, w: WidgetId) {
    forall k :: 0 <= k < |entries| ==> !Names(entries[k], w)
  }

  /** Entry `e` is the first of the entries to name its widget. */
  ghost predicate FirstNaming(entries: seq<Json>, e: nat) {
    && e < |entries| && EntryItem(entries[e]).Some?
    && NoneNames(entries[..e], EntryItem(entries[e]).value.id)
  }

  /** `at[i]` is the entry behind the `i`-th item: the first naming entries, all of them, in order. */
  ghost predicate Selects(entries: seq<Json>, layout: seq<LayoutItem>, at: seq<nat>) {
    && |at| == |layout|
    && (forall i :: 0 <= i < |at| ==> FirstNaming(entries, at[i]) && layout[i] == EntryItem(entries[at[i]]).value)
    && (forall i, j :: 0 <= i < j < |at| ==> at[i] < at[j])
    && (forall e: nat :: FirstNaming(entries, e) ==> e in at)
  }

  function Firsts(entries: seq<Json>): seq<nat> {
    if entries == [] then []
    else
      var before := Kept(entries[..|entries| - 1]);
      var item := EntryItem(entries[|entries| - 1]);
      Firsts(entries[..|entries| - 1]) + if item.Some? && !Has(before, item.value.id) then [|entries| - 1] else []
  }

  lemma {:induction false} HasIffNamed(entries: seq<Json>, w: WidgetId)
    ensures Has(Kept(entries), w) <==> !NoneNames(entries, w)
  {
    if entries != [] {
      var init, entry := entries[..|entries| - 1], entries[|entries| - 1];
      HasIffNamed(init, w);
      assert entries == init + [entry];
      assert NoneNames(entries, w) <==> NoneNames(init, w) && !Names(entry, w);
      if EntryItem(entry).Some? {
        HasSnoc(Kept(init), EntryItem(entry).value, w);
      }
    }
  }

  lemma FirstNamingInit(entries: seq<Json>, e: nat)
    requires e < |entries| - 1
    ensures FirstNaming(entries, e) <==> FirstNaming(entries[..|entries| - 1], e)
  {
    assert entries[..|entries| - 1][..e] == entries[..e];
  }

  lemma FirstNamingLast(entries: seq<Json>)
    requires entries != []
    ensures var item := EntryItem(entries[|entries| - 1]);
            FirstNaming(entries, |entries| - 1) <==> item.Some? && !Has(Kept(entries[..|entries| - 1]), item.value.id)
  {
    var item := EntryItem(entries[|entries| - 1]);
    if item.Some? {
      HasIffNamed(entries[..|entries| - 1], item.value.id);
    }
  }

  /** One more entry: selected when it is the first to name its widget. */
  lemma SelectsStep(entries: seq<Json>, layout: seq<LayoutItem>, at: seq<nat>)
    requires entries != [] && Selects(entries[..|entries| - 1], layout, at)
    ensures var last := |entries| - 1;
            if FirstNaming(entries, last) then Selects(entries, layout + [EntryItem(entries[last]).value], at + [last])
            else Selects(entries, layout, at)
  {
    forall e: nat | e < |entries| - 1
      ensures FirstNaming(entries, e) <==> FirstNaming(entries[..|entries| - 1], e)
    {
      FirstNamingInit(entries, e);
    }
  }

  lemma {:induction false} KeptSelects(entries: seq<Json>)
    ensures Selects(entries, Kept(entries), Firsts(entries))
  {
    if entries != [] {
      var init := entries[..|entries| - 1];
      KeptSelects(init);
      FirstNamingLast(entries);
      SelectsStep(entries, Kept(init), Firsts(init));
    }
  }

  /** A stored layout keeps the order and widths of its first entries; missing widgets follow in default order. */
  lemma NormalizedKeepsOrder(items: seq<Json>)
    ensures var kept := Kept(Scanned(items));
            && kept <= Normalized(List(items))
            && Selects(Scanned(items), kept, Firsts(Scanned(items)))
            && Normalized(List(items))[|kept|..] == Missing(kept, WidgetIds())
  {
    KeptSelects(Scanned(items));
  }

  // ---------------------------------------------------------------------------
  // Saving and loading
  // ---------------------------------------------------------------------------

  /** Reading a layout back gives the same layout exactly when it is a normal one. */
  lemma RoundTripExactly(layout: seq<LayoutItem>)
    ensures Normalized(ToJson(layout)) == layout <==> IsNormal(layout)
  {
    if IsNormal(layout) {
      NoRepeatIsShort(layout);
      KeptRoundTrip(layout);
      NothingMissing(layout, WidgetIds());
      assert layout + [] == layout;
    }
    NormalizedIsNormal(ToJson(layout));
  }

  /** Normalising twice is normalising once. */
  lemma NormalizingIsIdempotent(raw: Json)
    ensures Normalized(ToJson(Normalized(raw))) == Normalized(raw)
  {
    NormalizedIsNormal(raw);
    RoundTripExactly(Normalized(raw));
  }

  /** What is saved loads as what would have been shown, the default layout included. */
  lemma SaveThenLoad(raw: Json)
    ensures Normalized(Stored(raw)) == Normalized(raw)
    ensures Stored(raw) == Null <==> Normalized(raw) == Normalized(Null)
  {
    NormalizingIsIdempotent(raw);
  }

  // ---------------------------------------------------------------------------
  // The cap on stored entries
  // ---------------------------------------------------------------------------

  /**
   The cap on the scan makes no difference exactly when the entries past it that first name a
   widget ask, in order and at the usual widths, for the first of the widgets missing before it.
   */
  lemma {:induction false} CapIsHarmlessExactly(items: seq<Json>)
    ensures var capped := Kept(Scanned(items));
            && capped <= Kept(items)
            && (Normalized(List(items)) == Completed(Kept(items)) <==>
                Kept(items)[|capped|..] <= Missing(capped, WidgetIds()))
  {
    var capped, kept := Kept(Scanned(items)), Kept(items);
    KeptGrows(items, if |items| > MAX_STORED_ENTRIES then MAX_STORED_ENTRIES else |items|);
    assert items[..|items|] == items;
    CompletionsAgree(capped, kept);
    assert kept == capped + kept[|capped|..];
    PrefixAfter(capped, kept[|capped|..], Missing(capped, WidgetIds()));
  }

  lemma PrefixAfter<T>(a: seq<T>, b: seq<T>, c: seq<T>)
    ensures a + b <= a + c <==> b <= c
  {
    if a + b <= a + c {
      assert b == (a + b)[|a|..] <= (a + c)[|a|..] == c;
    }
  }

  /** A longer list can hold something worth keeping: sixty-four stale entries, then a real one. */
  lemma CapCanLoseAnEntry()
    ensures var items := seq(64, _ => Null) + [ItemToJson(LayoutItem(Recent, 6))];
            && Normalized(List(items)) == DefaultLayout()
            && Completed(Kept(items))[0] == LayoutItem(Recent, 6)
  {
    var stale: seq<Json> := seq(64, _ => Null);
    var items := stale + [ItemToJson(LayoutItem(Recent, 6))];
    assert Scanned(items) == stale;
    assert items[..|items| - 1] == stale;
    NullsKeepNothing(stale);
    ItemRoundTrip(LayoutItem(Recent, 6));
    NothingKept();
  }

  // ---------------------------------------------------------------------------
  // Moving
  // ---------------------------------------------------------------------------

  /** A move reports a change exactly when it makes one. */
  lemma {:induction false} ReorderDetectsChange(layout: seq<LayoutItem>, id: WidgetId, to: real)
    requires NoRepeat(layout) && Has(layout, id)
    ensures var from := IndexOf(layout, id);
            && from < |layout|
            && (ReorderWidget(layout, id, Finite(to)).Unchanged? <==>
                Spliced(layout, from, Clamp(Trunc(to), |layout| - 1)) == layout)
  {
    var from := IndexOf(layout, id);
    var target := Clamp(Trunc(to), |layout| - 1);
    if from == target {
      SplicedBack(layout, from, from);
      assert Spliced(layout, from, from) == layout;
    } else {
      SplicedAt(layout, from, target, target);
      assert layout[target].id != layout[from].id;
    }
  }

  /** Where a number sends a widget: its whole part, and no further than either end. */
  ghost predicate Target(t: nat, to: real, n: nat) {
    && t < n
    && (t == 0 <==> to < 1.0 || n == 1)
    && (t == n - 1 <==> to >= (n - 1) as real || n == 1)
    && (0 < t < n - 1 ==> t as real <= to < (t + 1) as real)
  }

  lemma TargetIsClamped(to: real, n: nat)
    requires n > 0
    ensures Target(Clamp(Trunc(to), n - 1), to, n)
  {
  }

  /** The widget that stood at `from` stands at `t`, and the others are in the order they were in. */
  ghost predicate MovedTo(layout: seq<LayoutItem>, r: seq<LayoutItem>, from: nat, t: nat) {
    && |r| == |layout| && from < |layout| && t < |layout|
    && r[t] == layout[from]
    && r[..t] + r[t + 1..] == layout[..from] + layout[from + 1..]
  }

  lemma SplicedMoves(layout: seq<LayoutItem>, from: nat, t: nat)
    requires from < |layout| && t < |layout|
    ensures MovedTo(layout, Spliced(layout, from, t), from, t)
  {
    var rest, r := layout[..from] + layout[from + 1..], Spliced(layout, from, t);
    assert r == rest[..t] + [layout[from]] + rest[t..];
    assert r[..t] == rest[..t] && r[t + 1..] == rest[t..];
  }

  /** A widget sent to a number stands there afterwards, and the others are in the order they were in. */
  lemma ReorderLandsExactly(layout: seq<LayoutItem>, id: WidgetId, to: real)
    requires NoRepeat(layout) && Has(layout, id)
    ensures var from, r := IndexOf(layout, id), After(layout, ReorderWidget(layout, id, Finite(to)));
            exists t: nat :: Target(t, to, |layout|) && MovedTo(layout, r, from, t)
  {
    var from, r := IndexOf(layout, id), After(layout, ReorderWidget(layout, id, Finite(to)));
    var t := Clamp(Trunc(to), |layout| - 1);
    TargetIsClamped(to, |layout|);
    SplicedMoves(layout, from, t);
    assert t == from ==> MovedTo(layout, layout, from, t);
  }

  /** A widget moved by a number of places is sent that many places on from where it stands. */
  lemma MoveLandsExactly(layout: seq<LayoutItem>, id: WidgetId, delta: real)
    requires NoRepeat(layout) && Has(layout, id)
    ensures var from, r := IndexOf(layout, id), After(layout, MoveWidget(layout, id, Finite(delta)));
            exists t: nat :: Target(t, from as real + delta, |layout|) && MovedTo(layout, r, from, t)
  {
    ReorderLandsExactly(layout, id, IndexOf(layout, id) as real + delta);
  }

  /** A number that is none, and a widget that is not there, change nothing. */
  lemma ReorderRefuses(layout: seq<LayoutItem>, id: WidgetId, to: Number)
    requires !Has(layout, id) || !to.Finite?
    ensures ReorderWidget(layout, id, to) == Unchanged && MoveWidget(layout, id, to) == Unchanged
  {
    if !Has(layout, id) {
      assert IndexOf(layout, id) == |layout|;
    }
  }

  /** Moving a widget back to its old index restores the layout. */
  lemma MovingBackRestores(layout: seq<LayoutItem>, id: WidgetId, to: Number)
    requires IsNormal(layout) && ReorderWidget(layout, id, to).Changed?
    ensures var from := IndexOf(layout, id);
            ReorderWidget(ReorderWidget(layout, id, to).layout, id, Finite(from as real)) == Changed(layout)
  {
    var from := IndexOf(layout, id);
    ReorderLands(layout, id, to);
    TruncOfInt(from);
    SplicedBack(layout, from, Clamp(Trunc(to.value), |layout| - 1));
  }

  lemma ReorderedBack(layout: seq<LayoutItem>, id: WidgetId, to: Number, moved: seq<LayoutItem>)
    requires IsNormal(layout) && ReorderWidget(layout, id, to) == Changed(moved)
    ensures IndexOf(moved, id) == Clamp(Trunc(to.value), |layout| - 1)
    ensures ReorderWidget(moved, id, Finite(IndexOf(layout, id) as real)) == Changed(layout)
  {
    ReorderLands(layout, id, to);
    MovingBackRestores(layout, id, to);
  }

  /** A move by a number that leads to index `n` is undone by one that leads back. */
  lemma MovedBack(layout: seq<LayoutItem>, id: WidgetId, delta: Number, n: nat, back: Number, moved: seq<LayoutItem>)
    requires IsNormal(layout) && MoveWidget(layout, id, delta) == Changed(moved)
    requires n < |layout| && Plus(IndexOf(layout, id), delta) == Finite(n as real)
    requires Plus(n, back) == Finite(IndexOf(layout, id) as real)
    ensures MoveWidget(moved, id, back) == Changed(layout)
  {
    TruncOfInt(n);
    ReorderedBack(layout, id, Finite(n as real), moved);
  }

  /** One key press and the opposite one cancel out, except against the end of the grid. */
  lemma OppositeMovesCancel(layout: seq<LayoutItem>, id: WidgetId, delta: int, moved: seq<LayoutItem>)
    requires IsNormal(layout) && MoveWidget(layout, id, Finite(delta as real)) == Changed(moved)
    requires 0 <= IndexOf(layout, id) + delta < |layout|
    ensures MoveWidget(moved, id, Finite((-delta) as real)) == Changed(layout)
  {
    var from := IndexOf(layout, id);
    PlusInt(from, delta);
    PlusInt(from + delta, -delta);
    MovedBack(layout, id, Finite(delta as real), from + delta, Finite((-delta) as real), moved);
  }

  lemma PlusInt(n: nat, delta: int)
    ensures Plus(n, Finite(delta as real)) == Finite((n + delta) as real)
  {
  }

  // ---------------------------------------------------------------------------
  // Resizing
  // ---------------------------------------------------------------------------

  function Opposite(direction: Direction): Direction {
    if direction.Wider? then Narrower else Wider
  }

  /** A resize reports a change exactly when it makes one, which is exactly when its button is enabled. */
  lemma ResizeDetectsChange(layout: seq<LayoutItem>, id: WidgetId, direction: Direction)
    requires IsNormal(layout)
    ensures var i := IndexOf(layout, id);
            && i < |layout|
            && (ResizeWidget(layout, id, direction).Changed? <==> CanResize(layout[i].span, direction))
            && (ResizeWidget(layout, id, direction).Unchanged? <==>
                WithSpan(layout, id, Spans()[Step(Rung(layout[i].span), direction)]) == layout)
  {
    assert Has(layout, id);
    var i := IndexOf(layout, id);
    var rung := Rung(layout[i].span);
    var next := Step(rung, direction);
    LadderRungs(rung);
    LadderRungs(next);
    var resized := WithSpan(layout, id, Spans()[next]);
    assert resized[i].span == Spans()[next];
    if next == rung {
      forall k | 0 <= k < |layout|
        ensures resized[k] == layout[k]
      {
        if layout[k].id == id {
          IndexIsUnique(layout, k);
        }
      }
    }
  }

  /** Only the widget named changes, and only by one rung. */
  lemma ResizeIsOneRung(layout: seq<LayoutItem>, id: WidgetId, direction: Direction)
    requires IsNormal(layout) && ResizeWidget(layout, id, direction).Changed?
    ensures var i, r := IndexOf(layout, id), ResizeWidget(layout, id, direction).layout;
            && i < |layout| == |r|
            && (forall k :: 0 <= k < |layout| && k != i ==> r[k] == layout[k])
            && r[i].id == id
            && Rung(r[i].span) == Rung(layout[i].span) + if direction.Wider? then 1 else -1
  {
    var i := IndexOf(layout, id);
    var next := Step(Rung(layout[i].span), direction);
    LadderRungs(next);
    forall k | 0 <= k < |layout| && k != i
      ensures layout[k].id != id
    {
      IndexIsUnique(layout, k);
    }
  }

  /** A resize that changed something is undone by the opposite one. */
  lemma ResizeIsUndone(layout: seq<LayoutItem>, id: WidgetId, direction: Direction)
    requires IsNormal(layout) && ResizeWidget(layout, id, direction).Changed?
    ensures ResizeWidget(ResizeWidget(layout, id, direction).layout, id, Opposite(direction)) == Changed(layout)
  {
    var i, r := IndexOf(layout, id), ResizeWidget(layout, id, direction).layout;
    ResizeIsOneRung(layout, id, direction);
    WithSpanIsNormal(layout, id, r[i].span);
    assert r == WithSpan(layout, id, r[i].span);
    IndexIsUnique(r, i);
    var back := ResizeWidget(r, id, Opposite(direction));
    assert back.Changed?;
    ResizeIsOneRung(r, id, Opposite(direction));
    LadderRungs(Rung(layout[i].span));
    assert back.layout[i] == layout[i];
    assert back.layout == layout;
  }

  // ---------------------------------------------------------------------------
  // The ladder and the defaults, spelled out
  // ---------------------------------------------------------------------------

  /** Widths are snapped at the midpoints of the ladder, a midpoint itself to the wider side. */
  lemma SnapsAtMidpoints(value: real)
    ensures Snapped(Num(Finite(value))) == Some(
              if value < 2.5 then 2 else if value < 3.5 then 3 else if value < 5.0 then 4
              else if value < 7.0 then 6 else if value < 10.0 then 8 else 12)
  {
    assert SnapAmong(value, 2) == if value < 2.5 then 2 else 3;
    assert SnapAmong(value, 3) == if value < 2.5 then 2 else if value < 3.5 then 3 else 4;
    assert SnapAmong(value, 4) == if value < 5.0 then SnapAmong(value, 3) else 6;
    assert SnapAmong(value, 5) == if value < 7.0 then SnapAmong(value, 4) else 8;
  }

  /** The dashboard of somebody who has never touched it: eleven narrow tiles, and four panels. */
  lemma DefaultIsTiles()
    ensures var l := Normalized(Null);
            && (forall i :: 0 <= i < 11 ==> l[i].span == 2)
            && l[11..] == [LayoutItem(RStrip, 12), LayoutItem(Equity, 8), LayoutItem(Recent, 4),
                           LayoutItem(BalanceHistory, 12)]
  {
  }

  // ---------------------------------------------------------------------------
  // Whole runs
  // ---------------------------------------------------------------------------

  datatype Edit =
    | Reorder(id: WidgetId, to: Number)
    | Move(id: WidgetId, delta: Number)
    | Resize(id: WidgetId, direction: Direction)
    | Reset

  function Applied(layout: seq<LayoutItem>, e: Edit): seq<LayoutItem> {
    match e
    case Reorder(id, to) => After(layout, ReorderWidget(layout, id, to))
    case Move(id, delta) => After(layout, MoveWidget(layout, id, delta))
    case Resize(id, direction) => After(layout, ResizeWidget(layout, id, direction))
    case Reset => DefaultLayout()
  }

  function Run(layout: seq<LayoutItem>, edits: seq<Edit>): seq<LayoutItem> {
    if edits == [] then layout else Applied(Run(layout, edits[..|edits| - 1]), edits[|edits| - 1])
  }

  lemma ReorderIsNormal(layout: seq<LayoutItem>, id: WidgetId, to: Number)
    requires IsNormal(layout)
    ensures IsNormal(After(layout, ReorderWidget(layout, id, to)))
  {
    if ReorderWidget(layout, id, to).Changed? {
      SplicedIsNormal(layout, IndexOf(layout, id), Clamp(Trunc(to.value), |layout| - 1));
    }
  }

  lemma EditIsNormal(layout: seq<LayoutItem>, e: Edit)
    requires IsNormal(layout)
    ensures IsNormal(Applied(layout, e))
  {
    match e
    case Reorder(id, to) =>
      ReorderIsNormal(layout, id, to);
    case Move(id, delta) =>
      ReorderIsNormal(layout, id, Plus(IndexOf(layout, id), delta));
    case Resize(id, direction) =>
      if ResizeWidget(layout, id, direction).Changed? {
        WithSpanIsNormal(layout, id, Spans()[Step(Rung(layout[IndexOf(layout, id)].span), direction)]);
      }
    case Reset =>
      DefaultIsNormal();
  }

  lemma {:induction false} RunIsNormal(layout: seq<LayoutItem>, edits: seq<Edit>)
    requires IsNormal(layout)
    ensures IsNormal(Run(layout, edits))
  {
    if edits != [] {
      RunIsNormal(layout, edits[..|edits| - 1]);
      EditIsNormal(Run(layout, edits[..|edits| - 1]), edits[|edits| - 1]);
    }
  }

  /** Whatever was stored, and whatever the user then does to it, saving and loading loses nothing. */
  lemma EditedLayoutSurvives(raw: Json, edits: seq<Edit>)
    ensures var layout := Run(Normalized(raw), edits);
            IsNormal(layout) && |layout| == 15 && Normalized(Stored(ToJson(layout))) == layout
  {
    var layout := Run(Normalized(raw), edits);
    NormalizedIsNormal(raw);
    RunIsNormal(Normalized(raw), edits);
    RoundTripExactly(layout);
    SaveThenLoad(ToJson(layout));
    NormalIsWhole(layout);
  }
}
