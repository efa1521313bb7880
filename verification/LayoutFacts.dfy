/**
 Small facts the laws of the dashboard layout rest on: what a normal layout is, what completing
 one adds and in which order, how many widgets fit in one, what becomes of entries when they are
 written out and read back, and where things stand after one item has been moved or resized.

 The laws themselves are in LayoutLaws.
 */
module LayoutFacts {
  import opened Prelude
  import opened Layout

  // ---------------------------------------------------------------------------
  // Normal layouts
  // ---------------------------------------------------------------------------

  ghost predicate NoRepeat(layout: seq<LayoutItem>) {
    forall i, j :: 0 <= i < j < |layout| ==> layout[i].id != layout[j].id
  }

  ghost predicate OnLadder(layout: seq<LayoutItem>) {
    forall i :: 0 <= i < |layout| ==> layout[i].span in Spans()
  }

  /** Every widget once, each at a width on the ladder. */
  ghost predicate IsNormal(layout: seq<LayoutItem>) {
    NoRepeat(layout) && OnLadder(layout) && forall w: WidgetId :: Has(layout, w)
  }

  lemma DefaultOnLadder(w: WidgetId)
    ensures DefaultSpan(w) in Spans()
  {
    assert Spans()[0] == 2 && Spans()[2] == 4 && Spans()[4] == 8 && Spans()[5] == 12;
  }

  lemma EntryOnLadder(entry: Json)
    ensures EntryItem(entry).Some? ==> EntryItem(entry).value.span in Spans()
  {
    if EntryItem(entry).Some? {
      DefaultOnLadder(EntryItem(entry).value.id);
      var span := Field(entry, "span");
      if span.Num? && span.number.Finite? {
        SnapIsNearest(span.number.value);
      }
    }
  }

  lemma NoRepeatSnoc(layout: seq<LayoutItem>, item: LayoutItem)
    requires NoRepeat(layout) && OnLadder(layout) && !Has(layout, item.id) && item.span in Spans()
    ensures NoRepeat(layout + [item]) && OnLadder(layout + [item])
  {
  }

  lemma {:induction false} KeptIsClean(entries: seq<Json>)
    ensures NoRepeat(Kept(entries)) && OnLadder(Kept(entries))
  {
    if entries != [] {
      var init, entry := entries[..|entries| - 1], entries[|entries| - 1];
      KeptIsClean(init);
      EntryOnLadder(entry);
      if EntryItem(entry).Some? && !Has(Kept(init), EntryItem(entry).value.id) {
        NoRepeatSnoc(Kept(init), EntryItem(entry).value);
      }
    }
  }

  // ---------------------------------------------------------------------------
  // Completing
  // ---------------------------------------------------------------------------

  lemma WidgetIdsDistinct()
    ensures forall i, j :: 0 <= i < j < |WidgetIds()| ==> WidgetIds()[i] != WidgetIds()[j]
  {
  }

  /** Completing adds exactly the widgets that are missing, each once. */
  lemma {:induction false} MissingCompletes(layout: seq<LayoutItem>, ids: seq<WidgetId>)
    requires NoRepeat(layout) && OnLadder(layout)
    requires forall i, j :: 0 <= i < j < |ids| ==> ids[i] != ids[j]
    ensures var r := layout + Missing(layout, ids);
            NoRepeat(r) && OnLadder(r) && forall w :: Has(r, w) <==> Has(layout, w) || w in ids
  {
    if ids == [] {
      assert layout + Missing(layout, ids) == layout;
    } else {
      var init, last := ids[..|ids| - 1], ids[|ids| - 1];
      var before := layout + Missing(layout, init);
      MissingCompletes(layout, init);
      assert ids == init + [last];
      if Has(layout, last) {
        assert layout + Missing(layout, ids) == before;
      } else {
        assert layout + Missing(layout, ids) == before + [DefaultItem(last)];
        assert last !in init;
        DefaultOnLadder(last);
        NoRepeatSnoc(before, DefaultItem(last));
        forall w
          ensures Has(before + [DefaultItem(last)], w) <==> Has(before, w) || w == last
        {
          HasSnoc(before, DefaultItem(last), w);
        }
      }
    }
  }

  lemma CompletedIsNormal(layout: seq<LayoutItem>)
    requires NoRepeat(layout) && OnLadder(layout)
    ensures IsNormal(Completed(layout))
  {
    WidgetIdsDistinct();
    MissingCompletes(layout, WidgetIds());
    forall w: WidgetId
      ensures Has(Completed(layout), w)
    {
      AllWidgetsListed(w);
    }
  }

  lemma DefaultIsNormal()
    ensures IsNormal(DefaultLayout())
  {
    var d := DefaultLayout();
    WidgetIdsDistinct();
    forall w: WidgetId
      ensures Has(d, w)
    {
      AllWidgetsListed(w);
      var i :| 0 <= i < 15 && WidgetIds()[i] == w;
      assert d[i].id == w;
    }
    forall i | 0 <= i < 15
      ensures d[i].span in Spans()
    {
      DefaultOnLadder(WidgetIds()[i]);
    }
  }

  lemma {:induction false} NothingMissing(layout: seq<LayoutItem>, ids: seq<WidgetId>)
    requires forall w :: w in ids ==> Has(layout, w)
    ensures Missing(layout, ids) == []
  {
    if ids != [] {
      NothingMissing(layout, ids[..|ids| - 1]);
    }
  }

  lemma {:induction false} MissingHas(layout: seq<LayoutItem>, ids: seq<WidgetId>, w: WidgetId)
    ensures Has(layout + Missing(layout, ids), w) <==> Has(layout, w) || w in ids
  {
    if ids == [] {
      assert layout + Missing(layout, ids) == layout;
    } else {
      var init, last := ids[..|ids| - 1], ids[|ids| - 1];
      MissingHas(layout, init, w);
      assert ids == init + [last];
      if Has(layout, last) {
        assert layout + Missing(layout, ids) == layout + Missing(layout, init);
      } else {
        assert layout + Missing(layout, ids) == layout + Missing(layout, init) + [DefaultItem(last)];
        HasSnoc(layout + Missing(layout, init), DefaultItem(last), w);
      }
    }
  }

  lemma HasPrefix(layout: seq<LayoutItem>, ids: seq<WidgetId>, n: nat, w: WidgetId)
    requires n <= |Missing(layout, ids)| && w !in ids
    ensures Has(layout + Missing(layout, ids)[..n], w) <==> Has(layout, w)
  {
    var some, all := layout + Missing(layout, ids)[..n], layout + Missing(layout, ids);
    MissingHas(layout, ids, w);
    if Has(some, w) {
      var i :| 0 <= i < |some| && some[i].id == w;
      assert all[i].id == w;
    }
    if Has(layout, w) {
      var i :| 0 <= i < |layout| && layout[i].id == w;
      assert some[i].id == w;
    }
  }

  /** A prefix of what is missing, added, leaves the rest missing. */
  lemma {:induction false} MissingAfterPrefix(layout: seq<LayoutItem>, ids: seq<WidgetId>, n: nat)
    requires n <= |Missing(layout, ids)|
    requires forall i, j :: 0 <= i < j < |ids| ==> ids[i] != ids[j]
    ensures Missing(layout + Missing(layout, ids)[..n], ids) == Missing(layout, ids)[n..]
  {
    var all := Missing(layout, ids);
    if ids == [] {
      assert layout + all[..n] == layout;
    } else if n == |all| {
      assert all[..n] == all;
      forall w | w in ids
        ensures Has(layout + all, w)
      {
        MissingHas(layout, ids, w);
      }
      NothingMissing(layout + all, ids);
    } else {
      var init, last := ids[..|ids| - 1], ids[|ids| - 1];
      var before := Missing(layout, init);
      assert n <= |before| && all[..n] == before[..n];
      MissingAfterPrefix(layout, init, n);
      HasPrefix(layout, init, n, last);
    }
  }

  lemma Rejoin<T>(a: seq<T>, b: seq<T>, n: nat)
    requires n <= |b|
    ensures a + b[..n] + b[n..] == a + b
  {
  }

  lemma PrefixCompletes(layout: seq<LayoutItem>, n: nat)
    requires n <= |Missing(layout, WidgetIds())|
    ensures Completed(layout + Missing(layout, WidgetIds())[..n]) == Completed(layout)
  {
    var all := Missing(layout, WidgetIds());
    WidgetIdsDistinct();
    MissingAfterPrefix(layout, WidgetIds(), n);
    Rejoin(layout, all, n);
  }

  lemma BetweenSplits<T>(a: seq<T>, b: seq<T>, c: seq<T>)
    requires a <= c <= a + b
    ensures c == a + b[..|c| - |a|]
  {
  }

  lemma CompletionsAgree(capped: seq<LayoutItem>, kept: seq<LayoutItem>)
    requires capped <= kept
    ensures Completed(capped) == Completed(kept) <==> kept <= Completed(capped)
  {
    if kept <= Completed(capped) {
      BetweenSplits(capped, Missing(capped, WidgetIds()), kept);
      PrefixCompletes(capped, |kept| - |capped|);
    }
  }

  lemma {:induction false} AllMissing(ids: seq<WidgetId>)
    ensures |Missing([], ids)| == |ids|
    ensures forall i :: 0 <= i < |ids| ==> Missing([], ids)[i] == DefaultItem(ids[i])
  {
    if ids != [] {
      AllMissing(ids[..|ids| - 1]);
    }
  }

  lemma NothingKept()
    ensures Completed([]) == DefaultLayout()
  {
    var ids := WidgetIds();
    AllMissing(ids);
    assert Completed([]) == Missing([], ids);
  }

  // ---------------------------------------------------------------------------
  // How many widgets there are
  // ---------------------------------------------------------------------------

  function IdsOf(layout: seq<LayoutItem>): set<WidgetId> {
    if layout == [] then {} else IdsOf(layout[..|layout| - 1]) + {layout[|layout| - 1].id}
  }

  lemma {:induction false} IdsOfCount(layout: seq<LayoutItem>)
    requires NoRepeat(layout)
    ensures |IdsOf(layout)| == |layout| && forall w :: w in IdsOf(layout) ==> Has(layout, w)
  {
    if layout != [] {
      var init, last := layout[..|layout| - 1], layout[|layout| - 1];
      IdsOfCount(init);
      assert layout == init + [last];
      forall w
        ensures Has(layout, w) <==> Has(init, w) || w == last.id
      {
        HasSnoc(init, last, w);
      }
      assert !Has(init, last.id);
    }
  }

  lemma {:induction false} SetOfSeqSize(ids: seq<WidgetId>)
    ensures |set w | w in ids| <= |ids|
  {
    if ids != [] {
      var init, last := ids[..|ids| - 1], ids[|ids| - 1];
      SetOfSeqSize(init);
      assert ids == init + [last];
      assert (set w | w in ids) == (set w | w in init) + {last};
    }
  }

  lemma SubsetSize(a: set<WidgetId>, b: set<WidgetId>)
    requires a <= b
    ensures |a| <= |b|
  {
    assert b == a + (b - a);
  }

  /** Widgets do not repeat, so a layout is never longer than the registry. */
  lemma NoRepeatIsShort(layout: seq<LayoutItem>)
    requires NoRepeat(layout)
    ensures |layout| <= 15
  {
    IdsOfCount(layout);
    SetOfSeqSize(WidgetIds());
    forall w | w in IdsOf(layout)
      ensures w in (set v | v in WidgetIds())
    {
      AllWidgetsListed(w);
    }
    SubsetSize(IdsOf(layout), set w | w in WidgetIds());
  }

  lemma {:induction false} IdsOfSize(layout: seq<LayoutItem>)
    ensures |IdsOf(layout)| <= |layout|
  {
    if layout != [] {
      IdsOfSize(layout[..|layout| - 1]);
    }
  }

  lemma {:induction false} HasIsId(layout: seq<LayoutItem>, w: WidgetId)
    requires Has(layout, w)
    ensures w in IdsOf(layout)
  {
    var i :| 0 <= i < |layout| && layout[i].id == w;
    if i < |layout| - 1 {
      assert layout[..|layout| - 1][i].id == w;
      HasIsId(layout[..|layout| - 1], w);
    }
  }

  lemma {:induction false} DistinctSetSize(ids: seq<WidgetId>)
    requires forall i, j :: 0 <= i < j < |ids| ==> ids[i] != ids[j]
    ensures |set w | w in ids| == |ids|
  {
    if ids != [] {
      var init, last := ids[..|ids| - 1], ids[|ids| - 1];
      DistinctSetSize(init);
      assert ids == init + [last];
      assert (set w | w in ids) == (set w | w in init) + {last};
    }
  }

  /** A layout with all of these distinct widgets is at least as long as their list. */
  lemma HasAllIsLong(layout: seq<LayoutItem>, ids: seq<WidgetId>)
    requires forall w :: w in ids ==> Has(layout, w)
    requires forall i, j :: 0 <= i < j < |ids| ==> ids[i] != ids[j]
    ensures |ids| <= |layout|
  {
    DistinctSetSize(ids);
    forall w | w in ids
      ensures w in IdsOf(layout)
    {
      HasIsId(layout, w);
    }
    SubsetSize((set w | w in ids), IdsOf(layout));
    IdsOfSize(layout);
  }

  lemma NormalIsWhole(layout: seq<LayoutItem>)
    requires IsNormal(layout)
    ensures |layout| == 15
  {
    NoRepeatIsShort(layout);
    WidgetIdsDistinct();
    HasAllIsLong(layout, WidgetIds());
  }

  // ---------------------------------------------------------------------------
  // Reading entries
  // ---------------------------------------------------------------------------

  lemma ItemRoundTrip(item: LayoutItem)
    requires item.span in Spans()
    ensures EntryItem(ItemToJson(item)) == Some(item)
  {
    NamedName(item.id);
    SnapKeepsLadder(item.span);
    var fields := ItemToJson(item).fields;
    assert fields["id"] == Text(Name(item.id)) && fields["span"] == Num(Finite(item.span as real));
  }

  lemma LastRejoins<T>(s: seq<T>)
    requires s != []
    ensures s[..|s| - 1] + [s[|s| - 1]] == s
  {
  }

  lemma NotHadBefore(layout: seq<LayoutItem>)
    requires NoRepeat(layout) && layout != []
    ensures !Has(layout[..|layout| - 1], layout[|layout| - 1].id)
  {
  }

  lemma {:induction false} KeptRoundTrip(layout: seq<LayoutItem>)
    requires NoRepeat(layout) && OnLadder(layout)
    ensures Kept(ToJson(layout).items) == layout
  {
    var items := ToJson(layout).items;
    if layout != [] {
      var init, last := layout[..|layout| - 1], layout[|layout| - 1];
      KeptRoundTrip(init);
      assert items[..|items| - 1] == ToJson(init).items;
      ItemRoundTrip(last);
      assert items[|items| - 1] == ItemToJson(last);
      NotHadBefore(layout);
      LastRejoins(layout);
    }
  }

  lemma {:induction false} KeptGrows(entries: seq<Json>, n: nat)
    requires n <= |entries|
    ensures Kept(entries[..n]) <= Kept(entries)
  {
    if n < |entries| {
      var init := entries[..|entries| - 1];
      KeptGrows(init, n);
      assert init[..n] == entries[..n];
    } else {
      assert entries[..n] == entries;
    }
  }

  lemma {:induction false} NullsKeepNothing(entries: seq<Json>)
    requires forall i :: 0 <= i < |entries| ==> entries[i] == Null
    ensures Kept(entries) == []
  {
    if entries != [] {
      NullsKeepNothing(entries[..|entries| - 1]);
    }
  }

  // ---------------------------------------------------------------------------
  // Moving and resizing
  // ---------------------------------------------------------------------------

  /** Which old index stands at `k` after taking `from` out and putting it in at `to`. */
  function Source(from: nat, to: nat, k: nat): nat {
    if k == to then from
    else if from <= k < to then k + 1
    else if to < k <= from then k - 1
    else k
  }

  lemma SplicedAt(layout: seq<LayoutItem>, from: nat, to: nat, k: nat)
    requires from < |layout| && to < |layout| && k < |layout|
    ensures Source(from, to, k) < |layout|
    ensures Spliced(layout, from, to)[k] == layout[Source(from, to, k)]
  {
    var rest := layout[..from] + layout[from + 1..];
    assert forall i :: 0 <= i < |rest| ==> rest[i] == layout[if i < from then i else i + 1];
  }

  /** Putting it back where it was undoes a move. */
  lemma SplicedBack(layout: seq<LayoutItem>, from: nat, to: nat)
    requires from < |layout| && to < |layout|
    ensures Spliced(Spliced(layout, from, to), to, from) == layout
  {
    var moved := Spliced(layout, from, to);
    forall k | 0 <= k < |layout|
      ensures Spliced(moved, to, from)[k] == layout[k]
    {
      SplicedAt(moved, to, from, k);
      SplicedAt(layout, from, to, Source(to, from, k));
    }
  }

  lemma SplicedIsNormal(layout: seq<LayoutItem>, from: nat, to: nat)
    requires IsNormal(layout) && from < |layout| && to < |layout|
    ensures IsNormal(Spliced(layout, from, to))
  {
    var moved := Spliced(layout, from, to);
    forall k | 0 <= k < |layout|
      ensures Source(from, to, k) < |layout| && moved[k] == layout[Source(from, to, k)]
    {
      SplicedAt(layout, from, to, k);
    }
    forall w: WidgetId
      ensures Has(moved, w)
    {
      assert Has(layout, w);
      var i :| 0 <= i < |layout| && layout[i].id == w;
      assert moved[Source(to, from, i)].id == w;
    }
  }

  lemma IndexIsUnique(layout: seq<LayoutItem>, i: nat)
    requires NoRepeat(layout) && i < |layout|
    ensures IndexOf(layout, layout[i].id) == i
  {
    var k := IndexOf(layout, layout[i].id);
  }

  lemma TruncOfInt(n: int)
    ensures Trunc(n as real) == n
  {
  }

  /** A move that changes something puts the widget where it was sent. */
  lemma ReorderLands(layout: seq<LayoutItem>, id: WidgetId, to: Number)
    requires IsNormal(layout) && ReorderWidget(layout, id, to).Changed?
    ensures var moved := ReorderWidget(layout, id, to).layout;
            IsNormal(moved) && |moved| == |layout| && IndexOf(moved, id) == Clamp(Trunc(to.value), |layout| - 1)
  {
    var from := IndexOf(layout, id);
    var target := Clamp(Trunc(to.value), |layout| - 1);
    SplicedIsNormal(layout, from, target);
    SplicedAt(layout, from, target, target);
    IndexIsUnique(Spliced(layout, from, target), target);
  }

  lemma LadderRungs(rung: nat)
    requires rung < 6
    ensures Rung(Spans()[rung]) == rung
  {
  }

  lemma WithSpanIsNormal(layout: seq<LayoutItem>, id: WidgetId, span: int)
    requires IsNormal(layout) && span in Spans()
    ensures IsNormal(WithSpan(layout, id, span))
  {
    var resized := WithSpan(layout, id, span);
    forall w: WidgetId
      ensures Has(resized, w)
    {
      assert Has(layout, w);
      var i :| 0 <= i < |layout| && layout[i].id == w;
      assert resized[i].id == w;
    }
  }
}
