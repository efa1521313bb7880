/**
 The dashboard's layout (src/lib/dashboard/layout.ts): reading whatever is stored, and the user's
 edits. What is kept through them is in LayoutLaws.
 */
module Layout {
  import opened Prelude

  // ---------------------------------------------------------------------------
  // Widgets and widths
  // ---------------------------------------------------------------------------

  datatype WidgetId =
    | Balance | NetPnl | WinRate | AvgRr | ProfitFactor | MaxDd | MaxProfit | Streak | Expectancy | AvgWin | AvgLoss
    | RStrip | Equity | Recent | BalanceHistory

  function WidgetIds(): seq<WidgetId> {
    [Balance, NetPnl, WinRate, AvgRr, ProfitFactor, MaxDd, MaxProfit, Streak, Expectancy, AvgWin, AvgLoss,
     RStrip, Equity, Recent, BalanceHistory]
  }

  function Name(w: WidgetId): string {
    match w
    case Balance => "balance"
    case NetPnl => "netPnl"
    case WinRate => "winRate"
    case AvgRr => "avgRr"
    case ProfitFactor => "profitFactor"
    case MaxDd => "maxDd"
    case MaxProfit => "maxProfit"
    case Streak => "streak"
    case Expectancy => "expectancy"
    case AvgWin => "avgWin"
    case AvgLoss => "avgLoss"
    case RStrip => "rStrip"
    case Equity => "equity"
    case Recent => "recent"
    case BalanceHistory => "balanceHistory"
  }

  /** The width a widget has until the user chooses one. */
  function DefaultSpan(w: WidgetId): int {
    match w
    case RStrip => 12
    case Equity => 8
    case Recent => 4
    case BalanceHistory => 12
    case _ => 2
  }

  /** The widget with this name, if there is one. */
  function Named(name: string): Option<WidgetId> {
    NamedIn(name, WidgetIds())
  }

  function NamedIn(name: string, ids: seq<WidgetId>): Option<WidgetId> {
    if ids == [] then None
    else if Name(ids[0]) == name then Some(ids[0])
    else NamedIn(name, ids[1..])
  }

  function Spans(): seq<int> {
    [2, 3, 4, 6, 8, 12]
  }

  datatype LayoutItem = LayoutItem(id: WidgetId, span: int)

  function DefaultItem(w: WidgetId): LayoutItem {
    LayoutItem(w, DefaultSpan(w))
  }

  function DefaultLayout(): (l: seq<LayoutItem>)
    ensures |l| == 15
  {
    seq(15, i requires 0 <= i < 15 => DefaultItem(WidgetIds()[i]))
  }

  lemma {:induction false} AllWidgetsListed(w: WidgetId)
    ensures w in WidgetIds()
  {
    assert w == WidgetIds()[match w
      case Balance => 0 case NetPnl => 1 case WinRate => 2 case AvgRr => 3 case ProfitFactor => 4
      case MaxDd => 5 case MaxProfit => 6 case Streak => 7 case Expectancy => 8 case AvgWin => 9 case AvgLoss => 10
      case RStrip => 11 case Equity => 12 case Recent => 13 case BalanceHistory => 14];
  }

  lemma NamesDiffer(v: WidgetId, w: WidgetId)
    requires Name(v) == Name(w)
    ensures v == w
  {
    assert |Name(v)| == |Name(w)| && Name(v)[0] == Name(w)[0] && Name(v)[3] == Name(w)[3];
  }

  lemma {:induction false} NamedInFinds(w: WidgetId, ids: seq<WidgetId>)
    requires w in ids
    ensures NamedIn(Name(w), ids) == Some(w)
  {
    if Name(ids[0]) == Name(w) {
      NamesDiffer(ids[0], w);
    } else {
      NamedInFinds(w, ids[1..]);
    }
  }

  /** Every widget is known by its own name. */
  lemma NamedName(w: WidgetId)
    ensures Named(Name(w)) == Some(w)
  {
    AllWidgetsListed(w);
    NamedInFinds(w, WidgetIds());
  }

  // ---------------------------------------------------------------------------
  // Whatever is stored
  // ---------------------------------------------------------------------------

  /** A JavaScript number: an idealised real, or one of the values arithmetic cannot use. */
  datatype Number = Finite(value: real) | NaN | Infinite(negative: bool)

  /** Any value at all: `null`, `undefined`, primitives, arrays and objects. */
  datatype Json =
    | Null
    | Undefined
    | Boolean(flag: bool)
    | Num(number: Number)
    | Text(text: string)
    | List(items: seq<Json>)
    | Record(fields: map<string, Json>)

  function Field(entry: Json, name: string): Json {
    if entry.Record? && name in entry.fields then entry.fields[name] else Undefined
  }

  function Distance(span: int, value: real): real {
    if span as real >= value then span as real - value else value - span as real
  }

  /** The nearest of the first `n` widths; the wider of two that are equally near. */
  function SnapAmong(value: real, n: nat): int
    requires 1 <= n <= 6
  {
    if n == 1 then Spans()[0]
    else if Distance(Spans()[n - 1], value) <= Distance(SnapAmong(value, n - 1), value) then Spans()[n - 1]
    else SnapAmong(value, n - 1)
  }

  function Snapped(value: Json): Option<int> {
    if value.Num? && value.number.Finite? then Some(SnapAmong(value.number.value, 6)) else None
  }

  method SnapSpan(value: Json) returns (r: Option<int>)
    ensures r == Snapped(value)
  {
    if !(value.Num? && value.number.Finite?) {
      return None;
    }
    var v := value.number.value;
    var best := Spans()[0];
    for i := 0 to 6
      invariant best == if i == 0 then Spans()[0] else SnapAmong(v, i)
    {
      var span := Spans()[i];
      if Distance(span, v) <= Distance(best, v) {
        best := span;
      }
    }
    r := Some(best);
  }

  /** What one stored entry asks for: the widget it names, at the width it asks for or the usual one. */
  function EntryItem(entry: Json): Option<LayoutItem> {
    var id := Field(entry, "id");
    if id.Text? && Named(id.text).Some? then
      var w := Named(id.text).value;
      Some(LayoutItem(w, Snapped(Field(entry, "span")).GetOr(DefaultSpan(w))))
    else None
  }

  const MAX_STORED_ENTRIES := 64

  function Scanned(items: seq<Json>): seq<Json> {
    if |items| > MAX_STORED_ENTRIES then items[..MAX_STORED_ENTRIES] else items
  }

  predicate Has(layout: seq<LayoutItem>, w: WidgetId) {
    exists i :: 0 <= i < |layout| && layout[i].id == w
  }

  /** The entries that name a widget for the first time. */
  function Kept(entries: seq<Json>): seq<LayoutItem> {
    if entries == [] then []
    else
      var before := Kept(entries[..|entries| - 1]);
      var item := EntryItem(entries[|entries| - 1]);
      if item.Some? && !Has(before, item.value.id) then before + [item.value] else before
  }

  /** The widgets among `ids` that a layout does not have, at their usual width. */
  function Missing(layout: seq<LayoutItem>, ids: seq<WidgetId>): seq<LayoutItem> {
    if ids == [] then []
    else
      Missing(layout, ids[..|ids| - 1]) +
      if Has(layout, ids[|ids| - 1]) then [] else [DefaultItem(ids[|ids| - 1])]
  }

  function Completed(layout: seq<LayoutItem>): seq<LayoutItem> {
    layout + Missing(layout, WidgetIds())
  }

  function Normalized(raw: Json): seq<LayoutItem> {
    if raw.List? then Completed(Kept(Scanned(raw.items))) else DefaultLayout()
  }

  ghost predicate SeenIn(seen: set<WidgetId>, layout: seq<LayoutItem>) {
    forall w :: w in seen <==> Has(layout, w)
  }

  lemma SeenSnoc(seen: set<WidgetId>, layout: seq<LayoutItem>, item: LayoutItem)
    requires SeenIn(seen, layout)
    ensures SeenIn(seen + {item.id}, layout + [item])
  {
    forall w
      ensures Has(layout + [item], w) <==> Has(layout, w) || w == item.id
    {
      HasSnoc(layout, item, w);
    }
  }

  lemma HasSnoc(layout: seq<LayoutItem>, item: LayoutItem, w: WidgetId)
    ensures Has(layout + [item], w) <==> Has(layout, w) || w == item.id
  {
    var longer := layout + [item];
    if Has(layout, w) {
      var i :| 0 <= i < |layout| && layout[i].id == w;
      assert longer[i].id == w;
    }
    if w == item.id {
      assert longer[|layout|].id == w;
    }
  }

  lemma KeptStep(entries: seq<Json>, i: nat)
    requires i < |entries|
    ensures var before, item := Kept(entries[..i]), EntryItem(entries[i]);
            Kept(entries[..i + 1]) ==
            if item.Some? && !Has(before, item.value.id) then before + [item.value] else before
  {
    assert entries[..i + 1][..i] == entries[..i];
  }

  lemma MissingStep(layout: seq<LayoutItem>, ids: seq<WidgetId>, i: nat)
    requires i < |ids|
    ensures Missing(layout, ids[..i + 1]) ==
            Missing(layout, ids[..i]) + if Has(layout, ids[i]) then [] else [DefaultItem(ids[i])]
  {
    assert ids[..i + 1][..i] == ids[..i];
  }

  method NormalizeLayout(raw: Json) returns (layout: seq<LayoutItem>)
    ensures layout == Normalized(raw)
  {
    if !raw.List? {
      return DefaultLayout();
    }
    var entries := Scanned(raw.items);
    var seen: set<WidgetId> := {};
    layout := [];
    for i := 0 to |entries|
      invariant layout == Kept(entries[..i])
      invariant SeenIn(seen, layout)
    {
      KeptStep(entries, i);
      var id := Field(entries[i], "id");
      if !id.Text? {
        continue;
      }
      var widget := Named(id.text);
      if widget.None? || widget.value in seen {
        continue;
      }
      var span := SnapSpan(Field(entries[i], "span"));
      var item := LayoutItem(widget.value, span.GetOr(DefaultSpan(widget.value)));
      SeenSnoc(seen, layout, item);
      seen := seen + {widget.value};
      layout := layout + [item];
    }
    assert entries[..|entries|] == entries;
    ghost var kept := layout;
    var ids := WidgetIds();
    for i := 0 to |ids|
      invariant layout == kept + Missing(kept, ids[..i])
      invariant SeenIn(seen, kept)
    {
      var id := ids[i];
      MissingStep(kept, ids, i);
      if id !in seen {
        layout := layout + [LayoutItem(id, DefaultSpan(id))];
      }
    }
    assert ids[..|ids|] == ids;
  }

  // ---------------------------------------------------------------------------
  // Edits
  // ---------------------------------------------------------------------------

  /** The layout an edit was given, returned by identity, or a new one. */
  datatype Edited = Unchanged | Changed(layout: seq<LayoutItem>)

  function After(layout: seq<LayoutItem>, e: Edited): seq<LayoutItem> {
    if e.Unchanged? then layout else e.layout
  }

  /** Where a widget stands; the length when it is not there. */
  function IndexOf(layout: seq<LayoutItem>, id: WidgetId): (i: nat)
    ensures i <= |layout|
    ensures i < |layout| ==> layout[i].id == id
    ensures forall k :: 0 <= k < i ==> layout[k].id != id
  {
    if layout == [] || layout[0].id == id then 0 else 1 + IndexOf(layout[1..], id)
  }

  /** JavaScript's `Math.trunc`. */
  function Trunc(x: real): int {
    if x >= 0.0 then x.Floor else -(-x).Floor
  }

  function Clamp(n: int, high: nat): nat {
    if n < 0 then 0 else if n > high then high else n
  }

  /** Takes an item out at one index and puts it back in at another. */
  function Spliced(layout: seq<LayoutItem>, from: nat, to: nat): (r: seq<LayoutItem>)
    requires from < |layout| && to < |layout|
    ensures |r| == |layout|
  {
    var rest := layout[..from] + layout[from + 1..];
    rest[..to] + [layout[from]] + rest[to..]
  }

  function ReorderWidget(layout: seq<LayoutItem>, id: WidgetId, toIndex: Number): Edited {
    var from := IndexOf(layout, id);
    if from == |layout| || !toIndex.Finite? then Unchanged
    else
      var to := Clamp(Trunc(toIndex.value), |layout| - 1);
      if to == from then Unchanged else Changed(Spliced(layout, from, to))
  }

  function Plus(n: nat, delta: Number): Number {
    if delta.Finite? then Finite(n as real + delta.value) else delta
  }

  function MoveWidget(layout: seq<LayoutItem>, id: WidgetId, delta: Number): Edited {
    var from := IndexOf(layout, id);
    if from == |layout| then Unchanged else ReorderWidget(layout, id, Plus(from, delta))
  }

  datatype Direction = Wider | Narrower

  /** A width's place on the ladder; 6 when it is not on it. */
  function Rung(span: int): (r: nat)
    ensures r <= 6 && (r < 6 <==> span in Spans())
    ensures r < 6 ==> Spans()[r] == span
  {
    if span == 2 then 0 else if span == 3 then 1 else if span == 4 then 2
    else if span == 6 then 3 else if span == 8 then 4 else if span == 12 then 5 else 6
  }

  function Step(rung: nat, direction: Direction): nat {
    Clamp(rung + if direction.Wider? then 1 else -1, 5)
  }

  function WithSpan(layout: seq<LayoutItem>, id: WidgetId, span: int): (r: seq<LayoutItem>)
    ensures |r| == |layout|
  {
    seq(|layout|, i requires 0 <= i < |layout| => if layout[i].id == id then layout[i].(span := span) else layout[i])
  }

  function ResizeWidget(layout: seq<LayoutItem>, id: WidgetId, direction: Direction): Edited {
    var i := IndexOf(layout, id);
    var rung := if i == |layout| then 6 else Rung(layout[i].span);
    if rung == 6 then Unchanged
    else
      var next := Step(rung, direction);
      if next == rung then Unchanged else Changed(WithSpan(layout, id, Spans()[next]))
  }

  function CanResize(span: int, direction: Direction): bool
    requires span in Spans()
  {
    if direction.Wider? then Rung(span) < 5 else Rung(span) > 0
  }

  // ---------------------------------------------------------------------------
  // Saving and loading
  // ---------------------------------------------------------------------------

  function ItemToJson(item: LayoutItem): Json {
    Record(map["id" := Text(Name(item.id)), "span" := Num(Finite(item.span as real))])
  }

  function ToJson(layout: seq<LayoutItem>): Json {
    List(seq(|layout|, i requires 0 <= i < |layout| => ItemToJson(layout[i])))
  }

  /** What the save action writes: nothing for the default layout, so that it keeps following the default. */
  function Stored(raw: Json): Json {
    var layout := Normalized(raw);
    if layout == DefaultLayout() then Null else ToJson(layout)
  }

  // ---------------------------------------------------------------------------
  // The width ladder
  // ---------------------------------------------------------------------------

  /** The nearest width on the ladder, and of two equally near ones the wider. */
  ghost predicate Nearest(span: int, value: real) {
    && span in Spans()
    && (forall s :: s in Spans() ==> Distance(span, value) <= Distance(s, value))
    && (forall s :: s in Spans() && Distance(s, value) == Distance(span, value) ==> s <= span)
  }

  ghost predicate NearestAmong(span: int, value: real, n: nat)
    requires n <= 6
  {
    && span in Spans()[..n]
    && (forall k :: 0 <= k < n ==> Distance(span, value) <= Distance(Spans()[k], value))
    && (forall k :: 0 <= k < n && Distance(Spans()[k], value) == Distance(span, value) ==> Spans()[k] <= span)
  }

  lemma {:induction false} SnapAmongIsNearest(value: real, n: nat)
    requires 1 <= n <= 6
    ensures NearestAmong(SnapAmong(value, n), value, n)
  {
    if n > 1 {
      SnapAmongIsNearest(value, n - 1);
      assert Spans()[..n] == Spans()[..n - 1] + [Spans()[n - 1]];
    }
  }

  lemma SnapIsNearest(value: real)
    ensures Nearest(SnapAmong(value, 6), value)
    ensures forall span: int :: Nearest(span, value) ==> span == SnapAmong(value, 6)
  {
    SnapAmongIsNearest(value, 6);
    assert Spans()[..6] == Spans();
  }

  /** Widths on the ladder stay as they are. */
  lemma SnapKeepsLadder(span: int)
    requires span in Spans()
    ensures Snapped(Num(Finite(span as real))) == Some(span)
  {
    SnapIsNearest(span as real);
    assert Distance(span, span as real) == 0.0;
    assert Nearest(span, span as real);
  }
}
