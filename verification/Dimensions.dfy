/**
 The breakdowns of a book (src/lib/analytics/dimensions.ts), and exactly when they add up to it:
 buckets by a key, one for each key listed, and the heat map of weekdays and sessions.
 */
module Dimensions {
  import opened AnalyticsTypes
  import opened Grouping
  import opened Metrics

  datatype Bucket<K> = Bucket(key: K, metrics: Metrics)

  /** The wall clock's reading of an instant, as far as the dimensions use it; Sunday is 0. */
  datatype Clock = Clock(weekday: int, hour: int)

  datatype Session = Asia | London | NewYork

  datatype HeatCell = HeatCell(weekday: int, session: Session, net: real, count: nat)

  function SessionOfHour(hour: int): Session {
    if hour < 9 then Asia else if hour < 16 then London else NewYork
  }

  function Weekdays(): seq<int> {
    [1, 2, 3, 4, 5]
  }

  function Sessions(): seq<Session> {
    [Asia, London, NewYork]
  }

  function Directions(): seq<Direction> {
    [Long, Short]
  }

  function Styles(): seq<TradeStyle> {
    [Day, Swing]
  }

  function AssetClasses(): seq<AssetClass> {
    [Forex, Crypto, Indices, Stocks, Commodities, Other]
  }

  // ---------------------------------------------------------------------------
  // bucketBy
  // ---------------------------------------------------------------------------

  function Buckets<K(==)>(trades: seq<Trade>, keys: seq<K>, keyOf: Trade -> K): (b: seq<Bucket<K>>)
    ensures |b| == |keys|
  {
    seq(|keys|, i requires 0 <= i < |keys| => Bucket(keys[i], BookMetrics(GroupOf(trades, keyOf, keys[i]))))
  }

  ghost predicate Grouped<K(!new)>(groups: map<K, seq<Trade>>, keys: seq<K>, trades: seq<Trade>, keyOf: Trade -> K) {
    && (forall key :: key in groups <==> key in keys)
    && (forall key :: key in groups ==> groups[key] == GroupOf(trades, keyOf, key))
  }

  lemma GroupedStep<K(!new)>(groups: map<K, seq<Trade>>, keys: seq<K>, trades: seq<Trade>, i: nat, keyOf: Trade -> K)
    requires i < |trades| && Grouped(groups, keys, trades[..i], keyOf)
    ensures var key := keyOf(trades[i]);
            Grouped(if key in groups then groups[key := groups[key] + [trades[i]]] else groups,
                    keys, trades[..i + 1], keyOf)
  {
    forall key | key in groups
      ensures GroupOf(trades[..i + 1], keyOf, key) == groups[key] + if keyOf(trades[i]) == key then [trades[i]] else []
    {
      GroupStep(trades, i, keyOf, key);
    }
  }

  /** The first half of `bucketBy`: a list for every key, and every trade into the list of its key, if there is one. */
  method GroupsOf<K(==, !new)>(trades: seq<Trade>, keys: seq<K>, keyOf: Trade -> K) returns (groups: map<K, seq<Trade>>)
    ensures Grouped(groups, keys, trades, keyOf)
  {
    groups := map[];
    for i := 0 to |keys|
      invariant Grouped(groups, keys[..i], [], keyOf)
    {
      groups := groups[keys[i] := []];
    }
    assert keys[..|keys|] == keys && trades[..0] == [];
    for i := 0 to |trades|
      invariant Grouped(groups, keys, trades[..i], keyOf)
    {
      var key := keyOf(trades[i]);
      GroupedStep(groups, keys, trades, i, keyOf);
      if key in groups {
        groups := groups[key := groups[key] + [trades[i]]];
      }
    }
    assert trades[..|trades|] == trades;
  }

  method BucketBy<K(==, !new)>(trades: seq<Trade>, keys: seq<K>, keyOf: Trade -> K) returns (buckets: seq<Bucket<K>>)
    ensures buckets == Buckets(trades, keys, keyOf)
  {
    var groups := GroupsOf(trades, keys, keyOf);
    buckets := [];
    for i := 0 to |keys|
      invariant buckets == Buckets(trades, keys, keyOf)[..i]
    {
      var metrics := ComputeMetrics(if keys[i] in groups then groups[keys[i]] else []);
      buckets := buckets + [Bucket(keys[i], metrics)];
    }
  }

  // ---------------------------------------------------------------------------
  // The figures that add up
  // ---------------------------------------------------------------------------

  datatype Figure = Count | Net | Wins | Losses | GrossWin | GrossLoss | WithRr

  function Read(f: Figure, m: Metrics): real {
    match f
    case Count => m.count as real
    case Net => m.net
    case Wins => m.wins as real
    case Losses => m.losses as real
    case GrossWin => m.grossWin
    case GrossLoss => m.grossLoss
    case WithRr => m.withRr as real
  }

  function Total<K>(f: Figure, buckets: seq<Bucket<K>>): real {
    if buckets == [] then 0.0 else Read(f, buckets[0].metrics) + Total(f, buckets[1..])
  }

  /** The bars of a chart add up to a book, figure by figure. */
  ghost predicate SumTo<K>(buckets: seq<Bucket<K>>, m: Metrics) {
    forall f: Figure :: Total(f, buckets) == Read(f, m)
  }

  function FigureOf(f: Figure): seq<Trade> -> real {
    (trades: seq<Trade>) => Read(f, BookMetrics(trades))
  }

  /** Read straight off the tally. */
  function Tallied(f: Figure, t: Tally): real {
    match f
    case Count => t.count as real
    case Net => t.net
    case Wins => t.wins as real
    case Losses => t.count as real - t.wins as real
    case GrossWin => t.grossWin
    case GrossLoss => t.grossLoss
    case WithRr => t.rrCount as real
  }

  lemma FigureIsTallied(f: Figure, trades: seq<Trade>)
    ensures FigureOf(f)(trades) == Tallied(f, TallyOf(trades))
  {
    BookFigures(trades);
  }

  lemma FigureIsAdditive(f: Figure)
    ensures Additive(FigureOf(f))
  {
    var w := FigureOf(f);
    forall trades: seq<Trade>, t: Trade
      ensures w(trades + [t]) == w(trades) + w([t])
    {
      TallyAppend(trades, [t]);
      FigureIsTallied(f, trades);
      FigureIsTallied(f, [t]);
      FigureIsTallied(f, trades + [t]);
    }
  }

  lemma {:induction false} TotalIsKeyTotals<K>(f: Figure, trades: seq<Trade>, keys: seq<K>, keyOf: Trade -> K)
    ensures Total(f, Buckets(trades, keys, keyOf)) == KeyTotals(trades, keyOf, keys, FigureOf(f))
  {
    if keys != [] {
      TotalIsKeyTotals(f, trades, keys[1..], keyOf);
      assert Buckets(trades, keys, keyOf)[1..] == Buckets(trades, keys[1..], keyOf);
    }
  }

  lemma {:induction false} CountIsKeyCounts<K>(trades: seq<Trade>, keys: seq<K>, keyOf: Trade -> K)
    ensures Total(Count, Buckets(trades, keys, keyOf)) == KeyCounts(trades, keyOf, keys) as real
  {
    if keys != [] {
      CountIsKeyCounts(trades, keys[1..], keyOf);
      assert Buckets(trades, keys, keyOf)[1..] == Buckets(trades, keys[1..], keyOf);
      BookFigures(GroupOf(trades, keyOf, keys[0]));
    }
  }

  /** Distinct keys add up to the trades they list: the others drop off the chart. */
  lemma BucketsSumToKept<K>(trades: seq<Trade>, keys: seq<K>, keyOf: Trade -> K)
    requires Distinct(keys)
    ensures SumTo(Buckets(trades, keys, keyOf), BookMetrics(Kept(trades, keyOf, keys)))
  {
    forall f: Figure
      ensures Total(f, Buckets(trades, keys, keyOf)) == Read(f, BookMetrics(Kept(trades, keyOf, keys)))
    {
      FigureIsAdditive(f);
      GroupsAddUp(trades, keyOf, keys, FigureOf(f));
      TotalIsKeyTotals(f, trades, keys, keyOf);
    }
  }

  /** With distinct keys, the chart shows the book exactly when every trade's key is on it. */
  lemma PartitionExactly<K>(trades: seq<Trade>, keys: seq<K>, keyOf: Trade -> K)
    requires Distinct(keys)
    ensures SumTo(Buckets(trades, keys, keyOf), BookMetrics(trades)) <==> Covers(keys, trades, keyOf)
  {
    var kept := Kept(trades, keyOf, keys);
    BucketsSumToKept(trades, keys, keyOf);
    KeptAll(trades, keyOf, keys);
    CountOf(trades);
    CountOf(kept);
    assert Total(Count, Buckets(trades, keys, keyOf)) == |kept| as real;
  }

  lemma CountOf(trades: seq<Trade>)
    ensures Read(Count, BookMetrics(trades)) == |trades| as real
  {
    BookFigures(trades);
  }

  /** Keys that are the whole of their type miss no trade. */
  lemma WholeTypePartition<K(!new)>(trades: seq<Trade>, keys: seq<K>, keyOf: Trade -> K)
    requires Distinct(keys) && forall key: K :: key in keys
    ensures SumTo(Buckets(trades, keys, keyOf), BookMetrics(trades))
  {
    PartitionExactly(trades, keys, keyOf);
  }

  lemma EnumsAreListed()
    ensures Distinct(Sessions()) && forall s: Session :: s in Sessions()
    ensures Distinct(Directions()) && forall d: Direction :: d in Directions()
    ensures Distinct(Styles()) && forall s: TradeStyle :: s in Styles()
    ensures Distinct(AssetClasses()) && forall a: AssetClass :: a in AssetClasses()
  {
    forall s: Session
      ensures s in Sessions()
    {
      assert s == Sessions()[match s case Asia => 0 case London => 1 case NewYork => 2];
    }
    forall d: Direction
      ensures d in Directions()
    {
      assert d == Directions()[if d.Long? then 0 else 1];
    }
    forall s: TradeStyle
      ensures s in Styles()
    {
      assert s == Styles()[if s.Day? then 0 else 1];
    }
    forall a: AssetClass
      ensures a in AssetClasses()
    {
      assert a == AssetClasses()[match a
        case Forex => 0 case Crypto => 1 case Indices => 2 case Stocks => 3 case Commodities => 4 case Other => 5];
    }
  }

  // ---------------------------------------------------------------------------
  // Dimensions whose keys are the whole type, or taken from the trades
  // ---------------------------------------------------------------------------

  function SessionKey(clock: int -> Clock): Trade -> Session {
    (t: Trade) => SessionOfHour(clock(t.openAt).hour)
  }

  function HourKey(clock: int -> Clock): Trade -> int {
    (t: Trade) => clock(t.openAt).hour
  }

  function Self(): int -> int {
    (n: int) => n
  }

  function DirectionKey(): Trade -> Direction {
    (t: Trade) => t.direction
  }

  function StyleKey(): Trade -> TradeStyle {
    (t: Trade) => t.style
  }

  function AssetClassKey(): Trade -> AssetClass {
    (t: Trade) => t.assetClass
  }

  function SymbolKey(): Trade -> string {
    (t: Trade) => t.symbol
  }

  /** The sorted keys in use. */
  function UsedKeys<K(==)>(trades: seq<Trade>, keyOf: Trade -> K, le: (K, K) -> bool): seq<K> {
    SortBy(KeysInOrder(trades, keyOf), le)
  }

  method BySession(trades: seq<Trade>, clock: int -> Clock) returns (b: seq<Bucket<Session>>)
    ensures SumTo(b, BookMetrics(trades))
    ensures b == Buckets(trades, Sessions(), SessionKey(clock))
  {
    b := BucketBy(trades, Sessions(), SessionKey(clock));
    EnumsAreListed();
    WholeTypePartition(trades, Sessions(), SessionKey(clock));
  }

  method ByDirection(trades: seq<Trade>) returns (b: seq<Bucket<Direction>>)
    ensures SumTo(b, BookMetrics(trades))
    ensures b == Buckets(trades, Directions(), DirectionKey())
  {
    b := BucketBy(trades, Directions(), DirectionKey());
    EnumsAreListed();
    WholeTypePartition(trades, Directions(), DirectionKey());
  }

  method ByStyle(trades: seq<Trade>) returns (b: seq<Bucket<TradeStyle>>)
    ensures SumTo(b, BookMetrics(trades))
    ensures b == Buckets(trades, Styles(), StyleKey())
  {
    b := BucketBy(trades, Styles(), StyleKey());
    EnumsAreListed();
    WholeTypePartition(trades, Styles(), StyleKey());
  }

  method ByAssetClass(trades: seq<Trade>) returns (b: seq<Bucket<AssetClass>>)
    ensures SumTo(b, BookMetrics(trades))
    ensures b == Buckets(trades, AssetClasses(), AssetClassKey())
  {
    b := BucketBy(trades, AssetClasses(), AssetClassKey());
    EnumsAreListed();
    WholeTypePartition(trades, AssetClasses(), AssetClassKey());
  }

  lemma UsedKeysPartition<K(!new)>(trades: seq<Trade>, keyOf: Trade -> K, le: (K, K) -> bool)
    ensures Distinct(UsedKeys(trades, keyOf, le))
    ensures SumTo(Buckets(trades, UsedKeys(trades, keyOf, le), keyOf), BookMetrics(trades))
  {
    var keys := UsedKeys(trades, keyOf, le);
    KeysInOrderAre(trades, keyOf);
    SortedKeys(KeysInOrder(trades, keyOf), le);
    PartitionExactly(trades, keys, keyOf);
  }

  method ByHour(trades: seq<Trade>, clock: int -> Clock) returns (b: seq<Bucket<int>>)
    ensures SumTo(b, BookMetrics(trades))
    ensures b == Buckets(trades, UsedKeys(trades, HourKey(clock), ByRank(Self())), HourKey(clock))
  {
    b := BucketBy(trades, UsedKeys(trades, HourKey(clock), ByRank(Self())), HourKey(clock));
    UsedKeysPartition(trades, HourKey(clock), ByRank(Self()));
  }

  /** Every hour with a trade, in clock order. */
  lemma HoursAscend(trades: seq<Trade>, clock: int -> Clock)
    ensures var hours := UsedKeys(trades, HourKey(clock), ByRank(Self()));
            && (forall i, j :: 0 <= i < j < |hours| ==> hours[i] < hours[j])
            && (forall h :: h in hours <==> exists i :: 0 <= i < |trades| && clock(trades[i].openAt).hour == h)
  {
    var used := KeysInOrder(trades, HourKey(clock));
    var hours := SortBy(used, ByRank(Self()));
    KeysInOrderAre(trades, HourKey(clock));
    SortedKeys(used, ByRank(Self()));
    forall i, j | 0 <= i < j < |hours|
      ensures hours[i] < hours[j]
    {
      SortRanks(used, Self());
      RankedPairs(hours, Self(), i, j);
    }
    forall i | 0 <= i < |trades|
      ensures clock(trades[i].openAt).hour in hours
    {
      assert HourKey(clock)(trades[i]) in used;
    }
  }

  method BySymbol(trades: seq<Trade>, order: (string, string) -> bool) returns (b: seq<Bucket<string>>)
    ensures SumTo(b, BookMetrics(trades))
    ensures b == Buckets(trades, UsedKeys(trades, SymbolKey(), order), SymbolKey())
  {
    b := BucketBy(trades, UsedKeys(trades, SymbolKey(), order), SymbolKey());
    UsedKeysPartition(trades, SymbolKey(), order);
  }

  // ---------------------------------------------------------------------------
  // Weekdays and the heat map: weekend trades have no bar
  // ---------------------------------------------------------------------------

  function WeekdayKey(clock: int -> Clock): Trade -> int {
    (t: Trade) => clock(t.openAt).weekday
  }

  ghost predicate NoWeekendTrade(trades: seq<Trade>, clock: int -> Clock) {
    forall i :: 0 <= i < |trades| ==> 1 <= clock(trades[i].openAt).weekday <= 5
  }

  method ByWeekday(trades: seq<Trade>, clock: int -> Clock) returns (b: seq<Bucket<int>>)
    ensures b == Buckets(trades, Weekdays(), WeekdayKey(clock))
    ensures SumTo(b, BookMetrics(Kept(trades, WeekdayKey(clock), Weekdays())))
    ensures SumTo(b, BookMetrics(trades)) <==> NoWeekendTrade(trades, clock)
  {
    b := BucketBy(trades, Weekdays(), WeekdayKey(clock));
    BucketsSumToKept(trades, Weekdays(), WeekdayKey(clock));
    PartitionExactly(trades, Weekdays(), WeekdayKey(clock));
    WeekdaysCover(trades, clock);
  }

  lemma WeekdaysCover(trades: seq<Trade>, clock: int -> Clock)
    ensures Covers(Weekdays(), trades, WeekdayKey(clock)) <==> NoWeekendTrade(trades, clock)
  {
    assert forall d :: d in Weekdays() <==> 1 <= d <= 5;
  }

  function HeatKey(clock: int -> Clock): Trade -> (int, Session) {
    (t: Trade) => (clock(t.openAt).weekday, SessionOfHour(clock(t.openAt).hour))
  }

  /** The fifteen squares, weekday by weekday. */
  function HeatKeys(): (keys: seq<(int, Session)>)
    ensures |keys| == 15
  {
    seq(15, i requires 0 <= i < 15 => (Weekdays()[i / 3], Sessions()[i % 3]))
  }

  function HeatCellOf(trades: seq<Trade>, clock: int -> Clock, key: (int, Session)): HeatCell {
    var t := TallyOf(GroupOf(trades, HeatKey(clock), key));
    HeatCell(key.0, key.1, t.net, t.count)
  }

  ghost predicate Heated(cells: map<(int, Session), HeatCell>, trades: seq<Trade>, clock: int -> Clock) {
    && (forall key :: key in cells <==> key in HeatKeys())
    && (forall key :: key in cells ==> cells[key] == HeatCellOf(trades, clock, key))
  }

  function WithTrade(cell: HeatCell, t: Trade): HeatCell {
    cell.(net := cell.net + t.profit, count := cell.count + 1)
  }

  lemma HeatedStep(cells: map<(int, Session), HeatCell>, trades: seq<Trade>, i: nat, clock: int -> Clock)
    requires i < |trades| && Heated(cells, trades[..i], clock)
    ensures var key := HeatKey(clock)(trades[i]);
            Heated(if key in cells then cells[key := WithTrade(cells[key], trades[i])] else cells,
                   trades[..i + 1], clock)
  {
    forall key | key in cells
      ensures HeatCellOf(trades[..i + 1], clock, key) ==
              if HeatKey(clock)(trades[i]) == key then WithTrade(cells[key], trades[i]) else cells[key]
    {
      HeatCellStep(trades, i, clock, key);
    }
  }

  lemma HeatCellStep(trades: seq<Trade>, i: nat, clock: int -> Clock, key: (int, Session))
    requires i < |trades|
    ensures var cell := HeatCellOf(trades[..i], clock, key);
            HeatCellOf(trades[..i + 1], clock, key) ==
            if HeatKey(clock)(trades[i]) == key then WithTrade(cell, trades[i]) else cell
  {
    var group := GroupOf(trades[..i], HeatKey(clock), key);
    GroupStep(trades, i, HeatKey(clock), key);
    if HeatKey(clock)(trades[i]) == key {
      TallyOneMore(group, trades[i]);
    } else {
      assert group + [] == group;
    }
  }

  method EmptyGrid(ghost clock: int -> Clock) returns (grid: map<(int, Session), HeatCell>)
    ensures Heated(grid, [], clock)
  {
    var keys := HeatKeys();
    grid := map[];
    for i := 0 to 15
      invariant forall key :: key in grid <==> key in keys[..i]
      invariant forall key :: key in grid ==> grid[key] == HeatCellOf([], clock, key)
    {
      grid := grid[keys[i] := HeatCell(keys[i].0, keys[i].1, 0.0, 0)];
    }
    assert keys[..15] == keys;
  }

  method CellsInOrder(grid: map<(int, Session), HeatCell>, ghost trades: seq<Trade>, ghost clock: int -> Clock)
    returns (cells: seq<HeatCell>)
    requires Heated(grid, trades, clock)
    ensures CellsOf(cells, trades, clock, HeatKeys())
  {
    var keys := HeatKeys();
    cells := seq(15, i requires 0 <= i < 15 && keys[i] in grid => grid[keys[i]]);
  }

  method Heatmap(trades: seq<Trade>, clock: int -> Clock) returns (cells: seq<HeatCell>)
    ensures CellsOf(cells, trades, clock, HeatKeys())
  {
    var grid := EmptyGrid(clock);
    assert trades[..0] == [];
    for i := 0 to |trades|
      invariant Heated(grid, trades[..i], clock)
    {
      var key := HeatKey(clock)(trades[i]);
      HeatedStep(grid, trades, i, clock);
      if key in grid {
        grid := grid[key := WithTrade(grid[key], trades[i])];
      }
    }
    assert trades[..|trades|] == trades;
    cells := CellsInOrder(grid, trades, clock);
  }

  /** Each row of the grid adds up to that weekday's bar. */
  lemma {:induction false} HeatRowIsWeekday(trades: seq<Trade>, clock: int -> Clock, weekday: int)
    ensures var asia := HeatCellOf(trades, clock, (weekday, Asia));
            var london := HeatCellOf(trades, clock, (weekday, London));
            var newYork := HeatCellOf(trades, clock, (weekday, NewYork));
            var bar := BookMetrics(GroupOf(trades, WeekdayKey(clock), weekday));
            && asia.net + london.net + newYork.net == bar.net
            && asia.count + london.count + newYork.count == bar.count
  {
    var day := GroupOf(trades, WeekdayKey(clock), weekday);
    GroupInGroup(trades, clock, weekday, Asia);
    GroupInGroup(trades, clock, weekday, London);
    GroupInGroup(trades, clock, weekday, NewYork);
    RowTotal(Net, day, clock);
    RowTotal(Count, day, clock);
    FigureIsTallied(Net, day);
    FigureIsTallied(Count, day);
    BookFigures(day);
  }

  lemma RowTotal(f: Figure, day: seq<Trade>, clock: int -> Clock)
    ensures Tallied(f, TallyOf(GroupOf(day, SessionKey(clock), Asia))) +
            Tallied(f, TallyOf(GroupOf(day, SessionKey(clock), London))) +
            Tallied(f, TallyOf(GroupOf(day, SessionKey(clock), NewYork))) == Tallied(f, TallyOf(day))
  {
    var key, w := SessionKey(clock), FigureOf(f);
    FigureIsAdditive(f);
    FigureIsTallied(f, day);
    FigureIsTallied(f, GroupOf(day, key, Asia));
    FigureIsTallied(f, GroupOf(day, key, London));
    FigureIsTallied(f, GroupOf(day, key, NewYork));
    ThreeGroups(day, key, w);
  }

  lemma ThreeGroups(day: seq<Trade>, key: Trade -> Session, w: seq<Trade> -> real)
    requires Additive(w)
    ensures w(GroupOf(day, key, Asia)) + w(GroupOf(day, key, London)) + w(GroupOf(day, key, NewYork)) == w(day)
  {
    EnumsAreListed();
    GroupsAddUp(day, key, Sessions(), w);
    KeptAll(day, key, Sessions());
    assert Sessions()[1..] == [London, NewYork] && [London, NewYork][1..] == [NewYork] && [NewYork][1..] == [];
    assert KeyTotals(day, key, [NewYork], w) == w(GroupOf(day, key, NewYork));
    assert KeyTotals(day, key, [London, NewYork], w) == w(GroupOf(day, key, London)) + w(GroupOf(day, key, NewYork));
  }

  lemma {:induction false} GroupInGroup(trades: seq<Trade>, clock: int -> Clock, weekday: int, s: Session)
    ensures GroupOf(trades, HeatKey(clock), (weekday, s)) ==
            GroupOf(GroupOf(trades, WeekdayKey(clock), weekday), SessionKey(clock), s)
  {
    if trades != [] {
      var init, last := trades[..|trades| - 1], trades[|trades| - 1];
      GroupInGroup(init, clock, weekday, s);
      var day := GroupOf(init, WeekdayKey(clock), weekday);
      GroupSnoc(day, last, SessionKey(clock), s);
      assert day + [] == day;
    }
  }

  // ---------------------------------------------------------------------------
  // What the fifteen cells add up to
  // ---------------------------------------------------------------------------

  function CountIn(cells: seq<HeatCell>): nat {
    if cells == [] then 0 else cells[0].count + CountIn(cells[1..])
  }

  function NetIn(cells: seq<HeatCell>): real {
    if cells == [] then 0.0 else cells[0].net + NetIn(cells[1..])
  }

  ghost predicate CellsOf(cells: seq<HeatCell>, trades: seq<Trade>, clock: int -> Clock, keys: seq<(int, Session)>) {
    |cells| == |keys| && forall i :: 0 <= i < |cells| ==> cells[i] == HeatCellOf(trades, clock, keys[i])
  }

  lemma {:induction false} CellsAreKeyTotals(
      cells: seq<HeatCell>, trades: seq<Trade>, clock: int -> Clock, keys: seq<(int, Session)>)
    requires CellsOf(cells, trades, clock, keys)
    ensures CountIn(cells) as real == KeyTotals(trades, HeatKey(clock), keys, FigureOf(Count))
    ensures NetIn(cells) == KeyTotals(trades, HeatKey(clock), keys, FigureOf(Net))
  {
    if cells != [] {
      var group := GroupOf(trades, HeatKey(clock), keys[0]);
      FigureIsTallied(Count, group);
      FigureIsTallied(Net, group);
      CellsAreKeyTotals(cells[1..], trades, clock, keys[1..]);
    }
  }

  lemma HeatKeysDistinct()
    ensures Distinct(HeatKeys())
    ensures forall d: int, s: Session :: (d, s) in HeatKeys() <==> d in Weekdays()
  {
    var keys := HeatKeys();
    EnumsAreListed();
    forall i, j | 0 <= i < j < 15
      ensures keys[i] != keys[j]
    {
      assert Weekdays()[i / 3] == i / 3 + 1 && Weekdays()[j / 3] == j / 3 + 1;
      if i / 3 == j / 3 {
        assert i % 3 < j % 3;
      }
    }
    forall d: int, s: Session | d in Weekdays()
      ensures (d, s) in keys
    {
      var k := match s case Asia => 0 case London => 1 case NewYork => 2;
      assert keys[3 * (d - 1) + k] == (d, s);
    }
  }

  lemma {:induction false} KeptOnTheGrid(trades: seq<Trade>, clock: int -> Clock)
    ensures Kept(trades, HeatKey(clock), HeatKeys()) == Kept(trades, WeekdayKey(clock), Weekdays())
  {
    HeatKeysDistinct();
    if trades != [] {
      KeptOnTheGrid(trades[..|trades| - 1], clock);
    }
  }

  /** The fifteen cells add up to the trades opened Monday to Friday, and to the book exactly without weekend trades. */
  lemma HeatmapAddsUp(trades: seq<Trade>, clock: int -> Clock, cells: seq<HeatCell>)
    requires CellsOf(cells, trades, clock, HeatKeys())
    ensures var kept := Kept(trades, WeekdayKey(clock), Weekdays());
            && CountIn(cells) == |kept| && NetIn(cells) == BookMetrics(kept).net
            && (CountIn(cells) == |trades| <==> NoWeekendTrade(trades, clock))
  {
    var kept := Kept(trades, WeekdayKey(clock), Weekdays());
    CellsAreKeyTotals(cells, trades, clock, HeatKeys());
    HeatKeysDistinct();
    KeptOnTheGrid(trades, clock);
    FigureIsAdditive(Count);
    FigureIsAdditive(Net);
    GroupsAddUp(trades, HeatKey(clock), HeatKeys(), FigureOf(Count));
    GroupsAddUp(trades, HeatKey(clock), HeatKeys(), FigureOf(Net));
    CountOf(kept);
    KeptAll(trades, WeekdayKey(clock), Weekdays());
    WeekdaysCover(trades, clock);
  }
}
