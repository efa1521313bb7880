/** The analytics engine's view of a closed trade (src/lib/analytics/types.ts). */
module AnalyticsTypes {
  import opened Prelude

  datatype Direction = Long | Short

  datatype TradeStyle = Day | Swing

  datatype AssetClass = Forex | Crypto | Indices | Stocks | Commodities | Other

  /** Money is idealised as `real`; instants are milliseconds. */
  datatype Trade = Trade(
    symbol: string,
    assetClass: AssetClass,
    direction: Direction,
    style: TradeStyle,
    openAt: int,
    closeAt: int,
    profit: real,
    rr: Option<real>,
    strategy: Option<string>,
    rating: Option<int>,
    mood: Option<string>)

  datatype EquityPoint = EquityPoint(index: nat, closeAt: int, balance: real)

  function Sum(s: seq<real>): real {
    if s == [] then 0.0 else s[0] + Sum(s[1..])
  }
}
