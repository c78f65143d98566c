/** The identity of one logical channel group on one exchange. Every piece of
    per-connection state (endpoint, credentials, socket halves, dispatch rule)
    is keyed by it. */
module Models {

  /** The ten variants `subscribe` matches in src/websocket.rs. */
  datatype Subscription =
    | BinanceSpotMStream
    | BinanceSpotOrder
    | BinanceUSwapMStream
    | BinanceUSwapOrder
    | HuobiUSwapMarketStream
    | HuobiUSwapOrderStream
    | OkexMarketStream
    | OkexOrderStream
    | FtxMarketStream
    | FtxOrderStream

  /** The exchange families the dispatcher branches on. */
  datatype Family = BinanceSpot | BinanceUSwap | Huobi | Okex | Ftx

  function FamilyOf(s: Subscription): Family
  {
    match s
    case BinanceSpotMStream | BinanceSpotOrder => BinanceSpot
    case BinanceUSwapMStream | BinanceUSwapOrder => BinanceUSwap
    case HuobiUSwapMarketStream | HuobiUSwapOrderStream => Huobi
    case OkexMarketStream | OkexOrderStream => Okex
    case FtxMarketStream | FtxOrderStream => Ftx
  }

  /** A caller's request: the topics (symbols, channels, listen keys or
      instrument types) wanted on each subscription. */
  type Requests = map<Subscription, seq<string>>
}
