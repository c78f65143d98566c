# crypto-websockets, modelled in Dafny

This project models the deterministic core of a Rust client that streams
market data and private account data from Binance, Huobi, OKEx and FTX over
websockets. It also proves properties of that core.

- **The FTX order book** (`FtxOrderbook`, orderbook.dfy). Bids and asks are
  maps from price to quantity. The module covers `partial` and `update`
  deltas, the best bid and ask, the mid price, and `quote`, which is the
  average price of a market order walked best-price-first through the
  book.
- **Percent-encoding and the query string** (`PercentEncoding`,
  encoding.dfy). `percent_encode` encodes the text as UTF-8, keeps ASCII
  letters and digits, and escapes every other byte as `%XX` in upper-case
  hex. `build_query_string` writes `key=value` fields in ascending key
  order and joins them with `&`. Both carry decoders with proved round
  trips.
- **Signing** (`Signing`, signing.dfy). The three signed strings are:
  - Huobi: `GET\n host\n path\n query`;
  - OKEx: `timestamp + method + url`;
  - FTX: `timestamp + "websocket_login"`.
  
  The keyed hash and its base64 or hex output are a function parameter.
- **Outbound control messages** (`ControlMessages`, control.dfy). The
  subscribe, login and account-subscription requests of the three
  exchanges that need them.
- **What `connect` sends** on each stream right after subscribing it
  (`Connect`, connect.dfy).
- **Endpoints and the connection registry** (`Registry`, registry.dfy).
  The URL and path of each subscription, and the maps from subscription to
  stream token and back. `subscribe` and `unsubscribe` are state
  transitions over a set of live tokens. The module also covers the three
  credential lookups and `poll_next`.
- **The receive loop** (`Dispatch`, dispatch.dfy). What `rx_handler` does
  with one item of the stream set: hand the event to the user's handler,
  send replies (pongs, account subscriptions), keep going, stop, or fail.
- **Shared pieces**: `Common` (Option, Result, the error kinds, a JSON
  value), `Text` (joining and splitting on a separator, decimal integer
  text) and `Models` (the ten `Subscription` variants).

A few modelling conventions apply throughout:
- Decimal prices and quantities are exact `real`s. The 96-bit decimal type
  the source uses rounds division and panics on overflow; neither is modelled
  (see Left out).
- Clock readings are parameters.
- A Rust panic (`unwrap`, `expect`, `todo!`) is a `Failure(Panic(..))` result.
- Decoding by serde and gzip is replaced by frames that already carry the
  event they decode to.
- Every log line the receive loop writes (`trace!`, `debug!`, `info!`,
  `warn!`, `error!`) is a `Log` action at the point it is written; the
  text and the level are not modelled.

## Model

| member | source | states |
|---|---|---|
| FtxOrderbook.New | src/ftx_model.rs:205-211 | a new book keeps its symbol and has no bids and no asks |
| FtxOrderbook.Update | src/ftx_model.rs:213-240 | the symbol is unchanged; each side ends as its delta describes (`SideAfter`): listed prices take their last listed quantity, or are removed by a zero in an `update`, and unlisted prices keep their level; a delta with no bids leaves the bids alone, and likewise for asks |
| FtxOrderbook.UpdateSide | src/ftx_model.rs:215-238 | applying one side's levels in order yields the side that `SideAfter` describes |
| FtxOrderbook.SideAfterUnique | src/ftx_model.rs:213-240 | `SideAfter` determines the resulting side: two sides that both satisfy it are equal |
| FtxOrderbook.PartialMerges | src/ftx_model.rs:215-222 | a `partial` merges rather than replaces: every price already present or listed (even with quantity 0) is present afterwards |
| FtxOrderbook.UpdateRemovesZeroLevels | src/ftx_model.rs:223-238 | after an `update`, a price whose every listing on a side has quantity 0 is absent from that side, for bids and for asks alike |
| FtxOrderbook.MaxKey | src/ftx_model.rs:287-290 | the greatest price of a non-empty side |
| FtxOrderbook.MinKey | src/ftx_model.rs:292-295 | the least price of a non-empty side |
| FtxOrderbook.BidPrice | src/ftx_model.rs:287-290 | `None` iff there are no bids; otherwise a bid price at least every other bid price |
| FtxOrderbook.AskPrice | src/ftx_model.rs:292-295 | `None` iff there are no asks; otherwise an ask price at most every other ask price |
| FtxOrderbook.MidPrice | src/ftx_model.rs:297-301 | present iff both sides are non-empty, and then the average of the best bid and best ask prices |
| FtxOrderbook.MidPriceBetween | src/ftx_model.rs:297-301 | when the book is not crossed, the mid price lies between the best bid and the best ask |
| FtxOrderbook.BestBid | src/ftx_model.rs:303-309 | `None` iff there are no bids; otherwise the best bid price with its quantity in the book |
| FtxOrderbook.BestAsk | src/ftx_model.rs:311-317 | `None` iff there are no asks; otherwise the best ask price with its quantity in the book |
| FtxOrderbook.BestBidAndAsk | src/ftx_model.rs:319-322 | present iff both sides are non-empty, and then the pair of best bid and best ask |
| FtxOrderbook.Ascending | src/ftx_model.rs:329-331 | lists every ask level exactly once in increasing price order, which is the order `quote` walks the asks for a buy |
| FtxOrderbook.Descending | src/ftx_model.rs:329-331 | lists every bid level exactly once in decreasing price order, which is the order `quote` walks the bids for a sell |
| FtxOrderbook.Fill | src/ftx_model.rs:336-350 | a successful walk takes a prefix of the ladder at the ladder's prices, whole levels except possibly the last one, whose quantity it caps; the quantities sum to exactly the amount asked for |
| FtxOrderbook.FillFailsIffTooLarge | src/ftx_model.rs:336-344 | with non-negative quantities, the walk runs out of levels iff the amount exceeds the ladder's total quantity |
| FtxOrderbook.Quote | src/ftx_model.rs:327-357 | on a book with non-negative quantities, a positive quantity quotes `None` iff it exceeds the total quantity of the consumed side (asks for a buy, bids for a sell); a present quote is the cost of the best-first fills divided by the quantity; a negative quantity fills nothing and quotes 0 |
| FtxOrderbook.QuoteIsBestFirstAverage | src/ftx_model.rs:327-357 | a successful quote is the quantity-weighted average price of fills taken best-price-first and summing to the quantity, and it lies between the best and the worst price consumed |
| FtxOrderbook.BuyQuoteBounds | src/ftx_model.rs:327-357 | a filled buy pays at least the best ask and at most the highest ask it reached |
| FtxOrderbook.SellQuoteBounds | src/ftx_model.rs:327-357 | a filled sell receives at most the best bid and at least the lowest bid it reached |
| FtxOrderbook.LadderDepth | src/ftx_model.rs:329-331 | the ladder `quote` walks holds exactly the side's total quantity |
| PercentEncoding.Utf8Char | src/subscription.rs:625-632 | one to four bytes per character; ASCII characters encode as themselves, and every byte of a non-ASCII character is at least 0x80 |
| PercentEncoding.Utf8DecodeCharOf | src/subscription.rs:625-632 | a strict UTF-8 decoder (no overlong forms, no surrogates, nothing above U+10FFFF) reads a character's encoding back as that character, whatever bytes follow |
| PercentEncoding.Utf8RoundTrip | src/subscription.rs:625-632 | decoding the UTF-8 encoding of any text yields that text |
| PercentEncoding.Utf8Injective | src/subscription.rs:625-632 | two texts with the same UTF-8 encoding are equal |
| PercentEncoding.EncodeByte | src/subscription.rs:625-632 | an ASCII letter or digit stays itself; any other byte becomes three characters starting with `%` |
| PercentEncoding.EncodeBytes | src/subscription.rs:625-632 | the output is the input length plus two characters per escaped byte, and it contains only letters, digits and `%` |
| PercentEncoding.PercentEncode | src/subscription.rs:625-632 | the length and alphabet of `percent_encode` over the UTF-8 bytes of the text |
| PercentEncoding.DecodeEncode | src/subscription.rs:625-632 | decoding the encoding of any byte string gives the bytes back |
| PercentEncoding.EncodeDecode | src/subscription.rs:625-632 | the encoding is canonical: any decodable text is the encoding of what it decodes to |
| PercentEncoding.PercentEncodeAlnum | src/subscription.rs:625-632 | text made only of ASCII letters and digits is unchanged |
| PercentEncoding.PercentEncodeAppend | src/subscription.rs:625-632 | encoding works character by character: the encoding of a concatenation is the concatenation of the encodings |
| PercentEncoding.PercentEncodeExample | src/subscription.rs:625-632 | text shaped like "a+b,c" becomes "a%2Bb%2Cc": letters kept, `+` and `,` escaped in upper-case hex |
| PercentEncoding.HexRoundTrip | src/subscription.rs:625-632 | an upper-case hex digit reads back as the value it was written for |
| PercentEncoding.StrLessTotal | src/subscription.rs:609-615 | the key order of a `BTreeMap<String, _>` is total on distinct keys |
| PercentEncoding.StrLessTransitive | src/subscription.rs:609-615 | the key order is transitive |
| PercentEncoding.StrLessIrreflexive | src/subscription.rs:609-615 | the key order is strict |
| PercentEncoding.LeastKey | src/subscription.rs:609-615 | a non-empty map has a key below all its other keys |
| PercentEncoding.SortedKeys | src/subscription.rs:609-615 | lists every key of the map exactly once, in strictly ascending order |
| PercentEncoding.Fields | src/subscription.rs:609-615 | one `key=percent_encode(value)` field per listed key, in the listed order, with the key not encoded |
| PercentEncoding.QueryStringRoundTrip | src/subscription.rs:609-615 | parsing the query string gives back the (key, UTF-8 value) pairs in ascending key order, for keys free of `&` and `=` |
| PercentEncoding.QueryOfRoundTrip | src/subscription.rs:609-615 | for any key order, splitting on `&` and `=` and decoding recovers each key with its value's bytes |
| PercentEncoding.QueryStringEmpty | src/subscription.rs:609-615 | the empty map gives the empty string |
| PercentEncoding.QueryInsertionOrderIrrelevant | src/subscription.rs:609-615 | any two insertion orders of the same distinct-key parameters give the same query string |
| PercentEncoding.FromPairsContents | src/subscription.rs:609-615 | inserting distinct-key pairs maps exactly those keys, each to its own value |
| Signing.HuobiPreImageLines | src/subscription.rs:580 | split at line breaks, the Huobi signed string is exactly `GET`, the host, the path and the query |
| Signing.SignedParams | src/subscription.rs:571-576 | adds exactly `AccessKeyId`, `SignatureMethod`=`HmacSHA256`, `SignatureVersion`=`2` and `Timestamp`, and leaves the other parameters alone |
| Signing.HuobiSign | src/subscription.rs:567-587 | panics with "no key" iff no credential is registered; otherwise returns the signed parameters and the hash, under the secret, of the signed string over their query string |
| Signing.HuobiAuthQuery | src/subscription.rs:571-578 | with no other parameters, the query string is exactly the four signature fields in the order AccessKeyId, SignatureMethod, SignatureVersion, Timestamp |
| Signing.QueryHasNoLineBreak | src/subscription.rs:578-580 | the query string of parameters whose keys have no line break has none either, so the signed string stays four lines |
| Signing.SortedEnumerationUnique | src/subscription.rs:609-615 | the ascending enumeration of a map's keys is unique |
| Signing.OkexSign | src/subscription.rs:589-597 | panics with "no key" iff no credential is registered; otherwise returns the key, the passphrase and the hash of `timestamp + method + url` under the secret |
| Signing.OkexLoginPreImage | src/subscription.rs:88-89 | the login's signed string ends in `GET/users/self/verify`, and what precedes it reads back as the seconds |
| Signing.FtxSign | src/subscription.rs:599-605 | panics with "no key" iff no credential is registered; otherwise returns the key, the subaccount and the hash of `timestamp + "websocket_login"` under the secret |
| Signing.FtxLoginPreImage | src/subscription.rs:112-113 | the signed string ends in `websocket_login`, and what precedes it reads back as the milliseconds |
| Signing.SignersAgree | src/subscription.rs:567-605 | the three signers succeed on exactly the same subscriptions |
| Signing.HuobiSignsOwnEndpoint | src/subscription.rs:68 | the host and path the Huobi order stream signs are those of the endpoint it connects to |
| ControlMessages.HuobiSubMarket | src/subscription.rs:411-424 | one `sub` request per topic, in order |
| ControlMessages.HuobiSubMarketTopics | src/subscription.rs:411-424 | the `sub` fields of the requests are exactly the topics, in order |
| ControlMessages.HuobiSubAccount | src/subscription.rs:495-508 | panics iff the subscription has no topic list; otherwise one `sub` request per account topic, in order |
| ControlMessages.HuobiAccountTopics | src/subscription.rs:495-508 | the `topic` fields of the account requests are exactly the topics, in order |
| ControlMessages.FtxSubMarket | src/subscription.rs:426-459 | three requests per market, channels `orderbook`, `ticker`, `trades` in that order, markets in order |
| ControlMessages.FtxSubMarketCovers | src/subscription.rs:426-459 | every (channel, market) pair is requested |
| ControlMessages.FtxSubMarketOnly | src/subscription.rs:426-459 | nothing but (channel, market) pairs is requested |
| ControlMessages.FtxSubAccount | src/subscription.rs:510-528 | panics iff the subscription has no topic list; otherwise subscribes to `fills` and then `orders` |
| ControlMessages.OkexMarketTopics | src/subscription.rs:464-483 | three args per instrument, channels `books50-l2-tbt`, `price-limit`, `trades` in that order |
| ControlMessages.OkexMarketArgs | src/subscription.rs:461-493 | an empty object, then the instrument args: 1 + 3·n entries |
| ControlMessages.OkexMarketTopicsInstruments | src/subscription.rs:464-483 | the `instId` of every third arg recovers the instruments, in order |
| ControlMessages.OkexSubMarketInstruments | src/subscription.rs:486-491 | the request's `args` are the market args, and after the leading empty object they name exactly the instruments |
| ControlMessages.OkexOrderTopics | src/subscription.rs:538-543 | one `orders` arg per instrument type, in order |
| ControlMessages.OkexAccountArgs | src/subscription.rs:530-558 | empty object, `balance_and_position`, the `orders` args, `account`, `positions` with instType `ANY`: n + 4 entries |
| ControlMessages.OkexOrderTopicsInstTypes | src/subscription.rs:538-543 | the `orders` args name exactly the requested instrument types, in order |
| ControlMessages.OkexAccountInstTypes | src/subscription.rs:530-558 | between `balance_and_position` and `account`, the account args name exactly the requested instrument types, in order |
| ControlMessages.OkexSubAccount | src/subscription.rs:530-564 | panics iff the subscription has no topic list; otherwise a request with exactly `op`=`subscribe` and `args`, the account args |
| ControlMessages.HuobiAuthMessage | src/subscription.rs:69-77 | the auth request has exactly the four signature fields (each the parameter's value, or `null` when absent), `Signature`, `op`=`auth` and `type`=`api` |
| ControlMessages.HuobiMarketPong | src/subscription.rs:327-329 | the market-stream pong is the single field `pong` carrying the given time |
| ControlMessages.HuobiOrderPong | src/subscription.rs:357-360 | the order-stream pong has exactly `op`=`pong` and `ts` carrying the given time |
| ControlMessages.OkexSubMarket | src/subscription.rs:485-488 | the market request has exactly `op`=`subscribe` and `args`, the market args |
| ControlMessages.OkexLoginMessage | src/subscription.rs:91-99 | the OKEx login has exactly `op`=`login` and `args`, a one-element array whose object holds exactly the key, passphrase, timestamp and signature |
| ControlMessages.FtxLoginMessage | src/subscription.rs:115-123 | the FTX login has exactly `op`=`login` and `args`, an object holding exactly the key, signature, time (a number) and subaccount |
| Connect.ConnectMessages | src/subscription.rs:41-135 | fails, with the "no key" panic, iff the stream is private (Huobi order, OKEx order, FTX order) and has no credential |
| Connect.MarketRequests | src/subscription.rs:61-108 | Binance streams send nothing; Huobi, OKEx and FTX market streams send their market requests |
| Connect.LoginMessages | src/subscription.rs:65-124 | a private stream's login fails iff its credential is missing |
| Connect.HuobiOrderConnect | src/subscription.rs:65-80 | the Huobi auth request fails iff the credential is missing |
| Connect.OkexOrderConnect | src/subscription.rs:86-101 | the OKEx login fails iff the credential is missing |
| Connect.FtxOrderLogin | src/subscription.rs:110-124 | the FTX login fails iff the credential is missing |
| Connect.PublicMessageCounts | src/subscription.rs:46-108 | public streams always succeed, with 0 messages for Binance, one per topic for Huobi, one for OKEx and three per market for FTX |
| Connect.HuobiAuthRequest | src/subscription.rs:65-80 | the single auth request carries the key, `HmacSHA256`, `2`, the timestamp, `op`=`auth`, `type`=`api`, and the hash of the signed string over `api.hbdm.vn`, `/linear-swap-notification` and the sorted four-field query |
| Connect.HuobiAuthOfSigned | src/subscription.rs:69-77 | the auth request built from freshly signed parameters has no null field |
| Connect.FtxLoginThenAccount | src/subscription.rs:110-127 | the FTX order stream sends its login (time in milliseconds, signature over that time's text) and then the `fills` and `orders` subscriptions |
| Connect.OkexLoginOnly | src/subscription.rs:86-101 | the OKEx order stream sends only its login, whose timestamp text reads back as the seconds |
| Registry.BaseUrlByFamily | src/websocket.rs:58-72 | two subscriptions share a base URL iff they belong to the same exchange product |
| Registry.FixedPathIgnoresTopics | src/websocket.rs:74-95 | Huobi, OKEx and FTX paths do not depend on the topics |
| Registry.Host | src/websocket.rs:58-72 | each exchange product's host is non-empty and contains no `/` |
| Registry.BaseUrl | src/websocket.rs:58-72 | every base URL is `wss://` followed by a host with no `/`, so it carries no path |
| Registry.Path | src/websocket.rs:74-95 | every path starts with `/`; the three combined-stream Binance paths are `/stream?streams=` and the `/`-joined topics, the USwap order path is `/ws/` and the joined topics |
| Registry.Endpoint | src/websocket.rs:99 | the URL connected to starts with the base URL, which ends at the first `/` after `wss://`, and continues with the path |
| Registry.PathTopicsRoundTrip | src/websocket.rs:74-83 | the topics can be read back from a Binance path when none contains `/` |
| Registry.New | src/websocket.rs:42-55 | a new registry keeps the credentials, has no subscriptions, tokens, sinks or live streams, and is consistent |
| Registry.Subscribe | src/websocket.rs:99-110 | fails iff the connection fails; otherwise it records the fresh token both ways and the sink, marks the token live, and changes no other subscription's entry |
| Registry.Unsubscribe | src/websocket.rs:116-121 | returns the token iff the subscription has one whose stream is still live; only the live set changes, losing that token |
| Registry.SubscribePreservesValid | src/websocket.rs:106-110 | subscribing keeps the registry consistent |
| Registry.UnsubscribePreservesValid | src/websocket.rs:116-121 | unsubscribing keeps the registry consistent |
| Registry.LiveTokensResolve | src/websocket.rs:106-110 | in a consistent registry every live token names a subscription |
| Registry.SubscribeThenUnsubscribe | src/websocket.rs:99-121 | unsubscribing right after subscribing takes exactly the new stream |
| Registry.UnsubscribeTwice | src/websocket.rs:116-121 | a second unsubscribe of the same subscription finds nothing |
| Registry.UnsubscribeUnknown | src/websocket.rs:116-121 | unsubscribing a subscription never subscribed returns nothing and changes nothing |
| Registry.ResubscribeKeepsOldStream | src/websocket.rs:106-110 | re-subscribing moves the subscription to the new token but leaves the old token mapped to it and still live |
| Registry.StaleTokenTakesOtherStream | src/websocket.rs:106-121 | after a stream is taken, a later subscription given the same token is taken by unsubscribing the earlier subscription |
| Registry.CredentialsFixed | src/websocket.rs:99-121 | neither transition changes the credentials |
| Registry.CheckKey | src/websocket.rs:123-128 | `NoApiKeySet` iff no credential; otherwise the key and the secret |
| Registry.OkexCheckKey | src/websocket.rs:130-135 | `NoApiKeySet` iff no credential; otherwise key, secret and passphrase |
| Registry.FtxCheckKey | src/websocket.rs:137-142 | `NoApiKeySet` iff no credential; otherwise key, secret and subaccount |
| Registry.CheckKeysAgree | src/websocket.rs:123-142 | the three lookups fail together, and agree on the key and the secret |
| Registry.PollNext | src/websocket.rs:178-197 | never ends the stream; an exhausted stream set yields `NoStreamSubscribed`, an ended member stream is not ready, an item keeps its token and an error passes through |
| Registry.PollNextItemInjective | src/websocket.rs:178-197 | a successful outer item determines the inner poll it came from |
| Dispatch.OnFrame | src/subscription.rs:174-394 | a frame hands at most one event to the handler, and that is its own payload, exactly when the payload decodes for the stream, arrives in the frame kind the stream reads, and is a forwarded variant (`Delivers`); the loop sends exactly the ping replies, the Huobi account requests after a successful auth and the OKEx account subscription after a successful login (`Replies`) |
| Dispatch.FtxTypeFilter | src/subscription.rs:273-308 | an FTX response is logged, then forwarded iff its type is `Update` or `Partial` and logged again otherwise |
| Dispatch.FtxErrorNeverForwarded | src/subscription.rs:273-308 | no frame on any stream forwards an FTX `Error` response |
| Dispatch.HuobiPingOnePong | src/subscription.rs:354-364 | an order-stream `ping` gets exactly one `{"op":"pong","ts":now}` reply and the loop continues |
| Dispatch.LogsBeforeDecoding | src/subscription.rs:221-351 | a text frame on the USwap order stream (`debug!` at line 222) and an inflated binary frame on a Huobi stream (`trace!` at lines 321 and 350) write a log line before anything else, even when the payload then fails to decode |
| Dispatch.HuobiMarketPingIgnoresServerTime | src/subscription.rs:321-333 | a market-stream ping is logged (the trace of the inflated payload) and then answered with `{"pong": now}`, and nothing else happens, whatever the server's timestamp |
| Dispatch.HuobiAuthGate | src/subscription.rs:366-372 | an `auth` status leads to sending the account topics iff its error code is `Some(0)` |
| Dispatch.OkexLoginGate | src/subscription.rs:251-264 | a subscribe event leads to sending the account subscription iff it is `login` with code `"0"`, and the loop continues |
| Dispatch.CloseFails | src/subscription.rs:393 | a close frame ends the loop with `SocketClosed` and does nothing else |
| Dispatch.NextOutcomes | src/subscription.rs:174-394 | the loop stops quietly iff a text frame reaches a Huobi stream; it fails with `SocketClosed` iff the frame is a close; it fails as malformed iff the stream reads the frame but cannot decode it |
| Dispatch.TransportErrorAsEmptyText | src/subscription.rs:172 | a transport error is handled as an empty text frame: a Huobi stream stops, any other stream fails as malformed, the USwap order stream after logging the payload (its `debug!` at line 222) |
| Dispatch.ItemUsesTokenSubscription | src/subscription.rs:168-173 | an ended stream is only logged; an item is handled by the rule of the subscription its token was recorded for, and an unknown token fails |
| Dispatch.OnItem | src/subscription.rs:168-173 | an ended stream forwards and sends nothing and the loop continues; an item with an unknown token panics; an item with a known token forwards and sends as a frame of that token's subscription would, a transport error counting as an empty text frame |
| Dispatch.MarketStreamsOnlyListen | src/subscription.rs:174-394 | only the Huobi streams and the OKEx order stream ever send from the receive loop |
| Dispatch.PingTick | src/subscription.rs:155-166 | each timer tick sends `{"op":"ping"}` to exactly the subscribed FTX streams |
| Text.SplitJoin | src/websocket.rs:76-83 | splitting the `/`-joined topics gives them back when none contains the separator |
| Text.JoinSplit | src/websocket.rs:76-83 | joining the pieces of a split gives the text back |
| Text.IntStringRoundTrip | src/subscription.rs:88 | the decimal text of a timestamp reads back as the timestamp |

## Left out

- Sockets and the async runtime are not modelled: `connect_async`, `sink.send`, `tokio::select!` scheduling and `StreamUnordered` fairness. Connection success is a boolean parameter of `Registry.Subscribe`. Send errors are not modelled.
- The stream token comes from `StreamUnordered::insert`. It is a parameter of `Registry.Subscribe` that must not be live.
- `reconnect` is not modelled: it sleeps and calls `connect` again.
- The ping timer's five-second period is not modelled. Only what one tick sends is (`Dispatch.PingTick`).
- HMAC-SHA256 and the base64 and hex encodings are not modelled: they come from foreign crates. They are a function parameter `Mac` of the signers.
- Clocks are parameters: the UTC timestamp text for Huobi, the seconds for OKEx and the milliseconds for FTX and for the pongs.
- gzip inflation is not modelled. A binary frame only records whether it inflates to text.
- JSON decoding by serde, including untagged enums, is not modelled. A frame carries the event it decodes to, or nothing. Market payloads are reduced to their variant name.
- `parse_message` is not modelled: it is not called by the receive loop.
- Errors returned by the user's handler are not modelled: the handler is assumed to accept every event.
- `verify_checksum` and `_pad_0` are not modelled: they depend on CRC32 and on decimal string formatting.
- `Url::parse` normalisation is not modelled. `Registry.Endpoint` is the plain concatenation of base URL and path.
- JSON serialisation is not modelled: messages are JSON values, not text.
- `BinanceBLVTStream` is left out. `connect` and `rx_handler` mention it, but `subscribe` has no URL for it.
- FtxOrderbook.Quote: the fills are summed and multiplied exactly, and the average is an exact quotient. The source's 96-bit decimal rounds the division to 28 significant digits: a buy of 3 against asks {100: 1, 101: 2} quotes 100.66666666666666666666666667, not 302/3. Its `+` and `*` panic when a result overflows 96 bits.
- FtxOrderbook.MidPrice: the halving is exact, whereas the source's decimal division rounds to 28 significant digits, and the sum of the two prices can overflow and panic.
- FtxOrderbook.Quote: quantity zero is excluded by its precondition. The source divides by it and panics, and this is not modelled as a result.
- Dispatch.HuobiAuthGate: stated for a non-empty account topic list. With no topics a successful auth sends nothing, so the iff cannot hold.
