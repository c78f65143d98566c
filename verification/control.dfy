/** The JSON control messages the client sends (src/subscription.rs): market
    and account subscriptions for Huobi, OKEx and FTX, the login and auth
    requests, and the keep-alive replies. */
module ControlMessages {
  import opened Common
  import opened Models

  /** The client id Huobi subscriptions carry. */
  const HuobiClientId: string := "huobiusdtswap_rust"

  /** The channels `ftx_sub_market` subscribes per market, in order. */
  const FtxMarketChannels: seq<string> := ["orderbook", "ticker", "trades"]

  /** The channels `okex_sub_market` subscribes per instrument, in order. */
  const OkexMarketChannels: seq<string> := ["books50-l2-tbt", "price-limit", "trades"]

  /** The field `k` of an object. */
  function Field(j: Json, k: string): Option<Json>
  {
    if j.JObj? && k in j.fields then Some(j.fields[k]) else None
  }

  // -----------------------------------------------------------------------
  // Huobi

  function HuobiSubMessage(topic: string): Json
  {
    JObj(map["sub" := JStr(topic), "id" := JStr(HuobiClientId)])
  }

  /** `huobi_sub_market`: one `sub` request per topic, in order. */
  function HuobiSubMarket(topics: seq<string>): (msgs: seq<Json>)
    ensures |msgs| == |topics|
    ensures forall i :: 0 <= i < |topics| ==> msgs[i] == HuobiSubMessage(topics[i])
  {
    if |topics| == 0 then [] else [HuobiSubMessage(topics[0])] + HuobiSubMarket(topics[1..])
  }

  function HuobiAccountMessage(topic: string): Json
  {
    JObj(map["op" := JStr("sub"), "cid" := JStr(HuobiClientId), "topic" := JStr(topic)])
  }

  /** The topics a run of Huobi requests carries in the given field. */
  function TopicsIn(msgs: seq<Json>, field: string): Option<seq<string>>
  {
    if |msgs| == 0 then Some([])
    else
      match (Field(msgs[0], field), TopicsIn(msgs[1..], field))
      case (Some(JStr(t)), Some(rest)) => Some([t] + rest)
      case _ => None
  }

  /** The market requests name exactly the requested topics, in order. */
  lemma {:induction false} HuobiSubMarketTopics(topics: seq<string>)
    ensures TopicsIn(HuobiSubMarket(topics), "sub") == Some(topics)
  {
    if |topics| > 0 {
      HuobiSubMarketTopics(topics[1..]);
      assert HuobiSubMarket(topics)[1..] == HuobiSubMarket(topics[1..]);
      assert [topics[0]] + topics[1..] == topics;
    }
  }

  /** `huobi_sub_account`: one `sub` request per requested account topic;
      a subscription missing from the request panics (`unwrap`). */
  function HuobiSubAccount(subs: Requests, s: Subscription): (res: Result<seq<Json>>)
    ensures res.Failure? <==> s !in subs
    ensures res.Failure? ==> res.error.Panic?
    ensures res.Success? ==> |res.value| == |subs[s]|
    ensures res.Success? ==> forall i :: 0 <= i < |subs[s]| ==> res.value[i] == HuobiAccountMessage(subs[s][i])
  {
    if s !in subs then Failure(Panic("called `Option::unwrap()` on a `None` value"))
    else Success(HuobiAccountRequests(subs[s]))
  }

  function HuobiAccountRequests(topics: seq<string>): (msgs: seq<Json>)
    ensures |msgs| == |topics|
    ensures forall i :: 0 <= i < |topics| ==> msgs[i] == HuobiAccountMessage(topics[i])
  {
    if |topics| == 0 then [] else [HuobiAccountMessage(topics[0])] + HuobiAccountRequests(topics[1..])
  }

  /** The account requests name exactly the requested topics, in order. */
  lemma {:induction false} HuobiAccountTopics(topics: seq<string>)
    ensures TopicsIn(HuobiAccountRequests(topics), "topic") == Some(topics)
  {
    if |topics| > 0 {
      HuobiAccountTopics(topics[1..]);
      assert HuobiAccountRequests(topics)[1..] == HuobiAccountRequests(topics[1..]);
      assert [topics[0]] + topics[1..] == topics;
    }
  }

  /** The authentication request of the Huobi order stream: the four signed
      parameters (`null` where absent), the signature, `op` and `type`. */
  function HuobiAuthMessage(params: map<string, string>, signature: string): (m: Json)
    ensures m.JObj?
    ensures m.fields.Keys == {"AccessKeyId", "SignatureMethod", "SignatureVersion", "Timestamp", "Signature", "op", "type"}
    ensures forall k :: k in {"AccessKeyId", "SignatureMethod", "SignatureVersion", "Timestamp"} ==>
              Field(m, k) == if k in params then Some(JStr(params[k])) else Some(JNull)
    ensures Field(m, "Signature") == Some(JStr(signature))
    ensures Field(m, "op") == Some(JStr("auth")) && Field(m, "type") == Some(JStr("api"))
  {
    JObj(map[
      "AccessKeyId" := JOptStr(Lookup(params, "AccessKeyId")),
      "SignatureMethod" := JOptStr(Lookup(params, "SignatureMethod")),
      "SignatureVersion" := JOptStr(Lookup(params, "SignatureVersion")),
      "Timestamp" := JOptStr(Lookup(params, "Timestamp")),
      "Signature" := JStr(signature),
      "op" := JStr("auth"),
      "type" := JStr("api")])
  }

  function Lookup(m: map<string, string>, k: string): Option<string>
  {
    if k in m then Some(m[k]) else None
  }

  /** The reply to a market-stream ping. */
  function HuobiMarketPong(ts: int): (m: Json)
    ensures m.JObj? && m.fields.Keys == {"pong"}
    ensures Field(m, "pong") == Some(JInt(ts))
  {
    JObj(map["pong" := JInt(ts)])
  }

  /** The reply to an order-stream ping. */
  function HuobiOrderPong(ts: int): (m: Json)
    ensures m.JObj? && m.fields.Keys == {"op", "ts"}
    ensures Field(m, "op") == Some(JStr("pong")) && Field(m, "ts") == Some(JInt(ts))
  {
    JObj(map["op" := JStr("pong"), "ts" := JInt(ts)])
  }

  // -----------------------------------------------------------------------
  // FTX

  function FtxSubMessage(channel: string, market: string): Json
  {
    JObj(map["op" := JStr("subscribe"), "channel" := JStr(channel), "market" := JStr(market)])
  }

  /** `ftx_sub_market`: for each market in order, the orderbook, ticker and
      trades subscriptions. */
  function FtxSubMarket(topics: seq<string>): (msgs: seq<Json>)
    ensures |msgs| == 3 * |topics|
    ensures forall i :: 0 <= i < |msgs| ==> msgs[i] == FtxSubMessage(FtxMarketChannels[i % 3], topics[i / 3])
  {
    if |topics| == 0 then []
    else
      var head := [FtxSubMessage("orderbook", topics[0]), FtxSubMessage("ticker", topics[0]), FtxSubMessage("trades", topics[0])];
      var rest := FtxSubMarket(topics[1..]);
      ShiftDivMod3();
      head + rest
  }

  /** Every (channel, market) pair is requested. */
  lemma FtxSubMarketCovers(topics: seq<string>, a: nat, b: nat)
    requires a < 3 && b < |topics|
    ensures FtxSubMessage(FtxMarketChannels[a], topics[b]) in FtxSubMarket(topics)
  {
    var i := 3 * b + a;
    DivMod3(a, b);
    var msgs := FtxSubMarket(topics);
    assert msgs[i] == FtxSubMessage(FtxMarketChannels[i % 3], topics[i / 3]);
  }

  /** Dropping the first three entries shifts the position within a triple
      not at all and the triple's number by one. */
  lemma ShiftDivMod3()
    ensures forall i: int {:trigger i % 3} :: i >= 3 ==> (i - 3) % 3 == i % 3 && (i - 3) / 3 == i / 3 - 1
  {
    forall i: int | i >= 3
      ensures (i - 3) % 3 == i % 3 && (i - 3) / 3 == i / 3 - 1
    {
    }
  }

  lemma DivMod3(a: nat, b: nat)
    requires a < 3
    ensures (3 * b + a) % 3 == a && (3 * b + a) / 3 == b
  {
  }

  lemma DivBound3(i: nat, n: nat)
    requires i < 3 * n
    ensures i % 3 < 3 && i / 3 < n
  {
  }

  /** The request at position `i` of `ftx_sub_market`. */
  lemma FtxSubMarketAt(topics: seq<string>, i: nat)
    requires i < |FtxSubMarket(topics)|
    ensures i % 3 < 3 && i / 3 < |topics|
    ensures FtxSubMarket(topics)[i] == FtxSubMessage(FtxMarketChannels[i % 3], topics[i / 3])
  {
    DivBound3(i, |topics|);
  }

  /** A position of a request of `ftx_sub_market`. */
  lemma FtxSubMarketIndex(topics: seq<string>, j: Json) returns (i: nat)
    requires j in FtxSubMarket(topics)
    ensures i < |FtxSubMarket(topics)| && FtxSubMarket(topics)[i] == j
  {
    var msgs := FtxSubMarket(topics);
    i :| 0 <= i < |msgs| && msgs[i] == j;
  }

  /** Nothing but those pairs is requested. */
  lemma FtxSubMarketOnly(topics: seq<string>, j: Json)
    requires j in FtxSubMarket(topics)
    ensures exists a, b :: 0 <= a < 3 && 0 <= b < |topics| && j == FtxSubMessage(FtxMarketChannels[a], topics[b])
  {
    var i := FtxSubMarketIndex(topics, j);
    FtxSubMarketAt(topics, i);
  }

  /** `ftx_sub_account`: the fills and orders subscriptions; the requested
      topics are looked up (and a missing entry panics) but not used. */
  function FtxSubAccount(subs: Requests, s: Subscription): (res: Result<seq<Json>>)
    ensures res.Failure? <==> s !in subs
    ensures res.Failure? ==> res.error.Panic?
    ensures res.Success? ==> res.value == [FtxAccountMessage("fills"), FtxAccountMessage("orders")]
  {
    if s !in subs then Failure(Panic("called `Option::unwrap()` on a `None` value"))
    else Success([FtxAccountMessage("fills"), FtxAccountMessage("orders")])
  }

  function FtxAccountMessage(channel: string): Json
  {
    JObj(map["op" := JStr("subscribe"), "channel" := JStr(channel)])
  }

  /** The FTX login request; `time` is the number of milliseconds that was
      signed. */
  function FtxLoginMessage(key: string, signature: string, time: int, subaccount: string): (m: Json)
    ensures m.JObj? && m.fields.Keys == {"op", "args"}
    ensures Field(m, "op") == Some(JStr("login"))
    ensures var args := m.fields["args"];
            && args.JObj? && args.fields.Keys == {"key", "sign", "time", "subaccount"}
            && Field(args, "key") == Some(JStr(key))
            && Field(args, "sign") == Some(JStr(signature))
            && Field(args, "time") == Some(JInt(time))
            && Field(args, "subaccount") == Some(JStr(subaccount))
  {
    JObj(map[
      "op" := JStr("login"),
      "args" := JObj(map["key" := JStr(key), "sign" := JStr(signature), "time" := JInt(time), "subaccount" := JStr(subaccount)])])
  }

  /** The keep-alive sent to FTX streams on every tick of the ping timer. */
  const FtxPing: Json := JObj(map["op" := JStr("ping")])

  // -----------------------------------------------------------------------
  // OKEx

  function OkexArg(channel: string, instId: string): Json
  {
    JObj(map["channel" := JStr(channel), "instId" := JStr(instId)])
  }

  function OkexMarketTopics(topics: seq<string>): (args: seq<Json>)
    ensures |args| == 3 * |topics|
    ensures forall i :: 0 <= i < |args| ==> args[i] == OkexArg(OkexMarketChannels[i % 3], topics[i / 3])
  {
    if |topics| == 0 then []
    else
      var head := [OkexArg("books50-l2-tbt", topics[0]), OkexArg("price-limit", topics[0]), OkexArg("trades", topics[0])];
      var rest := OkexMarketTopics(topics[1..]);
      ShiftDivMod3();
      head + rest
  }

  /** The `args` of `okex_sub_market`: an empty object, then for each
      instrument in order its order-book, price-limit and trades channels. */
  function OkexMarketArgs(topics: seq<string>): (args: seq<Json>)
    ensures |args| == 1 + 3 * |topics|
    ensures args[0] == JObj(map[])
    ensures forall i :: 0 <= i < 3 * |topics| ==> args[1 + i] == OkexArg(OkexMarketChannels[i % 3], topics[i / 3])
  {
    var rest := OkexMarketTopics(topics);
    assert forall i :: 0 <= i < |rest| ==> ([JObj(map[])] + rest)[1 + i] == rest[i];
    [JObj(map[])] + rest
  }

  /** `okex_sub_market`: one `subscribe` request carrying all the args. */
  function OkexSubMarket(topics: seq<string>): (m: Json)
    ensures m.JObj? && m.fields.Keys == {"op", "args"}
    ensures Field(m, "op") == Some(JStr("subscribe"))
    ensures Field(m, "args") == Some(JArr(OkexMarketArgs(topics)))
  {
    JObj(map["op" := JStr("subscribe"), "args" := JArr(OkexMarketArgs(topics))])
  }

  function OkexChannel(channel: string): Json
  {
    JObj(map["channel" := JStr(channel)])
  }

  function OkexInstTypeArg(channel: string, instType: string): Json
  {
    JObj(map["channel" := JStr(channel), "instType" := JStr(instType)])
  }

  function OkexOrderTopics(instTypes: seq<string>): (args: seq<Json>)
    ensures |args| == |instTypes|
    ensures forall i :: 0 <= i < |instTypes| ==> args[i] == OkexInstTypeArg("orders", instTypes[i])
  {
    if |instTypes| == 0 then [] else [OkexInstTypeArg("orders", instTypes[0])] + OkexOrderTopics(instTypes[1..])
  }

  /** The `args` of `okex_sub_account`: an empty object, balance and
      position, one orders channel per instrument type in order, account,
      and positions of every instrument type. */
  function OkexAccountArgs(instTypes: seq<string>): (args: seq<Json>)
    ensures |args| == |instTypes| + 4
    ensures args[0] == JObj(map[]) && args[1] == OkexChannel("balance_and_position")
    ensures forall i :: 0 <= i < |instTypes| ==> args[2 + i] == OkexInstTypeArg("orders", instTypes[i])
    ensures args[|instTypes| + 2] == OkexChannel("account")
    ensures args[|instTypes| + 3] == OkexInstTypeArg("positions", "ANY")
  {
    [JObj(map[]), OkexChannel("balance_and_position")] + OkexOrderTopics(instTypes)
      + [OkexChannel("account"), OkexInstTypeArg("positions", "ANY")]
  }

  /** The orders channels name exactly the requested instrument types, in
      order. */
  lemma {:induction false} OkexOrderTopicsInstTypes(instTypes: seq<string>)
    ensures TopicsIn(OkexOrderTopics(instTypes), "instType") == Some(instTypes)
  {
    if |instTypes| > 0 {
      OkexOrderTopicsInstTypes(instTypes[1..]);
      assert OkexOrderTopics(instTypes)[1..] == OkexOrderTopics(instTypes[1..]);
      assert [instTypes[0]] + instTypes[1..] == instTypes;
    }
  }

  /** The account request's orders channels, between balance_and_position
      and account, cover exactly the requested instrument types. */
  lemma OkexAccountInstTypes(instTypes: seq<string>)
    ensures var args := OkexAccountArgs(instTypes);
            TopicsIn(args[2..|instTypes| + 2], "instType") == Some(instTypes)
  {
    var args := OkexAccountArgs(instTypes);
    assert args[2..|instTypes| + 2] == OkexOrderTopics(instTypes);
    OkexOrderTopicsInstTypes(instTypes);
  }

  /** `okex_sub_account`; a subscription missing from the request panics. */
  function OkexSubAccount(subs: Requests, s: Subscription): (res: Result<Json>)
    ensures res.Failure? <==> s !in subs
    ensures res.Failure? ==> res.error.Panic?
    ensures res.Success? ==> res.value.JObj? && res.value.fields.Keys == {"op", "args"}
    ensures res.Success? ==> Field(res.value, "args") == Some(JArr(OkexAccountArgs(subs[s])))
    ensures res.Success? ==> Field(res.value, "op") == Some(JStr("subscribe"))
  {
    if s !in subs then Failure(Panic("called `Option::unwrap()` on a `None` value"))
    else Success(JObj(map["op" := JStr("subscribe"), "args" := JArr(OkexAccountArgs(subs[s]))]))
  }

  /** The OKEx login request. */
  function OkexLoginMessage(key: string, passphrase: string, timestamp: string, signature: string): (m: Json)
    ensures m.JObj? && m.fields.Keys == {"op", "args"}
    ensures Field(m, "op") == Some(JStr("login"))
    ensures var args := m.fields["args"];
            && args.JArr? && |args.items| == 1
            && args.items[0].JObj? && args.items[0].fields.Keys == {"apiKey", "passphrase", "timestamp", "sign"}
            && Field(args.items[0], "apiKey") == Some(JStr(key))
            && Field(args.items[0], "passphrase") == Some(JStr(passphrase))
            && Field(args.items[0], "timestamp") == Some(JStr(timestamp))
            && Field(args.items[0], "sign") == Some(JStr(signature))
  {
    JObj(map[
      "op" := JStr("login"),
      "args" := JArr([JObj(map["apiKey" := JStr(key), "passphrase" := JStr(passphrase), "timestamp" := JStr(timestamp), "sign" := JStr(signature)])])])
  }

  /** The instruments an OKEx market request covers, read back from its
      args: every third arg after the leading empty object. */
  function OkexInstruments(args: seq<Json>): Option<seq<string>>
    decreases |args|
  {
    if |args| < 3 then (if |args| == 0 then Some([]) else None)
    else
      match (Field(args[0], "instId"), OkexInstruments(args[3..]))
      case (Some(JStr(t)), Some(rest)) => Some([t] + rest)
      case _ => None
  }

  lemma {:induction false} OkexMarketTopicsInstruments(topics: seq<string>)
    ensures OkexInstruments(OkexMarketTopics(topics)) == Some(topics)
  {
    if |topics| > 0 {
      var args := OkexMarketTopics(topics);
      OkexMarketTopicsInstruments(topics[1..]);
      assert args[3..] == OkexMarketTopics(topics[1..]);
      assert args[0] == OkexArg("books50-l2-tbt", topics[0]);
      assert [topics[0]] + topics[1..] == topics;
    }
  }

  /** The market request covers exactly the requested instruments, in
      order, three channels each. */
  lemma OkexSubMarketInstruments(topics: seq<string>)
    ensures Field(OkexSubMarket(topics), "args") == Some(JArr(OkexMarketArgs(topics)))
    ensures OkexInstruments(OkexMarketArgs(topics)[1..]) == Some(topics)
  {
    assert OkexMarketArgs(topics)[1..] == OkexMarketTopics(topics);
    OkexMarketTopicsInstruments(topics);
  }
}
