/** The receive loop of src/subscription.rs:152-408 (`rx_handler`), one
    item at a time: what the loop does with a frame that arrives on a
    subscription's stream. Decoding (gzip, JSON) is not modelled: a frame
    carries the event its payload denotes, or nothing when the payload is
    not a message of any known shape. Market-data payloads are represented
    by the name of their variant. */
module Dispatch {
  import opened Common
  import opened Models
  import opened Registry
  import opened ControlMessages

  /** The `type` field of an FTX response. */
  datatype FtxType = Subscribed | Unsubscribed | Update | Error | Partial | Pong | Info

  /** A decoded message, by the decoder that accepts it. */
  datatype Event =
    | BinanceSpotEvent(variant: string)
    | BinanceUSwapEvent(variant: string)
    | OkexData(variant: string)
    | OkexSubRsp
    | OkexSubEvent(event: string, code: string)
    | FtxRsp(kind: FtxType)
    | HuobiData(variant: string)
    | HuobiMarketPing(ts: int)
    | HuobiSubStatus
    | HuobiOpStatus(op: string, errCode: Option<int>)

  /** The decoder family whose event enum holds the event. */
  function EventFamily(e: Event): Family
  {
    match e
    case BinanceSpotEvent(_) => BinanceSpot
    case BinanceUSwapEvent(_) => BinanceUSwap
    case OkexData(_) | OkexSubRsp | OkexSubEvent(_, _) => Okex
    case FtxRsp(_) => Ftx
    case HuobiData(_) | HuobiMarketPing(_) | HuobiSubStatus | HuobiOpStatus(_, _) => Huobi
  }

  /** What the subscription's decoder makes of a payload: the event when it
      belongs to the decoder's enum, and a decoding error otherwise. */
  function Decode(s: Subscription, payload: Option<Event>): Option<Event>
  {
    if payload.Some? && EventFamily(payload.value) == FamilyOf(s) then payload else None
  }

  /** The data variants each stream hands to the user's handler. */
  function ForwardedVariants(s: Subscription): set<string>
  {
    match s
    case BinanceSpotMStream =>
      {"AggrTrades", "Trade", "OrderBook", "DayTicker", "DayTickerAll", "Kline", "DepthOrderBook"}
    case BinanceSpotOrder => {"AccountUpdate", "OrderTrade", "BalanceUpdate"}
    case BinanceUSwapMStream =>
      {"BookTickerEvent", "AggrTradesEvent", "DayTickerEvent", "MiniTickerEvent", "Vec",
       "IndexPriceEvent", "MarkPriceEvent", "VecMarkPriceEvent", "TradeEvent",
       "ContinuousKlineEvent", "KlineEvent", "IndexKlineEvent", "LiquidationEvent",
       "OrderBook", "DepthOrderBookEvent", "EtpNavEvent", "EtpKlineEvent"}
    case BinanceUSwapOrder =>
      {"OrderTradeEvent", "AccountUpdateEvent", "ListenKeyEvent", "MarginCallEvent", "AccountConfigEvent"}
    case HuobiUSwapMarketStream => {"OrderBook", "IncrementalOrderBook", "BBO", "Kline", "TradeDetail"}
    case HuobiUSwapOrderStream => {"Account", "Order", "MatchOrder", "Position"}
    case OkexMarketStream => {"OrderBook", "Trade"}
    case OkexOrderStream => {"Account", "Position", "Order", "AccountPosition"}
    case FtxMarketStream | FtxOrderStream => {}
  }

  /** Whether a decoded event of `s`'s family goes to the handler: a listed
      data variant, or an FTX response of type `Update` or `Partial`. */
  predicate Forwards(s: Subscription, e: Event)
  {
    match e
    case BinanceSpotEvent(v) => v in ForwardedVariants(s)
    case BinanceUSwapEvent(v) => v in ForwardedVariants(s)
    case OkexData(v) => v in ForwardedVariants(s)
    case HuobiData(v) => v in ForwardedVariants(s)
    case FtxRsp(k) => k == Update || k == Partial
    case _ => false
  }

  /** A websocket frame; `inflates` says whether a binary payload is valid
      gzip of UTF-8 text. `Raw` is a raw frame. */
  datatype Frame = Text(payload: Option<Event>) | Binary(inflates: bool, payload: Option<Event>)
                 | Ping | Pong | Close | Raw

  /** What handling one item does: hand an event to the user's handler,
      send a message on the subscription's sink, or write a log line. */
  datatype Action = Forward(event: Event) | Send(message: Json) | Log

  /** Whether the loop goes on, returns `Ok(())`, or returns an error. */
  datatype Next = Continue | Stop | Fail(error: Error)

  datatype Step = Step(actions: seq<Action>, next: Next)

  /** The events handed to the handler, in order. */
  function Forwarded(actions: seq<Action>): (es: seq<Event>)
    ensures |es| <= |actions|
    ensures forall e :: e in es <==> Forward(e) in actions
  {
    if |actions| == 0 then []
    else (if actions[0].Forward? then [actions[0].event] else []) + Forwarded(actions[1..])
  }

  /** The messages sent, in order. */
  function Sent(actions: seq<Action>): (ms: seq<Json>)
    ensures |ms| <= |actions|
    ensures forall m :: m in ms <==> Send(m) in actions
  {
    if |actions| == 0 then []
    else (if actions[0].Send? then [actions[0].message] else []) + Sent(actions[1..])
  }

  /** Sends of `msgs`, in order. */
  function SendAll(msgs: seq<Json>): (actions: seq<Action>)
    ensures |actions| == |msgs|
    ensures forall i :: 0 <= i < |msgs| ==> actions[i] == Send(msgs[i])
  {
    if |msgs| == 0 then [] else [Send(msgs[0])] + SendAll(msgs[1..])
  }

  // -----------------------------------------------------------------------
  // Text frames

  /** The step `st` preceded by a log line. */
  function Logged(st: Step): (r: Step)
    ensures r.next == st.next && |r.actions| == |st.actions| + 1 && r.actions[0] == Log
    ensures Forwarded(r.actions) == Forwarded(st.actions) && Sent(r.actions) == Sent(st.actions)
  {
    assert ([Log] + st.actions)[1..] == st.actions;
    Step([Log] + st.actions, st.next)
  }

  /** A text frame. Huobi streams take no text: the loop returns `Ok(())`.
      The USwap order stream logs every payload before decoding it. */
  function OnText(subs: Requests, s: Subscription, payload: Option<Event>): Step
  {
    if FamilyOf(s) == Huobi then Step([], Stop)
    else if s == BinanceUSwapOrder then Logged(DecodeText(subs, s, payload))
    else DecodeText(subs, s, payload)
  }

  /** A text payload on a non-Huobi stream; a payload its decoder rejects
      fails. */
  function DecodeText(subs: Requests, s: Subscription, payload: Option<Event>): Step
  {
    match Decode(s, payload)
    case None => Step([], Fail(Malformed))
    case Some(e) =>
      if s == OkexOrderStream && e.OkexSubRsp? then Step([Log], Continue)
      else if s == OkexOrderStream && e.OkexSubEvent? then OnOkexEvent(subs, s, e.event, e.code)
      else if FamilyOf(s) == Ftx then Step([Log] + (if Forwards(s, e) then [Forward(e)] else [Log]), Continue)
      else Step(if Forwards(s, e) then [Forward(e)] else [], Continue)
  }

  /** An OKEx subscription event on the order stream: a successful login
      sends the account subscription. */
  function OnOkexEvent(subs: Requests, s: Subscription, event: string, code: string): Step
  {
    if event == "login" && code == "0" then
      match OkexSubAccount(subs, s)
      case Failure(err) => Step([Log], Fail(err))
      case Success(m) => Step([Log, Send(m)], Continue)
    else Step([Log, Log], Continue)
  }

  // -----------------------------------------------------------------------
  // Binary frames

  /** A binary frame. Only Huobi streams read binary payloads; a payload
      that does not inflate panics, and an inflated one is logged before it
      is decoded. */
  function OnBinary(subs: Requests, s: Subscription, inflates: bool, payload: Option<Event>, now: int): Step
  {
    if FamilyOf(s) != Huobi then Step([], Continue)
    else if !inflates then Step([], Fail(Panic("called `Result::unwrap()` on an `Err` value")))
    else Logged(DecodeInflated(subs, s, payload, now))
  }

  /** An inflated payload on a Huobi stream; a payload its decoder rejects
      fails. */
  function DecodeInflated(subs: Requests, s: Subscription, payload: Option<Event>, now: int): Step
  {
    match Decode(s, payload)
    case None => Step([], Fail(Malformed))
    case Some(e) =>
      if s == HuobiUSwapMarketStream then OnHuobiMarket(e, now) else OnHuobiOrder(subs, s, e, now)
  }

  /** A Huobi market-stream event; a ping is answered with the local time in
      milliseconds, `now`. */
  function OnHuobiMarket(e: Event, now: int): Step
  {
    match e
    case HuobiMarketPing(_) => Step([Send(HuobiMarketPong(now))], Continue)
    case HuobiSubStatus => Step([Log], Continue)
    case _ => Step(if Forwards(HuobiUSwapMarketStream, e) then [Forward(e)] else [], Continue)
  }

  /** A Huobi order-stream event: an `op` status answers pings (logging the
      pong first), subscribes the account topics after a successful auth,
      and logs any error code. */
  function OnHuobiOrder(subs: Requests, s: Subscription, e: Event, now: int): Step
  {
    match e
    case HuobiOpStatus(op, code) =>
      var pong := if op == "ping" then [Log, Send(HuobiOrderPong(now))] else [];
      var log := if code.Some? then [Log] else [];
      if op == "auth" && code == Some(0) then
        match HuobiSubAccount(subs, s)
        case Failure(err) => Step(pong, Fail(err))
        case Success(msgs) => Step(pong + SendAll(msgs) + log, Continue)
      else Step(pong + log, Continue)
    case HuobiSubStatus => Step([Log], Continue)
    case _ => Step(if Forwards(HuobiUSwapOrderStream, e) then [Forward(e)] else [], Continue)
  }

  // -----------------------------------------------------------------------
  // One item of the stream set

  /** One frame on subscription `s`; `now` is the local clock in
      milliseconds. Control frames are ignored, a close frame ends the loop
      with an error and a raw frame panics. */
  function OnFrame(subs: Requests, s: Subscription, f: Frame, now: int): (st: Step)
    ensures Forwarded(st.actions) == if Delivers(s, f) then [f.payload.value] else []
    ensures Sent(st.actions) == Replies(subs, s, f, now)
  {
    match f
    case Text(p) =>
      TextForwards(subs, s, p);
      TextSends(subs, s, p, now);
      OnText(subs, s, p)
    case Binary(inflates, p) =>
      BinaryForwards(subs, s, inflates, p, now);
      BinarySends(subs, s, inflates, p, now);
      OnBinary(subs, s, inflates, p, now)
    case Ping | Pong => Step([], Continue)
    case Close => Step([], Fail(SocketClosed))
    case Raw => Step([], Fail(Panic("not yet implemented")))
  }

  /** One item of the stream set, with the token of the stream it came
      from. An ended stream is logged; a transport error is read as an
      empty text frame; the token is resolved through the registry, and an
      unknown token panics. */
  function OnItem(reg: Registry, subs: Requests, token: nat, y: StreamYield<Frame>, now: int): (st: Step)
    ensures y.YieldFinished? ==> st.next == Continue && Forwarded(st.actions) == [] && Sent(st.actions) == []
    ensures y.YieldItem? && token !in reg.tokens ==> st.next.Fail? && st.next.error.Panic? && st.actions == []
    ensures y.YieldItem? && token in reg.tokens ==>
              var f := if y.item.Success? then y.item.value else Text(None);
              && Forwarded(st.actions) == (if Delivers(reg.tokens[token], f) then [f.payload.value] else [])
              && Sent(st.actions) == Replies(subs, reg.tokens[token], f, now)
  {
    match y
    case YieldFinished => Step([Log], Continue)
    case YieldItem(item) =>
      if token !in reg.tokens then Step([], Fail(Panic("called `Option::unwrap()` on a `None` value")))
      else OnFrame(subs, reg.tokens[token], if item.Success? then item.value else Text(None), now)
  }

  /** The FTX keep-alive of the ping timer: `{"op": "ping"}` on every FTX
      subscription. */
  function PingTick(subs: Requests): (pings: map<Subscription, Json>)
    ensures forall s :: s in pings <==> s in subs && FamilyOf(s) == Ftx
    ensures forall s :: s in pings ==> pings[s] == FtxPing
  {
    map s | s in subs && (s == FtxOrderStream || s == FtxMarketStream) :: FtxPing
  }

  // -----------------------------------------------------------------------
  // Reference descriptions and the lemmas tying them to the handler

  /** The frames whose event reaches the handler: a decodable payload of
      the stream's own family, carried by the frame kind that stream reads,
      naming a forwarded variant. */
  predicate Delivers(s: Subscription, f: Frame)
  {
    && (f.Text? || f.Binary?)
    && (if FamilyOf(s) == Huobi then f.Binary? && f.inflates else f.Text?)
    && f.payload.Some?
    && EventFamily(f.payload.value) == FamilyOf(s)
    && Forwards(s, f.payload.value)
  }

  lemma TextForwards(subs: Requests, s: Subscription, p: Option<Event>)
    ensures Forwarded(OnText(subs, s, p).actions) == if Delivers(s, Text(p)) then [p.value] else []
  {
    if FamilyOf(s) != Huobi && Decode(s, p).Some? {
      var e := p.value;
      if s == OkexOrderStream && e.OkexSubEvent? {
        OkexEventForwardsNothing(subs, s, e.event, e.code);
      } else if FamilyOf(s) == Ftx {
        if Forwards(s, e) {
          assert Forwarded([Log, Forward(e)]) == [e] by {
            assert [Log, Forward(e)][1..] == [Forward(e)];
            assert [Forward(e)][1..] == [];
          }
        } else {
          NoForwards([Log, Log]);
        }
      }
    }
  }

  lemma BinaryForwards(subs: Requests, s: Subscription, inflates: bool, p: Option<Event>, now: int)
    ensures Forwarded(OnBinary(subs, s, inflates, p, now).actions) ==
              if Delivers(s, Binary(inflates, p)) then [p.value] else []
  {
    if FamilyOf(s) == Huobi && inflates && Decode(s, p).Some? {
      var e := p.value;
      if s == HuobiUSwapOrderStream && e.HuobiOpStatus? {
        NoForwardInHuobiOpStatus(subs, s, e.op, e.errCode, now);
      } else if s == HuobiUSwapMarketStream && e.HuobiMarketPing? {
        NoForwards([Send(HuobiMarketPong(now))]);
      }
    }
  }

  /** Actions without a forward forward nothing. */
  lemma {:induction false} NoForwards(actions: seq<Action>)
    requires forall a :: a in actions ==> !a.Forward?
    ensures Forwarded(actions) == []
  {
    if |actions| > 0 {
      NoForwards(actions[1..]);
    }
  }

  lemma NoForwardInHuobiOpStatus(subs: Requests, s: Subscription, op: string, code: Option<int>, now: int)
    requires s == HuobiUSwapOrderStream
    ensures Forwarded(OnHuobiOrder(subs, s, HuobiOpStatus(op, code), now).actions) == []
  {
    var pong: seq<Action> := if op == "ping" then [Send(HuobiOrderPong(now))] else [];
    var log: seq<Action> := if code.Some? then [Log] else [];
    if op == "auth" && code == Some(0) && s in subs {
      var msgs := HuobiSubAccount(subs, s).value;
      NoForwardInSends(msgs);
      ForwardedAppend(pong, SendAll(msgs));
      ForwardedAppend(pong + SendAll(msgs), log);
    } else {
      ForwardedAppend(pong, log);
    }
  }

  lemma {:induction false} NoForwardInSends(msgs: seq<Json>)
    ensures Forwarded(SendAll(msgs)) == []
  {
    if |msgs| > 0 {
      NoForwardInSends(msgs[1..]);
      assert SendAll(msgs)[1..] == SendAll(msgs[1..]);
    }
  }

  lemma {:induction false} ForwardedAppend(a: seq<Action>, b: seq<Action>)
    ensures Forwarded(a + b) == Forwarded(a) + Forwarded(b)
  {
    if |a| > 0 {
      ForwardedAppend(a[1..], b);
      assert (a + b)[1..] == a[1..] + b;
    } else {
      assert a + b == b;
    }
  }

  /** The FTX type filter: on either FTX stream a response is logged, then
      forwarded when it is an `Update` or a `Partial` and logged again
      otherwise. */
  lemma FtxTypeFilter(subs: Requests, s: Subscription, k: FtxType, now: int)
    requires FamilyOf(s) == Ftx
    ensures OnFrame(subs, s, Text(Some(FtxRsp(k))), now) ==
              Step(if k == Update || k == Partial then [Log, Forward(FtxRsp(k))] else [Log, Log], Continue)
  {
  }

  /** No frame on any stream forwards an FTX error response. */
  lemma FtxErrorNeverForwarded(subs: Requests, s: Subscription, f: Frame, now: int)
    ensures Forward(FtxRsp(Error)) !in OnFrame(subs, s, f, now).actions
  {
    assert FtxRsp(Error) !in Forwarded(OnFrame(subs, s, f, now).actions);
  }

  /** The messages a frame makes the loop send, described directly: the
      two ping replies, the Huobi account topics after a successful auth
      and the OKEx account subscription after a successful login. */
  function Replies(subs: Requests, s: Subscription, f: Frame, now: int): seq<Json>
  {
    if !((f.Binary? && f.inflates) || f.Text?) || f.payload.None? then []
    else
      var e := f.payload.value;
      if s == HuobiUSwapMarketStream && f.Binary? && e.HuobiMarketPing? then [HuobiMarketPong(now)]
      else if s == HuobiUSwapOrderStream && f.Binary? && e.HuobiOpStatus? then
        (if e.op == "ping" then [HuobiOrderPong(now)] else [])
        + (if e.op == "auth" && e.errCode == Some(0) && s in subs then HuobiAccountRequests(subs[s]) else [])
      else if s == OkexOrderStream && f.Text? && e == OkexSubEvent("login", "0") && s in subs then
        [OkexSubAccount(subs, s).value]
      else []
  }

  lemma TextSends(subs: Requests, s: Subscription, p: Option<Event>, now: int)
    ensures Sent(OnText(subs, s, p).actions) == Replies(subs, s, Text(p), now)
  {
    if FamilyOf(s) != Huobi && Decode(s, p).Some? {
      var e := p.value;
      if s == OkexOrderStream && e.OkexSubEvent? {
        OkexEventSends(subs, s, e.event, e.code);
      } else {
        var st := OnText(subs, s, p);
        forall a | a in st.actions
          ensures !a.Send?
        {
        }
        NoSends(st.actions);
      }
    }
  }

  lemma OkexEventForwardsNothing(subs: Requests, s: Subscription, event: string, code: string)
    ensures Forwarded(OnOkexEvent(subs, s, event, code).actions) == []
  {
    var st := OnOkexEvent(subs, s, event, code);
    assert forall a :: a in st.actions ==> !a.Forward?;
    NoForwards(st.actions);
  }

  lemma OkexEventSends(subs: Requests, s: Subscription, event: string, code: string)
    ensures Sent(OnOkexEvent(subs, s, event, code).actions) ==
              if event == "login" && code == "0" && s in subs then [OkexSubAccount(subs, s).value] else []
  {
    if event == "login" && code == "0" && s in subs {
      var m := OkexSubAccount(subs, s).value;
      assert Sent([Log, Send(m)]) == [m] by {
        assert [Log, Send(m)][1..] == [Send(m)];
        assert [Send(m)][1..] == [];
      }
    } else if event == "login" && code == "0" {
      assert Sent([Log]) == [] by { assert [Log][1..] == []; }
    } else {
      assert Sent([Log, Log]) == [] by {
        assert [Log, Log][1..] == [Log];
        assert [Log][1..] == [];
      }
    }
  }

  lemma BinarySends(subs: Requests, s: Subscription, inflates: bool, p: Option<Event>, now: int)
    ensures Sent(OnBinary(subs, s, inflates, p, now).actions) == Replies(subs, s, Binary(inflates, p), now)
  {
    if FamilyOf(s) == Huobi && inflates {
      InflatedSends(subs, s, p, now);
    }
  }

  lemma InflatedSends(subs: Requests, s: Subscription, p: Option<Event>, now: int)
    requires FamilyOf(s) == Huobi
    ensures Sent(DecodeInflated(subs, s, p, now).actions) == Replies(subs, s, Binary(true, p), now)
  {
    if Decode(s, p).Some? {
      var e := p.value;
      if s == HuobiUSwapOrderStream && e.HuobiOpStatus? {
        HuobiOrderSends(subs, s, e.op, e.errCode, now);
      } else if s == HuobiUSwapMarketStream && e.HuobiMarketPing? {
        assert Sent([Send(HuobiMarketPong(now))]) == [HuobiMarketPong(now)] by {
          assert [Send(HuobiMarketPong(now))][1..] == [];
        }
      } else {
        var st := DecodeInflated(subs, s, p, now);
        forall a | a in st.actions
          ensures !a.Send?
        {
        }
        NoSends(st.actions);
      }
    }
  }

  /** Actions without a send send nothing. */
  lemma {:induction false} NoSends(actions: seq<Action>)
    requires forall a :: a in actions ==> !a.Send?
    ensures Sent(actions) == []
  {
    if |actions| > 0 {
      NoSends(actions[1..]);
    }
  }

  lemma HuobiOrderSends(subs: Requests, s: Subscription, op: string, code: Option<int>, now: int)
    requires s == HuobiUSwapOrderStream
    ensures Sent(OnHuobiOrder(subs, s, HuobiOpStatus(op, code), now).actions) ==
              (if op == "ping" then [HuobiOrderPong(now)] else [])
              + (if op == "auth" && code == Some(0) && s in subs then HuobiAccountRequests(subs[s]) else [])
  {
    var pong: seq<Action> := if op == "ping" then [Send(HuobiOrderPong(now))] else [];
    var log: seq<Action> := if code.Some? then [Log] else [];
    var pongs: seq<Json> := if op == "ping" then [HuobiOrderPong(now)] else [];
    assert Sent(pong) == pongs;
    assert Sent(log) == [];
    if op == "auth" && code == Some(0) && s in subs {
      var msgs := HuobiSubAccount(subs, s).value;
      SentSendAll(msgs);
      SentAppend(pong, SendAll(msgs));
      SentAppend(pong + SendAll(msgs), log);
    } else {
      SentAppend(pong, log);
    }
  }

  lemma {:induction false} SentSendAll(msgs: seq<Json>)
    ensures Sent(SendAll(msgs)) == msgs
  {
    if |msgs| > 0 {
      SentSendAll(msgs[1..]);
      assert SendAll(msgs)[1..] == SendAll(msgs[1..]);
      assert [msgs[0]] + msgs[1..] == msgs;
    }
  }

  lemma {:induction false} SentAppend(a: seq<Action>, b: seq<Action>)
    ensures Sent(a + b) == Sent(a) + Sent(b)
  {
    if |a| > 0 {
      SentAppend(a[1..], b);
      assert (a + b)[1..] == a[1..] + b;
    } else {
      assert a + b == b;
    }
  }

  /** A Huobi order-stream ping is answered by exactly one pong carrying the
      local time, whatever error code accompanies it. */
  lemma HuobiPingOnePong(subs: Requests, code: Option<int>, now: int)
    ensures var st := OnFrame(subs, HuobiUSwapOrderStream, Binary(true, Some(HuobiOpStatus("ping", code))), now);
            Sent(st.actions) == [HuobiOrderPong(now)] && st.next == Continue
  {
  }

  /** The USwap order stream logs each text payload, and the Huobi streams
      each inflated payload, before decoding it: even a payload that fails
      to decode leaves a log line. */
  lemma LogsBeforeDecoding(subs: Requests, s: Subscription, f: Frame, now: int)
    requires (f.Text? && s == BinanceUSwapOrder) || (f.Binary? && f.inflates && FamilyOf(s) == Huobi)
    ensures var st := OnFrame(subs, s, f, now);
            |st.actions| > 0 && st.actions[0] == Log
  {
  }

  /** A Huobi market-stream ping is logged and answered with the local
      time; the server's own timestamp plays no part. */
  lemma HuobiMarketPingIgnoresServerTime(subs: Requests, a: int, b: int, now: int)
    ensures OnFrame(subs, HuobiUSwapMarketStream, Binary(true, Some(HuobiMarketPing(a))), now)
         == OnFrame(subs, HuobiUSwapMarketStream, Binary(true, Some(HuobiMarketPing(b))), now)
         == Step([Log, Send(HuobiMarketPong(now))], Continue)
  {
    MarketPingStep(subs, a, now);
    MarketPingStep(subs, b, now);
  }

  lemma MarketPingStep(subs: Requests, ts: int, now: int)
    ensures OnFrame(subs, HuobiUSwapMarketStream, Binary(true, Some(HuobiMarketPing(ts))), now)
         == Step([Log, Send(HuobiMarketPong(now))], Continue)
  {
    var e := HuobiMarketPing(ts);
    assert Decode(HuobiUSwapMarketStream, Some(e)) == Some(e);
    assert OnHuobiMarket(e, now) == Step([Send(HuobiMarketPong(now))], Continue);
    assert [Log] + [Send(HuobiMarketPong(now))] == [Log, Send(HuobiMarketPong(now))];
  }

  /** Auth gating: the Huobi account topics are requested after an `auth`
      status iff its error code is `Some(0)`. */
  lemma HuobiAuthGate(subs: Requests, code: Option<int>, now: int)
    requires HuobiUSwapOrderStream in subs && |subs[HuobiUSwapOrderStream]| > 0
    ensures var st := OnFrame(subs, HuobiUSwapOrderStream, Binary(true, Some(HuobiOpStatus("auth", code))), now);
            (|Sent(st.actions)| > 0 <==> code == Some(0))
            && (code == Some(0) ==> Sent(st.actions) == HuobiAccountRequests(subs[HuobiUSwapOrderStream]))
  {
  }

  /** Login gating: the OKEx account subscription is sent after a subscribe
      event iff it is a `login` event with code `"0"`. */
  lemma OkexLoginGate(subs: Requests, event: string, code: string, now: int)
    requires OkexOrderStream in subs
    ensures var st := OnFrame(subs, OkexOrderStream, Text(Some(OkexSubEvent(event, code))), now);
            (Sent(st.actions) != [] <==> event == "login" && code == "0")
            && (event == "login" && code == "0" ==> Sent(st.actions) == [OkexSubAccount(subs, OkexOrderStream).value])
            && st.next == Continue
  {
    var e := OkexSubEvent(event, code);
    assert Decode(OkexOrderStream, Some(e)) == Some(e);
    assert OnText(subs, OkexOrderStream, Some(e)) == OnOkexEvent(subs, OkexOrderStream, event, code);
  }

  /** A close frame ends the loop with `SocketClosed` on every stream, doing
      nothing else. */
  lemma CloseFails(subs: Requests, s: Subscription, now: int)
    ensures OnFrame(subs, s, Close, now) == Step([], Fail(SocketClosed))
  {
  }

  /** How the loop ends: it stops quietly only on a text frame for a Huobi
      stream, and fails with `SocketClosed` only on a close frame. */
  lemma NextOutcomes(subs: Requests, s: Subscription, f: Frame, now: int)
    ensures OnFrame(subs, s, f, now).next == Stop <==> f.Text? && FamilyOf(s) == Huobi
    ensures OnFrame(subs, s, f, now).next == Fail(SocketClosed) <==> f.Close?
    ensures OnFrame(subs, s, f, now).next == Fail(Malformed) <==>
              ((f.Text? && FamilyOf(s) != Huobi) || (f.Binary? && f.inflates && FamilyOf(s) == Huobi))
              && Decode(s, f.payload).None?
  {
    match f
    case Text(p) => TextOutcomes(subs, s, p);
    case Binary(inflates, p) => BinaryOutcomes(subs, s, inflates, p, now);
    case _ =>
  }

  lemma TextOutcomes(subs: Requests, s: Subscription, p: Option<Event>)
    ensures OnText(subs, s, p).next == Stop <==> FamilyOf(s) == Huobi
    ensures OnText(subs, s, p).next != Fail(SocketClosed)
    ensures OnText(subs, s, p).next == Fail(Malformed) <==> FamilyOf(s) != Huobi && Decode(s, p).None?
  {
  }

  lemma BinaryOutcomes(subs: Requests, s: Subscription, inflates: bool, p: Option<Event>, now: int)
    ensures OnBinary(subs, s, inflates, p, now).next != Stop
    ensures OnBinary(subs, s, inflates, p, now).next != Fail(SocketClosed)
    ensures OnBinary(subs, s, inflates, p, now).next == Fail(Malformed) <==>
              inflates && FamilyOf(s) == Huobi && Decode(s, p).None?
  {
  }

  /** A transport error is handled as an empty text frame, which no decoder
      accepts: a Huobi stream stops, every other stream fails, the USwap
      order stream after logging the payload. */
  lemma TransportErrorAsEmptyText(reg: Registry, subs: Requests, token: nat, err: Error, now: int)
    requires token in reg.tokens
    ensures OnItem(reg, subs, token, YieldItem(Failure(err)), now) == OnItem(reg, subs, token, YieldItem(Success(Text(None))), now)
    ensures OnItem(reg, subs, token, YieldItem(Failure(err)), now) ==
              Step(if reg.tokens[token] == BinanceUSwapOrder then [Log] else [],
                   if FamilyOf(reg.tokens[token]) == Huobi then Stop else Fail(Malformed))
  {
  }

  /** An item is handled by the rule of the subscription its token was
      recorded for; an ended stream only logs. */
  lemma ItemUsesTokenSubscription(reg: Registry, subs: Requests, token: nat, f: Frame, now: int)
    ensures OnItem(reg, subs, token, YieldFinished, now) == Step([Log], Continue)
    ensures token in reg.tokens ==>
              OnItem(reg, subs, token, YieldItem(Success(f)), now) == OnFrame(subs, reg.tokens[token], f, now)
    ensures token !in reg.tokens ==> OnItem(reg, subs, token, YieldItem(Success(f)), now).next.Fail?
  {
  }

  /** Only the Huobi streams and the OKEx order stream ever send from the
      receive loop. */
  lemma MarketStreamsOnlyListen(subs: Requests, s: Subscription, f: Frame, now: int)
    requires s != HuobiUSwapMarketStream && s != HuobiUSwapOrderStream && s != OkexOrderStream
    ensures Sent(OnFrame(subs, s, f, now).actions) == []
  {
  }
}
