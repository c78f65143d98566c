/** What `connect` sends on each subscription right after subscribing it
    (src/subscription.rs:41-135): market requests, or the login/auth request
    of a private stream. Clock readings are parameters. */
module Connect {
  import opened Common
  import opened Models
  import opened Text
  import opened PercentEncoding
  import opened Registry
  import opened Signing
  import opened ControlMessages

  /** The clock readings `connect` takes: the UTC time formatted as
      `%Y-%m-%dT%H:%M:%S`, and the Unix time in seconds and milliseconds. */
  datatype Clock = Clock(utc: string, seconds: int, millis: int)

  /** The host and path the Huobi order stream signs. */
  const HuobiHost: string := "api.hbdm.vn"
  const HuobiOrderPath: string := "/linear-swap-notification"

  /** The subscriptions that log in before receiving data. */
  predicate IsPrivate(s: Subscription)
  {
    s.HuobiUSwapOrderStream? || s.OkexOrderStream? || s.FtxOrderStream?
  }

  /** The messages sent on `s`'s sink after `subscribe(s)`; `b64` and `hex`
      are the keyed hashes with base64 and hex output. A private stream
      without a credential panics. */
  function ConnectMessages(r: Registry, subs: Requests, s: Subscription, clock: Clock, b64: Mac, hex: Mac)
    : (res: Result<seq<Json>>)
    requires s in subs
    ensures res.Failure? <==> IsPrivate(s) && s !in r.credentials
    ensures res.Failure? ==> res.error == Panic("no key")
  {
    if IsPrivate(s) then LoginMessages(r, subs, s, clock, b64, hex) else Success(MarketRequests(s, subs[s]))
  }

  /** The market-data requests of a public stream; Binance needs none, its
      topics being part of the URL. */
  function MarketRequests(s: Subscription, topics: seq<string>): (msgs: seq<Json>)
    requires !IsPrivate(s)
    ensures FamilyOf(s) == Huobi ==> msgs == HuobiSubMarket(topics)
    ensures FamilyOf(s) == Okex ==> msgs == [OkexSubMarket(topics)]
    ensures FamilyOf(s) == Ftx ==> msgs == FtxSubMarket(topics)
    ensures FamilyOf(s) == BinanceSpot || FamilyOf(s) == BinanceUSwap ==> msgs == []
  {
    match s
    case HuobiUSwapMarketStream => HuobiSubMarket(topics)
    case OkexMarketStream => [OkexSubMarket(topics)]
    case FtxMarketStream => FtxSubMarket(topics)
    case _ => []
  }

  /** The login (or auth) requests of a private stream, followed for FTX by
      its account subscriptions. */
  function LoginMessages(r: Registry, subs: Requests, s: Subscription, clock: Clock, b64: Mac, hex: Mac)
    : (res: Result<seq<Json>>)
    requires s in subs && IsPrivate(s)
    ensures res.Failure? <==> s !in r.credentials
    ensures res.Failure? ==> res.error == Panic("no key")
  {
    match s
    case HuobiUSwapOrderStream => HuobiOrderConnect(r, clock, b64)
    case OkexOrderStream => OkexOrderConnect(r, clock, b64)
    case FtxOrderStream =>
      var login :- FtxOrderLogin(r, clock, hex);
      Success([login] + FtxSubAccount(subs, s).value)
  }

  /** The Huobi order stream's auth request, signed over the notification
      endpoint with no extra parameters. */
  function HuobiOrderConnect(r: Registry, clock: Clock, b64: Mac): (res: Result<seq<Json>>)
    ensures res.Failure? <==> HuobiUSwapOrderStream !in r.credentials
    ensures res.Failure? ==> res.error == Panic("no key")
  {
    var signed :- HuobiSign(r, HuobiUSwapOrderStream, HuobiHost, HuobiOrderPath, map[], clock.utc, b64);
    Success([HuobiAuthMessage(signed.0, signed.1)])
  }

  /** The OKEx order stream's login request, timestamped in seconds. */
  function OkexOrderConnect(r: Registry, clock: Clock, b64: Mac): (res: Result<seq<Json>>)
    ensures res.Failure? <==> OkexOrderStream !in r.credentials
    ensures res.Failure? ==> res.error == Panic("no key")
  {
    var ts := IntToString(clock.seconds);
    var login :- OkexSign(r, OkexOrderStream, ts, "GET", "/users/self/verify", b64);
    Success([OkexLoginMessage(login.0, login.1, ts, login.2)])
  }

  /** The FTX order stream's login request, timestamped in milliseconds. */
  function FtxOrderLogin(r: Registry, clock: Clock, hex: Mac): (res: Result<Json>)
    ensures res.Failure? <==> FtxOrderStream !in r.credentials
    ensures res.Failure? ==> res.error == Panic("no key")
  {
    var login :- FtxSign(r, FtxOrderStream, IntToString(clock.millis), hex);
    Success(FtxLoginMessage(login.0, login.2, clock.millis, login.1))
  }

  /** How many messages each public stream sends: none for Binance (the
      topics are in the URL), one per topic for Huobi, one request for
      OKEx, three per market for FTX. */
  lemma PublicMessageCounts(r: Registry, subs: Requests, s: Subscription, clock: Clock, b64: Mac, hex: Mac)
    requires s in subs && !IsPrivate(s)
    ensures ConnectMessages(r, subs, s, clock, b64, hex).Success?
    ensures |ConnectMessages(r, subs, s, clock, b64, hex).value| ==
              match FamilyOf(s)
              case BinanceSpot | BinanceUSwap => 0
              case Huobi => |subs[s]|
              case Okex => 1
              case Ftx => 3 * |subs[s]|
  {
  }

  /** The Huobi order stream sends one auth request whose parameters are
      the four signature parameters and whose signature covers the sorted
      query of exactly those. */
  lemma HuobiAuthRequest(r: Registry, subs: Requests, clock: Clock, b64: Mac, hex: Mac)
    requires HuobiUSwapOrderStream in subs && HuobiUSwapOrderStream in r.credentials
    ensures var c := r.credentials[HuobiUSwapOrderStream];
            var query := Join([FieldText("AccessKeyId", c.key), FieldText("SignatureMethod", "HmacSHA256"),
                               FieldText("SignatureVersion", "2"), FieldText("Timestamp", clock.utc)], '&');
            ConnectMessages(r, subs, HuobiUSwapOrderStream, clock, b64, hex) == Success([
              JObj(map[
                "AccessKeyId" := JStr(c.key),
                "SignatureMethod" := JStr("HmacSHA256"),
                "SignatureVersion" := JStr("2"),
                "Timestamp" := JStr(clock.utc),
                "Signature" := JStr(b64(c.secret, HuobiPreImage(HuobiHost, HuobiOrderPath, query))),
                "op" := JStr("auth"),
                "type" := JStr("api")])])
  {
    var c := r.credentials[HuobiUSwapOrderStream];
    var query := Join([FieldText("AccessKeyId", c.key), FieldText("SignatureMethod", "HmacSHA256"),
                       FieldText("SignatureVersion", "2"), FieldText("Timestamp", clock.utc)], '&');
    var sig := b64(c.secret, HuobiPreImage(HuobiHost, HuobiOrderPath, query));
    assert HuobiOrderConnect(r, clock, b64) == Success([HuobiAuthMessage(SignedParams(map[], c.key, clock.utc), sig)]) by {
      HuobiAuthQuery(c.key, clock.utc);
    }
    HuobiAuthOfSigned(c.key, clock.utc, sig);
    assert LoginMessages(r, subs, HuobiUSwapOrderStream, clock, b64, hex) == HuobiOrderConnect(r, clock, b64);
    assert ConnectMessages(r, subs, HuobiUSwapOrderStream, clock, b64, hex) == LoginMessages(r, subs, HuobiUSwapOrderStream, clock, b64, hex);
  }

  /** The auth request built from freshly signed parameters carries them
      verbatim. */
  lemma HuobiAuthOfSigned(key: string, timestamp: string, signature: string)
    ensures HuobiAuthMessage(SignedParams(map[], key, timestamp), signature) ==
              JObj(map[
                "AccessKeyId" := JStr(key),
                "SignatureMethod" := JStr("HmacSHA256"),
                "SignatureVersion" := JStr("2"),
                "Timestamp" := JStr(timestamp),
                "Signature" := JStr(signature),
                "op" := JStr("auth"),
                "type" := JStr("api")])
  {
    var p := SignedParams(map[], key, timestamp);
    assert Lookup(p, "AccessKeyId") == Some(key);
    assert Lookup(p, "SignatureMethod") == Some("HmacSHA256");
    assert Lookup(p, "SignatureVersion") == Some("2");
    assert Lookup(p, "Timestamp") == Some(timestamp);
  }

  /** The FTX order stream logs in and then subscribes to fills and orders
      at once; the login's time is the number whose decimal text was
      signed. */
  lemma FtxLoginThenAccount(r: Registry, subs: Requests, clock: Clock, b64: Mac, hex: Mac)
    requires FtxOrderStream in subs && FtxOrderStream in r.credentials
    ensures var c := r.credentials[FtxOrderStream];
            var msgs := ConnectMessages(r, subs, FtxOrderStream, clock, b64, hex).value;
            && |msgs| == 3
            && msgs[0] == FtxLoginMessage(c.key, hex(c.secret, FtxPreImage(IntToString(clock.millis))), clock.millis, c.extra)
            && msgs[1..] == [FtxAccountMessage("fills"), FtxAccountMessage("orders")]
            && ParseInt(FtxPreImage(IntToString(clock.millis))[..|FtxPreImage(IntToString(clock.millis))| - 15]) == Some(clock.millis)
  {
    FtxLoginPreImage(clock.millis);
  }

  /** The OKEx order stream sends only its login request; the account
      channels wait for the login event. The login carries the seconds as
      text, and that text opens the signed string. */
  lemma OkexLoginOnly(r: Registry, subs: Requests, clock: Clock, b64: Mac, hex: Mac)
    requires OkexOrderStream in subs && OkexOrderStream in r.credentials
    ensures var c := r.credentials[OkexOrderStream];
            var ts := IntToString(clock.seconds);
            ConnectMessages(r, subs, OkexOrderStream, clock, b64, hex) ==
              Success([OkexLoginMessage(c.key, c.extra, ts, b64(c.secret, OkexPreImage(ts, "GET", "/users/self/verify")))])
    ensures ParseInt(IntToString(clock.seconds)) == Some(clock.seconds)
  {
    IntStringRoundTrip(clock.seconds);
  }
}
