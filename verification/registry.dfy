/** The connection registry of `Websocket` (src/websocket.rs): where each
    subscription connects, the maps `subscribe` fills in, what `unsubscribe`
    takes, the credential lookups and the outer stream's poll.

    Socket halves are identified by the stream-set token of the connection
    they belong to, and the stream set itself by the set of tokens it still
    holds (`live`). */
module Registry {
  import opened Common
  import opened Models
  import opened Text

  // -----------------------------------------------------------------------
  // Endpoints

  /** The host (and port) of each exchange product's websocket server. */
  function Host(f: Family): (h: string)
    ensures |h| > 0 && '/' !in h
  {
    match f
    case BinanceSpot => "stream.binance.com:9443"
    case BinanceUSwap => "fstream.binance.com"
    case Huobi => "api.hbdm.vn"
    case Okex => "wsaws.okex.com:8443"
    case Ftx => "ftx.com"
  }

  /** The base URL of a subscription's exchange: a secure-websocket scheme
      and a host, with no path of its own. */
  function BaseUrl(s: Subscription): (url: string)
    ensures |url| > 6 && url[..6] == "wss://"
    ensures '/' !in url[6..]
  {
    var h := Host(FamilyOf(s));
    assert ("wss://" + h)[6..] == h;
    "wss://" + h
  }

  /** The subscriptions whose path carries the `/`-joined topics. */
  predicate EmbedsTopics(s: Subscription)
  {
    s.BinanceSpotMStream? || s.BinanceSpotOrder? || s.BinanceUSwapMStream? || s.BinanceUSwapOrder?
  }

  /** The text in front of the topics for the subscriptions that embed them. */
  function TopicPrefix(s: Subscription): string
  {
    if s.BinanceUSwapOrder? then "/ws/" else "/stream?streams="
  }

  /** The path requested on connection: always absolute, and for the Binance
      streams the prefix followed by the `/`-joined topics. */
  function Path(s: Subscription, topics: seq<string>): (path: string)
    ensures |path| > 0 && path[0] == '/'
    ensures EmbedsTopics(s) ==> path == TopicPrefix(s) + Join(topics, '/')
  {
    match s
    case BinanceSpotMStream | BinanceSpotOrder | BinanceUSwapMStream => "/stream?streams=" + Join(topics, '/')
    case BinanceUSwapOrder => "/ws/" + Join(topics, '/')
    case HuobiUSwapMarketStream => "/linear-swap-ws"
    case HuobiUSwapOrderStream => "/linear-swap-notification"
    case OkexMarketStream => "/ws/v5/public"
    case OkexOrderStream => "/ws/v5/private"
    case FtxMarketStream | FtxOrderStream => "/ws"
  }

  /** The URL `subscribe` connects to. The first `/` after the scheme is
      where the path begins, so the host and the path can be told apart. */
  function Endpoint(s: Subscription, topics: seq<string>): (url: string)
    ensures var n := |BaseUrl(s)|;
            && 6 < n < |url|
            && url[..6] == "wss://"
            && url[..n] == BaseUrl(s)
            && url[n..] == Path(s, topics)
            && '/' !in url[6..n]
            && url[n] == '/'
  {
    BaseUrl(s) + Path(s, topics)
  }

  /** Two subscriptions share a base URL exactly when they belong to the same
      exchange family: the URL depends on the variant alone and each family
      has its own host. */
  lemma BaseUrlByFamily(s: Subscription, t: Subscription)
    ensures BaseUrl(s) == BaseUrl(t) <==> FamilyOf(s) == FamilyOf(t)
  {
    var a := BaseUrl(s);
    var b := BaseUrl(t);
    if FamilyOf(s) != FamilyOf(t) {
      // the hosts differ in their first two characters
      assert a[6] != b[6] || a[7] != b[7];
    }
  }

  /** The paths that do not embed topics ignore them. */
  lemma FixedPathIgnoresTopics(s: Subscription, a: seq<string>, b: seq<string>)
    requires !EmbedsTopics(s)
    ensures Path(s, a) == Path(s, b)
    ensures Endpoint(s, a) == Endpoint(s, b)
  {
  }

  /** Reads the topics back out of a path, when the subscription embeds
      them. */
  function TopicsOfPath(s: Subscription, path: string): Option<seq<string>>
  {
    var prefix := TopicPrefix(s);
    if EmbedsTopics(s) && |prefix| <= |path| && path[..|prefix|] == prefix then
      Some(Split(path[|prefix|..], '/'))
    else None
  }

  /** The topics of an embedding path come back intact as long as there is at
      least one and none contains `/`. */
  lemma PathTopicsRoundTrip(s: Subscription, topics: seq<string>)
    requires EmbedsTopics(s)
    requires |topics| > 0
    requires forall i :: 0 <= i < |topics| ==> '/' !in topics[i]
    ensures TopicsOfPath(s, Path(s, topics)) == Some(topics)
  {
    var prefix := TopicPrefix(s);
    var p := Path(s, topics);
    assert p == prefix + Join(topics, '/');
    assert p[..|prefix|] == prefix;
    assert p[|prefix|..] == Join(topics, '/');
    SplitJoin(topics, '/');
  }

  // -----------------------------------------------------------------------
  // Registry

  /** One registered credential: key, secret and the third component
      (the OKEx passphrase or the FTX subaccount; unused elsewhere). */
  datatype Credential = Credential(key: string, secret: string, extra: string)

  /** The `Websocket` registry. `sinks[s]` is the token of the connection
      whose sending half is stored for `s`. */
  datatype Registry = Registry(
    credentials: map<Subscription, Credential>,
    subscriptions: map<Subscription, nat>,
    tokens: map<nat, Subscription>,
    sinks: map<Subscription, nat>,
    live: set<nat>)

  /** What `subscribe` and `unsubscribe` keep true: every token still in the
      stream set resolves to a subscription (so looking up an incoming
      token never fails), and each subscription's sink and stream token come
      from the same connection. */
  predicate Valid(r: Registry)
  {
    && (forall t :: t in r.live ==> t in r.tokens)
    && r.sinks.Keys == r.subscriptions.Keys
    && (forall s :: s in r.subscriptions ==> r.sinks[s] == r.subscriptions[s] && r.subscriptions[s] in r.tokens)
  }

  /** `Websocket::new`: the given credentials and nothing connected. */
  function New(credentials: map<Subscription, Credential>): (r: Registry)
    ensures Valid(r)
    ensures r.credentials == credentials
    ensures |r.subscriptions| == 0 && |r.tokens| == 0 && |r.sinks| == 0 && |r.live| == 0
  {
    Registry(credentials, map[], map[], map[], {})
  }

  /** `subscribe`: connect (the handshake's outcome is `connected`), put the
      new stream into the stream set under the fresh token `t` and record
      the sink and the token both ways. */
  function Subscribe(r: Registry, s: Subscription, t: nat, connected: bool): (res: Result<Registry>)
    requires t !in r.live
    ensures res.Failure? <==> !connected
    ensures res.Failure? ==> res.error == ConnectionFailed
    ensures res.Success? ==>
      var r' := res.value;
      && t in r'.tokens && s in r'.subscriptions && s in r'.sinks
      && r'.tokens[t] == s && r'.subscriptions[s] == t && r'.sinks[s] == t
      && r'.live == r.live + {t}
      && r'.credentials == r.credentials
      && (forall u :: u != s ==> (u in r'.subscriptions <==> u in r.subscriptions))
      && (forall u :: u != s && u in r.subscriptions ==> r'.subscriptions[u] == r.subscriptions[u])
      && (forall u :: u != s ==> (u in r'.sinks <==> u in r.sinks))
      && (forall u :: u != s && u in r.sinks ==> r'.sinks[u] == r.sinks[u])
      && (forall k :: k != t ==> (k in r'.tokens <==> k in r.tokens))
      && (forall k :: k != t && k in r.tokens ==> r'.tokens[k] == r.tokens[k])
  {
    if !connected then Failure(ConnectionFailed)
    else
      Success(r.(
        sinks := r.sinks[s := t],
        subscriptions := r.subscriptions[s := t],
        tokens := r.tokens[t := s],
        live := r.live + {t}))
  }

  /** `unsubscribe`: take the subscription's stream out of the stream set by
      its recorded token. Only the stream set changes; the three maps keep
      their entries. */
  function Unsubscribe(r: Registry, s: Subscription): (res: (Registry, Option<nat>))
    ensures res.1.Some? <==> s in r.subscriptions && r.subscriptions[s] in r.live
    ensures res.1.Some? ==> res.1.value == r.subscriptions[s]
    ensures res.0.live == if res.1.Some? then r.live - {res.1.value} else r.live
    ensures res.0.credentials == r.credentials && res.0.subscriptions == r.subscriptions
    ensures res.0.tokens == r.tokens && res.0.sinks == r.sinks
  {
    if s in r.subscriptions && r.subscriptions[s] in r.live then
      (r.(live := r.live - {r.subscriptions[s]}), Some(r.subscriptions[s]))
    else (r, None)
  }

  lemma SubscribePreservesValid(r: Registry, s: Subscription, t: nat, connected: bool)
    requires Valid(r)
    requires t !in r.live
    requires Subscribe(r, s, t, connected).Success?
    ensures Valid(Subscribe(r, s, t, connected).value)
  {
    var r' := Subscribe(r, s, t, connected).value;
    forall u | u in r'.subscriptions
      ensures r'.sinks[u] == r'.subscriptions[u] && r'.subscriptions[u] in r'.tokens
    {
      if u != s {
        assert u in r.subscriptions;
      }
    }
  }

  lemma UnsubscribePreservesValid(r: Registry, s: Subscription)
    requires Valid(r)
    ensures Valid(Unsubscribe(r, s).0)
  {
  }

  /** Every token the stream set can yield resolves to a subscription. */
  lemma LiveTokensResolve(r: Registry, t: nat)
    requires Valid(r)
    requires t in r.live
    ensures t in r.tokens
  {
  }

  /** Unsubscribing what was just subscribed takes exactly that stream and
      leaves the stream set as it was. */
  lemma SubscribeThenUnsubscribe(r: Registry, s: Subscription, t: nat)
    requires t !in r.live
    ensures var r' := Subscribe(r, s, t, true).value;
            Unsubscribe(r', s).1 == Some(t) && Unsubscribe(r', s).0.live == r.live
  {
  }

  /** Unsubscribing twice in a row: the second call finds nothing to take and
      changes nothing. */
  lemma UnsubscribeTwice(r: Registry, s: Subscription)
    ensures var r' := Unsubscribe(r, s).0;
            Unsubscribe(r', s).1 == None && Unsubscribe(r', s).0 == r'
  {
  }

  /** Unsubscribing a subscription that was never subscribed returns nothing
      and changes nothing. */
  lemma UnsubscribeUnknown(r: Registry, s: Subscription)
    requires s !in r.subscriptions
    ensures Unsubscribe(r, s) == (r, None)
  {
  }

  /** Subscribing the same variant twice overwrites its sink and recorded
      token, but the first connection stays in the stream set and its token
      still resolves to the subscription. */
  lemma ResubscribeKeepsOldStream(r: Registry, s: Subscription, t1: nat, t2: nat)
    requires t1 !in r.live && t2 !in r.live && t1 != t2
    ensures var r1 := Subscribe(r, s, t1, true).value;
            var r2 := Subscribe(r1, s, t2, true).value;
            && r2.subscriptions[s] == t2 && r2.sinks[s] == t2
            && r2.tokens[t1] == s && t1 in r2.live
            && Unsubscribe(r2, s).1 == Some(t2) && t1 in Unsubscribe(r2, s).0.live
  {
  }

  /** Because the maps keep their entries, a token the stream set hands out
      again after `unsubscribe(a)` makes a later `unsubscribe(a)` take the
      stream of whichever subscription `b` now holds that token. */
  lemma StaleTokenTakesOtherStream(r: Registry, a: Subscription, b: Subscription, t: nat)
    requires a != b
    requires t !in r.live
    ensures var r1 := Subscribe(r, a, t, true).value;
            var r2 := Unsubscribe(r1, a).0;
            var r3 := Subscribe(r2, b, t, true).value;
            && r3.tokens[t] == b
            && Unsubscribe(r3, a).1 == Some(t)
            && t !in Unsubscribe(r3, b).0.live
  {
  }

  /** Subscribing and unsubscribing never touch the credentials. */
  lemma CredentialsFixed(r: Registry, s: Subscription, t: nat, connected: bool)
    requires t !in r.live
    ensures Subscribe(r, s, t, connected).Success? ==> Subscribe(r, s, t, connected).value.credentials == r.credentials
    ensures Unsubscribe(r, s).0.credentials == r.credentials
  {
  }

  // -----------------------------------------------------------------------
  // Credentials

  /** `check_key`: key and secret. */
  function CheckKey(r: Registry, s: Subscription): (res: Result<(string, string)>)
    ensures res.Failure? <==> s !in r.credentials
    ensures res.Failure? ==> res.error == NoApiKeySet
    ensures res.Success? ==> res.value.0 == r.credentials[s].key && res.value.1 == r.credentials[s].secret
  {
    if s !in r.credentials then Failure(NoApiKeySet)
    else Success((r.credentials[s].key, r.credentials[s].secret))
  }

  /** `okex_check_key`: key, secret and passphrase. */
  function OkexCheckKey(r: Registry, s: Subscription): (res: Result<(string, string, string)>)
    ensures res.Failure? <==> s !in r.credentials
    ensures res.Failure? ==> res.error == NoApiKeySet
    ensures res.Success? ==> res.value == (r.credentials[s].key, r.credentials[s].secret, r.credentials[s].extra)
  {
    if s !in r.credentials then Failure(NoApiKeySet)
    else
      var c := r.credentials[s];
      Success((c.key, c.secret, c.extra))
  }

  /** `ftx_check_key`: key, secret and subaccount. */
  function FtxCheckKey(r: Registry, s: Subscription): (res: Result<(string, string, string)>)
    ensures res.Failure? <==> s !in r.credentials
    ensures res.Failure? ==> res.error == NoApiKeySet
    ensures res.Success? ==> res.value == (r.credentials[s].key, r.credentials[s].secret, r.credentials[s].extra)
  {
    if s !in r.credentials then Failure(NoApiKeySet)
    else
      var c := r.credentials[s];
      Success((c.key, c.secret, c.extra))
  }

  /** The three lookups fail together, and `check_key` returns the first two
      components of what the others return. */
  lemma CheckKeysAgree(r: Registry, s: Subscription)
    ensures CheckKey(r, s).Success? <==> OkexCheckKey(r, s).Success?
    ensures OkexCheckKey(r, s) == FtxCheckKey(r, s)
    ensures CheckKey(r, s).Success? ==>
              CheckKey(r, s).value == (OkexCheckKey(r, s).value.0, OkexCheckKey(r, s).value.1)
  {
  }

  // -----------------------------------------------------------------------
  // The outer stream

  /** What one item of the stream set is: a message or the transport's
      error, or the notice that one member stream ended. */
  datatype StreamYield<M> = YieldItem(item: Result<M>) | YieldFinished

  /** One poll of the stream set. */
  datatype InnerPoll<M> = InnerPending | Exhausted | Yielded(token: nat, yielded: StreamYield<M>)

  /** One poll of the outer stream: not ready, or ready with an item or with
      the end of the stream. */
  datatype Poll<T> = Pending | Ready(next: Option<T>)

  /** `poll_next`: an item keeps its token, an ended member stream is
      reported as not ready, and an empty stream set becomes the error
      `NoStreamSubscribed` instead of the end of the stream. */
  function PollNext<M>(p: InnerPoll<M>): (r: Poll<Result<(M, nat)>>)
    ensures r != Ready(None)
    ensures r.Pending? <==> p.InnerPending? || (p.Yielded? && p.yielded.YieldFinished?)
    ensures p.Exhausted? ==> r == Ready(Some(Failure(NoStreamSubscribed)))
    ensures p.Yielded? && p.yielded.YieldItem? && p.yielded.item.Success? ==>
              r == Ready(Some(Success((p.yielded.item.value, p.token))))
    ensures p.Yielded? && p.yielded.YieldItem? && p.yielded.item.Failure? ==>
              r == Ready(Some(Failure(p.yielded.item.error)))
  {
    match p
    case InnerPending => Pending
    case Exhausted => Ready(Some(Failure(NoStreamSubscribed)))
    case Yielded(token, YieldFinished) => Pending
    case Yielded(token, YieldItem(Success(m))) => Ready(Some(Success((m, token))))
    case Yielded(token, YieldItem(Failure(e))) => Ready(Some(Failure(e)))
  }

  /** A successful outer item determines the inner poll it came from: the
      message and its token are passed on unchanged. */
  lemma PollNextItemInjective<M>(p: InnerPoll<M>, q: InnerPoll<M>)
    requires PollNext(p) == PollNext(q)
    requires PollNext(p).Ready? && PollNext(p).next.value.Success?
    ensures p == q
  {
  }
}
