/** The strings each exchange's login signature covers
    (src/subscription.rs:567-605). The keyed hash and its text encoding
    (HMAC-SHA256 of RFC 2104, then base64 for Huobi and OKEx or hex for FTX)
    are a parameter `mac(secret, message)`; only the signed message and what
    is returned around the signature are modelled. */
module Signing {
  import opened Common
  import opened Models
  import opened Text
  import opened PercentEncoding
  import opened Registry

  /** A keyed hash rendered as text: `mac(secret, message)`. */
  type Mac = (string, string) -> string

  /** The parameters `generate_signature` adds. */
  const SignatureFields: set<string> := {"AccessKeyId", "SignatureMethod", "SignatureVersion", "Timestamp"}

  // -----------------------------------------------------------------------
  // Huobi

  /** The Huobi pre-image: method, host, path and query on four lines. */
  function HuobiPreImage(host: string, path: string, query: string): string
  {
    "GET\n" + host + "\n" + path + "\n" + query
  }

  /** The pre-image falls apart into its four lines again when none of the
      parts holds a line break. */
  lemma HuobiPreImageLines(host: string, path: string, query: string)
    requires '\n' !in host && '\n' !in path && '\n' !in query
    ensures Split(HuobiPreImage(host, path, query), '\n') == ["GET", host, path, query]
  {
    var parts := ["GET", host, path, query];
    assert Join(parts, '\n') == HuobiPreImage(host, path, query) by {
      assert Join(parts[2..], '\n') == path + "\n" + query;
      assert Join(parts[1..], '\n') == host + "\n" + (path + "\n" + query);
    }
    forall i | 0 <= i < 4 ensures '\n' !in parts[i] {
    }
    SplitJoin(parts, '\n');
  }

  /** The caller's parameters with the four signature parameters set (a
      parameter the caller already had under one of those names is
      overwritten). */
  function SignedParams(params: map<string, string>, key: string, timestamp: string): (p: map<string, string>)
    ensures p.Keys == params.Keys + SignatureFields
    ensures p["AccessKeyId"] == key && p["SignatureMethod"] == "HmacSHA256"
    ensures p["SignatureVersion"] == "2" && p["Timestamp"] == timestamp
    ensures forall k :: k in params && k !in SignatureFields ==> p[k] == params[k]
  {
    params["AccessKeyId" := key]["SignatureMethod" := "HmacSHA256"]["SignatureVersion" := "2"]["Timestamp" := timestamp]
  }

  /** `generate_signature`: the signed parameters and the signature over the
      pre-image of `host`, `path` and their query string. `timestamp` is the
      UTC time formatted as `%Y-%m-%dT%H:%M:%S`. A missing credential panics
      (`expect("no key")`). */
  function HuobiSign(r: Registry, s: Subscription, host: string, path: string,
                     params: map<string, string>, timestamp: string, mac: Mac): (res: Result<(map<string, string>, string)>)
    ensures res.Failure? <==> s !in r.credentials
    ensures res.Failure? ==> res.error == Panic("no key")
    ensures res.Success? ==> res.value.0 == SignedParams(params, r.credentials[s].key, timestamp)
    ensures res.Success? ==>
              res.value.1 == mac(r.credentials[s].secret, HuobiPreImage(host, path, QueryString(res.value.0)))
  {
    match CheckKey(r, s)
    case Failure(_) => Failure(Panic("no key"))
    case Success((key, secret)) =>
      var signed := SignedParams(params, key, timestamp);
      Success((signed, mac(secret, HuobiPreImage(host, path, QueryString(signed)))))
  }

  /** A query has no line break when its keys have none. */
  lemma QueryOfHasNoLineBreak(params: map<string, string>, ks: seq<string>)
    requires forall i :: 0 <= i < |ks| ==> ks[i] in params && '\n' !in ks[i]
    ensures '\n' !in QueryOf(params, ks)
  {
    var fs := Fields(params, ks);
    forall i | 0 <= i < |fs| ensures '\n' !in fs[i] {
      var e := PercentEncode(params[ks[i]]);
      assert fs[i] == ks[i] + "=" + e;
      assert '\n' !in e;
    }
    JoinFree(fs, '&', '\n');
  }

  /** A query string has no line break when its keys have none, so the Huobi
      pre-image always splits into its four lines. */
  lemma QueryHasNoLineBreak(params: map<string, string>)
    requires forall k :: k in params ==> '\n' !in k
    ensures '\n' !in QueryString(params)
  {
    QueryOfHasNoLineBreak(params, SortedKeys(params));
  }

  /** The Huobi query the order stream signs, from no parameters of its own:
      exactly the four signature parameters in ascending key order. */
  lemma HuobiAuthQuery(key: string, timestamp: string)
    ensures QueryString(SignedParams(map[], key, timestamp)) ==
              Join([FieldText("AccessKeyId", key), FieldText("SignatureMethod", "HmacSHA256"),
                    FieldText("SignatureVersion", "2"), FieldText("Timestamp", timestamp)], '&')
  {
    var p := SignedParams(map[], key, timestamp);
    SignedParamsOrder(key, timestamp);
    QueryOfFourKeys(p, "AccessKeyId", "SignatureMethod", "SignatureVersion", "Timestamp");
  }

  /** The query string of a map with four keys. */
  lemma QueryOfFourKeys(params: map<string, string>, k0: string, k1: string, k2: string, k3: string)
    requires SortedKeys(params) == [k0, k1, k2, k3]
    requires k0 in params && k1 in params && k2 in params && k3 in params
    ensures QueryString(params) ==
              Join([FieldText(k0, params[k0]), FieldText(k1, params[k1]),
                    FieldText(k2, params[k2]), FieldText(k3, params[k3])], '&')
  {
    QueryOfFour(params, [k0, k1, k2, k3]);
  }

  lemma QueryOfFour(params: map<string, string>, ks: seq<string>)
    requires |ks| == 4 && ks[0] in params && ks[1] in params && ks[2] in params && ks[3] in params
    ensures QueryOf(params, ks) ==
              Join([FieldText(ks[0], params[ks[0]]), FieldText(ks[1], params[ks[1]]),
                    FieldText(ks[2], params[ks[2]]), FieldText(ks[3], params[ks[3]])], '&')
  {
    var fs := Fields(params, ks);
    assert fs == [fs[0], fs[1], fs[2], fs[3]];
  }

  /** The signature parameters, alone, are listed in this order. */
  lemma SignedParamsOrder(key: string, timestamp: string)
    ensures SortedKeys(SignedParams(map[], key, timestamp)) ==
              ["AccessKeyId", "SignatureMethod", "SignatureVersion", "Timestamp"]
  {
    var p := SignedParams(map[], key, timestamp);
    var order := ["AccessKeyId", "SignatureMethod", "SignatureVersion", "Timestamp"];
    SignatureFieldsSorted();
    assert p.Keys == {"AccessKeyId", "SignatureMethod", "SignatureVersion", "Timestamp"};
    assert |p| == 4 by {
      assert |p.Keys| == 4;
    }
    assert forall k :: k in p ==> k in order;
    assert EnumeratesSorted(p, order);
    SortedEnumerationUnique(p, SortedKeys(p), order);
  }

  /** The signature parameter names in ascending order. */
  lemma SignatureFieldsSorted()
    ensures StrictlySorted(["AccessKeyId", "SignatureMethod", "SignatureVersion", "Timestamp"])
  {
    StrLessFirst("AccessKeyId", "SignatureMethod");
    SignatureMethodBeforeVersion();
    StrLessFirst("SignatureVersion", "Timestamp");
    SortedFour("AccessKeyId", "SignatureMethod", "SignatureVersion", "Timestamp");
  }

  lemma StrLessFirst(a: string, b: string)
    requires |a| > 0 && |b| > 0 && a[0] < b[0]
    ensures StrLess(a, b)
  {
  }

  lemma SortedFour(a: string, b: string, c: string, d: string)
    requires StrLess(a, b) && StrLess(b, c) && StrLess(c, d)
    ensures StrictlySorted([a, b, c, d])
  {
    StrLessTransitive(a, b, c);
    StrLessTransitive(b, c, d);
    StrLessTransitive(a, c, d);
  }

  lemma SignatureMethodBeforeVersion()
    ensures StrLess("SignatureMethod", "SignatureVersion")
  {
    StrLessFirst("Method", "Version");
    StrLessCommonPrefix("Signature", "Method", "Version");
    assert "SignatureMethod" == "Signature" + "Method";
    assert "SignatureVersion" == "Signature" + "Version";
  }

  /** A shared prefix does not change the order. */
  lemma {:induction false} StrLessCommonPrefix(p: string, a: string, b: string)
    requires StrLess(a, b)
    ensures StrLess(p + a, p + b)
  {
    if |p| > 0 {
      StrLessCommonPrefix(p[1..], a, b);
      assert (p + a)[0] == p[0] && (p + b)[0] == p[0];
      assert (p + a)[1..] == p[1..] + a;
      assert (p + b)[1..] == p[1..] + b;
    } else {
      assert p + a == a && p + b == b;
    }
  }

  /** Two ascending enumerations of the same keys are the same sequence. */
  lemma {:induction false} SortedEnumerationUnique<V>(m: map<string, V>, xs: seq<string>, ys: seq<string>)
    requires EnumeratesSorted(m, xs) && EnumeratesSorted(m, ys)
    ensures xs == ys
    decreases |m|
  {
    if |m| > 0 {
      SortedHeadsAgree(m, xs, ys);
      var k := xs[0];
      TailEnumerates(m, xs);
      TailEnumerates(m, ys);
      assert |m - {k}| < |m| by {
        assert (m - {k}).Keys == m.Keys - {k};
      }
      SortedEnumerationUnique(m - {k}, xs[1..], ys[1..]);
      assert xs == [k] + xs[1..] && ys == [k] + ys[1..];
    }
  }

  /** Two ascending enumerations of the same non-empty map start alike. */
  lemma SortedHeadsAgree<V>(m: map<string, V>, xs: seq<string>, ys: seq<string>)
    requires EnumeratesSorted(m, xs) && EnumeratesSorted(m, ys) && |m| > 0
    ensures xs[0] == ys[0]
  {
    var x := xs[0];
    var y := ys[0];
    if x != y {
      var i :| 0 <= i < |ys| && ys[i] == x;
      var j :| 0 <= j < |xs| && xs[j] == y;
      assert i > 0 && j > 0;
      assert StrLess(y, x) && StrLess(x, y);
      StrLessAsymmetric(x, y);
    }
  }

  /** Dropping the first key of an ascending enumeration enumerates the
      rest of the map. */
  lemma TailEnumerates<V>(m: map<string, V>, xs: seq<string>)
    requires EnumeratesSorted(m, xs) && |xs| > 0
    ensures EnumeratesSorted(m - {xs[0]}, xs[1..])
  {
    var k := xs[0];
    var rest := m - {k};
    assert rest.Keys == m.Keys - {k};
    forall i | 0 <= i < |xs| - 1 ensures xs[1..][i] in rest {
      assert StrLess(k, xs[i + 1]);
      if xs[i + 1] == k {
        StrLessIrreflexive(k);
      }
    }
    forall q | q in rest ensures q in xs[1..] {
      var i :| 0 <= i < |xs| && xs[i] == q;
      assert i != 0;
      assert xs[1..][i - 1] == q;
    }
    assert StrictlySorted(xs[1..]) by {
      forall i, j | 0 <= i < j < |xs| - 1 ensures StrLess(xs[1..][i], xs[1..][j]) {
        assert xs[1..][i] == xs[i + 1] && xs[1..][j] == xs[j + 1];
      }
    }
  }

  // -----------------------------------------------------------------------
  // OKEx

  /** The OKEx pre-image: timestamp, method and request path run together. */
  function OkexPreImage(timestamp: string, verb: string, url: string): string
  {
    timestamp + verb + url
  }

  /** `okex_generate_signature`: key, passphrase and the signature of the
      pre-image. A missing credential panics. */
  function OkexSign(r: Registry, s: Subscription, timestamp: string, verb: string, url: string, mac: Mac)
    : (res: Result<(string, string, string)>)
    ensures res.Failure? <==> s !in r.credentials
    ensures res.Failure? ==> res.error == Panic("no key")
    ensures res.Success? ==>
              res.value == (r.credentials[s].key, r.credentials[s].extra,
                            mac(r.credentials[s].secret, OkexPreImage(timestamp, verb, url)))
  {
    match OkexCheckKey(r, s)
    case Failure(_) => Failure(Panic("no key"))
    case Success((key, secret, passphrase)) =>
      Success((key, passphrase, mac(secret, OkexPreImage(timestamp, verb, url))))
  }

  /** The login's signed text ends with the fixed method and path, and what
      precedes them reads back as the seconds the login carries. */
  lemma OkexLoginPreImage(seconds: int)
    ensures var pre := OkexPreImage(IntToString(seconds), "GET", "/users/self/verify");
            var tail := "GET/users/self/verify";
            && |tail| < |pre| && pre[|pre| - |tail|..] == tail
            && ParseInt(pre[..|pre| - |tail|]) == Some(seconds)
  {
    var ts := IntToString(seconds);
    var pre := OkexPreImage(ts, "GET", "/users/self/verify");
    assert pre == ts + "GET/users/self/verify";
    assert pre[..|ts|] == ts;
    IntStringRoundTrip(seconds);
  }

  // -----------------------------------------------------------------------
  // FTX

  /** The FTX pre-image: the timestamp followed by `websocket_login`. */
  function FtxPreImage(timestamp: string): string
  {
    timestamp + "websocket_login"
  }

  /** `ftx_generate_signature`: key, subaccount and the signature of the
      pre-image. A missing credential panics. */
  function FtxSign(r: Registry, s: Subscription, timestamp: string, mac: Mac): (res: Result<(string, string, string)>)
    ensures res.Failure? <==> s !in r.credentials
    ensures res.Failure? ==> res.error == Panic("no key")
    ensures res.Success? ==>
              res.value == (r.credentials[s].key, r.credentials[s].extra,
                            mac(r.credentials[s].secret, FtxPreImage(timestamp)))
  {
    match FtxCheckKey(r, s)
    case Failure(_) => Failure(Panic("no key"))
    case Success((key, secret, subaccount)) => Success((key, subaccount, mac(secret, FtxPreImage(timestamp))))
  }

  /** The FTX signed text ends with `websocket_login` and what precedes it
      reads back as the milliseconds the login carries as a number. */
  lemma FtxLoginPreImage(millis: int)
    ensures var pre := FtxPreImage(IntToString(millis));
            && |pre| > 15 && pre[|pre| - 15..] == "websocket_login"
            && ParseInt(pre[..|pre| - 15]) == Some(millis)
  {
    var ts := IntToString(millis);
    var pre := FtxPreImage(ts);
    assert pre[..|ts|] == ts;
    IntStringRoundTrip(millis);
  }

  /** The three signers fail on exactly the same subscriptions. */
  lemma SignersAgree(r: Registry, s: Subscription, host: string, path: string, params: map<string, string>,
                     timestamp: string, verb: string, url: string, mac: Mac)
    ensures (HuobiSign(r, s, host, path, params, timestamp, mac).Success?
             <==> OkexSign(r, s, timestamp, verb, url, mac).Success?)
    ensures (OkexSign(r, s, timestamp, verb, url, mac).Success?
             <==> FtxSign(r, s, timestamp, mac).Success?)
  {
  }

  /** The host and path the Huobi order stream signs are those of the
      endpoint it connects to. */
  lemma HuobiSignsOwnEndpoint(topics: seq<string>)
    ensures BaseUrl(HuobiUSwapOrderStream) == "wss://" + "api.hbdm.vn"
    ensures Path(HuobiUSwapOrderStream, topics) == "/linear-swap-notification"
  {
  }
}
