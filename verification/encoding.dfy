/** The canonical query string the Huobi signature covers
    (src/subscription.rs:609-632): every value is UTF-8 encoded and then
    percent-encoded in the style of section 2.1 of RFC 3986 with upper-case
    hex digits, escaping every byte that is not an ASCII letter or digit
    (stricter than the RFC, which leaves `-`, `.`, `_` and `~` alone); the
    `key=value` pairs are sorted by key and joined by `&`. */
module PercentEncoding {
  import opened Common
  import opened Text

  type byte = b: int | 0 <= b < 256

  // -----------------------------------------------------------------------
  // UTF-8 (RFC 3629)

  /** The UTF-8 bytes of one character. An ASCII character is its own single
      byte; every byte of any other character is 0x80 or above. */
  function Utf8Char(c: char): (bs: seq<byte>)
    ensures 1 <= |bs| <= 4
    ensures (c as int) < 0x80 ==> bs == [c as int]
    ensures (c as int) >= 0x80 ==> forall i :: 0 <= i < |bs| ==> bs[i] >= 0x80
  {
    var n := c as int;
    if n < 0x80 then [n]
    else if n < 0x800 then [0xC0 + n / 0x40, 0x80 + n % 0x40]
    else if n < 0x1_0000 then [0xE0 + n / 0x1000, 0x80 + (n / 0x40) % 0x40, 0x80 + n % 0x40]
    else [0xF0 + n / 0x4_0000, 0x80 + (n / 0x1000) % 0x40, 0x80 + (n / 0x40) % 0x40, 0x80 + n % 0x40]
  }

  /** The UTF-8 bytes of a string (Rust's `str::as_bytes`). */
  function Utf8(s: string): seq<byte>
  {
    if |s| == 0 then [] else Utf8Char(s[0]) + Utf8(s[1..])
  }

  predicate IsAscii(s: string)
  {
    forall i :: 0 <= i < |s| ==> (s[i] as int) < 0x80
  }

  /** An ASCII string's bytes are its character codes. */
  lemma {:induction false} Utf8OfAscii(s: string)
    requires IsAscii(s)
    ensures |Utf8(s)| == |s|
    ensures forall i :: 0 <= i < |s| ==> Utf8(s)[i] == s[i] as int
  {
    if |s| > 0 {
      Utf8OfAscii(s[1..]);
      assert Utf8(s) == [s[0] as int] + Utf8(s[1..]);
    }
  }

  /** A continuation byte, `10xxxxxx`. */
  predicate IsContinuation(b: byte)
  {
    0x80 <= b < 0xC0
  }

  /** The code points a Dafny `char` (a Unicode scalar value) can hold. */
  predicate IsScalarValue(n: int)
  {
    0 <= n < 0xD800 || 0xE000 <= n < 0x11_0000
  }

  /** Reads the first UTF-8 sequence of `bs`: the character and the number
      of bytes it takes. Overlong forms, surrogates and values past U+10FFFF
      are rejected, as section 3 of RFC 3629 requires. */
  function Utf8DecodeChar(bs: seq<byte>): (r: Option<(char, nat)>)
    requires |bs| > 0
    ensures r.Some? ==> 1 <= r.value.1 <= 4 && r.value.1 <= |bs|
  {
    var b0: int := bs[0];
    if b0 < 0x80 then Some((b0 as char, 1))
    else if 0xC0 <= b0 < 0xE0 && |bs| >= 2 && IsContinuation(bs[1]) then
      var n := (b0 - 0xC0) * 0x40 + Payload(bs[1]);
      if 0x80 <= n then Some((n as char, 2)) else None
    else if 0xE0 <= b0 < 0xF0 && |bs| >= 3 && IsContinuation(bs[1]) && IsContinuation(bs[2]) then
      var n := (b0 - 0xE0) * 0x1000 + Payload(bs[1]) * 0x40 + Payload(bs[2]);
      if 0x800 <= n && IsScalarValue(n) then Some((n as char, 3)) else None
    else if 0xF0 <= b0 < 0xF8 && |bs| >= 4 && IsContinuation(bs[1]) && IsContinuation(bs[2])
            && IsContinuation(bs[3]) then
      var n := (b0 - 0xF0) * 0x4_0000 + Payload(bs[1]) * 0x1000 + Payload(bs[2]) * 0x40 + Payload(bs[3]);
      if 0x1_0000 <= n < 0x11_0000 then Some((n as char, 4)) else None
    else None
  }

  /** The six payload bits of a continuation byte. */
  function Payload(b: byte): int
  {
    b as int - 0x80
  }

  /** Decodes UTF-8 bytes into text, or `None` when they are not valid
      UTF-8. */
  function Utf8Decode(bs: seq<byte>): Option<string>
    decreases |bs|
  {
    if |bs| == 0 then Some([])
    else
      match Utf8DecodeChar(bs)
      case None => None
      case Some((c, k)) =>
        match Utf8Decode(bs[k..])
        case None => None
        case Some(rest) => Some([c] + rest)
  }

  lemma DivDiv64(n: int)
    requires n >= 0
    ensures n / 0x1000 == (n / 0x40) / 0x40
    ensures n / 0x4_0000 == ((n / 0x40) / 0x40) / 0x40
  {
    var q := n / 0x40;
    var q2 := q / 0x40;
    var q3 := q2 / 0x40;
    assert n == 0x1000 * q2 + 0x40 * (q % 0x40) + n % 0x40;
    assert n == 0x4_0000 * q3 + 0x1000 * (q2 % 0x40) + 0x40 * (q % 0x40) + n % 0x40;
  }

  /** The decoder reads back the character `Utf8Char` wrote, whatever
      follows it. */
  lemma Utf8DecodeCharOf(c: char, rest: seq<byte>)
    ensures Utf8DecodeChar(Utf8Char(c) + rest) == Some((c, |Utf8Char(c)|))
  {
    var n := c as int;
    if n < 0x80 {
    } else if n < 0x800 {
      Utf8DecodeTwo(c, rest);
    } else if n < 0x1_0000 {
      Utf8DecodeThree(c, rest);
    } else {
      Utf8DecodeFour(c, rest);
    }
  }

  lemma Utf8DecodeTwo(c: char, rest: seq<byte>)
    requires 0x80 <= c as int < 0x800
    ensures Utf8DecodeChar(Utf8Char(c) + rest) == Some((c, 2))
  {
    var n := c as int;
    var bs := Utf8Char(c) + rest;
    assert bs[0] == 0xC0 + n / 0x40 && bs[1] == 0x80 + n % 0x40;
    assert (bs[0] as int - 0xC0) * 0x40 + Payload(bs[1]) == n;
  }

  lemma Utf8DecodeThree(c: char, rest: seq<byte>)
    requires 0x800 <= c as int < 0x1_0000
    ensures Utf8DecodeChar(Utf8Char(c) + rest) == Some((c, 3))
  {
    var n := c as int;
    var bs := Utf8Char(c) + rest;
    DivDiv64(n);
    assert bs[0] == 0xE0 + n / 0x1000 && bs[1] == 0x80 + (n / 0x40) % 0x40 && bs[2] == 0x80 + n % 0x40;
    assert (bs[0] as int - 0xE0) * 0x1000 + Payload(bs[1]) * 0x40 + Payload(bs[2]) == n;
  }

  lemma Utf8DecodeFour(c: char, rest: seq<byte>)
    requires 0x1_0000 <= c as int
    ensures Utf8DecodeChar(Utf8Char(c) + rest) == Some((c, 4))
  {
    var n := c as int;
    var bs := Utf8Char(c) + rest;
    DivDiv64(n);
    assert bs[0] == 0xF0 + n / 0x4_0000 && bs[1] == 0x80 + (n / 0x1000) % 0x40;
    assert bs[2] == 0x80 + (n / 0x40) % 0x40 && bs[3] == 0x80 + n % 0x40;
    assert (bs[0] as int - 0xF0) * 0x4_0000 + Payload(bs[1]) * 0x1000 + Payload(bs[2]) * 0x40 + Payload(bs[3]) == n;
  }

  /** Decoding the UTF-8 bytes of any text gives the text back, so `Utf8`
      is injective: two texts with the same bytes are equal. */
  lemma {:induction false} Utf8RoundTrip(s: string)
    ensures Utf8Decode(Utf8(s)) == Some(s)
  {
    if |s| > 0 {
      var head := Utf8Char(s[0]);
      var tail := Utf8(s[1..]);
      Utf8DecodeCharOf(s[0], tail);
      assert Utf8(s) == head + tail;
      assert (head + tail)[|head|..] == tail;
      Utf8RoundTrip(s[1..]);
      assert [s[0]] + s[1..] == s;
    }
  }

  lemma Utf8Injective(a: string, b: string)
    requires Utf8(a) == Utf8(b)
    ensures a == b
  {
    Utf8RoundTrip(a);
    Utf8RoundTrip(b);
  }

  // -----------------------------------------------------------------------
  // Percent-encoding

  /** The bytes `NON_ALPHANUMERIC` leaves alone: ASCII digits and letters. */
  predicate IsAlnumByte(b: byte)
  {
    0x30 <= b <= 0x39 || 0x41 <= b <= 0x5A || 0x61 <= b <= 0x7A
  }

  predicate IsAlnumChar(c: char)
  {
    '0' <= c <= '9' || 'A' <= c <= 'Z' || 'a' <= c <= 'z'
  }

  predicate IsUpperHex(c: char)
  {
    '0' <= c <= '9' || 'A' <= c <= 'F'
  }

  /** The characters percent-encoded text is made of. */
  predicate IsEncodedChar(c: char)
  {
    IsAlnumChar(c) || c == '%'
  }

  function HexDigit(d: nat): (c: char)
    requires d < 16
    ensures IsUpperHex(c)
  {
    if d < 10 then ('0' as int + d) as char else ('A' as int + d - 10) as char
  }

  function HexValue(c: char): (d: nat)
    requires IsUpperHex(c)
    ensures d < 16
  {
    if c <= '9' then (c as int) - ('0' as int) else (c as int) - ('A' as int) + 10
  }

  lemma HexRoundTrip(d: nat)
    requires d < 16
    ensures HexValue(HexDigit(d)) == d
  {
  }

  /** One byte: itself when alphanumeric, `%` and two upper-case hex digits
      otherwise. */
  function EncodeByte(b: byte): (t: string)
    ensures IsAlnumByte(b) ==> t == [b as char]
    ensures !IsAlnumByte(b) ==> |t| == 3 && t[0] == '%'
  {
    if IsAlnumByte(b) then [b as char] else ['%', HexDigit(b / 16), HexDigit(b % 16)]
  }

  /** How many bytes of `bs` are escaped. */
  function Escaped(bs: seq<byte>): nat
  {
    if |bs| == 0 then 0 else (if IsAlnumByte(bs[0]) then 0 else 1) + Escaped(bs[1..])
  }

  /** Percent-encoding of a byte string: as long as the input plus two
      characters per escaped byte, made only of letters, digits and `%`. */
  function EncodeBytes(bs: seq<byte>): (t: string)
    ensures |t| == |bs| + 2 * Escaped(bs)
    ensures forall i :: 0 <= i < |t| ==> IsEncodedChar(t[i])
  {
    if |bs| == 0 then ""
    else
      var head := EncodeByte(bs[0]);
      assert forall i :: 0 <= i < |head| ==> IsEncodedChar(head[i]);
      head + EncodeBytes(bs[1..])
  }

  /** `percent_encode`: `utf8_percent_encode(source, NON_ALPHANUMERIC)`. */
  function PercentEncode(s: string): (t: string)
    ensures |t| == |Utf8(s)| + 2 * Escaped(Utf8(s))
    ensures forall i :: 0 <= i < |t| ==> IsEncodedChar(t[i])
  {
    EncodeBytes(Utf8(s))
  }

  /** The inverse of `EncodeBytes`: accepts exactly the canonical encodings
      (alphanumeric bytes written as themselves, every other byte as `%XX`
      with upper-case hex). */
  function DecodeBytes(t: string): Option<seq<byte>>
    decreases |t|
  {
    if |t| == 0 then Some([])
    else if t[0] == '%' then
      if |t| >= 3 && IsUpperHex(t[1]) && IsUpperHex(t[2]) && !IsAlnumByte(HexValue(t[1]) * 16 + HexValue(t[2])) then
        match DecodeBytes(t[3..])
        case None => None
        case Some(rest) => Some([HexValue(t[1]) * 16 + HexValue(t[2])] + rest)
      else None
    else if IsAlnumChar(t[0]) then
      match DecodeBytes(t[1..])
      case None => None
      case Some(rest) => Some([t[0] as int] + rest)
    else None
  }

  /** Decoding one encoded byte followed by more text. */
  lemma DecodeAfterByte(b: byte, t: string)
    ensures DecodeBytes(EncodeByte(b) + t) ==
              match DecodeBytes(t)
              case None => None
              case Some(rest) => Some([b] + rest)
  {
    var e := EncodeByte(b) + t;
    if IsAlnumByte(b) {
      assert e[0] == b as char && e[1..] == t;
    } else {
      assert e[0] == '%' && e[3..] == t;
      assert e[1] == HexDigit(b / 16) && e[2] == HexDigit(b % 16);
      HexRoundTrip(b / 16);
      HexRoundTrip(b % 16);
    }
  }

  /** Decoding recovers the encoded bytes. */
  lemma {:induction false} DecodeEncode(bs: seq<byte>)
    ensures DecodeBytes(EncodeBytes(bs)) == Some(bs)
  {
    if |bs| > 0 {
      DecodeEncode(bs[1..]);
      DecodeAfterByte(bs[0], EncodeBytes(bs[1..]));
      assert [bs[0]] + bs[1..] == bs;
    }
  }

  /** Encoding what was decoded gives the text back: the encoding is
      canonical, one text per byte string. */
  lemma {:induction false} EncodeDecode(t: string)
    requires DecodeBytes(t).Some?
    ensures EncodeBytes(DecodeBytes(t).value) == t
  {
    if |t| > 0 {
      var bs := DecodeBytes(t).value;
      if t[0] == '%' {
        EncodeDecode(t[3..]);
        assert bs[1..] == DecodeBytes(t[3..]).value;
        EncodeEscape(t);
        assert t[..3] + t[3..] == t;
      } else {
        EncodeDecode(t[1..]);
        assert bs[1..] == DecodeBytes(t[1..]).value;
        assert EncodeByte(bs[0]) == [t[0]];
        assert [t[0]] + t[1..] == t;
      }
    }
  }

  /** A well-formed escape re-encodes to itself. */
  lemma EncodeEscape(t: string)
    requires |t| >= 3 && t[0] == '%' && IsUpperHex(t[1]) && IsUpperHex(t[2])
    requires !IsAlnumByte(HexValue(t[1]) * 16 + HexValue(t[2]))
    ensures EncodeByte(HexValue(t[1]) * 16 + HexValue(t[2])) == t[..3]
  {
    var b := HexValue(t[1]) * 16 + HexValue(t[2]);
    assert b / 16 == HexValue(t[1]) && b % 16 == HexValue(t[2]);
    assert HexDigit(HexValue(t[1])) == t[1];
    assert HexDigit(HexValue(t[2])) == t[2];
  }

  /** Text made of ASCII letters and digits is left as it is. */
  lemma {:induction false} PercentEncodeAlnum(s: string)
    requires forall i :: 0 <= i < |s| ==> IsAlnumChar(s[i])
    ensures PercentEncode(s) == s
  {
    if |s| > 0 {
      PercentEncodeAlnum(s[1..]);
      assert Utf8(s) == [s[0] as int] + Utf8(s[1..]);
      assert EncodeBytes(Utf8(s)) == EncodeByte(s[0] as int) + EncodeBytes(Utf8(s[1..]));
      assert [s[0]] + s[1..] == s;
    }
  }

  /** The UTF-8 bytes of a concatenation are the concatenated bytes. */
  lemma {:induction false} Utf8Append(a: string, b: string)
    ensures Utf8(a + b) == Utf8(a) + Utf8(b)
  {
    if |a| > 0 {
      Utf8Append(a[1..], b);
      assert (a + b)[1..] == a[1..] + b;
    } else {
      assert a + b == b;
    }
  }

  lemma {:induction false} EncodeBytesAppend(x: seq<byte>, y: seq<byte>)
    ensures EncodeBytes(x + y) == EncodeBytes(x) + EncodeBytes(y)
  {
    if |x| > 0 {
      EncodeBytesAppend(x[1..], y);
      assert (x + y)[1..] == x[1..] + y;
    } else {
      assert x + y == y;
    }
  }

  /** Percent-encoding works character by character: the encoding of a
      concatenation is the concatenation of the encodings. */
  lemma PercentEncodeAppend(a: string, b: string)
    ensures PercentEncode(a + b) == PercentEncode(a) + PercentEncode(b)
  {
    Utf8Append(a, b);
    EncodeBytesAppend(Utf8(a), Utf8(b));
  }

  /** Percent-encoding "a+b,c" gives "a%2Bb%2Cc": around alphanumerics, the
      plus and the comma are escaped with upper-case hex. */
  lemma PercentEncodeExample(x: char, y: char, z: char)
    requires IsAlnumChar(x) && IsAlnumChar(y) && IsAlnumChar(z)
    ensures PercentEncode([x, '+', y, ',', z]) == [x] + "%2B" + [y] + "%2C" + [z]
  {
    assert [x, '+', y, ',', z] == [x] + ['+'] + [y] + [','] + [z];
    PercentEncodeAppend([x] + ['+'] + [y] + [','], [z]);
    PercentEncodeAppend([x] + ['+'] + [y], [',']);
    PercentEncodeAppend([x] + ['+'], [y]);
    PercentEncodeAppend([x], ['+']);
    PercentEncodeAlnum([x]);
    PercentEncodeAlnum([y]);
    PercentEncodeAlnum([z]);
    assert Utf8(['+']) == [0x2B];
    assert EncodeBytes([0x2B]) == "%2B";
    assert Utf8([',']) == [0x2C];
    assert EncodeBytes([0x2C]) == "%2C";
  }

  // -----------------------------------------------------------------------
  // Ordering keys

  /** Lexicographic order by code point, which is the byte order of the
      UTF-8 encodings Rust's `String` ordering uses. */
  predicate StrLess(a: string, b: string)
    decreases |a|
  {
    |b| > 0 && (|a| == 0 || a[0] < b[0] || (a[0] == b[0] && StrLess(a[1..], b[1..])))
  }

  lemma {:induction false} StrLessIrreflexive(a: string)
    ensures !StrLess(a, a)
  {
    if |a| > 0 {
      StrLessIrreflexive(a[1..]);
    }
  }

  lemma {:induction false} StrLessTransitive(a: string, b: string, c: string)
    requires StrLess(a, b) && StrLess(b, c)
    ensures StrLess(a, c)
  {
    if |a| > 0 && a[0] == b[0] && b[0] == c[0] {
      StrLessTransitive(a[1..], b[1..], c[1..]);
    }
  }

  lemma {:induction false} StrLessTotal(a: string, b: string)
    requires a != b
    ensures StrLess(a, b) || StrLess(b, a)
  {
    if |a| > 0 && |b| > 0 && a[0] == b[0] {
      assert a[1..] != b[1..];
      StrLessTotal(a[1..], b[1..]);
    }
  }

  lemma StrLessAsymmetric(a: string, b: string)
    requires StrLess(a, b)
    ensures !StrLess(b, a)
  {
    if StrLess(b, a) {
      StrLessTransitive(a, b, a);
      StrLessIrreflexive(a);
    }
  }

  /** `x` comes before every other element of `s`. */
  predicate IsLeast(x: string, s: set<string>)
  {
    x in s && forall y :: y in s && y != x ==> StrLess(x, y)
  }

  lemma {:induction false} LeastExists(s: set<string>) returns (x: string)
    requires |s| > 0
    ensures IsLeast(x, s)
  {
    var z := AnyElement(s);
    var rest := s - {z};
    if |rest| == 0 {
      x := z;
      assert s == {z};
    } else {
      var m := LeastExists(rest);
      if StrLess(m, z) {
        x := m;
        forall y | y in s && y != x ensures StrLess(x, y) {
          if y != z {
            assert y in rest;
          }
        }
      } else {
        StrLessTotal(m, z);
        x := z;
        forall y | y in s && y != x ensures StrLess(x, y) {
          assert y in rest;
          if y != m {
            StrLessTransitive(z, m, y);
          }
        }
      }
    }
  }

  lemma LeastUnique(s: set<string>)
    ensures forall x, y :: IsLeast(x, s) && IsLeast(y, s) ==> x == y
  {
    forall x, y | IsLeast(x, s) && IsLeast(y, s) ensures x == y {
      if x != y {
        StrLessAsymmetric(x, y);
      }
    }
  }

  /** The first key of a non-empty parameter map. */
  function LeastKey<V>(m: map<string, V>): (k: string)
    requires |m| > 0
    ensures IsLeast(k, m.Keys)
  {
    assert exists k :: IsLeast(k, m.Keys) by {
      var w := LeastExists(m.Keys);
    }
    LeastUnique(m.Keys);
    var k :| IsLeast(k, m.Keys); k
  }

  predicate StrictlySorted(ks: seq<string>)
  {
    forall i, j :: 0 <= i < j < |ks| ==> StrLess(ks[i], ks[j])
  }

  /** A least element followed by a sorted sequence of larger ones is sorted. */
  lemma ConsSorted(k: string, tail: seq<string>)
    requires StrictlySorted(tail)
    requires forall j :: 0 <= j < |tail| ==> StrLess(k, tail[j])
    ensures StrictlySorted([k] + tail)
  {
    var ks := [k] + tail;
    forall i, j | 0 <= i < j < |ks| ensures StrLess(ks[i], ks[j]) {
      assert ks[j] == tail[j - 1];
      if i > 0 {
        assert ks[i] == tail[i - 1];
      }
    }
  }

  /** Exactly the keys of `m`, each once, in ascending order. */
  predicate EnumeratesSorted<V>(m: map<string, V>, ks: seq<string>)
  {
    && |ks| == |m|
    && (forall i :: 0 <= i < |ks| ==> ks[i] in m)
    && (forall k :: k in m ==> k in ks)
    && StrictlySorted(ks)
  }

  /** The least key followed by the sorted rest enumerates the whole map. */
  lemma SortedKeysStep<V>(m: map<string, V>, k: string, tail: seq<string>)
    requires IsLeast(k, m.Keys)
    requires EnumeratesSorted(m - {k}, tail)
    ensures EnumeratesSorted(m, [k] + tail)
  {
    var rest := m - {k};
    assert rest.Keys == m.Keys - {k};
    assert forall j :: 0 <= j < |tail| ==> StrLess(k, tail[j]) by {
      forall j | 0 <= j < |tail| ensures StrLess(k, tail[j]) {
        assert tail[j] in rest;
      }
    }
    ConsSorted(k, tail);
    forall q | q in m ensures q in [k] + tail {
      if q != k {
        assert q in rest;
      }
    }
  }

  /** The keys of `m` in ascending order (the iteration order of a
      `BTreeMap`), each exactly once. */
  function SortedKeys<V>(m: map<string, V>): (ks: seq<string>)
    ensures EnumeratesSorted(m, ks)
    decreases |m|
  {
    if |m| == 0 then []
    else
      var k := LeastKey(m);
      assert |m - {k}| < |m| by {
        assert (m - {k}).Keys == m.Keys - {k};
      }
      var tail := SortedKeys(m - {k});
      SortedKeysStep(m, k, tail);
      [k] + tail
  }

  // -----------------------------------------------------------------------
  // Query strings

  /** One `key=value` field; the key is written as it is. */
  function FieldText(k: string, v: string): string
  {
    k + "=" + PercentEncode(v)
  }

  /** The field of each key of `ks`, in that order. */
  function Fields(params: map<string, string>, ks: seq<string>): (fs: seq<string>)
    requires forall i :: 0 <= i < |ks| ==> ks[i] in params
    ensures |fs| == |ks|
    ensures forall i :: 0 <= i < |ks| ==> fs[i] == FieldText(ks[i], params[ks[i]])
  {
    if |ks| == 0 then [] else [FieldText(ks[0], params[ks[0]])] + Fields(params, ks[1..])
  }

  /** The fields of the keys `ks`, in that order, joined by `&`. */
  function QueryOf(params: map<string, string>, ks: seq<string>): string
    requires forall i :: 0 <= i < |ks| ==> ks[i] in params
  {
    Join(Fields(params, ks), '&')
  }

  /** `build_query_string`: the fields in ascending key order. */
  function QueryString(params: map<string, string>): string
  {
    QueryOf(params, SortedKeys(params))
  }

  /** Splits a field at its first `=` and decodes the value. */
  function ParseField(f: string): Option<(string, seq<byte>)>
  {
    var i := IndexOf(f, '=');
    if i == |f| then None
    else
      match DecodeBytes(f[i + 1..])
      case None => None
      case Some(v) => Some((f[..i], v))
  }

  function ParseFields(fs: seq<string>): Option<seq<(string, seq<byte>)>>
  {
    if |fs| == 0 then Some([])
    else
      match (ParseField(fs[0]), ParseFields(fs[1..]))
      case (Some(p), Some(rest)) => Some([p] + rest)
      case _ => None
  }

  /** Reads a query string back into its (key, value bytes) pairs. */
  function ParseQuery(t: string): Option<seq<(string, seq<byte>)>>
  {
    if |t| == 0 then Some([]) else ParseFields(Split(t, '&'))
  }

  /** Keys are written unescaped, so the query string can only be read back
      when no key contains `&` or `=`. */
  predicate PlainKeys<V>(params: map<string, V>)
  {
    forall k :: k in params ==> '&' !in k && '=' !in k
  }

  /** The pairs a query string should carry: each key in ascending order with
      the UTF-8 bytes of its value. */
  function SortedPairs(params: map<string, string>): seq<(string, seq<byte>)>
  {
    Pairs(params, SortedKeys(params))
  }

  function Pairs(params: map<string, string>, ks: seq<string>): seq<(string, seq<byte>)>
    requires forall i :: 0 <= i < |ks| ==> ks[i] in params
  {
    if |ks| == 0 then [] else [(ks[0], Utf8(params[ks[0]]))] + Pairs(params, ks[1..])
  }

  lemma ParseOneField(k: string, v: string)
    requires '=' !in k
    ensures ParseField(k + "=" + PercentEncode(v)) == Some((k, Utf8(v)))
  {
    var f := k + "=" + PercentEncode(v);
    var i := IndexOf(f, '=');
    assert f[|k|] == '=';
    assert i == |k|;
    assert f[..i] == k;
    assert f[i + 1..] == PercentEncode(v);
    DecodeEncode(Utf8(v));
  }

  lemma {:induction false} ParseAllFields(params: map<string, string>, ks: seq<string>)
    requires forall i :: 0 <= i < |ks| ==> ks[i] in params && '=' !in ks[i]
    ensures ParseFields(Fields(params, ks)) == Some(Pairs(params, ks))
  {
    var fs := Fields(params, ks);
    if |ks| > 0 {
      ParseOneField(ks[0], params[ks[0]]);
      assert fs[1..] == Fields(params, ks[1..]);
      ParseAllFields(params, ks[1..]);
    }
  }

  /** Reading a query back yields each listed key with its value's bytes. */
  lemma QueryOfRoundTrip(params: map<string, string>, ks: seq<string>)
    requires forall i :: 0 <= i < |ks| ==> ks[i] in params && '&' !in ks[i] && '=' !in ks[i]
    ensures ParseQuery(QueryOf(params, ks)) == Some(Pairs(params, ks))
  {
    var fs := Fields(params, ks);
    if |ks| == 0 {
      assert QueryOf(params, ks) == "";
    } else {
      forall i | 0 <= i < |fs| ensures '&' !in fs[i] && |fs[i]| > 0 {
        var e := PercentEncode(params[ks[i]]);
        assert fs[i] == ks[i] + "=" + e;
        assert fs[i][|ks[i]|] == '=';
      }
      SplitJoin(fs, '&');
      assert |Join(fs, '&')| > 0 by {
        JoinSplit(Join(fs, '&'), '&');
      }
      ParseAllFields(params, ks);
    }
  }

  /** Reading the query string back yields every parameter, in ascending key
      order, with its value's bytes: nothing is lost, reordered or
      double-encoded. */
  lemma QueryStringRoundTrip(params: map<string, string>)
    requires PlainKeys(params)
    ensures ParseQuery(QueryString(params)) == Some(SortedPairs(params))
  {
    QueryOfRoundTrip(params, SortedKeys(params));
  }

  /** The empty parameter set gives the empty query string. */
  lemma QueryStringEmpty()
    ensures QueryString(map[]) == ""
  {
  }

  // -----------------------------------------------------------------------
  // Insertion order

  /** The parameter map after inserting `ps` in order into an empty
      `BTreeMap` (a later key overwrites an earlier one). */
  function FromPairs(ps: seq<(string, string)>): map<string, string>
  {
    if |ps| == 0 then map[] else FromPairs(ps[..|ps| - 1])[ps[|ps| - 1].0 := ps[|ps| - 1].1]
  }

  predicate DistinctKeys(ps: seq<(string, string)>)
  {
    forall i, j :: 0 <= i < j < |ps| ==> ps[i].0 != ps[j].0
  }

  /** Inserting pairs with distinct keys maps each key to its own value and
      nothing else. */
  lemma {:induction false} FromPairsContents(ps: seq<(string, string)>)
    requires DistinctKeys(ps)
    ensures forall k :: k in FromPairs(ps) <==> exists i :: 0 <= i < |ps| && ps[i].0 == k
    ensures forall i :: 0 <= i < |ps| ==> FromPairs(ps)[ps[i].0] == ps[i].1
  {
    if |ps| > 0 {
      var init := ps[..|ps| - 1];
      assert DistinctKeys(init);
      FromPairsContents(init);
      forall k ensures k in FromPairs(ps) <==> exists i :: 0 <= i < |ps| && ps[i].0 == k {
        if exists i :: 0 <= i < |init| && init[i].0 == k {
          var i :| 0 <= i < |init| && init[i].0 == k;
          assert ps[i].0 == k;
        }
        if exists i :: 0 <= i < |ps| && ps[i].0 == k {
          var i :| 0 <= i < |ps| && ps[i].0 == k;
          if i < |ps| - 1 {
            assert init[i].0 == k;
          }
        }
      }
      forall i | 0 <= i < |ps| ensures FromPairs(ps)[ps[i].0] == ps[i].1 {
        if i < |ps| - 1 {
          assert init[i] == ps[i];
        }
      }
    }
  }

  /** The query string does not depend on the order the parameters were
      inserted in: any two insertion orders of the same distinct-key pairs
      build the same string. */
  lemma QueryInsertionOrderIrrelevant(a: seq<(string, string)>, b: seq<(string, string)>)
    requires DistinctKeys(a) && DistinctKeys(b)
    requires forall p :: p in a <==> p in b
    ensures QueryString(FromPairs(a)) == QueryString(FromPairs(b))
  {
    SamePairsSameMap(a, b);
  }

  /** Two insertion orders of the same distinct-key pairs build one map. */
  lemma SamePairsSameMap(a: seq<(string, string)>, b: seq<(string, string)>)
    requires DistinctKeys(a) && DistinctKeys(b)
    requires forall p :: p in a <==> p in b
    ensures FromPairs(a) == FromPairs(b)
  {
    FromPairsContents(a);
    FromPairsContents(b);
    var ma := FromPairs(a);
    var mb := FromPairs(b);
    forall k ensures (k in ma <==> k in mb) && (k in ma ==> ma[k] == mb[k]) {
      if k in ma {
        var i :| 0 <= i < |a| && a[i].0 == k;
        assert a[i] in b;
        var j :| 0 <= j < |b| && b[j] == a[i];
      }
      if k in mb {
        var j :| 0 <= j < |b| && b[j].0 == k;
        assert b[j] in a;
      }
    }
    assert ma == mb;
  }
}
