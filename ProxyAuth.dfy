/**
 * The `Proxy-Authorization` header value both spiders build as
 * `"Basic " + base64.b64encode(f"{user}:{pass}".encode()).decode()`:
 * the Basic scheme of section 2 of RFC 7617 over the UTF-8 bytes of the
 * credentials (section 3 of RFC 3629), encoded with the base64 alphabet and
 * padding of section 4 of RFC 4648. Decoders are given so that the encoding
 * can be shown to lose nothing.
 *
 * Also the credentials record both spiders read from a pool entry, the `proxy` meta
 * URL built from it and the header set or removed with it.
 */
module ProxyAuth {
  import opened Common
  import Str

  type Byte = x: int | 0 <= x < 256
  type Sextet = x: int | 0 <= x < 64

  // ---------------------------------------------------------------------------
  // UTF-8

  /** Python's `str.encode()` of one character. */
  function Utf8Char(c: char): (r: seq<Byte>)
    ensures 1 <= |r| <= 4
    ensures |r| == 1 <==> c as int < 0x80
    ensures c as int < 0x80 ==> r == [c as int]
  {
    var n := c as int;
    if n < 0x80 then [n]
    else if n < 0x800 then [0xC0 + n / 64, 0x80 + n % 64]
    else if n < 0x10000 then [0xE0 + n / 4096, 0x80 + (n / 64) % 64, 0x80 + n % 64]
    else [0xF0 + n / 262144, 0x80 + (n / 4096) % 64, 0x80 + (n / 64) % 64, 0x80 + n % 64]
  }

  /** Python's `str.encode()` (UTF-8). */
  function Utf8(s: string): (r: seq<Byte>)
    ensures |s| <= |r| <= 4 * |s|
  {
    if s == [] then [] else Utf8Char(s[0]) + Utf8(s[1..])
  }

  predicate IsContinuation(b: Byte) { 0x80 <= b < 0xC0 }

  /** The character whose code point is `n`, if `n` is a Unicode scalar value. */
  function ScalarOf(n: int): Option<char> {
    if 0 <= n < 0xD800 || 0xE000 <= n < 0x110000 then Some(n as char) else None
  }

  /** Decodes the first character of `b`: the character and the number of bytes used. */
  function Utf8DecodeFirst(b: seq<Byte>): (r: Option<(char, nat)>)
    requires |b| > 0
    ensures r.Some? ==> 1 <= r.value.1 <= |b|
  {
    var b0: int := b[0];
    if b0 < 0x80 then Some((b0 as char, 1))
    else if 0xC0 <= b0 < 0xE0 && |b| >= 2 && IsContinuation(b[1]) then
      match ScalarOf((b0 - 0xC0) * 64 + (b[1] as int - 0x80))
      case Some(c) => Some((c, 2))
      case None => None
    else if 0xE0 <= b0 < 0xF0 && |b| >= 3 && IsContinuation(b[1]) && IsContinuation(b[2]) then
      match ScalarOf((b0 - 0xE0) * 4096 + (b[1] as int - 0x80) * 64 + (b[2] as int - 0x80))
      case Some(c) => Some((c, 3))
      case None => None
    else if 0xF0 <= b0 < 0xF8 && |b| >= 4 && IsContinuation(b[1]) && IsContinuation(b[2])
            && IsContinuation(b[3]) then
      match ScalarOf((b0 - 0xF0) * 262144 + (b[1] as int - 0x80) * 4096 + (b[2] as int - 0x80) * 64 + (b[3] as int - 0x80))
      case Some(c) => Some((c, 4))
      case None => None
    else None
  }

  /** Decodes UTF-8 bytes; `None` for a malformed sequence. */
  function Utf8Decode(b: seq<Byte>): Option<string>
    decreases |b|
  {
    if b == [] then Some([])
    else match Utf8DecodeFirst(b)
      case None => None
      case Some((c, k)) =>
        match Utf8Decode(b[k..])
        case None => None
        case Some(rest) => Some([c] + rest)
  }

  /** Splitting a number into base-64 digits and putting them together again. */
  lemma SixBitDigits(n: nat)
    ensures (n / 64) * 64 + n % 64 == n
    ensures (n / 4096) * 64 + (n / 64) % 64 == n / 64
    ensures (n / 262144) * 64 + (n / 4096) % 64 == n / 4096
  {
    assert n / 4096 == (n / 64) / 64;
    assert n / 262144 == (n / 4096) / 64;
  }

  lemma Utf8TwoDecodes(c: char, tail: seq<Byte>)
    requires 0x80 <= c as int < 0x800
    ensures Utf8DecodeFirst(Utf8Char(c) + tail) == Some((c, 2))
  {
    var n := c as int;
    var b := Utf8Char(c) + tail;
    SixBitDigits(n);
    assert b[0] == 0xC0 + n / 64 && b[1] == 0x80 + n % 64;
    assert ScalarOf(n) == Some(c);
  }

  lemma Utf8ThreeDecodes(c: char, tail: seq<Byte>)
    requires 0x800 <= c as int < 0x10000
    ensures Utf8DecodeFirst(Utf8Char(c) + tail) == Some((c, 3))
  {
    var n := c as int;
    var b := Utf8Char(c) + tail;
    var d0, d1, d2 := n / 4096, (n / 64) % 64, n % 64;
    SixBitDigits(n);
    assert d0 * 4096 + d1 * 64 + d2 == n;
    assert b[0] == 0xE0 + d0 && b[1] == 0x80 + d1 && b[2] == 0x80 + d2;
    assert ScalarOf(n) == Some(c);
  }

  lemma Utf8FourDecodes(c: char, tail: seq<Byte>)
    requires 0x10000 <= c as int
    ensures Utf8DecodeFirst(Utf8Char(c) + tail) == Some((c, 4))
  {
    var n := c as int;
    var b := Utf8Char(c) + tail;
    var d0, d1, d2, d3 := n / 262144, (n / 4096) % 64, (n / 64) % 64, n % 64;
    SixBitDigits(n);
    assert d0 * 262144 + d1 * 4096 + d2 * 64 + d3 == n;
    assert d0 <= 4;
    assert b[0] == 0xF0 + d0 && b[1] == 0x80 + d1 && b[2] == 0x80 + d2 && b[3] == 0x80 + d3;
    assert ScalarOf(n) == Some(c);
  }

  /** The decoder reads back exactly the bytes `Utf8Char` wrote for one character. */
  lemma Utf8CharDecodes(c: char, tail: seq<Byte>)
    ensures Utf8DecodeFirst(Utf8Char(c) + tail) == Some((c, |Utf8Char(c)|))
  {
    var n := c as int;
    if n < 0x80 {
    } else if n < 0x800 {
      Utf8TwoDecodes(c, tail);
    } else if n < 0x10000 {
      Utf8ThreeDecodes(c, tail);
    } else {
      Utf8FourDecodes(c, tail);
    }
  }

  /** Decoding the UTF-8 encoding of a string gives the string back. */
  lemma {:induction false} Utf8RoundTrip(s: string)
    ensures Utf8Decode(Utf8(s)) == Some(s)
  {
    if s != [] {
      var b := Utf8(s);
      Utf8CharDecodes(s[0], Utf8(s[1..]));
      assert b[|Utf8Char(s[0])|..] == Utf8(s[1..]);
      Utf8RoundTrip(s[1..]);
      assert s == [s[0]] + s[1..];
    }
  }

  // ---------------------------------------------------------------------------
  // base64

  /** The base64 alphabet, table 1 of RFC 4648. */
  function Alphabet(i: Sextet): char {
    if i < 26 then ('A' as int + i) as char
    else if i < 52 then ('a' as int + (i - 26)) as char
    else if i < 62 then ('0' as int + (i - 52)) as char
    else if i == 62 then '+'
    else '/'
  }

  /** The position of `c` in the base64 alphabet. */
  function IndexOf(c: char): Option<Sextet> {
    if 'A' <= c <= 'Z' then Some(c as int - 'A' as int)
    else if 'a' <= c <= 'z' then Some(c as int - 'a' as int + 26)
    else if '0' <= c <= '9' then Some(c as int - '0' as int + 52)
    else if c == '+' then Some(62)
    else if c == '/' then Some(63)
    else None
  }

  lemma IndexOfAlphabet(i: Sextet)
    ensures IndexOf(Alphabet(i)) == Some(i)
    ensures Alphabet(i) != '='
  {
  }

  /** The characters a base64 text may hold. */
  predicate IsBase64Char(c: char) { IndexOf(c).Some? || c == '=' }

  /** One output group: the four sextets of `b0 b1 b2`, of which the `n` real bytes
      fill `n + 1` characters and `=` pads the rest. */
  function GroupChars(b0: Byte, b1: Byte, b2: Byte, n: int): (r: string)
    requires 1 <= n <= 3
    ensures |r| == 4
    ensures forall k :: 0 <= k < 4 ==> IsBase64Char(r[k])
  {
    var i0, i1, i2, i3 := b0 / 4, (b0 % 4) * 16 + b1 / 16, (b1 % 16) * 4 + b2 / 64, b2 % 64;
    IndexOfAlphabet(i0);
    IndexOfAlphabet(i1);
    IndexOfAlphabet(i2);
    IndexOfAlphabet(i3);
    [Alphabet(i0), Alphabet(i1), if n >= 2 then Alphabet(i2) else '=', if n == 3 then Alphabet(i3) else '=']
  }

  /** `base64.b64encode`: each group of three bytes becomes four characters, and a
      final group of one or two bytes is padded with `=`. */
  function Encode(b: seq<Byte>): (r: string)
    ensures |r| == 4 * ((|b| + 2) / 3)
    decreases |b|
  {
    if |b| == 0 then ""
    else if |b| == 1 then GroupChars(b[0], 0, 0, 1)
    else if |b| == 2 then GroupChars(b[0], b[1], 0, 2)
    else GroupChars(b[0], b[1], b[2], 3) + Encode(b[3..])
  }

  /** The encoding holds nothing but alphabet characters and padding. */
  lemma {:induction false} EncodeIsBase64(b: seq<Byte>)
    ensures forall k :: 0 <= k < |Encode(b)| ==> IsBase64Char(Encode(b)[k])
    decreases |b|
  {
    if |b| >= 3 {
      var g := GroupChars(b[0], b[1], b[2], 3);
      EncodeIsBase64(b[3..]);
      var rest := Encode(b[3..]);
      assert Encode(b) == g + rest;
      forall k | 0 <= k < |g + rest|
        ensures IsBase64Char((g + rest)[k])
      {
        if k >= 4 {
          assert (g + rest)[k] == rest[k - 4];
        }
      }
    }
  }

  /** Decodes one group of four characters; `last` allows padding. */
  function DecodeGroup(q: string, last: bool): Option<seq<Byte>>
    requires |q| == 4
  {
    match (IndexOf(q[0]), IndexOf(q[1]), IndexOf(q[2]), IndexOf(q[3]))
    case (Some(i0), Some(i1), Some(i2), Some(i3)) =>
      Some([Byte0(i0, i1), Byte1(i1, i2), Byte2(i2, i3)])
    case (Some(i0), Some(i1), Some(i2), None) =>
      if last && q[3] == '=' then Some([Byte0(i0, i1), Byte1(i1, i2)]) else None
    case (Some(i0), Some(i1), None, None) =>
      if last && q[2] == '=' && q[3] == '=' then Some([Byte0(i0, i1)]) else None
    case _ => None
  }

  /** The three bytes a group of four sextets carries. */
  function Byte0(i0: Sextet, i1: Sextet): Byte { i0 * 4 + i1 / 16 }
  function Byte1(i1: Sextet, i2: Sextet): Byte { (i1 % 16) * 16 + i2 / 4 }
  function Byte2(i2: Sextet, i3: Sextet): Byte { (i2 % 4) * 64 + i3 }

  /** The sextets `Encode` cuts three bytes into give the same bytes back. */
  lemma GroupArithmetic(b0: Byte, b1: Byte, b2: Byte)
    ensures Byte0(b0 / 4, (b0 % 4) * 16 + b1 / 16) == b0
    ensures Byte1((b0 % 4) * 16 + b1 / 16, (b1 % 16) * 4 + b2 / 64) == b1
    ensures Byte2((b1 % 16) * 4 + b2 / 64, b2 % 64) == b2
  {
  }

  /** `base64.b64decode` on well-formed input; `None` otherwise. */
  function Decode(s: string): Option<seq<Byte>>
    decreases |s|
  {
    if |s| == 0 then Some([])
    else if |s| < 4 then None
    else match DecodeGroup(s[..4], |s| == 4)
      case None => None
      case Some(g) =>
        match Decode(s[4..])
        case None => None
        case Some(rest) => Some(g + rest)
  }

  /** A group decodes to the bytes it was made of; padding is accepted only in the
      last group. */
  lemma GroupDecodes(b0: Byte, b1: Byte, b2: Byte, n: int, last: bool)
    requires 1 <= n <= 3 && (n < 3 ==> last)
    requires n < 2 ==> b1 == 0
    requires n < 3 ==> b2 == 0
    ensures DecodeGroup(GroupChars(b0, b1, b2, n), last) == Some([b0, b1, b2][..n])
  {
    var i0, i1, i2, i3 := b0 / 4, (b0 % 4) * 16 + b1 / 16, (b1 % 16) * 4 + b2 / 64, b2 % 64;
    IndexOfAlphabet(i0);
    IndexOfAlphabet(i1);
    IndexOfAlphabet(i2);
    IndexOfAlphabet(i3);
    GroupArithmetic(b0, b1, b2);
    var q := GroupChars(b0, b1, b2, n);
    assert q[0] == Alphabet(i0) && q[1] == Alphabet(i1);
    if n == 1 {
      assert q[2] == '=' && q[3] == '=';
      assert DecodeGroup(q, last) == Some([Byte0(i0, i1)]);
      assert [b0, b1, b2][..n] == [b0];
    } else if n == 2 {
      assert q[2] == Alphabet(i2) && q[3] == '=';
      assert DecodeGroup(q, last) == Some([Byte0(i0, i1), Byte1(i1, i2)]);
      assert [b0, b1, b2][..n] == [b0, b1];
    } else {
      assert q[2] == Alphabet(i2) && q[3] == Alphabet(i3);
      assert DecodeGroup(q, last) == Some([Byte0(i0, i1), Byte1(i1, i2), Byte2(i2, i3)]);
      assert [b0, b1, b2][..n] == [b0, b1, b2];
    }
  }

  /** `Decode` consumes one group and then decodes the rest. */
  lemma DecodeStep(s: string, g: seq<Byte>, rest: seq<Byte>)
    requires |s| >= 4
    requires DecodeGroup(s[..4], |s| == 4) == Some(g)
    requires Decode(s[4..]) == Some(rest)
    ensures Decode(s) == Some(g + rest)
  {
  }

  /** A text of three or more bytes encodes as its first group followed by the rest. */
  lemma EncodeSplit(b: seq<Byte>)
    requires |b| >= 3
    ensures Encode(b)[..4] == GroupChars(b[0], b[1], b[2], 3)
    ensures Encode(b)[4..] == Encode(b[3..])
  {
    var g := GroupChars(b[0], b[1], b[2], 3);
    assert Encode(b) == g + Encode(b[3..]);
  }

  /** A final group of one or two bytes decodes back to those bytes. */
  lemma ShortRoundTrip(b: seq<Byte>)
    requires |b| == 1 || |b| == 2
    ensures Decode(Encode(b)) == Some(b)
  {
    var e := Encode(b);
    var n := |b|;
    var b1: Byte := if n == 2 then b[1] else 0;
    GroupDecodes(b[0], b1, 0, n, true);
    assert e[..4] == e && e[4..] == [];
    DecodeStep(e, [b[0], b1, 0][..n], []);
    assert [b[0], b1, 0][..n] + [] == b;
  }

  /** Decoding the base64 encoding of any bytes gives the bytes back. */
  lemma {:induction false} Base64RoundTrip(b: seq<Byte>)
    ensures Decode(Encode(b)) == Some(b)
    decreases |b|
  {
    var e := Encode(b);
    if |b| == 1 || |b| == 2 {
      ShortRoundTrip(b);
    } else if |b| >= 3 {
      var head := b[..3];
      EncodeSplit(b);
      GroupDecodes(b[0], b[1], b[2], 3, |e| == 4);
      assert [b[0], b[1], b[2]][..3] == head;
      assert DecodeGroup(e[..4], |e| == 4) == Some(head);
      Base64RoundTrip(b[3..]);
      DecodeStep(e, head, b[3..]);
      assert head + b[3..] == b;
      assert Decode(Encode(b)) == Some(b);
    }
  }

  // ---------------------------------------------------------------------------
  // the header

  /** The `Proxy-Authorization` value for `user` and `password`. */
  function BasicAuth(user: string, password: string): string {
    "Basic " + Encode(Utf8(user + ":" + password))
  }

  /** The header is `Basic ` followed by base64 text that decodes to exactly
      `user:password`, so the proxy receives the credentials unaltered. */
  lemma BasicAuthRecoversCredentials(user: string, password: string)
    ensures Str.StartsWith(BasicAuth(user, password), "Basic ")
    ensures var token := BasicAuth(user, password)[6..];
            match Decode(token)
            case Some(bytes) => Utf8Decode(bytes) == Some(user + ":" + password)
            case None => false
  {
    var creds := user + ":" + password;
    var token := BasicAuth(user, password)[6..];
    assert token == Encode(Utf8(creds));
    Base64RoundTrip(Utf8(creds));
    Utf8RoundTrip(creds);
  }

  // ---------------------------------------------------------------------------
  // proxy credentials

  /** Where and how to reach one proxy: `ip` is `host:port` (or the raw entry), and the
      credentials are empty when the entry carries none. */
  datatype Creds = Creds(ip: string, user: string, password: string)

  const NoCreds: Creds := Creds("", "", "")

  /** The proxy pool: the stripped, non-empty entries of a JSON list, or nothing when the
      file was missing, unreadable or not a list. */
  function ProxyPool(loaded: Option<seq<string>>): (pool: seq<string>)
    ensures forall k :: 0 <= k < |pool| ==> pool[k] != "" && Str.Bare(pool[k])
  {
    match loaded
    case None => []
    case Some(items) => Str.Normalize(items)
  }

  /** A file that is not a JSON list gives an empty pool; a list gives its stripped,
      non-blank entries, each coming from one of its items, in the items' order. */
  lemma ProxyPoolEntries(loaded: Option<seq<string>>, x: string, a: seq<string>, b: seq<string>)
    ensures loaded.None? ==> ProxyPool(loaded) == []
    ensures loaded.Some? ==>
      (x in ProxyPool(loaded) <==> x != "" && exists k :: 0 <= k < |loaded.value| && Str.Strip(loaded.value[k]) == x)
    ensures ProxyPool(Some(a + b)) == ProxyPool(Some(a)) + ProxyPool(Some(b))
  {
    if loaded.Some? {
      Str.NormalizeMembers(loaded.value, x);
    }
    Str.NormalizeAppend(a, b);
  }

  predicate HasAuth(c: Creds) { c.user != "" && c.password != "" }

  const AuthHeader: string := "Proxy-Authorization"

  /** The `proxy` meta value for a pool entry. */
  function ProxyUrl(c: Creds): string { "http://" + c.ip }

  /** The headers with the proxy's Basic credentials when it has both a user and a
      password, and without any `Proxy-Authorization` otherwise. */
  function WithProxyAuth(headers: map<string, string>, c: Creds): map<string, string> {
    if HasAuth(c) then headers[AuthHeader := BasicAuth(c.user, c.password)]
    else headers - {AuthHeader}
  }

  /** Setting the credentials of a proxy forgets those of the proxy before. */
  lemma WithProxyAuthForgets(base: map<string, string>, prior: Option<string>, c: Creds)
    requires AuthHeader !in base
    ensures WithProxyAuth(match prior case Some(v) => base[AuthHeader := v] case None => base, c)
         == WithProxyAuth(base, c)
  {
    var before := match prior case Some(v) => base[AuthHeader := v] case None => base;
    if HasAuth(c) {
      assert before[AuthHeader := BasicAuth(c.user, c.password)] == base[AuthHeader := BasicAuth(c.user, c.password)];
    } else {
      assert before - {AuthHeader} == base;
    }
  }

  /** The header is there exactly when the proxy has both credentials; it then decodes
      to `user:password`, and no other header changes. */
  lemma ProxyAuthAttached(headers: map<string, string>, c: Creds)
    ensures var h := WithProxyAuth(headers, c);
      && (AuthHeader in h <==> HasAuth(c))
      && (forall k :: k != AuthHeader ==> (k in h <==> k in headers))
      && (forall k :: k != AuthHeader && k in h ==> h[k] == headers[k])
    ensures HasAuth(c) ==>
      var token := WithProxyAuth(headers, c)[AuthHeader][6..];
      match Decode(token)
      case Some(bytes) => Utf8Decode(bytes) == Some(c.user + ":" + c.password)
      case None => false
  {
    if HasAuth(c) {
      BasicAuthRecoversCredentials(c.user, c.password);
    }
  }

}
