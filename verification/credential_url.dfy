/**
 * `_create_credential_url`: put an Overleaf token into the user-info part of
 * a git URL. The token is percent-encoded with `quote(token, safe='')`
 * (UTF-8, then every byte outside the unreserved set of section 2.3 of
 * RFC 3986 written as `%XX`), the host is what follows the first '@' of the
 * original authority, the URL is reassembled as `urlunparse` does, and a
 * trailing `.git` is dropped. `urlparse` itself is library code: its six
 * components are the input.
 */
module CredentialUrl {
  import opened Text

  type Byte = x: int | 0 <= x < 256

  /** The six components `urlparse` returns. */
  datatype UrlParts = UrlParts(scheme: string, netloc: string, path: string, params: string, query: string, fragment: string)

  /** An HTTP error raised by the builder, or the URL it returns. */
  datatype Result = Ok(url: string) | HttpError(code: nat, detail: string)

  /** The UTF-8 encoding of one character (Dafny's `char` is a Unicode scalar value). */
  function Utf8(c: char): (r: seq<Byte>)
    ensures 1 <= |r| <= 4
  {
    var n := c as int;
    if n < 0x80 then [n]
    else if n < 0x800 then [0xC0 + n / 64, 0x80 + n % 64]
    else if n < 0x10000 then [0xE0 + n / 4096, 0x80 + (n / 64) % 64, 0x80 + n % 64]
    else [0xF0 + n / 262144, 0x80 + (n / 4096) % 64, 0x80 + (n / 64) % 64, 0x80 + n % 64]
  }

  /** `s.encode('utf-8')`. */
  function Utf8Encode(s: string): seq<Byte>
  {
    if s == [] then [] else Utf8(s[0]) + Utf8Encode(s[1..])
  }

  /** A continuation byte `10xxxxxx`. */
  predicate IsContinuation(b: Byte)
  {
    0x80 <= b < 0xC0
  }

  /** A code point that is a Unicode scalar value. */
  predicate IsScalar(n: int)
  {
    0 <= n < 0xD800 || 0xE000 <= n < 0x110000
  }

  /**
   * The character the leading bytes of `bs` encode and how many bytes it
   * takes, or None when they are not a UTF-8 sequence of a scalar value.
   */
  function Utf8DecodeOne(bs: seq<Byte>): (r: Option<(char, nat)>)
    requires bs != []
    ensures r.Some? ==> 1 <= r.value.1 <= |bs|
  {
    var b0 := bs[0] as int;
    if b0 < 0x80 then Some((b0 as char, 1))
    else if 0xC0 <= b0 < 0xE0 && |bs| >= 2 && IsContinuation(bs[1]) then
      var n := (b0 - 0xC0) * 64 + (bs[1] as int - 0x80);
      if IsScalar(n) then Some((n as char, 2)) else None
    else if 0xE0 <= b0 < 0xF0 && |bs| >= 3 && IsContinuation(bs[1]) && IsContinuation(bs[2]) then
      var n := (b0 - 0xE0) * 4096 + (bs[1] as int - 0x80) * 64 + (bs[2] as int - 0x80);
      if IsScalar(n) then Some((n as char, 3)) else None
    else if 0xF0 <= b0 < 0xF8 && |bs| >= 4 && IsContinuation(bs[1]) && IsContinuation(bs[2]) && IsContinuation(bs[3]) then
      var n := (b0 - 0xF0) * 262144 + (bs[1] as int - 0x80) * 4096 + (bs[2] as int - 0x80) * 64 + (bs[3] as int - 0x80);
      if IsScalar(n) then Some((n as char, 4)) else None
    else None
  }

  /** `bs.decode('utf-8')`, or None for bytes that are not UTF-8. */
  function Utf8Decode(bs: seq<Byte>): Option<string>
    decreases |bs|
  {
    if bs == [] then Some([])
    else
      match Utf8DecodeOne(bs)
      case None => None
      case Some((c, k)) =>
        match Utf8Decode(bs[k..])
        case None => None
        case Some(rest) => Some([c] + rest)
  }

  /** The bytes of one character decode back to it, whatever follows. */
  lemma Utf8DecodeOneOfChar(c: char, rest: seq<Byte>)
    ensures Utf8DecodeOne(Utf8(c) + rest) == Some((c, |Utf8(c)|))
  {
    var n := c as int;
    var bs := Utf8(c) + rest;
    if n < 0x80 {
    } else if n < 0x800 {
      assert bs[0] == 0xC0 + n / 64 && bs[1] == 0x80 + n % 64;
      DecodeTwo(c, bs);
    } else if n < 0x10000 {
      assert bs[0] == 0xE0 + n / 4096 && bs[1] == 0x80 + (n / 64) % 64 && bs[2] == 0x80 + n % 64;
      DecodeThree(c, bs);
    } else {
      assert bs[0] == 0xF0 + n / 262144 && bs[1] == 0x80 + (n / 4096) % 64;
      assert bs[2] == 0x80 + (n / 64) % 64 && bs[3] == 0x80 + n % 64;
      DecodeFour(c, bs);
    }
  }

  lemma DecodeTwo(c: char, bs: seq<Byte>)
    requires 0x80 <= c as int < 0x800 && |bs| >= 2
    requires bs[0] as int == 0xC0 + (c as int) / 64 && bs[1] as int == 0x80 + (c as int) % 64
    ensures Utf8DecodeOne(bs) == Some((c, 2))
  {
  }

  lemma DecodeThree(c: char, bs: seq<Byte>)
    requires 0x800 <= c as int < 0x10000 && |bs| >= 3
    requires var n := c as int;
             bs[0] as int == 0xE0 + n / 4096 && bs[1] as int == 0x80 + (n / 64) % 64 && bs[2] as int == 0x80 + n % 64
    ensures Utf8DecodeOne(bs) == Some((c, 3))
  {
    SplitThree(c as int);
  }

  lemma DecodeFour(c: char, bs: seq<Byte>)
    requires 0x10000 <= c as int && |bs| >= 4
    requires var n := c as int;
             bs[0] as int == 0xF0 + n / 262144 && bs[1] as int == 0x80 + (n / 4096) % 64
             && bs[2] as int == 0x80 + (n / 64) % 64 && bs[3] as int == 0x80 + n % 64
    ensures Utf8DecodeOne(bs) == Some((c, 4))
  {
    SplitThree(c as int);
    SplitFour(c as int);
  }

  /** A number below 2^16 in three base-64 digits. */
  lemma SplitThree(n: nat)
    ensures n == (n / 4096) * 4096 + ((n / 64) % 64) * 64 + n % 64
    ensures n / 4096 == (n / 64) / 64
  {
    var a := n / 64;
    assert n == a * 64 + n % 64;
    assert a == (a / 64) * 64 + a % 64;
    assert n == (a / 64) * 4096 + (a % 64) * 64 + n % 64;
  }

  /** A number in four base-64 digits. */
  lemma SplitFour(n: nat)
    ensures n == (n / 262144) * 262144 + ((n / 4096) % 64) * 4096 + ((n / 64) % 64) * 64 + n % 64
  {
    var b := n / 4096;
    SplitThree(n);
    assert b == (b / 64) * 64 + b % 64;
    assert n / 262144 == b / 64;
  }

  /** Decoding the UTF-8 encoding of a string gives the string back. */
  lemma {:induction false} Utf8RoundTrip(s: string)
    ensures Utf8Decode(Utf8Encode(s)) == Some(s)
    decreases |s|
  {
    if s != [] {
      var head := Utf8(s[0]);
      var tail := Utf8Encode(s[1..]);
      Utf8DecodeOneOfChar(s[0], tail);
      assert (head + tail)[|head|..] == tail;
      Utf8RoundTrip(s[1..]);
      assert s == [s[0]] + s[1..];
    }
  }

  /** Bytes `quote` never escapes: ASCII letters, digits and `_.-~` (section 2.3 of RFC 3986). */
  predicate IsUnreserved(b: Byte)
  {
    ('A' as int <= b <= 'Z' as int) || ('a' as int <= b <= 'z' as int) || ('0' as int <= b <= '9' as int)
    || b == '_' as int || b == '.' as int || b == '-' as int || b == '~' as int
  }

  function HexDigit(d: nat): char
    requires d < 16
  {
    "0123456789ABCDEF"[d]
  }

  /** One byte as `quote` writes it: itself if unreserved, else `%XX` with upper-case hex digits. */
  function QuoteByte(b: Byte): (r: string)
  {
    if IsUnreserved(b) then [b as char] else ['%', HexDigit(b / 16), HexDigit(b % 16)]
  }

  function QuoteBytes(bs: seq<Byte>): string
  {
    if bs == [] then [] else QuoteByte(bs[0]) + QuoteBytes(bs[1..])
  }

  /** `quote(token, safe='')`. */
  function Quote(token: string): string
  {
    QuoteBytes(Utf8Encode(token))
  }

  /** The value of a hex digit in either case, or None. */
  function HexValue(c: char): Option<nat>
  {
    if '0' <= c <= '9' then Some(c as int - '0' as int)
    else if 'A' <= c <= 'F' then Some(c as int - 'A' as int + 10)
    else if 'a' <= c <= 'f' then Some(c as int - 'a' as int + 10)
    else None
  }

  /**
   * Percent-decoding of text made only of unreserved characters and `%XX`
   * triplets (section 2.1 of RFC 3986); anything else gives None.
   */
  function PercentDecode(s: string): Option<seq<Byte>>
    decreases |s|
  {
    if s == [] then Some([])
    else if s[0] == '%' && |s| >= 3 && HexValue(s[1]).Some? && HexValue(s[2]).Some? then
      match PercentDecode(s[3..])
      case None => None
      case Some(rest) => Some([HexValue(s[1]).value * 16 + HexValue(s[2]).value] + rest)
    else if (s[0] as int) < 256 && IsUnreserved(s[0] as int) then
      match PercentDecode(s[1..])
      case None => None
      case Some(rest) => Some([s[0] as int] + rest)
    else None
  }

  /** The hex digits `quote` writes read back as the byte. */
  lemma HexDigitValue(d: nat)
    requires d < 16
    ensures HexValue(HexDigit(d)) == Some(d)
  {
  }

  /**
   * The quoted bytes consist of unreserved characters and `%XX` triplets only,
   * and percent-decode back to the bytes.
   */
  lemma {:induction false} DecodeQuoteBytes(bs: seq<Byte>)
    ensures PercentDecode(QuoteBytes(bs)) == Some(bs)
    decreases |bs|
  {
    if bs != [] {
      var b := bs[0];
      var head := QuoteByte(b);
      var tail := QuoteBytes(bs[1..]);
      var s := head + tail;
      DecodeQuoteBytes(bs[1..]);
      DecodeQuoteByte(b, tail);
      assert bs == [b] + bs[1..];
    }
  }

  /** One quoted byte in front of text reads back as that byte in front of the text's bytes. */
  lemma DecodeQuoteByte(b: Byte, tail: string)
    ensures PercentDecode(QuoteByte(b) + tail) ==
            if PercentDecode(tail).Some? then Some([b] + PercentDecode(tail).value) else None
  {
    if IsUnreserved(b) {
      DecodeKeptByte(b, tail);
    } else {
      DecodeEscapedByte(b, tail);
    }
  }

  lemma DecodeKeptByte(b: Byte, tail: string)
    requires IsUnreserved(b)
    ensures PercentDecode([b as char] + tail) ==
            if PercentDecode(tail).Some? then Some([b] + PercentDecode(tail).value) else None
  {
    var s := [b as char] + tail;
    assert s[0] == b as char && s[1..] == tail;
  }

  lemma DecodeEscapedByte(b: Byte, tail: string)
    ensures PercentDecode(['%', HexDigit(b / 16), HexDigit(b % 16)] + tail) ==
            if PercentDecode(tail).Some? then Some([b] + PercentDecode(tail).value) else None
  {
    var s := ['%', HexDigit(b / 16), HexDigit(b % 16)] + tail;
    HexDigitValue(b / 16);
    HexDigitValue(b % 16);
    assert s[0] == '%' && s[1] == HexDigit(b / 16) && s[2] == HexDigit(b % 16) && s[3..] == tail;
  }

  /** `unquote(quote(token)) == token`: the encoded token reads back as the token. */
  lemma UnquoteQuote(token: string)
    ensures PercentDecode(Quote(token)) == Some(Utf8Encode(token))
    ensures Utf8Decode(PercentDecode(Quote(token)).value) == Some(token)
  {
    DecodeQuoteBytes(Utf8Encode(token));
    Utf8RoundTrip(token);
  }

  /** `netloc.split('@', 1)[-1]` when the netloc has an '@', else the netloc. */
  function HostPart(netloc: string): (r: string)
  {
    var k := FindChar(netloc, '@');
    if k < 0 then netloc else netloc[k + 1..]
  }

  /** The host is the whole netloc without '@', and otherwise what follows a first '@'. */
  lemma HostPartSpec(netloc: string)
    ensures '@' !in netloc ==> HostPart(netloc) == netloc
    ensures '@' in netloc ==> exists user :: '@' !in user && netloc == user + "@" + HostPart(netloc)
  {
    var k := FindChar(netloc, '@');
    if '@' in netloc {
      var i :| 0 <= i < |netloc| && netloc[i] == '@';
      assert k >= 0;
      var user := netloc[..k];
      assert netloc == user + "@" + netloc[k + 1..];
      assert forall j :: 0 <= j < |user| ==> user[j] == netloc[j];
    }
  }

  /**
   * `urlunparse` for a URL with a scheme and a netloc: `;params` is added to
   * the path, a path not starting with '/' gets one, then
   * `scheme://netloc path ?query #fragment`, empty parts left out.
   */
  function Unparse(scheme: string, netloc: string, path: string, params: string, query: string, fragment: string): string
    requires scheme != [] && netloc != []
  {
    WithQueryFragment(scheme + ":" + "//" + netloc + PathWithParams(path, params), query, fragment)
  }

  /** The path with `;params` added and a leading '/' when it is not empty. */
  function PathWithParams(path: string, params: string): string
  {
    var url := if params != [] then path + ";" + params else path;
    if url != [] && url[0] != '/' then "/" + url else url
  }

  /** `?query` and `#fragment` added when not empty. */
  function WithQueryFragment(url: string, query: string, fragment: string): string
  {
    var url := if query != [] then url + "?" + query else url;
    if fragment != [] then url + "#" + fragment else url
  }

  /** `_create_credential_url` for the parsed URL and the token. */
  function CreateCredentialUrl(parts: UrlParts, token: string): Result
  {
    if token == [] then HttpError(400, "Overleaf token cannot be empty.")
    else if parts.scheme == [] || parts.netloc == [] then HttpError(400, "Invalid Git URL format provided.")
    else
      var netloc := "git:" + Quote(token) + "@" + HostPart(parts.netloc);
      var url := Unparse(parts.scheme, netloc, parts.path, parts.params, parts.query, parts.fragment);
      if EndsWith(url, ".git") then Ok(url[..|url| - 4]) else Ok(url)
  }

  /** The builder refuses with 400 exactly when the token is empty or the URL lacks a scheme or a netloc. */
  lemma CredentialUrlErrors(parts: UrlParts, token: string)
    ensures CreateCredentialUrl(parts, token).HttpError? <==> token == [] || parts.scheme == [] || parts.netloc == []
    ensures CreateCredentialUrl(parts, token).HttpError? ==> CreateCredentialUrl(parts, token).code == 400
  {
  }

  /**
   * On success the URL starts with the original scheme, then `//git:`, the
   * encoded token and '@', then the host; it is the reassembled URL with at
   * most one trailing `.git` removed.
   */
  lemma CredentialUrlShape(parts: UrlParts, token: string)
    requires token != [] && parts.scheme != [] && parts.netloc != []
    ensures var full := Unparse(parts.scheme, "git:" + Quote(token) + "@" + HostPart(parts.netloc),
                                parts.path, parts.params, parts.query, parts.fragment);
            var r := CreateCredentialUrl(parts, token);
            r.Ok? && (r.url == full || (EndsWith(full, ".git") && r.url + ".git" == full))
    ensures StartsWith(CreateCredentialUrl(parts, token).url, parts.scheme + "://git:" + Quote(token) + "@")
  {
    var netloc := "git:" + Quote(token) + "@" + HostPart(parts.netloc);
    var full := Unparse(parts.scheme, netloc, parts.path, parts.params, parts.query, parts.fragment);
    var head := parts.scheme + "://git:" + Quote(token) + "@";
    var rest := UnparseTail(HostPart(parts.netloc), parts.path, parts.params, parts.query, parts.fragment);
    UnparseSplits(parts.scheme, Quote(token), HostPart(parts.netloc), parts.path, parts.params, parts.query, parts.fragment);
    assert full == head + rest;
    if |rest| < 4 {
      ShortTailNoGit(head, rest);
    }
    if EndsWith(full, ".git") {
      assert full[..|full| - 4] + ".git" == full;
      assert full[..|full| - 4][..|head|] == head;
    }
  }

  /** A text whose '@' sits among its last four characters does not end in `.git`. */
  lemma ShortTailNoGit(head: string, rest: string)
    requires head != [] && head[|head| - 1] == '@' && |rest| < 4
    ensures !EndsWith(head + rest, ".git")
  {
    var full := head + rest;
    assert full[|head| - 1] == '@';
  }

  /** What follows `git:<token>@` in the reassembled URL. */
  function UnparseTail(host: string, path: string, params: string, query: string, fragment: string): string
  {
    WithQueryFragment(host + PathWithParams(path, params), query, fragment)
  }

  lemma UnparseSplits(scheme: string, enc: string, host: string, path: string, params: string, query: string, fragment: string)
    requires scheme != []
    ensures Unparse(scheme, "git:" + enc + "@" + host, path, params, query, fragment)
            == scheme + "://git:" + enc + "@" + UnparseTail(host, path, params, query, fragment)
  {
    var p := PathWithParams(path, params);
    var head := scheme + "://git:" + enc + "@";
    assert scheme + ":" + "//" + ("git:" + enc + "@" + host) + p == head + (host + p);
    QueryFragmentAfter(head, host + p, query, fragment);
  }

  lemma QueryFragmentAfter(a: string, b: string, query: string, fragment: string)
    ensures WithQueryFragment(a + b, query, fragment) == a + WithQueryFragment(b, query, fragment)
  {
    if query != [] {
      assert a + b + "?" + query == a + (b + "?" + query);
    }
    var u := if query != [] then b + "?" + query else b;
    if fragment != [] {
      assert a + u + "#" + fragment == a + (u + "#" + fragment);
    }
  }
}
