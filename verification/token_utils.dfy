/**
 * `appendShortTermToken`: adding a short-term bearer token to a URL as an
 * `Authorization` query parameter, with the `encodeURI` it relies on when
 * the URL already has a query.
 */
module TokenUtils {
  import opened Wrappers
  import Text

  /** The characters `encodeURI` leaves alone: ASCII letters and digits,
      the marks `-_.!~*'()`, the reserved `;,/?:@&=+$` and `#`. */
  predicate UriUnescaped(c: char) {
    ('a' <= c <= 'z') || ('A' <= c <= 'Z') || ('0' <= c <= '9')
    || c == '-' || c == '_' || c == '.' || c == '!' || c == '~' || c == '*' || c == '\'' || c == '(' || c == ')'
    || c == ';' || c == ',' || c == '/' || c == '?' || c == ':' || c == '@' || c == '&' || c == '=' || c == '+'
    || c == '$' || c == '#'
  }

  /** The UTF-8 bytes of a Unicode scalar value. */
  function Utf8Bytes(c: char): (r: seq<int>)
    ensures 1 <= |r| <= 4
    ensures forall i :: 0 <= i < |r| ==> 0 <= r[i] < 256
    ensures (c as int) < 0x80 ==> r == [c as int]
  {
    var n := c as int;
    if n < 0x80 then [n]
    else if n < 0x800 then [0xC0 + n / 64, 0x80 + n % 64]
    else if n < 0x1_0000 then [0xE0 + n / 4096, 0x80 + (n / 64) % 64, 0x80 + n % 64]
    else [0xF0 + n / 262144, 0x80 + (n / 4096) % 64, 0x80 + (n / 64) % 64, 0x80 + n % 64]
  }

  function Utf8(s: string): seq<int> {
    if s == [] then [] else Utf8Bytes(s[0]) + Utf8(s[1..])
  }

  /** A character `encodeURI` may write: an unescaped one, or part of an
      escape. */
  predicate UriSafe(c: char) {
    UriUnescaped(c) || c == '%' || IsHex(c)
  }

  function HexDigit(d: int): (c: char)
    requires 0 <= d < 16
  {
    if d < 10 then ('0' as int + d) as char else ('A' as int + d - 10) as char
  }

  predicate IsHex(c: char) {
    ('0' <= c <= '9') || ('A' <= c <= 'F') || ('a' <= c <= 'f')
  }

  function HexValue(c: char): (d: int)
    requires IsHex(c)
    ensures 0 <= d < 16
  {
    if '0' <= c <= '9' then c as int - '0' as int
    else if 'A' <= c <= 'F' then c as int - 'A' as int + 10
    else c as int - 'a' as int + 10
  }

  /** "%XY" for each byte, upper-case hex as `encodeURI` writes it. */
  function Escape(bytes: seq<int>): (r: string)
    requires forall i :: 0 <= i < |bytes| ==> 0 <= bytes[i] < 256
    ensures |r| == 3 * |bytes|
  {
    if bytes == [] then []
    else ['%', HexDigit(bytes[0] / 16), HexDigit(bytes[0] % 16)] + Escape(bytes[1..])
  }

  /** One character as `encodeURI` writes it. */
  function EncodeChar(c: char): (r: string)
    ensures |r| >= 1
    ensures forall i :: 0 <= i < |r| ==> UriSafe(r[i])
  {
    EscapeChars(Utf8Bytes(c));
    if UriUnescaped(c) then [c] else Escape(Utf8Bytes(c))
  }

  /** `encodeURI` on a string of scalar values. */
  function EncodeUri(s: string): (r: string)
    ensures |r| >= |s|
    ensures forall i :: 0 <= i < |r| ==> UriSafe(r[i])
  {
    if s == [] then [] else EncodeChar(s[0]) + EncodeUri(s[1..])
  }

  lemma {:induction false} EscapeChars(bytes: seq<int>)
    requires forall i :: 0 <= i < |bytes| ==> 0 <= bytes[i] < 256
    ensures forall i :: 0 <= i < |Escape(bytes)| ==> Escape(bytes)[i] == '%' || IsHex(Escape(bytes)[i])
  {
    if bytes != [] {
      EscapeChars(bytes[1..]);
    }
  }

  /** Percent-decoding to bytes: "%XY" is the byte XY, any other character
      stands for its own code. */
  function PercentDecode(s: string): seq<int> {
    if s == [] then []
    else if |s| >= 3 && s[0] == '%' && IsHex(s[1]) && IsHex(s[2]) then
      [HexValue(s[1]) * 16 + HexValue(s[2])] + PercentDecode(s[3..])
    else [s[0] as int] + PercentDecode(s[1..])
  }

  lemma {:induction false} DecodeEscape(bytes: seq<int>, rest: string)
    requires forall i :: 0 <= i < |bytes| ==> 0 <= bytes[i] < 256
    ensures PercentDecode(Escape(bytes) + rest) == bytes + PercentDecode(rest)
  {
    if bytes != [] {
      var b := bytes[0];
      var e := Escape(bytes) + rest;
      assert e[3..] == Escape(bytes[1..]) + rest;
      assert e[0] == '%' && e[1] == HexDigit(b / 16) && e[2] == HexDigit(b % 16);
      HexRoundTrip(b / 16);
      HexRoundTrip(b % 16);
      assert HexValue(e[1]) * 16 + HexValue(e[2]) == b;
      assert PercentDecode(e) == [b] + PercentDecode(e[3..]);
      DecodeEscape(bytes[1..], rest);
      assert bytes == [b] + bytes[1..];
    } else {
      assert Escape(bytes) + rest == rest;
    }
  }

  lemma HexRoundTrip(d: int)
    requires 0 <= d < 16
    ensures IsHex(HexDigit(d)) && HexValue(HexDigit(d)) == d
  {
  }

  /** `encodeURI` works character by character. */
  lemma {:induction false} EncodeUriConcat(a: string, b: string)
    ensures EncodeUri(a + b) == EncodeUri(a) + EncodeUri(b)
  {
    if a != [] {
      var ab := a + b;
      assert ab[0] == a[0];
      assert ab[1..] == a[1..] + b;
      EncodeUriConcat(a[1..], b);
      assert EncodeUri(ab) == EncodeChar(ab[0]) + EncodeUri(ab[1..]);
      assert EncodeUri(a) == EncodeChar(a[0]) + EncodeUri(a[1..]);
    } else {
      assert a + b == b;
    }
  }

  /** Decoding what `encodeURI` wrote gives back the UTF-8 bytes of the
      input: the encoding loses nothing. */
  lemma {:induction false} EncodeUriDecodes(s: string)
    ensures PercentDecode(EncodeUri(s)) == Utf8(s)
  {
    if s != [] {
      EncodeUriDecodes(s[1..]);
      var c := s[0];
      if UriUnescaped(c) {
        assert c != '%';
      } else {
        DecodeEscape(Utf8Bytes(c), EncodeUri(s[1..]));
      }
    }
  }

  /** A string of unescaped characters comes out of `encodeURI` unchanged. */
  lemma {:induction false} EncodeUriKeepsUnescaped(s: string)
    requires forall i :: 0 <= i < |s| ==> UriUnescaped(s[i])
    ensures EncodeUri(s) == s
  {
    if s != [] {
      EncodeUriKeepsUnescaped(s[1..]);
    }
  }

  /** `url.indexOf('?') === -1` exactly when the URL has no '?'. */
  lemma HasQuery(u: string)
    ensures Text.IndexOf(u, "?") == -1 <==> '?' !in u
  {
    if '?' in u {
      var j :| 0 <= j < |u| && u[j] == '?';
      assert Text.OccursAt(u, "?", j);
    } else {
      Text.IndexOfCharAbsent(u, '?');
    }
  }

  /** `appendShortTermToken`: a missing URL or token gives the URL back;
      otherwise the token goes into a new query, or into the existing one
      with `encodeURI` applied. None stands for null. */
  function AppendShortTermToken(url: Option<string>, token: Option<string>): (r: Option<string>)
    ensures url.None? || token.None? ==> r == url
    ensures r.Some? ==> url.Some? && Text.StartsWith(r.value, url.value)
    ensures url.Some? && token.Some? && '?' !in url.value ==>
      r == Some(url.value + "?Authorization=Bearer " + token.value)
    ensures url.Some? && token.Some? && '?' in url.value ==>
      r == Some(url.value + "&Authorization=" + EncodeUri("Bearer " + token.value))
  {
    match (url, token)
    case (Some(u), Some(t)) =>
      HasQuery(u);
      var r := if Text.IndexOf(u, "?") == -1 then u + "?Authorization=Bearer " + t
               else u + "&Authorization=" + EncodeUri("Bearer " + t);
      assert r[..|u|] == u;
      Some(r)
    case _ => url
  }

  /** A space becomes "%20". */
  lemma SpaceEncoded()
    ensures EncodeChar(' ') == "%20"
  {
    assert !UriUnescaped(' ');
    assert Utf8Bytes(' ') == [32];
    assert HexDigit(2) == '2' && HexDigit(0) == '0';
    assert Escape([32]) == ['%', '2', '0'] + Escape([]);
  }

  lemma SpaceAlone()
    ensures EncodeUri(" ") == "%20"
  {
    SpaceEncoded();
    assert EncodeUri(" ") == EncodeChar(' ') + EncodeUri(" "[1..]);
  }

  /** A word and a token of unescaped characters around a space: only the
      space is escaped. */
  lemma {:induction false} WordSpaceToken(w: string, token: string)
    requires forall i :: 0 <= i < |w| ==> UriUnescaped(w[i])
    requires forall i :: 0 <= i < |token| ==> UriUnescaped(token[i])
    ensures EncodeUri(w + " " + token) == w + "%20" + token
  {
    EncodeUriConcat(w + " ", token);
    EncodeUriConcat(w, " ");
    EncodeUriKeepsUnescaped(w);
    EncodeUriKeepsUnescaped(token);
    SpaceAlone();
  }

  lemma {:induction false} BearerToken(token: string)
    requires forall i :: 0 <= i < |token| ==> UriUnescaped(token[i])
    ensures EncodeUri("Bearer " + token) == "Bearer%20" + token
  {
    var w := "Bearer";
    assert UriUnescaped(w[0]) && UriUnescaped(w[1]) && UriUnescaped(w[2]);
    assert UriUnescaped(w[3]) && UriUnescaped(w[4]) && UriUnescaped(w[5]);
    WordSpaceToken(w, token);
    assert w + " " + token == "Bearer " + token;
    assert w + "%20" + token == "Bearer%20" + token;
  }

  /** With a query already present, a token of unescaped characters is
      added after "Bearer%20": only the space is escaped. */
  lemma AppendToQuery(url: string, token: string)
    requires '?' in url
    requires forall i :: 0 <= i < |token| ==> UriUnescaped(token[i])
    ensures AppendShortTermToken(Some(url), Some(token)) == Some(url + "&Authorization=Bearer%20" + token)
  {
    BearerToken(token);
    var e := EncodeUri("Bearer " + token);
    assert AppendShortTermToken(Some(url), Some(token)) == Some(url + "&Authorization=" + e);
    assert url + "&Authorization=" + e == url + "&Authorization=Bearer%20" + token;
  }
}
