/**
 * The PIMS side of Cytomine's request signing: the `CYTOMINE <public key>:
 * <signature>` authorization header is split into its key and signature, and
 * the message a client signs is rebuilt from the request's method and headers.
 *
 * Headers are a sequence of name/value pairs looked up without regard to the
 * case of the name, the first match winning. The HMAC-SHA1 signing of the
 * message is not part of this model.
 */
module CytomineAuth {
  import opened Wrappers
  import Text

  /** `lreplace`: `prefix` replaced by `replacement` when `s` starts with it, once. */
  function LReplace(s: string, prefix: string, replacement: string): (r: string)
    ensures Text.StartsWith(s, prefix) ==> exists t :: s == prefix + t && r == replacement + t
    ensures !Text.StartsWith(s, prefix) ==> r == s
  {
    if Text.StartsWith(s, prefix) then
      assert s == prefix + s[|prefix|..];
      replacement + s[|prefix|..]
    else s
  }

  /** Only the leading occurrence is replaced: what follows the prefix is
      kept even when it starts with `prefix` again. */
  lemma LReplaceOnce(prefix: string, replacement: string, t: string)
    ensures LReplace(prefix + t, prefix, replacement) == replacement + t
    ensures LReplace(prefix + prefix + t, prefix, replacement) == replacement + prefix + t
  {
    assert (prefix + t)[..|prefix|] == prefix && (prefix + t)[|prefix|..] == t;
    assert (prefix + prefix + t)[..|prefix|] == prefix && (prefix + prefix + t)[|prefix|..] == prefix + t;
  }

  type Headers = seq<(string, string)>

  /** `headers.get(name)`: the value of the first header whose name equals
      `name` ignoring case. */
  function HeaderGet(headers: Headers, name: string): (r: Option<string>)
    ensures r.Some? ==> exists i :: (0 <= i < |headers| && Text.ToLower(headers[i].0) == Text.ToLower(name)
      && headers[i].1 == r.value && forall j :: 0 <= j < i ==> Text.ToLower(headers[j].0) != Text.ToLower(name))
    ensures r.None? <==> forall i :: 0 <= i < |headers| ==> Text.ToLower(headers[i].0) != Text.ToLower(name)
  {
    if headers == [] then None
    else if Text.ToLower(headers[0].0) == Text.ToLower(name) then Some(headers[0].1)
    else
      assert forall i :: 1 <= i < |headers| ==> headers[i] == headers[1..][i - 1];
      var r := HeaderGet(headers[1..], name);
      assert r.Some? ==> exists i :: (1 <= i < |headers| && Text.ToLower(headers[i].0) == Text.ToLower(name)
        && headers[i].1 == r.value && forall j :: 0 <= j < i ==> Text.ToLower(headers[j].0) != Text.ToLower(name)) by {
        if r.Some? {
          var k :| 0 <= k < |headers[1..]| && Text.ToLower(headers[1..][k].0) == Text.ToLower(name)
            && headers[1..][k].1 == r.value
            && forall j :: 0 <= j < k ==> Text.ToLower(headers[1..][j].0) != Text.ToLower(name);
          assert forall j :: 1 <= j < k + 1 ==> headers[j] == headers[1..][j - 1];
        }
      }
      r
  }

  /** Python's `s[a:b]` for `0 <= a <= |s|` and `b >= 0`: empty when `b <= a`. */
  function Slice(s: string, a: int, b: int): (r: string)
    requires 0 <= a <= |s| && 0 <= b
    ensures |r| == (if b <= a then 0 else (if b < |s| then b else |s|) - a)
  {
    if b <= a then "" else s[a..if b < |s| then b else |s|]
  }

  const SCHEME: string := "CYTOMINE"

  /** `parse_authorization_header`: the header must be present, start with
      CYTOMINE and contain a space and a colon, else authentication fails
      (None). The public key lies between the first space and the first
      colon, and is empty when that colon comes first; the signature is
      everything after the first colon. */
  function ParseAuthorizationHeader(headers: Headers): (r: Option<(string, string)>)
    ensures r.Some? <==> (HeaderGet(headers, "authorization").Some?
      && Text.StartsWith(HeaderGet(headers, "authorization").value, SCHEME)
      && Text.Contains(HeaderGet(headers, "authorization").value, " ")
      && Text.Contains(HeaderGet(headers, "authorization").value, ":"))
    ensures r.Some? ==> (var auth := HeaderGet(headers, "authorization").value;
      var space := Text.IndexOf(auth, " ");
      var colon := Text.IndexOf(auth, ":");
      r.value.1 == auth[colon + 1..]
      && (colon <= space ==> r.value.0 == "")
      && (space < colon ==> r.value.0 == auth[space + 1..colon]))
  {
    match HeaderGet(headers, "authorization")
    case None => None
    case Some(auth) =>
      if !Text.StartsWith(auth, SCHEME) || !Text.Contains(auth, " ") || !Text.Contains(auth, ":") then None
      else
        var space := Text.IndexOf(auth, " ");
        var colon := Text.IndexOf(auth, ":");
        Some((Slice(auth, space + 1, colon), auth[colon + 1..]))
  }

  /** The header a client builds is parsed back into its key and signature,
      for any key free of spaces and colons. */
  lemma {:induction false} AuthorizationRoundTrip(key: string, signature: string)
    requires ' ' !in key && ':' !in key
    ensures ParseAuthorizationHeader([("Authorization", SCHEME + " " + key + ":" + signature)])
      == Some((key, signature))
  {
    var auth := SCHEME + " " + key + ":" + signature;
    var headers := [("Authorization", auth)];
    assert Text.ToLower("Authorization") == Text.ToLower("authorization");
    assert HeaderGet(headers, "authorization") == Some(auth);
    assert auth[..|SCHEME|] == SCHEME;
    assert auth == SCHEME + [' '] + (key + ":" + signature);
    Text.IndexOfCharAfter(SCHEME, ' ', key + ":" + signature);
    assert auth == (SCHEME + " " + key) + [':'] + signature;
    assert ':' !in SCHEME + " " + key by {
      assert forall i :: 0 <= i < |SCHEME + " " + key| ==>
        (SCHEME + " " + key)[i] == (if i < |SCHEME| + 1 then (SCHEME + " ")[i] else key[i - |SCHEME| - 1]);
    }
    Text.IndexOfCharAfter(SCHEME + " " + key, ':', signature);
    assert auth[|SCHEME| + 1..|SCHEME| + 1 + |key|] == key;
    assert auth[|SCHEME| + 1 + |key| + 1..] == signature;
  }

  /** A colon before the first space leaves the public key empty. */
  lemma ColonBeforeSpaceGivesEmptyKey(signature: string)
    requires ' ' !in signature
    ensures ParseAuthorizationHeader([("authorization", SCHEME + ":" + " " + signature)]) == Some(("", " " + signature))
  {
    var auth := SCHEME + ":" + " " + signature;
    assert HeaderGet([("authorization", auth)], "authorization") == Some(auth);
    assert auth[..|SCHEME|] == SCHEME;
    assert auth == SCHEME + [':'] + (" " + signature);
    Text.IndexOfCharAfter(SCHEME, ':', " " + signature);
    assert auth == (SCHEME + ":") + [' '] + signature;
    assert ' ' !in SCHEME + ":" by {
      assert forall i :: 0 <= i < |SCHEME + ":"| ==> (SCHEME + ":")[i] != ' ';
    }
    Text.IndexOfCharAfter(SCHEME + ":", ' ', signature);
    assert auth[|SCHEME| + 1..] == " " + signature;
  }

  // ---------------------------------------------------------------- the message

  /** The content type the message carries: "content-type-full", else
      "Content-Type", else "content-type", else empty; "null" counts as
      empty. */
  function ContentType(headers: Headers): (r: string)
    ensures HeaderGet(headers, "content-type-full").Some? && HeaderGet(headers, "content-type-full").value != "null"
      ==> r == HeaderGet(headers, "content-type-full").value
    ensures r != "null"
  {
    var ct := HeaderGet(headers, "content-type-full").GetOr(
      HeaderGet(headers, "Content-Type").GetOr(HeaderGet(headers, "content-type").GetOr("")));
    if ct == "null" then "" else ct
  }

  /** Header names are matched ignoring case, so the "Content-Type" lookup
      already finds whatever the "content-type" fallback would. */
  lemma ContentTypeFallbackRedundant(headers: Headers)
    ensures HeaderGet(headers, "Content-Type") == HeaderGet(headers, "content-type")
  {
    assert Text.ToLower("Content-Type") == Text.ToLower("content-type");
  }

  /** The date the message carries: "date", else "dateFull", else empty. */
  function Date(headers: Headers): (r: string)
    ensures HeaderGet(headers, "date").Some? ==> r == HeaderGet(headers, "date").value
    ensures HeaderGet(headers, "date").None? && HeaderGet(headers, "dateFull").Some? ==>
      r == HeaderGet(headers, "dateFull").value
    ensures HeaderGet(headers, "date").None? && HeaderGet(headers, "dateFull").None? ==> r == ""
  {
    HeaderGet(headers, "date").GetOr(HeaderGet(headers, "dateFull").GetOr(""))
  }

  /** `parse_request_token`: the HTTP method, content MD5, content type and date, one
      per line. The URL's query and path are computed but take no part. */
  function RequestToken(verb: string, headers: Headers): (r: string)
    ensures var md5 := HeaderGet(headers, "content-MD5").GetOr("");
      r == verb + "\n" + md5 + "\n" + ContentType(headers) + "\n" + Date(headers)
  {
    var md5 := HeaderGet(headers, "content-MD5").GetOr("");
    verb + "\n" + md5 + "\n" + ContentType(headers) + "\n" + Date(headers)
  }

  /** Splitting on a newline peels off a first field free of newlines. */
  lemma SplitFirstLine(a: string, rest: string)
    requires '\n' !in a
    ensures Text.RawSplit(a + "\n" + rest, "\n") == [a] + Text.RawSplit(rest, "\n")
  {
    var s := a + "\n" + rest;
    assert s == a + ['\n'] + rest;
    Text.IndexOfCharAfter(a, '\n', rest);
    assert s[..|a|] == a;
    assert s[|a| + 1..] == rest;
  }

  /** A field without a newline splits back into itself. */
  lemma OneLine(d: string)
    requires '\n' !in d
    ensures Text.RawSplit(d, "\n") == [d]
  {
    Text.IndexOfCharAbsent(d, '\n');
  }

  lemma JoinRight(a: string, b: string, c: string, d: string, nl: string)
    ensures a + nl + b + nl + c + nl + d == a + nl + (b + nl + (c + nl + d))
  {
  }

  lemma {:induction false} ThreeLines(b: string, c: string, d: string)
    requires '\n' !in b && '\n' !in c && '\n' !in d
    ensures Text.RawSplit(b + "\n" + (c + "\n" + d), "\n") == [b, c, d]
  {
    OneLine(d);
    SplitFirstLine(c, d);
    SplitFirstLine(b, c + "\n" + d);
  }

  /** Four newline-free fields joined by newlines split back into themselves. */
  lemma {:induction false} FourLines(a: string, b: string, c: string, d: string)
    requires '\n' !in a && '\n' !in b && '\n' !in c && '\n' !in d
    ensures Text.RawSplit(a + "\n" + b + "\n" + c + "\n" + d, "\n") == [a, b, c, d]
  {
    JoinRight(a, b, c, d, "\n");
    ThreeLines(b, c, d);
    SplitFirstLine(a, b + "\n" + (c + "\n" + d));
  }

  /** The signed message is read back line by line into the four fields it
      was built from, when none of them holds a newline. */
  lemma RequestTokenFields(verb: string, headers: Headers)
    requires '\n' !in verb
    requires '\n' !in HeaderGet(headers, "content-MD5").GetOr("")
    requires '\n' !in ContentType(headers) && '\n' !in Date(headers)
    ensures Text.RawSplit(RequestToken(verb, headers), "\n")
      == [verb, HeaderGet(headers, "content-MD5").GetOr(""), ContentType(headers), Date(headers)]
  {
    FourLines(verb, HeaderGet(headers, "content-MD5").GetOr(""), ContentType(headers), Date(headers));
  }
}
