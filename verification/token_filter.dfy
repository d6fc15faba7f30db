/**
 * The request filter that turns an `access_token` request parameter into an
 * authentication: the project id it reads from the request URI, and the
 * decision it takes from the existing authentication, the token and the URI.
 */
module TokenFilter {
  import opened Wrappers
  import Text
  import opened AccessTokens

  const HASH_MARKER: string := "/#/project/"
  const API_PREFIX: string := "/api/project/"

  /** What `extractProjectIdFromUri` ends with: a project id, null, or the
      ArrayIndexOutOfBoundsException of indexing an empty split (it is no
      NumberFormatException, so it leaves the method). */
  datatype Extraction = Found(id: int) | NotFound | Thrown

  /** `Long.parseLong` of a segment; a NumberFormatException becomes null. */
  function ParseSegment(segment: string): (r: Extraction)
    ensures !r.Thrown?
    ensures r.Found? <==> Text.ParseLong(segment).Some?
  {
    match Text.ParseLong(segment)
    case Some(n) => Found(n)
    case None => NotFound
  }

  /** The hash form applies: the URI holds the marker and something non-empty
      follows its first occurrence before the next one. */
  predicate HashFormApplies(uri: string) {
    Text.Contains(uri, HASH_MARKER) && |Text.JavaSplit(uri, HASH_MARKER)| > 1
  }

  /** `extractProjectIdFromUri`: the hash form first, taking the first
      "/"-segment after the marker; otherwise the API form, taking the first
      segment after the prefix. A non-numeric segment ends the method with
      null in either form, and the API form is not tried after a hash form
      that failed to parse. */
  function ExtractProjectId(uri: string): (r: Extraction)
    ensures r.Thrown? ==> HashFormApplies(uri)
    ensures r.Found? ==> HashFormApplies(uri) || Text.StartsWith(uri, API_PREFIX)
    ensures !Text.Contains(uri, HASH_MARKER) && !Text.StartsWith(uri, API_PREFIX) ==> r == NotFound
  {
    if HashFormApplies(uri) then
      var segments := Text.JavaSplit(Text.JavaSplit(uri, HASH_MARKER)[1], "/");
      if |segments| == 0 then Thrown else ParseSegment(segments[0])
    else if Text.StartsWith(uri, API_PREFIX) then
      var segments := Text.JavaSplit(uri[|API_PREFIX|..], "/");
      if |segments| > 0 then ParseSegment(segments[0]) else NotFound
    else NotFound
  }

  // ---------------------------------------------------------------- URI shapes

  /** The marker does not begin anywhere in the first `n` characters of `s`. */
  predicate NoMarkerBefore(s: string, n: int) {
    forall j :: 0 <= j < n ==> !Text.OccursAt(s, HASH_MARKER, j)
  }

  /** A rendered number holds no '/'. */
  lemma NoSlashInNumber(n: int)
    ensures '/' !in Text.IntToString(n)
  {
    var s := Text.IntToString(n);
    Text.IntToStringIsSignedDigits(n);
    if n < 0 {
      assert forall i :: 1 <= i < |s| ==> s[i] == s[1..][i - 1];
    }
  }

  /** Java's `split("/")[0]` of a number followed by nothing or by a '/' is the
      number's text. */
  lemma FirstSegmentOfNumber(n: int, rest: string)
    requires rest == [] || rest[0] == '/'
    ensures var segments := Text.JavaSplit(Text.IntToString(n) + rest, "/");
      |segments| > 0 && segments[0] == Text.IntToString(n)
  {
    var digits := Text.IntToString(n);
    NoSlashInNumber(n);
    if rest == [] {
      assert digits + rest == digits;
      Text.IndexOfCharAbsent(digits, '/');
    } else {
      assert digits + rest == digits + ['/'] + rest[1..];
      Text.IndexOfCharAfter(digits, '/', rest[1..]);
      var raw := Text.RawSplit(digits + rest, "/");
      assert raw[0] == digits;
      var segments := Text.JavaSplit(digits + rest, "/");
      assert raw[0] != "";
    }
  }

  /** In a string of the given shape the first occurrence of the marker is the
      one after `prefix`. */
  lemma MarkerFoundAfter(prefix: string, after: string)
    requires NoMarkerBefore(prefix + HASH_MARKER + after, |prefix|)
    ensures Text.IndexOf(prefix + HASH_MARKER + after, HASH_MARKER) == |prefix|
  {
    var uri := prefix + HASH_MARKER + after;
    assert uri[|prefix|..|prefix| + |HASH_MARKER|] == HASH_MARKER;
    assert Text.OccursAt(uri, HASH_MARKER, |prefix|);
  }

  /** The first piece of a number followed by nothing or a '/' and split on the
      marker is that number followed by nothing or a '/'. */
  lemma FirstPieceAfterMarker(n: int, rest: string)
    requires rest == [] || rest[0] == '/'
    ensures var piece := Text.RawSplit(Text.IntToString(n) + rest, HASH_MARKER)[0];
      exists tail: string :: piece == Text.IntToString(n) + tail && (tail == [] || tail[0] == '/')
  {
    var digits := Text.IntToString(n);
    var after := digits + rest;
    var i := Text.IndexOf(after, HASH_MARKER);
    NoSlashInNumber(n);
    if i < 0 {
      assert Text.RawSplit(after, HASH_MARKER)[0] == digits + rest;
    } else {
      assert Text.OccursAt(after, HASH_MARKER, i);
      assert after[i] == after[i..i + |HASH_MARKER|][0] == HASH_MARKER[0] == '/';
      assert forall j :: 0 <= j < |digits| ==> after[j] == digits[j] && after[j] != '/';
      assert i >= |digits|;
      var tail := after[|digits|..i];
      assert after[..i] == digits + tail;
      assert tail == [] || tail[0] == '/' by {
        if tail != [] {
          assert tail[0] == rest[0];
        }
      }
    }
  }

  /** A URI with the marker followed by a number yields that number, whatever
      precedes the marker and whatever follows a '/' after the number: the
      project page of the web client. */
  lemma HashFormYieldsProject(prefix: string, n: int, rest: string)
    requires Text.LONG_MIN <= n <= Text.LONG_MAX
    requires rest == [] || rest[0] == '/'
    requires NoMarkerBefore(prefix + HASH_MARKER + Text.IntToString(n) + rest, |prefix|)
    ensures ExtractProjectId(prefix + HASH_MARKER + Text.IntToString(n) + rest) == Found(n)
  {
    var digits := Text.IntToString(n);
    var after := digits + rest;
    var uri := prefix + HASH_MARKER + digits + rest;
    assert uri == prefix + HASH_MARKER + after;
    MarkerFoundAfter(prefix, after);
    assert uri[..|prefix|] == prefix;
    assert uri[|prefix| + |HASH_MARKER|..] == after;
    var raw := Text.RawSplit(uri, HASH_MARKER);
    assert raw == [prefix] + Text.RawSplit(after, HASH_MARKER);
    FirstPieceAfterMarker(n, rest);
    var piece := Text.RawSplit(after, HASH_MARKER)[0];
    var tail: string :| piece == digits + tail && (tail == [] || tail[0] == '/');
    assert raw[1] == piece;
    var parts := Text.JavaSplit(uri, HASH_MARKER);
    assert piece != "";
    assert |parts| > 1 && parts[1] == piece;
    FirstSegmentOfNumber(n, tail);
    Text.ParseSignedIntToString(n, Text.LONG_MIN, Text.LONG_MAX);
  }

  /** A URI of the REST API under a project yields the project's id, unless the
      marker appears somewhere in it. */
  lemma ApiFormYieldsProject(n: int, rest: string)
    requires Text.LONG_MIN <= n <= Text.LONG_MAX
    requires rest == [] || rest[0] == '/'
    requires !Text.Contains(API_PREFIX + Text.IntToString(n) + rest, HASH_MARKER)
    ensures ExtractProjectId(API_PREFIX + Text.IntToString(n) + rest) == Found(n)
  {
    var uri := API_PREFIX + Text.IntToString(n) + rest;
    assert uri[..|API_PREFIX|] == API_PREFIX;
    assert uri[|API_PREFIX|..] == Text.IntToString(n) + rest;
    FirstSegmentOfNumber(n, rest);
    Text.ParseSignedIntToString(n, Text.LONG_MIN, Text.LONG_MAX);
  }

  /** A marker followed only by a '/' splits into an empty array and throws. */
  lemma EmptySegmentAfterMarkerThrows(prefix: string)
    requires NoMarkerBefore(prefix + HASH_MARKER + "/", |prefix|)
    ensures ExtractProjectId(prefix + HASH_MARKER + "/") == Thrown
  {
    var uri := prefix + HASH_MARKER + "/";
    MarkerFoundAfter(prefix, "/");
    assert uri[|prefix| + |HASH_MARKER|..] == "/";
    assert Text.IndexOf("/", HASH_MARKER) == -1;
    assert Text.RawSplit("/", HASH_MARKER) == ["/"];
    assert uri[..|prefix|] == prefix;
    var raw := Text.RawSplit(uri, HASH_MARKER);
    assert raw == [prefix, "/"];
    var parts := Text.JavaSplit(uri, HASH_MARKER);
    assert |parts| > 1 && parts[1] == "/";
    assert Text.IndexOf("/", "/") == 0;
    assert Text.RawSplit("/", "/") == ["", ""] by {
      assert "/"[1..] == "";
      assert Text.IndexOf("", "/") == -1;
    }
  }

  // ---------------------------------------------------------------- decision

  /** The principal an authentication carries: the user and their roles. */
  datatype Principal = Principal(username: string, roles: seq<string>)

  /** `doFilterInternal`: the authentication in the security context once the
      filter has run; the chain is continued on every path. An authentication
      already present is kept; without a non-empty `access_token` nothing is
      set; otherwise the token is checked against the project the URI names,
      or on its own when the URI names none, and its owner is looked up in
      `users` (a missing user throws). Every exception on the way leaves the
      context empty. */
  function Filter(existing: Option<Principal>, accessToken: Option<string>, uri: string,
                  store: TokenStore, users: map<string, seq<string>>, now: int): (r: Option<Principal>)
    ensures existing.Some? ==> r == existing
    ensures existing.None? && (accessToken.None? || accessToken == Some("")) ==> r.None?
    ensures r.Some? && existing.None? ==> (accessToken.Some? && accessToken.value in store
      && r.value.username == store[accessToken.value].username
      && r.value.username in users && r.value.roles == users[r.value.username])
  {
    if existing.Some? then existing
    else if accessToken.None? || accessToken.value == "" then None
    else
      var key := accessToken.value;
      match ExtractProjectId(uri)
      case Thrown => None
      case Found(projectId) =>
        var token := FindByKeyAndProject(store, key, projectId);
        if token.Some? && IsValidFor(store, key, Some(projectId), now) then Authenticate(token.value, users)
        else None
      case NotFound =>
        var token := FindByKey(store, key);
        if token.Some? && IsValid(store, key, now) then Authenticate(token.value, users)
        else None
  }

  /** `getCurrentUser(username)` and the authentication built from it. */
  function Authenticate(token: AccessToken, users: map<string, seq<string>>): (r: Option<Principal>)
    ensures r.Some? <==> token.username in users
    ensures r.Some? ==> r.value == Principal(token.username, users[token.username])
  {
    if token.username in users then Some(Principal(token.username, users[token.username])) else None
  }

  /** With no authentication yet and a non-empty token, the filter authenticates
      exactly when the token is live (for the URI's project when the URI names
      one) and its owner exists. */
  lemma FilterAuthenticatesIff(accessToken: string, uri: string, store: TokenStore,
                               users: map<string, seq<string>>, now: int)
    requires accessToken != ""
    ensures Filter(None, Some(accessToken), uri, store, users, now).Some? <==>
      (match ExtractProjectId(uri)
       case Thrown => false
       case Found(p) => IsValidFor(store, accessToken, Some(p), now)
       case NotFound => IsValid(store, accessToken, now))
      && accessToken in store && store[accessToken].username in users
  {
  }

  /** A token bound to one project never authenticates a request whose URI
      names another project. */
  lemma NoCrossProjectAccess(accessToken: string, uri: string, store: TokenStore,
                             users: map<string, seq<string>>, now: int)
    requires accessToken in store
    requires ExtractProjectId(uri).Found? && ExtractProjectId(uri).id != store[accessToken].projectId
    ensures Filter(None, Some(accessToken), uri, store, users, now).None?
  {
  }

  /** A URI that names no project lets any live token through, whatever project
      it is bound to; a URI whose project segment splits into nothing lets no
      token through. */
  lemma UnboundUriAcceptsAnyLiveToken(accessToken: string, uri: string, store: TokenStore,
                                      users: map<string, seq<string>>, now: int)
    requires accessToken != "" && accessToken in store && store[accessToken].username in users
    requires IsValid(store, accessToken, now)
    ensures ExtractProjectId(uri) == NotFound ==> Filter(None, Some(accessToken), uri, store, users, now).Some?
    ensures ExtractProjectId(uri) == Thrown ==> Filter(None, Some(accessToken), uri, store, users, now).None?
  {
  }
}
