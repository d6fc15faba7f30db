/**
 * Temporary access tokens: a random key bound to one project and one user,
 * valid until an expiry instant, and the two validity checks the token filter
 * relies on. Instants are milliseconds since the epoch; the clock and the random
 * key are parameters.
 */
module AccessTokens {
  import opened Wrappers
  import Text

  const MILLIS_PER_HOUR: int := 3_600_000

  /** The lifetime of a token created from JSON without "expirationHours". */
  const DEFAULT_HOURS: int := 24

  /** The largest number of hours whose `hours * 60 * 60` fits a Java `int`. */
  const MAX_EXACT_HOURS: int := 596_523

  /** A stored token: its key, the username of its owner, the project it is bound
      to (never null in the table) and its expiry instant. */
  datatype AccessToken = AccessToken(tokenKey: string, username: string, projectId: int, expiry: int)

  /** The token table, looked up by key; the keys are random UUIDs. */
  type TokenStore = map<string, AccessToken>

  // ---------------------------------------------------------------- expiry

  /** The expiry as written: `hours * 60 * 60` is evaluated in `int`, wrapping
      at each product, before the `* 1000L` widens it to `long`. */
  function ExpiryAsWritten(now: int, hours: int): (r: int)
    requires Text.INT_MIN <= hours <= Text.INT_MAX
    ensures -MAX_EXACT_HOURS <= hours <= MAX_EXACT_HOURS ==> r == now + hours * MILLIS_PER_HOUR
    ensures now + Text.INT_MIN * 1000 <= r <= now + Text.INT_MAX * 1000
  {
    var minutes := Text.Int32(hours * 60);
    var seconds := Text.Int32(minutes * 60);
    ExactProducts(hours);
    now + seconds * 1000
  }

  /** Within the exact range neither product wraps. */
  lemma ExactProducts(hours: int)
    requires Text.INT_MIN <= hours <= Text.INT_MAX
    ensures -MAX_EXACT_HOURS <= hours <= MAX_EXACT_HOURS ==>
      Text.Int32(Text.Int32(hours * 60) * 60) == hours * 3600
  {
    if -MAX_EXACT_HOURS <= hours <= MAX_EXACT_HOURS {
      assert -MAX_EXACT_HOURS * 60 <= hours * 60 <= MAX_EXACT_HOURS * 60;
      assert Text.Int32(hours * 60) == hours * 60;
      assert -MAX_EXACT_HOURS * 3600 <= hours * 60 * 60 <= MAX_EXACT_HOURS * 3600;
    }
  }

  /** The expiry evidently intended: `hours` whole hours after `now`, computed
      without wrapping. */
  function Expiry(now: int, hours: int): (r: int)
    ensures r - now == hours * MILLIS_PER_HOUR
    ensures r >= now <==> hours >= 0
  {
    now + hours * MILLIS_PER_HOUR
  }

  /** The two agree as long as `hours * 3600` fits an `int`. */
  lemma ExpiriesAgreeWhenExact(now: int, hours: int)
    requires -MAX_EXACT_HOURS <= hours <= MAX_EXACT_HOURS
    ensures ExpiryAsWritten(now, hours) == Expiry(now, hours)
  {
  }

  /** One hour past the exact range the product wraps to a negative number of
      seconds: the token expires about 24.8 days before it is created. */
  lemma ExpiryWrapsPastExactRange(now: int)
    ensures ExpiryAsWritten(now, MAX_EXACT_HOURS + 1) == now - 2_147_480_896_000
    ensures ExpiryAsWritten(now, MAX_EXACT_HOURS + 1) < now < Expiry(now, MAX_EXACT_HOURS + 1)
  {
    assert (MAX_EXACT_HOURS + 1) * 60 == 35_791_440;
    assert Text.Int32(35_791_440) == 35_791_440;
    assert 35_791_440 * 60 == 2_147_486_400;
    assert Text.Int32(2_147_486_400) == -2_147_480_896;
  }

  // ---------------------------------------------------------------- creation

  /** `createToken(projectId, hours)`: a token with the fresh `key`, owned by the
      current user, bound to the project, stored under its key. */
  function CreateToken(store: TokenStore, key: string, username: string, projectId: int, hours: int, now: int): (r: (AccessToken, TokenStore))
    ensures r.0 == AccessToken(key, username, projectId, Expiry(now, hours))
    ensures r.1 == store[key := r.0]
  {
    var token := AccessToken(key, username, projectId, Expiry(now, hours));
    (token, store[key := token])
  }

  /** `createToken(projectId, hours)` with the expiry as written. */
  function CreateTokenAsWritten(store: TokenStore, key: string, username: string, projectId: int, hours: int, now: int): (r: (AccessToken, TokenStore))
    requires Text.INT_MIN <= hours <= Text.INT_MAX
    ensures r.0 == AccessToken(key, username, projectId, ExpiryAsWritten(now, hours))
    ensures r.1 == store[key := r.0]
  {
    var token := AccessToken(key, username, projectId, ExpiryAsWritten(now, hours));
    (token, store[key := token])
  }

  /** `createToken(json)`: "expirationHours" when the JSON has it, 24 otherwise;
      the project is the JSON's "projectId". Built on the corrected
      `CreateToken`, without the 32-bit wrap of the lifetime. */
  function CreateTokenFromJson(store: TokenStore, key: string, username: string, projectId: int,
                               expirationHours: Option<int>, now: int): (r: (AccessToken, TokenStore))
    ensures expirationHours.None? ==> r.0.expiry == now + DEFAULT_HOURS * MILLIS_PER_HOUR
    ensures expirationHours.Some? ==> r == CreateToken(store, key, username, projectId, expirationHours.value, now)
  {
    CreateToken(store, key, username, projectId, expirationHours.GetOr(DEFAULT_HOURS), now)
  }

  // ---------------------------------------------------------------- validity

  /** `findByTokenKey`. */
  function FindByKey(store: TokenStore, key: string): (r: Option<AccessToken>)
    ensures r.Some? <==> key in store
    ensures r.Some? ==> r.value == store[key]
  {
    if key in store then Some(store[key]) else None
  }

  /** `findByTokenKeyAndProjectId`: the token only when it is bound to `projectId`. */
  function FindByKeyAndProject(store: TokenStore, key: string, projectId: int): (r: Option<AccessToken>)
    ensures r.Some? <==> key in store && store[key].projectId == projectId
    ensures r.Some? ==> r.value == store[key]
  {
    match FindByKey(store, key)
    case None => None
    case Some(t) => if t.projectId == projectId then Some(t) else None
  }

  /** `Date.before`: strictly earlier. */
  predicate Before(instant: int, other: int) {
    instant < other
  }

  /** `isValidToken(key, projectId)`: false for a null project, for a key with no
      token bound to that project, and for an expiry strictly before `now`;
      otherwise the stored project is compared with the requested one. */
  function IsValidFor(store: TokenStore, key: string, projectId: Option<int>, now: int): (r: bool)
    ensures r <==> (projectId.Some? && key in store && store[key].projectId == projectId.value
      && now <= store[key].expiry)
  {
    if projectId.None? then false
    else
      match FindByKeyAndProject(store, key, projectId.value)
      case None => false
      case Some(token) =>
        if Before(token.expiry, now) then false
        else token.projectId == projectId.value
  }

  /** `isValidToken(key)`: the token exists and its expiry is not before `now`,
      whatever project it is bound to. */
  function IsValid(store: TokenStore, key: string, now: int): (r: bool)
    ensures r <==> key in store && now <= store[key].expiry
  {
    match FindByKey(store, key)
    case None => false
    case Some(token) => !Before(token.expiry, now)
  }

  /** A token valid for a project is valid without one; the converse holds for
      the project the token is bound to. */
  lemma ScopedValidityRefinesValidity(store: TokenStore, key: string, now: int)
    ensures forall p :: IsValidFor(store, key, Some(p), now) ==> IsValid(store, key, now)
    ensures IsValid(store, key, now) ==> IsValidFor(store, key, Some(store[key].projectId), now)
  {
  }

  /** A token is still valid at the very instant of its expiry, and no longer one
      millisecond later. */
  lemma ValidAtExpiryInstant(store: TokenStore, key: string)
    requires key in store
    ensures IsValid(store, key, store[key].expiry)
    ensures IsValidFor(store, key, Some(store[key].projectId), store[key].expiry)
    ensures !IsValid(store, key, store[key].expiry + 1)
  {
  }

  /** A freshly created token with a non-negative lifetime is valid for its
      project from its creation until `hours` hours later, for no other
      project, and for nothing after that. */
  lemma CreatedTokenLifetime(store: TokenStore, key: string, username: string, projectId: int,
                             hours: int, now: int, later: int)
    requires hours >= 0
    ensures var (_, s) := CreateToken(store, key, username, projectId, hours, now);
      && (now <= later <= now + hours * MILLIS_PER_HOUR ==> IsValidFor(s, key, Some(projectId), later))
      && (later > now + hours * MILLIS_PER_HOUR ==> !IsValid(s, key, later))
      && (forall q :: q != projectId ==> !IsValidFor(s, key, Some(q), later))
  {
  }

  /** As written, a token asked for one hour past the exact range is already
      expired when it is created; the intended token is valid then. */
  lemma WrappedTokenBornExpired(store: TokenStore, key: string, username: string, projectId: int, now: int)
    ensures !IsValid(CreateTokenAsWritten(store, key, username, projectId, MAX_EXACT_HOURS + 1, now).1, key, now)
    ensures IsValidFor(CreateToken(store, key, username, projectId, MAX_EXACT_HOURS + 1, now).1, key, Some(projectId), now)
  {
    ExpiryWrapsPastExactRange(now);
  }
}
