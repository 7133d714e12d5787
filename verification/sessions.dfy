/**
 * The backend's in-memory session store: a map from session token to the
 * signed-in user, filled at login, checked by the session-validation and
 * data-refresh endpoints, and emptied by logout. Time and fresh tokens are
 * parameters; times are whole seconds.
 */
module Sessions {
  import opened Basics
  import Text

  /** What the store remembers about a signed-in user. */
  datatype Session = Session(email: string, userId: int, createdAt: int, expiresAt: int)

  /** The session store, keyed by token. */
  type Store = map<string, Session>

  /** How long a session lasts: 24 hours, in seconds. */
  const SessionSeconds: int := 24 * 60 * 60

  /** The ways an authenticated request is refused; every one is an HTTP 401. */
  datatype AuthError = NoToken | InvalidSession | SessionExpired

  /** The HTTP status of a refusal. */
  function StatusCode(e: AuthError): int {
    401
  }

  /** The detail message of a refusal. */
  function Detail(e: AuthError): string {
    match e
    case NoToken => "No se proporcionó token de autorización"
    case InvalidSession => "Sesión inválida o expirada"
    case SessionExpired => "Sesión expirada"
  }

  const BearerPrefix := "Bearer "

  /**
   * The token carried by an `Authorization` header. A header starting with
   * "Bearer " has EVERY occurrence of "Bearer " removed (Python's
   * `str.replace`), not just the leading one; any other header is the token
   * itself.
   */
  function ExtractToken(header: string): (token: string)
    ensures !Text.StartsWith(header, BearerPrefix) ==> token == header
    ensures Text.StartsWith(header, BearerPrefix) ==> |token| <= |header| - |BearerPrefix|
  {
    if Text.StartsWith(header, BearerPrefix) then
      ReplaceShrinks(header[|BearerPrefix|..]);
      assert header == BearerPrefix + header[|BearerPrefix|..];
      Text.ReplaceAllLeading(header[|BearerPrefix|..], BearerPrefix, "");
      Text.ReplaceAll(header, BearerPrefix, "")
    else header
  }

  /** Removing occurrences never lengthens a string. */
  lemma {:induction false} ReplaceShrinks(s: string)
    ensures |Text.ReplaceAll(s, BearerPrefix, "")| <= |s|
    decreases |s|
  {
    if |s| >= |BearerPrefix| {
      if s[..|BearerPrefix|] == BearerPrefix {
        ReplaceShrinks(s[|BearerPrefix|..]);
      } else {
        ReplaceShrinks(s[1..]);
      }
    }
  }

  /** The characters `secrets.token_urlsafe` draws from: letters, digits, '-' and '_'. */
  predicate UrlSafe(t: string) {
    forall i :: 0 <= i < |t| ==> ('a' <= t[i] <= 'z' || 'A' <= t[i] <= 'Z' || '0' <= t[i] <= '9' || t[i] == '-' || t[i] == '_')
  }

  /** A URL-safe token has no space, so it cannot contain "Bearer ". */
  lemma UrlSafeHasNoBearer(t: string)
    requires UrlSafe(t)
    ensures !Text.Contains(t, BearerPrefix)
  {
    forall i | 0 <= i <= |t|
      ensures !Text.OccursAt(t, BearerPrefix, i)
    {
      if i <= |t| - |BearerPrefix| {
        assert t[i..i + |BearerPrefix|][6] == t[i + 6];
      }
    }
  }

  /**
   * For every "Bearer " header the token is the remainder after the prefix
   * with every further "Bearer " removed, left to right.
   */
  lemma BearerRemainderStripped(t: string)
    ensures ExtractToken(BearerPrefix + t) == Text.ReplaceAll(t, BearerPrefix, "")
  {
    assert (BearerPrefix + t)[..|BearerPrefix|] == BearerPrefix;
    Text.ReplaceAllLeading(t, BearerPrefix, "");
  }

  /**
   * A client that sends "Bearer " followed by a token with no "Bearer " in
   * it (every URL-safe token, by UrlSafeHasNoBearer) is read back as that token.
   */
  lemma BearerRoundTrip(t: string)
    requires !Text.Contains(t, BearerPrefix)
    ensures ExtractToken(BearerPrefix + t) == t
  {
    BearerRemainderStripped(t);
    Text.ReplaceAllAbsent(t, BearerPrefix, "");
  }

  /** The removal is global: "Bearer aBearer b" yields "ab", where a prefix strip would give "aBearer b". */
  lemma EveryOccurrenceRemoved()
    ensures ExtractToken("Bearer aBearer b") == "ab"
  {
    var h := "Bearer aBearer b";
    assert h[..7] == BearerPrefix;
    assert h[7..] == "aBearer b";
    var s := "aBearer b";
    assert s[..7][0] != BearerPrefix[0];
    assert s[1..] == "Bearer b";
    assert s[1..][..7] == BearerPrefix;
    assert s[1..][7..] == "b";
    assert Text.ReplaceAll("b", BearerPrefix, "") == "b";
  }

  /** A header that does not start with "Bearer " is used verbatim, even if it contains it later. */
  lemma OtherHeadersVerbatim()
    ensures ExtractToken("Token Bearer x") == "Token Bearer x"
  {
    assert "Token Bearer x"[..7][0] != BearerPrefix[0];
  }

  /** Python truthiness of an optional header: absent and empty are falsy. */
  predicate Present(header: Option<string>) {
    header.Some? && header.value != ""
  }

  /**
   * The check shared by session validation and data refresh: a missing
   * header, an unknown token, or an expired session is refused; an expired
   * session is also forgotten. Expiry is strict: a session is still good at
   * its expiry instant.
   */
  function Authenticate(store: Store, header: Option<string>, now: int): (r: (Result<Session, AuthError>, Store))
    ensures r.0.Ok? <==> Present(header) && ExtractToken(header.value) in store
                          && now <= store[ExtractToken(header.value)].expiresAt
    ensures r.0.Ok? ==> r.0.value == store[ExtractToken(header.value)] && r.1 == store
    ensures r.0 == Err(NoToken) <==> !Present(header)
    ensures r.0 == Err(SessionExpired) ==> r.1 == store - {ExtractToken(header.value)}
                                           && ExtractToken(header.value) in store
    ensures r.0 != Err(SessionExpired) ==> r.1 == store
    ensures r.1.Keys <= store.Keys
  {
    if !Present(header) then (Err(NoToken), store)
    else
      var token := ExtractToken(header.value);
      if token !in store then (Err(InvalidSession), store)
      else if now > store[token].expiresAt then (Err(SessionExpired), store - {token})
      else (Ok(store[token]), store)
  }

  /** The session-validation endpoint: the signed-in user's email and id. */
  function ValidateSession(store: Store, header: Option<string>, now: int): (r: (Result<(string, int), AuthError>, Store))
    ensures r.1 == Authenticate(store, header, now).1
    ensures r.0.Ok? <==> Authenticate(store, header, now).0.Ok?
    ensures r.0.Ok? ==> r.0.value == (Authenticate(store, header, now).0.value.email, Authenticate(store, header, now).0.value.userId)
    ensures r.0.Err? ==> r.0.error == Authenticate(store, header, now).0.error
  {
    var (res, store') := Authenticate(store, header, now);
    match res
    case Ok(s) => (Ok((s.email, s.userId)), store')
    case Err(e) => (Err(e), store')
  }

  /** The data-refresh endpoint up to the database query: the user whose controllers to load. */
  function RefreshUser(store: Store, header: Option<string>, now: int): (r: (Result<int, AuthError>, Store))
    ensures r.1 == Authenticate(store, header, now).1
    ensures r.0.Ok? <==> ValidateSession(store, header, now).0.Ok?
    ensures r.0.Ok? ==> r.0.value == ValidateSession(store, header, now).0.value.1
  {
    var (res, store') := Authenticate(store, header, now);
    match res
    case Ok(s) => (Ok(s.userId), store')
    case Err(e) => (Err(e), store')
  }

  /** The two messages logout can report; both come with success. */
  datatype LogoutMessage = NoActiveSession | SessionClosed

  /** Logout: always succeeds, forgetting the presented token if it is known. */
  function Logout(store: Store, header: Option<string>): (r: (LogoutMessage, Store))
    ensures !Present(header) ==> r == (NoActiveSession, store)
    ensures Present(header) ==> r.0 == SessionClosed && r.1 == store - {ExtractToken(header.value)}
    ensures forall t :: t in store && (!Present(header) || t != ExtractToken(header.value)) ==> t in r.1 && r.1[t] == store[t]
  {
    if !Present(header) then (NoActiveSession, store)
    else
      var token := ExtractToken(header.value);
      if token in store then (SessionClosed, store - {token}) else (SessionClosed, store)
  }

  /** Logging out twice is the same as logging out once. */
  lemma LogoutIdempotent(store: Store, header: Option<string>)
    ensures Logout(Logout(store, header).1, header).1 == Logout(store, header).1
  {
  }

  /** After logout the token no longer authenticates. */
  lemma LogoutRevokes(store: Store, header: Option<string>, now: int)
    requires Present(header)
    ensures Authenticate(Logout(store, header).1, header, now).0 == Err(InvalidSession)
  {
  }

  /** Login: a fresh token mapped to a session that expires 24 hours after it starts. */
  function Login(store: Store, email: string, userId: int, now: int, token: string): (r: Store)
    ensures token in r && r[token].expiresAt == r[token].createdAt + SessionSeconds
    ensures r[token].createdAt == now && r[token].email == email && r[token].userId == userId
    ensures forall t :: t in store && t != token ==> t in r && r[t] == store[t]
    ensures r.Keys == store.Keys + {token}
  {
    store[token := Session(email, userId, now, now + SessionSeconds)]
  }

  /**
   * A session opened at `now` validates, with its email and user id, at every
   * instant up to and including 24 hours later, and is refused and
   * forgotten one second after that.
   */
  lemma LoginThenValidate(store: Store, email: string, userId: int, now: int, token: string, later: int)
    requires UrlSafe(token) && token != ""
    requires now <= later
    ensures var s := Login(store, email, userId, now, token);
      var h := Some(BearerPrefix + token);
      && (later <= now + SessionSeconds ==> ValidateSession(s, h, later) == (Ok((email, userId)), s))
      && (later > now + SessionSeconds ==> ValidateSession(s, h, later) == (Err(SessionExpired), s - {token}))
  {
    UrlSafeHasNoBearer(token);
    BearerRoundTrip(token);
  }

  /** A failed check never adds a session, and only an expired one is ever removed. */
  lemma RefusalOnlyForgetsExpired(store: Store, header: Option<string>, now: int)
    ensures var (res, store') := Authenticate(store, header, now);
      && store'.Keys <= store.Keys
      && (|store.Keys - store'.Keys| > 0 ==> res == Err(SessionExpired))
  {
  }
}
