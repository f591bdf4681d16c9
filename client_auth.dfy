/**
 * client/src/api/auth.ts: the client's token store. Every operation reads or
 * writes `localStorage` (the `token` and `refreshToken` keys) and the axios
 * default header map, both held by a ClientApi.Client. Server replies are
 * parameters: `Err(e)` is a request that failed (the error is rethrown),
 * `Ok(data)` is `response.data`.
 */
module ClientAuth {
  import opened Js
  import opened ClientApi

  /** The fields of `response.data` the token store reads. */
  datatype AuthData = AuthData(token: Option<string>, accessToken: Option<string>, refreshToken: Option<string>)

  /** `{ token, refreshToken }` as login and register return them (`user` is not modelled). */
  datatype Tokens = Tokens(token: string, refreshToken: string)

  /** `{ token, isValid }` as `loadUserFromToken` returns it. */
  datatype Session = Session(token: string, isValid: bool)

  const NoTokenReceived := "No token received from server"
  const NoRefreshToken := "No refresh token available"

  /**
   * `setAuthToken`'s effect on the default headers: a truthy token is set as
   * the bearer header, anything else removes the header; other headers stay.
   */
  function AuthHeaders(common: map<string, string>, token: Option<string>): (h: map<string, string>)
    ensures Truthy(token) ==> AuthorizationHeader in h && h[AuthorizationHeader] == Bearer(token.value)
    ensures !Truthy(token) ==> AuthorizationHeader !in h
    ensures forall k :: k != AuthorizationHeader ==> (k in h <==> k in common)
    ensures forall k :: k != AuthorizationHeader && k in common ==> h[k] == common[k]
  {
    if Truthy(token) then common[AuthorizationHeader := Bearer(token.value)] else common - {AuthorizationHeader}
  }

  /**
   * The token extraction shared by `login` and `register`: the token is
   * `data.token`, else `data.accessToken`, and its absence is an error; the
   * refresh token is `data.refreshToken`, else ''.
   */
  function ReadCredentials(data: AuthData): (r: Result<Tokens, string>)
    ensures r.Err? <==> !Truthy(data.token) && !Truthy(data.accessToken)
    ensures r.Err? ==> r.error == NoTokenReceived
    ensures r.Ok? ==> r.value.token != ""
    ensures r.Ok? && Truthy(data.token) ==> r.value.token == data.token.value
    ensures r.Ok? && !Truthy(data.token) ==> Some(r.value.token) == data.accessToken
    ensures r.Ok? ==> (r.value.refreshToken != "" <==> Truthy(data.refreshToken))
    ensures r.Ok? && Truthy(data.refreshToken) ==> r.value.refreshToken == data.refreshToken.value
  {
    var token := OrElse(data.token, data.accessToken);
    if !Truthy(token) then Err(NoTokenReceived)
    else Ok(Tokens(token.value, Or(data.refreshToken, "")))
  }

  /**
   * `setItem('token', token)` and, only when `refresh` is truthy,
   * `setItem('refreshToken', refresh)`; every other key is left alone.
   */
  function StoreTokens(storage: map<string, string>, token: string, refresh: Option<string>): (s: map<string, string>)
    ensures Lookup(s, TokenKey) == Some(token)
    ensures Truthy(refresh) ==> Lookup(s, RefreshKey) == refresh
    ensures !Truthy(refresh) ==> Lookup(s, RefreshKey) == Lookup(storage, RefreshKey)
    ensures forall k :: k != TokenKey && k != RefreshKey ==> Lookup(s, k) == Lookup(storage, k)
  {
    var s := storage[TokenKey := token];
    if Truthy(refresh) then s[RefreshKey := refresh.value] else s
  }

  /** `loadUserFromToken`'s result: a valid session exactly when a truthy token is stored. */
  function LoadedSession(storage: map<string, string>): (r: Option<Session>)
    ensures r.None? <==> !Truthy(Lookup(storage, TokenKey))
    ensures r.Some? ==> Lookup(storage, TokenKey) == Some(r.value.token) && r.value.isValid
  {
    var token := Lookup(storage, TokenKey);
    if Truthy(token) then Some(Session(token.value, true)) else None
  }

  /** `setAuthToken(token)`: only the default bearer header changes. */
  method SetAuthToken(c: Client, token: Option<string>)
    modifies c
    ensures c.common == AuthHeaders(old(c.common), token) && c.storage == old(c.storage)
  {
    if Truthy(token) {
      c.common := c.common[AuthorizationHeader := Bearer(token.value)];
    } else {
      c.common := c.common - {AuthorizationHeader};
    }
  }

  /**
   * `loadUserFromToken`: no stored token gives null and changes nothing;
   * otherwise the session is returned and its token set as the default
   * header. Storage is never written (the catch branch cannot be reached).
   */
  method LoadUserFromToken(c: Client) returns (r: Option<Session>)
    modifies c
    ensures r == LoadedSession(old(c.storage)) && c.storage == old(c.storage)
    ensures r.None? ==> c.common == old(c.common)
    ensures r.Some? ==> c.common == AuthHeaders(old(c.common), Some(r.value.token))
  {
    var token := Lookup(c.storage, TokenKey);
    if !Truthy(token) {
      return None;
    }
    SetAuthToken(c, token);
    r := Some(Session(token.value, true));
  }

  /**
   * `login`: a failed request or a reply without a token changes nothing;
   * otherwise the token is stored, the refresh token too when non-empty, and
   * the default header is set.
   */
  method Login(c: Client, reply: Result<AuthData, string>) returns (r: Result<Tokens, string>)
    modifies c
    ensures reply.Err? ==> r == Err(reply.error)
    ensures reply.Ok? ==> r == ReadCredentials(reply.value)
    ensures r.Err? ==> c.storage == old(c.storage) && c.common == old(c.common)
    ensures r.Ok? ==>
      c.storage == StoreTokens(old(c.storage), r.value.token, Some(r.value.refreshToken)) &&
      c.common == AuthHeaders(old(c.common), Some(r.value.token))
  {
    if reply.Err? {
      return Err(reply.error);
    }
    r := ReadCredentials(reply.value);
    if r.Ok? {
      c.storage := c.storage[TokenKey := r.value.token];
      if r.value.refreshToken != "" {
        c.storage := c.storage[RefreshKey := r.value.refreshToken];
      }
      SetAuthToken(c, Some(r.value.token));
    }
  }

  /**
   * `refreshToken`: without a stored refresh token it fails before any
   * request (nothing is sent); otherwise the stored one is sent. A failed
   * request or a reply without a token (`accessToken`, else `token`) changes
   * nothing; a new token is stored, the refresh token replaced only when one
   * came back, the default header set, and the token returned.
   */
  method RefreshToken(c: Client, post: string -> Result<AuthData, string>)
    returns (r: Result<string, string>, sent: Option<string>)
    modifies c
    ensures !Truthy(Lookup(old(c.storage), RefreshKey)) ==>
      r == Err(NoRefreshToken) && sent == None && c.storage == old(c.storage) && c.common == old(c.common)
    ensures Truthy(Lookup(old(c.storage), RefreshKey)) ==> sent == Lookup(old(c.storage), RefreshKey)
    ensures sent.Some? && post(sent.value).Err? ==> r == Err(post(sent.value).error)
    ensures sent.Some? && post(sent.value).Ok? && !Truthy(OrElse(post(sent.value).value.accessToken,
                                                                  post(sent.value).value.token)) ==>
      r == Err(NoTokenReceived)
    ensures sent.Some? && post(sent.value).Ok? && Truthy(OrElse(post(sent.value).value.accessToken,
                                                                 post(sent.value).value.token)) ==>
      r.Ok?
    ensures r.Err? ==> c.storage == old(c.storage) && c.common == old(c.common)
    ensures r.Ok? ==>
      sent.Some? && post(sent.value).Ok? && r.value != "" &&
      Some(r.value) == OrElse(post(sent.value).value.accessToken, post(sent.value).value.token) &&
      c.storage == StoreTokens(old(c.storage), r.value, post(sent.value).value.refreshToken) &&
      c.common == AuthHeaders(old(c.common), Some(r.value))
  {
    var current := Lookup(c.storage, RefreshKey);
    if !Truthy(current) {
      return Err(NoRefreshToken), None;
    }
    sent := current;
    var reply := post(current.value);
    if reply.Err? {
      return Err(reply.error), sent;
    }
    var newToken := OrElse(reply.value.accessToken, reply.value.token);
    if !Truthy(newToken) {
      return Err(NoTokenReceived), sent;
    }
    c.storage := c.storage[TokenKey := newToken.value];
    if Truthy(reply.value.refreshToken) {
      c.storage := c.storage[RefreshKey := reply.value.refreshToken.value];
    }
    SetAuthToken(c, newToken);
    r := Ok(newToken.value);
  }

  /**
   * `logout`: the server is told (with the refresh token) only when one is
   * stored; both keys and the default header are always removed.
   */
  method Logout(c: Client) returns (sent: Option<string>)
    modifies c
    ensures sent == (if Truthy(Lookup(old(c.storage), RefreshKey)) then Lookup(old(c.storage), RefreshKey) else None)
    ensures c.storage == ClearTokens(old(c.storage)) && c.common == AuthHeaders(old(c.common), None)
  {
    var current := Lookup(c.storage, RefreshKey);
    sent := if Truthy(current) then current else None;
    c.storage := ClearTokens(c.storage);
    SetAuthToken(c, None);
  }

  /**
   * `getCurrentUser`: a truthy stored token is set as the default header
   * before the request; the reply (or its error) is passed through as it is.
   */
  method GetCurrentUser<U>(c: Client, reply: Result<U, string>) returns (r: Result<U, string>)
    modifies c
    ensures r == reply && c.storage == old(c.storage)
    ensures Truthy(Lookup(old(c.storage), TokenKey)) ==>
      c.common == AuthHeaders(old(c.common), Lookup(old(c.storage), TokenKey))
    ensures !Truthy(Lookup(old(c.storage), TokenKey)) ==> c.common == old(c.common)
  {
    var token := Lookup(c.storage, TokenKey);
    if Truthy(token) {
      SetAuthToken(c, token);
    }
    r := reply;
  }

  /**
   * After a successful login the session loads with the new token, and the
   * request interceptor and the default headers attach the same bearer header.
   */
  lemma LoginThenLoad(storage: map<string, string>, common: map<string, string>, headers: map<string, string>,
                      data: AuthData)
    requires ReadCredentials(data).Ok?
    ensures var t := ReadCredentials(data).value;
      var s := StoreTokens(storage, t.token, Some(t.refreshToken));
      LoadedSession(s) == Some(Session(t.token, true)) &&
      WithStoredToken(s, headers)[AuthorizationHeader] == AuthHeaders(common, Some(t.token))[AuthorizationHeader]
  {
    var t := ReadCredentials(data).value;
    var s := StoreTokens(storage, t.token, Some(t.refreshToken));
    assert Lookup(s, TokenKey) == Some(t.token);
  }

  /** After logout no session loads and the request interceptor attaches nothing. */
  lemma LogoutThenLoad(storage: map<string, string>, headers: map<string, string>)
    ensures LoadedSession(ClearTokens(storage)) == None
    ensures WithStoredToken(ClearTokens(storage), headers) == headers
  {
    assert Lookup(ClearTokens(storage), TokenKey) == None;
  }

  /** After a successful refresh the session loads with the token it returned. */
  lemma RefreshThenLoad(storage: map<string, string>, token: string, refresh: Option<string>)
    requires token != ""
    ensures LoadedSession(StoreTokens(storage, token, refresh)) == Some(Session(token, true))
  {
    assert Lookup(StoreTokens(storage, token, refresh), TokenKey) == Some(token);
  }

  /**
   * The server's login reply carries `accessToken` and no `refreshToken` (that
   * one travels as a cookie), so a client that had no refresh token still has
   * none after login, and the first 401 then signs it out: both keys are
   * removed and the error is rejected without a replay.
   */
  lemma LoginWithoutRefreshEndsAtFirst401(storage: map<string, string>, common: map<string, string>,
                                          accessToken: string, headers: map<string, string>,
                                          refresh: string -> RefreshReply)
    requires accessToken != "" && !Truthy(Lookup(storage, RefreshKey))
    ensures var t := ReadCredentials(AuthData(None, Some(accessToken), None)).value;
      var s := StoreTokens(storage, t.token, Some(t.refreshToken));
      var c := AuthHeaders(common, Some(t.token));
      OnError(Browser(s, c), Req(headers, false), Some(401), refresh) ==
        AfterError(Browser(ClearTokens(s), c), Req(headers, true), false)
  {
    var t := ReadCredentials(AuthData(None, Some(accessToken), None)).value;
    assert t.refreshToken == "";
    var s := StoreTokens(storage, t.token, Some(t.refreshToken));
    assert Lookup(s, RefreshKey) == Lookup(storage, RefreshKey);
  }
}
