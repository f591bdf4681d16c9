/**
 * client/src/api/index.ts: the axios instance's two interceptors. The
 * browser's `localStorage` and the instance's default header map are the
 * fields of a Client; a request configuration (its header map and its
 * `_retry` flag) is a RequestConfig. The refresh call (`axios.post` to the
 * refresh route) is the parameter `refresh`, which maps the refresh token
 * sent to the reply received.
 */
module ClientApi {
  import opened Js

  const TokenKey := "token"
  const RefreshKey := "refreshToken"
  const AuthorizationHeader := "Authorization"

  /** `Bearer ${token}`. */
  function Bearer(token: string): string {
    "Bearer " + token
  }

  /** `localStorage.getItem(key)`, with null written as None. */
  function Lookup(m: map<string, string>, key: string): Option<string> {
    if key in m then Some(m[key]) else None
  }

  /**
   * The request interceptor's effect on a header map: the stored token, when
   * truthy, is attached as a bearer token; otherwise the headers are left as
   * they are.
   */
  function WithStoredToken(storage: map<string, string>, headers: map<string, string>): (h: map<string, string>)
    ensures Truthy(Lookup(storage, TokenKey)) ==>
      AuthorizationHeader in h && h[AuthorizationHeader] == Bearer(storage[TokenKey])
    ensures !Truthy(Lookup(storage, TokenKey)) ==> h == headers
    ensures forall k :: k != AuthorizationHeader ==> (k in h <==> k in headers)
    ensures forall k :: k != AuthorizationHeader && k in headers ==> h[k] == headers[k]
  {
    var token := Lookup(storage, TokenKey);
    if Truthy(token) then headers[AuthorizationHeader := Bearer(token.value)] else headers
  }

  /** What `axios.post` to the refresh route gives back: a failure (it throws), or `response.data`. */
  datatype RefreshReply = RefreshFailed | RefreshData(accessToken: Option<string>, token: Option<string>)

  /** The browser-wide state the interceptors touch. */
  datatype Browser = Browser(storage: map<string, string>, common: map<string, string>)

  /** A request configuration as the response interceptor sees it. */
  datatype Req = Req(headers: map<string, string>, retry: bool)

  /** The state after the response interceptor, and whether it replays the request (else it rejects the error). */
  datatype AfterError = AfterError(browser: Browser, request: Req, replay: bool)

  /** Both token keys removed, as the catch branch does. */
  function ClearTokens(storage: map<string, string>): (s: map<string, string>)
    ensures TokenKey !in s && RefreshKey !in s
    ensures forall k :: k != TokenKey && k != RefreshKey ==> (k in s <==> k in storage)
    ensures forall k :: k in s ==> s[k] == storage[k]
  {
    storage - {TokenKey, RefreshKey}
  }

  /** `response.data.accessToken || response.data.token`. */
  function NewToken(reply: RefreshReply): (t: Option<string>)
    requires reply.RefreshData?
    ensures Truthy(t) <==> Truthy(reply.accessToken) || Truthy(reply.token)
    ensures Truthy(reply.accessToken) ==> t == reply.accessToken
    ensures Truthy(t) ==> t == reply.accessToken || t == reply.token
  {
    OrElse(reply.accessToken, reply.token)
  }

  /**
   * The response interceptor's error handler. An error that is not a 401, or
   * whose request was already retried, is rejected with nothing changed.
   * Otherwise the request is marked retried; with no refresh token stored,
   * or a failed refresh call, both tokens are removed and the error is
   * rejected; a refresh reply without a token rejects and keeps the storage;
   * a new token is stored, set on both header maps, and the request replayed.
   */
  function OnError(b: Browser, req: Req, status: Option<int>, refresh: string -> RefreshReply): (o: AfterError)
    ensures (status != Some(401) || req.retry) ==> o == AfterError(b, req, false)
    ensures status == Some(401) && !req.retry ==> o.request.retry
    ensures o.replay ==>
      status == Some(401) && !req.retry && Truthy(Lookup(b.storage, RefreshKey)) &&
      refresh(b.storage[RefreshKey]).RefreshData? && Truthy(NewToken(refresh(b.storage[RefreshKey]))) &&
      o.browser.storage == b.storage[TokenKey := NewToken(refresh(b.storage[RefreshKey])).value] &&
      o.browser.common == b.common[AuthorizationHeader := Bearer(o.browser.storage[TokenKey])] &&
      o.request.headers == req.headers[AuthorizationHeader := Bearer(o.browser.storage[TokenKey])]
    ensures (status == Some(401) && !req.retry &&
             (!Truthy(Lookup(b.storage, RefreshKey)) || refresh(b.storage[RefreshKey]).RefreshFailed?)) ==>
      !o.replay && o.browser == Browser(ClearTokens(b.storage), b.common) && o.request.headers == req.headers
    ensures (status == Some(401) && !req.retry && Truthy(Lookup(b.storage, RefreshKey)) &&
             refresh(b.storage[RefreshKey]).RefreshData? && !Truthy(NewToken(refresh(b.storage[RefreshKey])))) ==>
      o == AfterError(b, Req(req.headers, true), false)
    ensures (status == Some(401) && !req.retry && Truthy(Lookup(b.storage, RefreshKey)) &&
             refresh(b.storage[RefreshKey]).RefreshData? && Truthy(NewToken(refresh(b.storage[RefreshKey])))) ==>
      o.replay
  {
    if status != Some(401) || req.retry then AfterError(b, req, false)
    else
      var marked := Req(req.headers, true);
      var stored := Lookup(b.storage, RefreshKey);
      if !Truthy(stored) then AfterError(Browser(ClearTokens(b.storage), b.common), marked, false)
      else
        var reply := refresh(stored.value);
        if reply.RefreshFailed? then AfterError(Browser(ClearTokens(b.storage), b.common), marked, false)
        else
          var token := NewToken(reply);
          if !Truthy(token) then AfterError(b, marked, false)
          else
            var header := Bearer(token.value);
            AfterError(Browser(b.storage[TokenKey := token.value], b.common[AuthorizationHeader := header]),
                       Req(req.headers[AuthorizationHeader := header], true), true)
  }

  /**
   * The replayed request goes through the request interceptor again, which
   * attaches the token just stored: the header the handler set survives
   * unchanged.
   */
  lemma ReplayKeepsNewHeader(b: Browser, req: Req, status: Option<int>, refresh: string -> RefreshReply)
    requires OnError(b, req, status, refresh).replay
    ensures var o := OnError(b, req, status, refresh);
      WithStoredToken(o.browser.storage, o.request.headers) == o.request.headers
  {
    var o := OnError(b, req, status, refresh);
    assert Truthy(Lookup(o.browser.storage, TokenKey));
  }

  /**
   * One request's life after a failure: each element of `errors` is the
   * status of the next failed attempt. The handler runs on each; the request
   * is replayed while the handler says so, and the run ends at the first
   * rejection. The result is the number of replays.
   */
  function Replays(b: Browser, req: Req, errors: seq<Option<int>>, refresh: string -> RefreshReply): nat
    decreases |errors|
  {
    if |errors| == 0 then 0
    else
      var o := OnError(b, req, errors[0], refresh);
      if o.replay then 1 + Replays(o.browser, o.request, errors[1..], refresh) else 0
  }

  /**
   * The `_retry` flag bounds the replays: a request is replayed at most
   * once, and never once it is marked, however many failures follow.
   */
  lemma {:induction false} AtMostOneReplay(b: Browser, req: Req, errors: seq<Option<int>>,
                                           refresh: string -> RefreshReply)
    ensures Replays(b, req, errors, refresh) <= if req.retry then 0 else 1
    decreases |errors|
  {
    if |errors| > 0 {
      var o := OnError(b, req, errors[0], refresh);
      if o.replay {
        AtMostOneReplay(o.browser, o.request, errors[1..], refresh);
      }
    }
  }

  /** The browser (`localStorage` and `axiosInstance.defaults.headers.common`). */
  class Client {
    var storage: map<string, string>
    var common: map<string, string>

    constructor (storage: map<string, string>)
      ensures this.storage == storage && common == map[]
    {
      this.storage := storage;
      common := map[];
    }

    /** The request interceptor: attaches the stored token to this request's headers when there is one. */
    method InterceptRequest(config: RequestConfig)
      modifies config
      ensures config.headers == WithStoredToken(storage, old(config.headers))
      ensures config.retry == old(config.retry)
    {
      var token := Lookup(storage, TokenKey);
      if Truthy(token) {
        config.headers := config.headers[AuthorizationHeader := Bearer(token.value)];
      }
    }

    /** The response interceptor's error handler, updating storage, default headers and the request in place. */
    method InterceptError(config: RequestConfig, status: Option<int>, refresh: string -> RefreshReply)
      returns (replay: bool)
      modifies this, config
      ensures AfterError(Browser(storage, common), Req(config.headers, config.retry), replay) ==
        OnError(Browser(old(storage), old(common)), Req(old(config.headers), old(config.retry)), status, refresh)
    {
      replay := false;
      if status == Some(401) && !config.retry {
        config.retry := true;
        var stored := Lookup(storage, RefreshKey);
        if !Truthy(stored) {
          storage := ClearTokens(storage);
          return;
        }
        var reply := refresh(stored.value);
        if reply.RefreshFailed? {
          storage := ClearTokens(storage);
          return;
        }
        var token := NewToken(reply);
        if Truthy(token) {
          storage := storage[TokenKey := token.value];
          common := common[AuthorizationHeader := Bearer(token.value)];
          config.headers := config.headers[AuthorizationHeader := Bearer(token.value)];
          replay := true;
        }
      }
    }
  }

  /** One request configuration object, mutated by both interceptors. */
  class RequestConfig {
    var headers: map<string, string>
    var retry: bool

    constructor (headers: map<string, string>)
      ensures this.headers == headers && !retry
    {
      this.headers := headers;
      retry := false;
    }
  }
}
