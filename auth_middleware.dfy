/**
 * server/src/middleware/auth.ts: the bearer-token gate in front of every
 * protected route. The token is the second space-separated field of the
 * `Authorization` header; `jsonwebtoken.verify` (with the server's secret and
 * the current time) is the parameter `verify`, which yields the decoded
 * claims or None where the library throws.
 */
module AuthMiddleware {
  import opened Js
  import opened Http

  /** `req.header('Authorization')?.split(' ')[1]`: None when the header or the second field is missing. */
  function ExtractToken(header: Option<string>): (t: Option<string>)
    ensures header.None? ==> t.None?
    ensures t.Some? ==> ' ' !in t.value
  {
    match header
    case None => None
    case Some(h) =>
      var fields := Split(h, ' ');
      if |fields| >= 2 then Some(fields[1]) else None
  }

  /**
   * A token is found exactly when the header contains a space, and it never
   * contains one itself.
   */
  lemma ExtractTokenShape(h: string)
    ensures ExtractToken(Some(h)).Some? <==> ' ' in h
    ensures ExtractToken(Some(h)).Some? ==> ' ' !in ExtractToken(Some(h)).value
  {
    SeveralFieldsIffSeparator(h, ' ');
  }

  /**
   * The scheme word is not checked: for any first word without a space,
   * `word + " " + token` yields the token, and `"Bearer"` alone yields none.
   */
  lemma {:induction false} SchemeIgnored(word: string, token: string)
    requires ' ' !in word && ' ' !in token
    ensures ExtractToken(Some(word + " " + token)) == Some(token)
    ensures ExtractToken(Some(word)) == None
  {
    JoinSplit([word, token], ' ');
    assert Join([word, token], ' ') == word + " " + token;
    NoSeparatorSingleField(word, ' ');
  }

  /** What the middleware decides: answer 401 with a message, or let the request through with the claims. */
  datatype Decision = Reject(status: int, message: string) | Admit(claims: Claims)

  /**
   * `authMiddleware`'s decision: a missing or empty token is refused first,
   * then a token the verifier does not accept; only a verified token admits.
   */
  function Gate(header: Option<string>, verify: string -> Option<Claims>): (d: Decision)
    ensures d == Reject(401, "No token, authorization denied") <==> !Truthy(ExtractToken(header))
    ensures d == Reject(401, "Token is not valid") <==>
      Truthy(ExtractToken(header)) && verify(ExtractToken(header).value).None?
    ensures d.Admit? <==> Truthy(ExtractToken(header)) && verify(ExtractToken(header).value).Some?
    ensures d.Admit? ==> Some(d.claims) == verify(ExtractToken(header).value)
  {
    var token := ExtractToken(header);
    if !Truthy(token) then Reject(401, "No token, authorization denied")
    else match verify(token.value)
      case None => Reject(401, "Token is not valid")
      case Some(claims) => Admit(claims)
  }

  /** A request as the middleware sees it: its header, the identity it attaches, and what happened next. */
  class Request {
    const authorization: Option<string>
    var user: Option<Claims>
    /** How many times `next()` was called. */
    var nextCalls: nat
    /** The error responses sent, as (status, message). */
    var sent: seq<(int, string)>

    constructor (authorization: Option<string>)
      ensures this.authorization == authorization && user == None && nextCalls == 0 && sent == []
    {
      this.authorization := authorization;
      user := None;
      nextCalls := 0;
      sent := [];
    }
  }

  /**
   * `authMiddleware(req, res, next)`: on a refusal exactly one 401 response is
   * sent and neither `req.user` nor `next` is touched; on success `req.user`
   * is the decoded payload, `next` is called once and nothing is sent.
   */
  method Authenticate(req: Request, verify: string -> Option<Claims>)
    modifies req
    ensures Gate(req.authorization, verify).Reject? ==>
      req.sent == old(req.sent) + [(401, Gate(req.authorization, verify).message)] &&
      req.user == old(req.user) && req.nextCalls == old(req.nextCalls)
    ensures Gate(req.authorization, verify).Admit? ==>
      req.user == Some(Gate(req.authorization, verify).claims) &&
      req.nextCalls == old(req.nextCalls) + 1 && req.sent == old(req.sent)
  {
    var token := ExtractToken(req.authorization);
    if !Truthy(token) {
      req.sent := req.sent + [(401, "No token, authorization denied")];
      return;
    }
    match verify(token.value)
    case None =>
      req.sent := req.sent + [(401, "Token is not valid")];
    case Some(decoded) =>
      req.user := Some(decoded);
      req.nextCalls := req.nextCalls + 1;
  }
}
