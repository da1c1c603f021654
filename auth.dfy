/**
 * The authentication middleware of middleware/auth.js: `verifyToken` reads a token from the
 * `Authorization` header, checks it with the token verifier and stores the decoded payload in
 * `req.user`; `isAdmin` lets a request through only for the role `admin`.
 */
module Auth {
  import opened Wrappers
  import opened JsString
  import Json
  import opened Http

  /** The fields of a decoded token payload that the handlers read. */
  datatype Claims = Claims(id: Option<string>, role: Option<string>, organizationId: Option<string>)

  /** `jwt.verify` with the server's secret: the decoded payload, or `None` when verification reports an error. */
  type Verifier = string -> Option<Claims>

  /** What a middleware does with a request: pass it on to `next` with the caller, or answer it itself. */
  datatype Outcome = Next(user: Claims) | Halt(response: Response)

  const TokenMissing := "Access token missing"
  const TokenRejected := "Invalid or expired token"
  const AdminRequired := "Forbidden: Admin access required"

  /**
   * `authHeader && authHeader.split(' ')[1]`: `None` for `undefined`. An empty header is
   * returned as it is (the `&&` yields it), and otherwise the second space-separated segment.
   */
  function BearerToken(header: Option<string>): (token: Option<string>)
    ensures token.Some? ==> ' ' !in token.value
    ensures Truthy(token) ==> header.Some? && ' ' in header.value
    ensures header.None? ==> token.None?
    ensures header == Some("") ==> token == Some("")
  {
    match header
    case None => None
    case Some(h) =>
      if h == "" then Some(h)
      else
        var parts := Split(h, ' ');
        JoinShape(parts, ' ');
        if |parts| >= 2 then Some(parts[1]) else None
  }

  /**
   * The scheme word in front of the token is not checked: for any word and any token without
   * spaces, the header `"<word> <token>"` yields exactly that token.
   */
  lemma SchemeNotChecked(word: string, token: string)
    requires ' ' !in word && ' ' !in token
    ensures BearerToken(Some(word + " " + token)) == Some(token)
  {
    var parts := [word, token];
    assert Join(parts, ' ') == word + " " + token;
    SplitJoin(parts, ' ');
  }

  /** More precisely, the token is the second segment, whatever follows it. */
  lemma SecondSegment(parts: seq<string>)
    requires |parts| >= 2 && SeparatorFree(parts, ' ')
    ensures BearerToken(Some(Join(parts, ' '))) == Some(parts[1])
  {
    SplitJoin(parts, ' ');
    JoinShape(parts, ' ');
  }

  /** `verifyToken` as a decision on the header and the verifier's answer. */
  function TokenOutcome(header: Option<string>, verify: Verifier): (o: Outcome)
    ensures o.Halt? ==> o.response.status == 401 || o.response.status == 403
    ensures (o.Halt? && o.response.status == 401) <==> !Truthy(BearerToken(header))
    ensures (o.Halt? && o.response.status == 403)
            <==> Truthy(BearerToken(header)) && verify(BearerToken(header).value).None?
    ensures o.Next? <==> Truthy(BearerToken(header)) && verify(BearerToken(header).value).Some?
    ensures o.Next? ==> o.user == verify(BearerToken(header).value).value
  {
    var token := BearerToken(header);
    if !Truthy(token) then Halt(Refusal(401, TokenMissing))
    else match verify(token.value)
      case None => Halt(Refusal(403, TokenRejected))
      // a payload without organizationId only triggers a console warning
      case Some(payload) => Next(payload)
  }

  /** A request with no header, or one without a space in it, never reaches `next`. */
  lemma NoSpaceNoAccess(header: Option<string>, verify: Verifier)
    requires header.None? || ' ' !in header.value
    ensures TokenOutcome(header, verify) == Halt(Refusal(401, TokenMissing))
  {
  }

  /** Any two scheme words give the same outcome for the same token. */
  lemma SchemeIrrelevant(word1: string, word2: string, token: string, verify: Verifier)
    requires ' ' !in word1 && ' ' !in word2 && ' ' !in token
    ensures TokenOutcome(Some(word1 + " " + token), verify) == TokenOutcome(Some(word2 + " " + token), verify)
  {
    SchemeNotChecked(word1, token);
    SchemeNotChecked(word2, token);
  }

  /** `isAdmin` as a decision on `req.user`: exact, case-sensitive comparison with `admin`. */
  function AdminOutcome(user: Option<Claims>): (o: Outcome)
    ensures o.Next? <==> user.Some? && user.value.role == Some("admin")
    ensures o.Next? ==> o.user == user.value
    ensures o.Halt? ==> o.response == Refusal(403, AdminRequired)
  {
    if user.Some? && user.value.role == Some("admin") then Next(user.value)
    else Halt(Refusal(403, AdminRequired))
  }

  /** The request as the middleware sees it: its `Authorization` header and the `req.user` slot. */
  class Request {
    const authorization: Option<string>
    var user: Option<Claims>

    constructor (authorization: Option<string>)
      ensures this.authorization == authorization && user == None
    {
      this.authorization := authorization;
      user := None;
    }
  }

  /** `verifyToken`: on success `req.user` is the decoded payload; otherwise the request is answered and left as it was. */
  method VerifyToken(req: Request, verify: Verifier) returns (outcome: Outcome)
    modifies req
    ensures outcome == TokenOutcome(req.authorization, verify)
    ensures outcome.Next? ==> req.user == Some(outcome.user)
    ensures outcome.Halt? ==> req.user == old(req.user)
  {
    outcome := TokenOutcome(req.authorization, verify);
    if outcome.Next? {
      req.user := Some(outcome.user);
    }
  }

  /** `isAdmin`, reading `req.user`. */
  method IsAdmin(req: Request) returns (outcome: Outcome)
    ensures outcome == AdminOutcome(req.user)
  {
    outcome := AdminOutcome(req.user);
  }
}
