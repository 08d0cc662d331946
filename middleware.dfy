/**
 * The request middleware: the Bearer-token check that attaches the caller to the
 * request, and the client-type check in front of each route group. JWT verification
 * is a parameter: it yields the decoded payload or fails.
 */
module Middleware {
  import opened Wrappers
  import Strings

  const BearerPrefix: string := "Bearer "

  /** The payload a verified token decodes to: the signed claims and the registered ones. */
  datatype Decoded = Decoded(id: Option<string>, kind: Option<string>, role: Option<string>,
                             issuer: Option<string>, issuedAt: Option<int>, expiresAt: Option<int>)

  /** What the middleware attaches to the request. */
  datatype Caller = Caller(id: Option<string>, kind: Option<string>, role: Option<string>)

  /** The next handler runs, or the chain stops with a status. */
  datatype Verdict = Next | Stop(status: int)

  /**
   * The token of an Authorization header: absent unless the header starts with
   * "Bearer "; otherwise the second space-separated field, that is the text after the
   * prefix up to the next space.
   */
  function BearerToken(header: Option<string>): (r: Option<string>)
    ensures r.Some? <==> header.Some? && Strings.StartsWith(header.value, BearerPrefix)
    ensures r.Some? ==> var rest := header.value[|BearerPrefix|..];
                        && ' ' !in r.value
                        && Strings.StartsWith(rest, r.value)
                        && (|r.value| < |rest| ==> rest[|r.value|] == ' ')
  {
    if header.None? || !Strings.StartsWith(header.value, BearerPrefix) then None
    else
      var h := header.value;
      var rest := h[|BearerPrefix|..];
      assert h == "Bearer" + [' '] + rest;
      Strings.SplitAfterField("Bearer", ' ', rest);
      Some(Strings.Split(h, ' ')[1])
  }

  /** A header built from a token without spaces gives that token back. */
  lemma BearerRoundTrip(token: string)
    requires ' ' !in token
    ensures BearerToken(Some(BearerPrefix + token)) == Some(token)
  {
    var h := BearerPrefix + token;
    assert h == "Bearer" + [' '] + token;
    Strings.SplitAfterField("Bearer", ' ', token);
    Strings.SplitWithoutSeparator(token, ' ');
  }

  /** A request as the handlers see it: the caller the middleware attached, if any. */
  class Request {
    var user: Option<Caller>

    constructor ()
      ensures user.None?
    {
      user := None;
    }
  }

  /**
   * authMiddleware: 401 with the request untouched when the header has no Bearer token
   * or the token does not verify; otherwise the caller is exactly the decoded id, type
   * and role, and the chain continues.
   */
  method AuthMiddleware(req: Request, header: Option<string>, verify: string -> Option<Decoded>) returns (v: Verdict)
    modifies req
    ensures BearerToken(header).None? ==> v == Stop(401) && req.user == old(req.user)
    ensures BearerToken(header).Some? && verify(BearerToken(header).value).None? ==>
              v == Stop(401) && req.user == old(req.user)
    ensures BearerToken(header).Some? && verify(BearerToken(header).value).Some? ==>
              var d := verify(BearerToken(header).value).value;
              v == Next && req.user == Some(Caller(d.id, d.kind, d.role))
  {
    var token := BearerToken(header);
    if token.None? {
      return Stop(401);
    }
    var decoded := verify(token.value);
    if decoded.None? {
      return Stop(401);
    }
    var d := decoded.value;
    req.user := Some(Caller(d.id, d.kind, d.role));
    v := Next;
  }

  /** authorize(allowedTypes): the chain continues iff a caller is attached whose type is allowed; else 403. */
  function Authorize(allowedTypes: seq<string>, user: Option<Caller>): (v: Verdict)
    ensures v == Next <==> user.Some? && user.value.kind.Some? && user.value.kind.value in allowedTypes
    ensures v != Next ==> v == Stop(403)
  {
    if user.Some? && user.value.kind.Some? && user.value.kind.value in allowedTypes then Next else Stop(403)
  }

  /** Allowing more types never refuses a caller that was let through. */
  lemma AuthorizeMonotone(allowed: seq<string>, more: seq<string>, user: Option<Caller>)
    requires forall t :: t in allowed ==> t in more
    ensures Authorize(allowed, user) == Next ==> Authorize(more, user) == Next
  {
  }

  /** `req.user?.id`: the caller's id the controllers read. */
  function CallerId(user: Option<Caller>): (r: Option<string>)
    ensures r.Some? <==> user.Some? && user.value.id.Some?
    ensures r.Some? ==> r.value == user.value.id.value
  {
    if user.Some? then user.value.id else None
  }

  /**
   * A route group guarded by the middleware and then `authorize(allowedTypes)`: its
   * handlers run iff the header carries a token that verifies to an allowed type, and
   * then they see exactly the token's id, type and role.
   */
  method GuardedRoute(header: Option<string>, verify: string -> Option<Decoded>, allowedTypes: seq<string>)
    returns (v: Verdict, user: Option<Caller>)
    ensures v == Next <==> BearerToken(header).Some? && verify(BearerToken(header).value).Some? &&
                           var d := verify(BearerToken(header).value).value;
                           d.kind.Some? && d.kind.value in allowedTypes
    ensures v == Next ==> var d := verify(BearerToken(header).value).value;
                          user == Some(Caller(d.id, d.kind, d.role))
    ensures v != Next ==> v == Stop(401) || v == Stop(403)
  {
    var req := new Request();
    v := AuthMiddleware(req, header, verify);
    if v == Next {
      v := Authorize(allowedTypes, req.user);
    }
    user := req.user;
  }
}
