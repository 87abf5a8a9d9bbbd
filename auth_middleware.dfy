/** The bearer-token gate in front of protected routes and the exact-match
    role gate behind it. */
module AuthMiddleware {
  import opened Js
  import opened Libs

  /** What a middleware does: call `next()` once with these claims as
      `req.user`, or answer with a status and a message and stop. */
  datatype Gate = Next(user: Claims) | Stop(status: int, message: string)

  const BearerPrefix := "Bearer "
  const NoToken := "No token"
  const InvalidToken := "Invalid token"

  /** The token of an Authorization header: what follows "Bearer ", if it starts so.
      A missing header reads as "". */
  function BearerToken(authorization: Option<string>): (token: Option<string>)
    ensures token.Some? <==> authorization.Some? && StartsWith(authorization.value, BearerPrefix)
    ensures token.Some? ==> authorization.value == BearerPrefix + token.value
  {
    var hdr := if authorization.Some? then authorization.value else "";
    if StartsWith(hdr, BearerPrefix) then Some(hdr[|BearerPrefix|..]) else None
  }

  /** What requireAuth decides for a header. */
  function Authenticate(authorization: Option<string>, jwt: TokenCodec): (g: Gate)
    ensures g == Stop(401, NoToken) <==> BearerToken(authorization).None? || BearerToken(authorization) == Some("")
    ensures g == Stop(401, InvalidToken) <==>
      exists t :: t != "" && authorization == Some(BearerPrefix + t) && jwt.verify(t).None?
    ensures g.Next? <==>
      exists t :: t != "" && authorization == Some(BearerPrefix + t) && jwt.verify(t).Some?
    ensures g.Next? ==>
      exists t :: t != "" && authorization == Some(BearerPrefix + t) && jwt.verify(t) == Some(g.user)
    ensures g.Stop? ==> g.status == 401
  {
    var token := BearerToken(authorization);
    if token.None? || token.value == "" then Stop(401, NoToken)
    else
      var t := token.value;
      assert authorization == Some(BearerPrefix + t);
      assert forall t' :: authorization == Some(BearerPrefix + t') ==> t' == t by {
        forall t' | authorization == Some(BearerPrefix + t') ensures t' == t {
          assert t' == (BearerPrefix + t')[|BearerPrefix|..];
        }
      }
      match jwt.verify(t)
      case None => Stop(401, InvalidToken)
      case Some(c) => Next(c)
  }

  /** The request as the middleware sees it: its Authorization header, and the
      `user` property requireAuth fills in. */
  class Request {
    const authorization: Option<string>
    var user: Option<Claims>

    constructor (authorization: Option<string>)
      ensures this.authorization == authorization && user == None
    {
      this.authorization := authorization;
      user := None;
    }
  }

  /** requireAuth: on a verified token, `req.user` becomes the decoded claims
      and `next` runs; otherwise `req.user` is left as it was. */
  method RequireAuth(req: Request, jwt: TokenCodec) returns (g: Gate)
    modifies req
    ensures g == Authenticate(req.authorization, jwt)
    ensures req.user == if g.Next? then Some(g.user) else old(req.user)
  {
    var token := BearerToken(req.authorization);
    if token.None? || token.value == "" {
      return Stop(401, NoToken);
    }
    var decoded := jwt.verify(token.value);
    if decoded.None? {
      return Stop(401, InvalidToken);
    }
    req.user := decoded;
    g := Next(decoded.value);
  }

  /** requireRole(role): no user is 401, any other role than exactly `role` is 403. */
  function RequireRole(role: string, user: Option<Claims>): (g: Gate)
    ensures g == Stop(401, "Unauthorized") <==> user.None?
    ensures g == Stop(403, "Forbidden") <==> user.Some? && user.value.role != role
    ensures g.Next? <==> user.Some? && user.value.role == role
    ensures g.Next? ==> g.user == user.value
  {
    if user.None? then Stop(401, "Unauthorized")
    else if user.value.role != role then Stop(403, "Forbidden")
    else Next(user.value)
  }

  /** `requireAuth, requireRole("admin")`, the chain in front of every write to
      blogs and announcements. */
  function AdminGate(authorization: Option<string>, jwt: TokenCodec): (g: Gate)
    ensures g.Next? <==>
      Authenticate(authorization, jwt).Next? && Authenticate(authorization, jwt).user.role == "admin"
    ensures g.Next? ==> g == Authenticate(authorization, jwt)
    ensures Authenticate(authorization, jwt).Stop? ==> g == Authenticate(authorization, jwt)
    ensures Authenticate(authorization, jwt).Next? && Authenticate(authorization, jwt).user.role != "admin" ==>
      g == Stop(403, "Forbidden")
  {
    match Authenticate(authorization, jwt)
    case Stop(s, m) => Stop(s, m)
    case Next(c) => RequireRole("admin", Some(c))
  }

  /** A header carrying a freshly signed token passes requireAuth with exactly the
      signed claims, and passes the admin chain exactly when the role is "admin". */
  lemma SignedTokenAuthenticates(jwt: TokenCodec, c: Claims)
    requires SoundCodec(jwt)
    ensures Authenticate(Some(BearerPrefix + jwt.sign(c)), jwt) == Next(c)
    ensures AdminGate(Some(BearerPrefix + jwt.sign(c)), jwt).Next? <==> c.role == "admin"
  {
    var hdr := BearerPrefix + jwt.sign(c);
    assert hdr[..|BearerPrefix|] == BearerPrefix;
    assert hdr[|BearerPrefix|..] == jwt.sign(c);
  }
}
