/** The access-control middleware: `protect` finds the signed-in user from
    the bearer token, `adminOnly` lets only admins through. Token
    verification is an input: `verify(token)` is the id the token was signed
    for, or `None` when `jwt.verify` throws. */
module Middleware {
  import opened Common
  import opened Text
  import opened Seqs
  import opened Models

  // ---------------------------------------------------------------- the token

  predicate StartsWithBearer(header: string) {
    |header| >= 6 && header[..6] == "Bearer"
  }

  /** `authorization.split(" ")[1]` when the header starts with `Bearer`; an
      absent header is the empty text. `None` when there is no second word or
      it is empty (both falsy). */
  function BearerToken(header: string): (t: Option<string>)
    ensures t.Some? ==> t.value != [] && ' ' !in t.value
    ensures t.Some? ==> StartsWithBearer(header)
  {
    if !StartsWithBearer(header) then None
    else
      var words := Split(header, ' ');
      if |words| >= 2 && words[1] != [] then
        assert words[1] in words;
        Some(words[1])
      else None
  }

  /** The header the client sends, `Bearer <token>`, gives the token back. */
  lemma BearerRoundTrip(token: string)
    requires token != [] && ' ' !in token
    ensures BearerToken("Bearer " + token) == Some(token)
  {
    var h := "Bearer " + token;
    assert h == "Bearer" + [' '] + token;
    FirstPiece("Bearer", ' ', token);
    assert h[..6] == "Bearer";
  }

  /** A header without a space after its first word carries no token. */
  lemma NoSecondWordNoToken(header: string)
    requires ' ' !in header
    ensures BearerToken(header).None?
  {
  }

  // ---------------------------------------------------------------- protect

  /** The decision `protect` takes: the user the request is made for, or the
      401 reply. */
  function Authenticate(header: string, verify: string -> Option<Id>, users: seq<User>): (r: Response<User>)
    ensures r.Fail? ==> r.status == Unauthorized
    ensures r.Ok? ==> r.status == 200 && r.body in users && !r.body.isBlocked
                      && BearerToken(header).Some? && verify(BearerToken(header).value) == Some(r.body.id)
  {
    match BearerToken(header)
    case None => Fail(Unauthorized, "Not authorized to access this route")
    case Some(token) =>
      match verify(token)
      case None => Fail(Unauthorized, "Not authorized to access this route")
      case Some(id) =>
        match IndexWhere(users, UserIdIs(id))
        case None => Fail(Unauthorized, "No user found with this token")
        case Some(k) =>
          if users[k].isBlocked then Fail(Unauthorized, "Your account has been blocked")
          else Ok(200, users[k])
  }

  /** A valid token lets its user in exactly when the account is not blocked;
      a blocked account is turned away even with a valid token. */
  lemma AuthenticateMeaning(header: string, verify: string -> Option<Id>, users: seq<User>, k: nat)
    requires UsersUnique(users) && k < |users|
    requires BearerToken(header).Some? && verify(BearerToken(header).value) == Some(users[k].id)
    ensures Authenticate(header, verify, users).Ok? <==> !users[k].isBlocked
    ensures Authenticate(header, verify, users).Ok? ==> Authenticate(header, verify, users).body == users[k]
    ensures users[k].isBlocked ==> Authenticate(header, verify, users) == Fail(Unauthorized, "Your account has been blocked")
  {
    var found := IndexWhere(users, UserIdIs(users[k].id));
    assert found.Some?;
    assert found.value == k;
  }

  /** An incoming request: its `Authorization` header (empty when absent) and
      the `req.user` that `protect` sets. */
  class Request {
    const authorization: string
    var user: Option<User>

    constructor (authorization: string)
      ensures this.authorization == authorization && user.None?
    {
      this.authorization := authorization;
      user := None;
    }
  }

  /** `protect`: on success `req.user` is the user found and the chain goes on
      (`Ok`); otherwise the reply is sent and `req.user` is untouched. This is
      the request-object form of `Authenticate`, which specifies it. */
  method Protect(req: Request, verify: string -> Option<Id>, users: seq<User>) returns (r: Response<()>)
    modifies req
    ensures Authenticate(req.authorization, verify, users).Ok? ==>
              r == Ok(200, ()) && req.user == Some(Authenticate(req.authorization, verify, users).body)
    ensures Authenticate(req.authorization, verify, users).Fail? ==>
              r == Fail(Unauthorized, Authenticate(req.authorization, verify, users).message) && req.user == old(req.user)
  {
    var token: Option<string> := None;
    if StartsWithBearer(req.authorization) {
      var words := Split(req.authorization, ' ');
      if |words| >= 2 && words[1] != [] {
        token := Some(words[1]);
      }
    }
    if token.None? {
      return Fail(Unauthorized, "Not authorized to access this route");
    }
    var decoded := verify(token.value);
    if decoded.None? {
      return Fail(Unauthorized, "Not authorized to access this route");
    }
    var found := IndexWhere(users, UserIdIs(decoded.value));
    if found.None? {
      return Fail(Unauthorized, "No user found with this token");
    }
    if users[found.value].isBlocked {
      return Fail(Unauthorized, "Your account has been blocked");
    }
    req.user := Some(users[found.value]);
    r := Ok(200, ());
  }

  // ---------------------------------------------------------------- adminOnly

  /** `adminOnly`: go on exactly when there is a user and it is an admin. */
  function AdminOnly(user: Option<User>): (r: Response<()>)
    ensures r.Ok? <==> user.Some? && user.value.role == Admin
    ensures r.Fail? ==> r == Fail(Forbidden, "Access denied. Admin privileges required.")
  {
    if user.Some? && user.value.role == Admin then Ok(200, ()) else Fail(Forbidden, "Access denied. Admin privileges required.")
  }

  /** The admin routes' chain, `protect` then `adminOnly`. */
  function AdminChain(header: string, verify: string -> Option<Id>, users: seq<User>): Response<()> {
    match Authenticate(header, verify, users)
    case Fail(status, message) => Fail(status, message)
    case Ok(_, u) => AdminOnly(Some(u))
  }

  /** An admin route is reached exactly by a request whose token verifies to
      an existing, unblocked admin account; a student with a valid token gets
      403 and everyone else 401. */
  lemma AdminChainMeaning(header: string, verify: string -> Option<Id>, users: seq<User>)
    ensures AdminChain(header, verify, users).Ok? <==>
              exists u :: u in users && !u.isBlocked && u.role == Admin
                          && BearerToken(header).Some? && verify(BearerToken(header).value) == Some(u.id)
                          && Authenticate(header, verify, users) == Ok(200, u)
    ensures Authenticate(header, verify, users).Ok? && Authenticate(header, verify, users).body.role == Student ==>
              AdminChain(header, verify, users) == Fail(Forbidden, "Access denied. Admin privileges required.")
    ensures Authenticate(header, verify, users).Fail? ==> AdminChain(header, verify, users).status == Unauthorized
  {
    if AdminChain(header, verify, users).Ok? {
      var u := Authenticate(header, verify, users).body;
      assert u in users && u.role == Admin;
    }
  }
}
