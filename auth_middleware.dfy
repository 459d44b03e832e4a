/** The `auth` middleware (backend/middleware/auth.js) that guards every
    write route: it reads a bearer token from the Authorization header and
    verifies it. Signature checking and expiry belong to the JSON Web Token
    library, which is a parameter here: `verify` gives the id a valid,
    unexpired token carries, or `None`. */
module AuthMiddleware {
  import opened Wrappers
  import opened Models
  import Strings

  /** The request goes on to the route with `req.user.id` set, or is
      answered with 401 and a `{ message }` body. */
  datatype Outcome = Authenticated(id: Id) | Rejected(status: int, message: string)

  const BearerPrefix: string := "Bearer "

  /** `authHeader.startsWith('Bearer ') ? authHeader.split(' ')[1] : null`,
      with a missing header read as `''`. */
  function BearerToken(header: Option<string>): (token: Option<string>)
    ensures token.Some? ==> Strings.StartsWith(header.GetOr(""), BearerPrefix) && ' ' !in token.value
    ensures !Strings.StartsWith(header.GetOr(""), BearerPrefix) ==> token.None?
  {
    var h := header.GetOr("");
    if Strings.StartsWith(h, BearerPrefix) then
      var pieces := Strings.Split(h, ' ');
      assert pieces[0] == "Bearer" by {
        assert h == "Bearer" + [' '] + h[7..];
        Strings.FirstIndexOfConcat("Bearer", ' ', h[7..]);
      }
      Some(pieces[1])
    else None
  }

  function Authenticate(header: Option<string>, verify: string -> Option<Id>): (out: Outcome)
    ensures out.Authenticated? <==> Strings.Truthy(BearerToken(header)) && verify(BearerToken(header).value).Some?
    ensures out.Authenticated? ==> out.id == verify(BearerToken(header).value).value
    ensures !Strings.Truthy(BearerToken(header)) ==> out == Rejected(401, "Authorization token missing")
    ensures Strings.Truthy(BearerToken(header)) && verify(BearerToken(header).value).None? ==>
              out == Rejected(401, "Token invalid or expired")
  {
    var token := BearerToken(header);
    if !Strings.Truthy(token) then Rejected(401, "Authorization token missing")
    else match verify(token.value)
      case None => Rejected(401, "Token invalid or expired")
      case Some(id) => Authenticated(id)
  }

  /** The header a client builds from a token, `Bearer <token>`, gives that
      token back when the token has no space in it. */
  lemma BearerRoundTrip(token: string)
    requires ' ' !in token
    ensures BearerToken(Some(BearerPrefix + token)) == Some(token)
  {
    var h := BearerPrefix + token;
    assert h == "Bearer" + Strings.Join(["", token], [' '] + "");
    Strings.SplitJoin("Bearer", ["", token], ' ', "");
    assert Strings.StartsWith(h, BearerPrefix) by {
      assert h[..|BearerPrefix|] == BearerPrefix;
    }
  }

  /** Whatever follows the token's first space is ignored. With an empty
      `token` this is the header `Bearer  x`, whose token is `""`, so the
      request is refused as carrying no token. */
  lemma ExtraWordsIgnored(token: string, rest: string)
    requires ' ' !in token
    ensures BearerToken(Some(BearerPrefix + token + " " + rest)) == Some(token)
  {
    var h := BearerPrefix + token + " " + rest;
    assert Strings.StartsWith(h, BearerPrefix) by {
      assert h[..|BearerPrefix|] == BearerPrefix;
    }
    var after := token + [' '] + rest;
    assert h == "Bearer" + [' '] + after;
    Strings.SplitAtFirst("Bearer", ' ', after);
    Strings.SplitAtFirst(token, ' ', rest);
  }

  /** A signed token for `id`, sent as `Bearer <token>`, lets the request
      through as `id`, when the library verifies its own tokens. */
  lemma SignedTokenAuthenticates(token: string, id: Id, verify: string -> Option<Id>)
    requires token != "" && ' ' !in token
    requires verify(token) == Some(id)
    ensures Authenticate(Some(BearerPrefix + token), verify) == Authenticated(id)
  {
    BearerRoundTrip(token);
  }
}
