/** The authorization guard `verifyUser` (server/middleware/verify.js): it reads
    a `Bearer <token>` header, verifies the access token and attaches the
    decoded identity to the request before calling the next handler. */
module Middleware {
  import opened Records
  import opened Jwt

  const BearerPrefix: string := "Bearer "

  /** `s.startsWith(prefix)`. */
  predicate StartsWith(s: string, prefix: string) {
    |prefix| <= |s| && s[..|prefix|] == prefix
  }

  /** `authHeader.split(' ')[1]` for a header that starts with "Bearer ": the
      longest run of non-space characters right after the prefix. */
  function ExtractToken(header: string): (token: string)
    requires StartsWith(header, BearerPrefix)
    ensures ' ' !in token
    ensures |BearerPrefix| + |token| <= |header|
    ensures header[|BearerPrefix|..|BearerPrefix| + |token|] == token
    ensures |BearerPrefix| + |token| < |header| ==> header[|BearerPrefix| + |token|] == ' '
  {
    assert header[..6] == "Bearer" && header[6] == ' ';
    var parts := Split(header, ' ');
    assert parts[1] == Split(header[7..], ' ')[0];
    parts[1]
  }

  /** The header "Bearer a b" yields the token "a". */
  lemma SecondComponent()
    ensures ExtractToken("Bearer a b") == "a"
  {
    var h := "Bearer a b";
    assert h[7] == 'a' && h[8] == ' ';
  }

  /** A token without spaces comes back unchanged from its `Bearer` header. */
  lemma {:induction false} BearerRoundTrip(token: string)
    requires ' ' !in token
    ensures StartsWith(BearerPrefix + token, BearerPrefix)
    ensures ExtractToken(BearerPrefix + token) == token
  {
    var h := BearerPrefix + token;
    assert h[..7] == BearerPrefix;
    var t := ExtractToken(h);
    assert h[7..] == token;
    assert t == token[..|t|];
  }

  /** The parts of an Express request the guard reads and writes. */
  class Request {
    /** `req.headers.authorization`; `None` when the header is absent. */
    var authorization: Option<string>
    /** `req.user`, set by the guard. */
    var user: Option<UserData>
  }

  /** What the guard does with a request: answer it, or pass it on with `next()`. */
  datatype Verdict = Reject(code: int) | Next

  /** `verifyUser(req, res, next)`. */
  method VerifyUser(req: Request) returns (v: Verdict)
    modifies req`user
    ensures req.authorization.None? ==> v == Reject(Unauthorized) && req.user == old(req.user)
    ensures req.authorization.Some? && !StartsWith(req.authorization.value, BearerPrefix) ==>
      v == Reject(Unauthorized) && req.user == old(req.user)
    ensures req.authorization.Some? && StartsWith(req.authorization.value, BearerPrefix) ==>
      var claims := VerifyAccess(ExtractToken(req.authorization.value));
      && (claims.None? ==> v == Reject(Forbidden) && req.user == old(req.user))
      && (claims.Some? ==> v == Next && req.user == Some(claims.value.user))
  {
    if req.authorization.None? || !StartsWith(req.authorization.value, BearerPrefix) {
      return Reject(Unauthorized);
    }
    var token := ExtractToken(req.authorization.value);
    var decoded := VerifyAccess(token);
    if decoded.None? {
      return Reject(Forbidden);
    }
    req.user := Some(UserData(decoded.value.user.firstName, decoded.value.user.lastName,
                              decoded.value.user.id, decoded.value.user.profilePicture));
    v := Next;
  }

  /** An access token issued at login passes the guard with the identity it was signed with. */
  lemma AccessTokenPasses(u: UserData, iat: nat)
    ensures StartsWith(BearerPrefix + SignAccess(u, iat), BearerPrefix)
    ensures VerifyAccess(ExtractToken(BearerPrefix + SignAccess(u, iat))) == Some(AccessClaims(u, iat))
  {
    BearerRoundTrip(SignAccess(u, iat));
    VerifySignedAccess(u, iat);
  }

  /** A refresh token presented as a bearer token is refused with 403. */
  lemma RefreshTokenRefused(id: Id, iat: nat)
    ensures StartsWith(BearerPrefix + SignRefresh(id, iat), BearerPrefix)
    ensures VerifyAccess(ExtractToken(BearerPrefix + SignRefresh(id, iat))) == None
  {
    BearerRoundTrip(SignRefresh(id, iat));
    SecretsDistinct(UserData("", "", "", ""), id, 0, iat);
  }
}
