/** The authentication middleware (internal/middleware/auth.go): where the token
    comes from, and what happens to the request once it has been verified. JWT
    verification itself (signature, HS256 restriction, expiry) is a parameter. */
module AuthMiddleware {
  import opened Wrappers
  import opened Text
  import opened Http

  /** The middleware's context key for the authenticated user. */
  const UserIDKey: ContextKey := TypedKey("userID")

  /** extractToken: the Authorization header split on single spaces; the second
      piece when there are exactly two, "" otherwise. The scheme word is not
      looked at. */
  function ExtractToken(authorization: string): (token: string)
    ensures Count(authorization, ' ') != 1 ==> token == ""
    ensures ' ' !in token
  {
    if authorization != "" && |Split(authorization, ' ')| == 2 then Split(authorization, ' ')[1]
    else ""
  }

  /** Any one-word scheme is accepted: "Token abc" yields "abc" just as
      "Bearer abc" does. */
  lemma ExtractTokenOfScheme(scheme: string, token: string)
    requires ' ' !in scheme && ' ' !in token
    ensures ExtractToken(scheme + " " + token) == token
  {
    SplitAtOnlySeparator(scheme, token, ' ');
  }

  /** Conversely, a header with exactly one space is some scheme without spaces, a
      space and the extracted token. */
  lemma ExtractTokenShape(authorization: string) returns (scheme: string)
    requires Count(authorization, ' ') == 1
    ensures ' ' !in scheme
    ensures authorization == scheme + " " + ExtractToken(authorization)
  {
    var parts := Split(authorization, ' ');
    JoinSplit(authorization, ' ');
    assert Join(parts, ' ') == parts[0] + [' '] + Join(parts[1..], ' ');
    assert parts[1..] == [parts[1]];
    scheme := parts[0];
  }

  /** The token the middleware goes on with: the header's, and only when that is
      empty the value of the auth_token cookie, if any. */
  function RequestToken(r: Request): (token: string)
    ensures ExtractToken(r.authorization) != "" ==> token == ExtractToken(r.authorization)
    ensures ExtractToken(r.authorization) == "" && CookieValue(r.cookies, "auth_token").Some? ==>
      token == CookieValue(r.cookies, "auth_token").value
    ensures token == "" ==>
      ExtractToken(r.authorization) == "" &&
      (CookieValue(r.cookies, "auth_token") == None || CookieValue(r.cookies, "auth_token") == Some(""))
  {
    var fromHeader := ExtractToken(r.authorization);
    if fromHeader != "" then fromHeader
    else
      match CookieValue(r.cookies, "auth_token")
      case Some(v) => v
      case None => ""
  }

  /** What jwt.Parse reports for a token string: an error (bad signature, a method
      other than HS256, an expired or malformed token), or the parsed token with
      whether its claims are a MapClaims, whether it is Valid, and its "sub" claim. */
  datatype Verification =
    | ParseFailed
    | Parsed(mapClaims: bool, valid: bool, sub: ContextValue)

  /** The four ways a request can leave the middleware. */
  datatype AuthDecision =
    | NoToken
    | TokenRejected
    | ClaimsRejected
    | Authenticated(userID: ContextValue)

  function Decide(r: Request, verify: string -> Verification): (d: AuthDecision)
    ensures d == NoToken <==> RequestToken(r) == ""
    ensures d == TokenRejected <==> RequestToken(r) != "" && verify(RequestToken(r)).ParseFailed?
    ensures d.Authenticated? <==>
      (RequestToken(r) != "" && verify(RequestToken(r)).Parsed? &&
       verify(RequestToken(r)).mapClaims && verify(RequestToken(r)).valid)
    ensures d.Authenticated? ==> d.userID == verify(RequestToken(r)).sub
  {
    var token := RequestToken(r);
    if token == "" then NoToken
    else
      match verify(token)
      case ParseFailed => TokenRejected
      case Parsed(mapClaims, valid, sub) =>
        if !mapClaims || !valid then ClaimsRejected else Authenticated(sub)
  }

  /** The Set-Cookie that deletes the auth_token cookie. */
  const ClearedAuthCookie := Cookie("auth_token", "", "/", -1, true, false, SameSiteDefault)

  /** The RequireAuth(secretKey)(next) handler serving `r` on `w`. Every refusal is
      a 303 redirect to /login without calling `next`; only a token that fails to
      parse also clears the auth_token cookie. An accepted request reaches `next`
      exactly once, with the "sub" claim under UserIDKey. */
  method RequireAuth(verify: string -> Verification, r: Request, w: Exchange)
    modifies w
    ensures var d := Decide(r, verify);
      (d.Authenticated? ==>
        w.forwarded == old(w.forwarded) + [r.WithValue(UserIDKey, d.userID)] &&
        w.redirects == old(w.redirects)) &&
      (!d.Authenticated? ==>
        w.forwarded == old(w.forwarded) &&
        w.redirects == old(w.redirects) + [("/login", 303)]) &&
      w.setCookies == old(w.setCookies) + (if d == TokenRejected then [ClearedAuthCookie] else [])
  {
    var token := ExtractToken(r.authorization);
    if token == "" {
      var cookie := CookieValue(r.cookies, "auth_token");
      if cookie.Some? {
        token := cookie.value;
      }
    }
    if token == "" {
      w.Redirect("/login", 303);
      return;
    }
    var parsed := verify(token);
    if parsed.ParseFailed? {
      w.SetCookie(ClearedAuthCookie);
      w.Redirect("/login", 303);
      return;
    }
    if !parsed.mapClaims || !parsed.valid {
      w.Redirect("/login", 303);
      return;
    }
    w.Forward(r.WithValue(UserIDKey, parsed.sub));
  }

  /** A request with neither a header token nor a non-empty auth_token cookie never
      reaches `next`, whatever the verifier would say. */
  lemma NoTokenNeverForwarded(r: Request, verify: string -> Verification)
    requires ExtractToken(r.authorization) == ""
    requires CookieValue(r.cookies, "auth_token") in {None, Some("")}
    ensures Decide(r, verify) == NoToken
  {
  }

  /** The header wins: with a usable header token the cookie is never consulted,
      so two requests differing only in their cookies are decided alike. */
  lemma HeaderTokenWins(r: Request, cookies: seq<(string, string)>, verify: string -> Verification)
    requires ExtractToken(r.authorization) != ""
    ensures Decide(r.(cookies := cookies), verify) == Decide(r, verify)
  {
  }
}
