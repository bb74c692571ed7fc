/** Session identifiers and middleware composition
    (internal/middleware/middleware.go). The random source is a parameter: the
    32 bytes crypto/rand delivered, or None when it failed. */
module Middleware {
  import opened Wrappers
  import opened Encoding
  import opened Http

  /** The 32-byte buffer generateSessionID fills. */
  type SessionBytes = b: seq<Byte> | |b| == 32 witness seq(32, i => 0)

  /** generateSessionID: the padded base64url encoding (section 5 of RFC 4648) of
      the 32 random bytes, which is 44 characters and decodes back to them; "" when
      the random source fails. */
  function GenerateSessionID(random: Option<SessionBytes>): (id: string)
    ensures random.None? ==> id == ""
    ensures random.Some? ==>
      |id| == 44 && IsPaddedUrlBase64(id) && Base64UrlDecode(id) == Some(random.value)
  {
    match random
    case None => ""
    case Some(b) =>
      Base64UrlRoundTrip(b);
      Base64UrlEncode(b)
  }

  /** Different random bytes never give the same identifier. */
  lemma GeneratedIDsDistinct(a: SessionBytes, b: SessionBytes)
    requires a != b
    ensures GenerateSessionID(Some(a)) != GenerateSessionID(Some(b))
  {
    var ia, ib := GenerateSessionID(Some(a)), GenerateSessionID(Some(b));
    assert Base64UrlDecode(ia) == Some(a) && Base64UrlDecode(ib) == Some(b);
  }

  /** The cookie SessionID sets for a new identifier. */
  function SessionCookie(id: string, tls: bool): (c: Cookie)
    ensures c.name == "session_id" && c.value == id && c.path == "/"
    ensures c.httpOnly && c.sameSite == SameSiteStrict
    ensures c.secure <==> tls
  {
    Cookie("session_id", id, "/", 0, true, tls, SameSiteStrict)
  }

  /** The identifier a request is served under: its session_id cookie verbatim
      (even an empty one), or a freshly generated one. */
  function ChosenSessionID(r: Request, random: Option<SessionBytes>): (id: string)
    ensures CookieValue(r.cookies, "session_id").Some? ==> id == CookieValue(r.cookies, "session_id").value
    ensures CookieValue(r.cookies, "session_id").None? ==> id == GenerateSessionID(random)
  {
    match CookieValue(r.cookies, "session_id")
    case Some(v) => v
    case None => GenerateSessionID(random)
  }

  /** The SessionID(next) handler serving `r` on `w`. A cookie is set only when the
      request had none; `next` runs exactly once, with "sessionID" in the context. */
  method SessionID(r: Request, random: Option<SessionBytes>, w: Exchange)
    modifies w
    ensures var id := ChosenSessionID(r, random);
      w.forwarded == old(w.forwarded) + [r.WithValue(StringKey("sessionID"), StringValue(id))] &&
      w.setCookies == old(w.setCookies) +
        (if CookieValue(r.cookies, "session_id").None? then [SessionCookie(id, r.tls)] else [])
    ensures w.redirects == old(w.redirects)
  {
    var cookie := CookieValue(r.cookies, "session_id");
    var sessionID: string;
    if cookie.None? {
      sessionID := GenerateSessionID(random);
      w.SetCookie(SessionCookie(sessionID, r.tls));
    } else {
      sessionID := cookie.value;
    }
    w.Forward(r.WithValue(StringKey("sessionID"), StringValue(sessionID)));
  }

  /** A returning client keeps its identifier and gets no new cookie, whatever the
      random source would have produced. */
  lemma SessionReused(r: Request, random: Option<SessionBytes>, other: Option<SessionBytes>)
    requires CookieValue(r.cookies, "session_id").Some?
    ensures ChosenSessionID(r, random) == ChosenSessionID(r, other)
  {
  }

  /** m0(m1(...m(n-1)(h))): the first middleware listed is the outermost. */
  function Wrapped<H>(middleware: seq<H -> H>, handler: H): H
    decreases |middleware|
  {
    if middleware == [] then handler
    else middleware[0](Wrapped(middleware[1..], handler))
  }

  /** Chain: wraps `handler` in the middleware from the last to the first. */
  method Chain<H>(handler: H, middleware: seq<H -> H>) returns (r: H)
    ensures r == Wrapped(middleware, handler)
  {
    r := handler;
    var i := |middleware|;
    while i > 0
      invariant 0 <= i <= |middleware|
      invariant r == Wrapped(middleware[i..], handler)
    {
      i := i - 1;
      assert middleware[i..][1..] == middleware[i + 1..];
      r := middleware[i](r);
    }
    assert middleware[0..] == middleware;
  }

  /** With no middleware, Chain returns the handler itself; with one, it applies it. */
  lemma WrappedShort<H>(m: H -> H, handler: H)
    ensures Wrapped([], handler) == handler
    ensures Wrapped([m], handler) == m(handler)
  {
  }

  /** Chaining is associative: chaining `a` around the chain of `b` is chaining
      `a + b`. */
  lemma {:induction false} WrappedAppend<H>(a: seq<H -> H>, b: seq<H -> H>, handler: H)
    ensures Wrapped(a + b, handler) == Wrapped(a, Wrapped(b, handler))
    decreases |a|
  {
    if a == [] {
      assert a + b == b;
    } else {
      assert (a + b)[1..] == a[1..] + b;
      WrappedAppend(a[1..], b, handler);
    }
  }
}
