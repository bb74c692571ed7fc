/** The slice of net/http the middleware works with: a request with its
    Authorization header, cookies, TLS flag and context values, and a response
    that records the cookies set, the redirects issued and the requests handed on
    to the wrapped handler. */
module Http {
  import opened Wrappers

  datatype SameSite = SameSiteDefault | SameSiteLax | SameSiteStrict | SameSiteNone

  datatype Cookie = Cookie(
    name: string,
    value: string,
    path: string,
    maxAge: int,
    httpOnly: bool,
    secure: bool,
    sameSite: SameSite)

  /** A context key: the middleware's typed contextKey, or a plain string key. */
  datatype ContextKey = TypedKey(name: string) | StringKey(name: string)

  /** A value stored in a context: a string, nil, or a value of another type. */
  datatype ContextValue = StringValue(s: string) | NilValue | OtherValue

  /** `cookies` are the request's cookies, already parsed, in header order. */
  datatype Request = Request(
    authorization: string,
    cookies: seq<(string, string)>,
    tls: bool,
    context: map<ContextKey, ContextValue>)
  {
    /** r.WithContext(context.WithValue(r.Context(), key, value)) */
    function WithValue(key: ContextKey, value: ContextValue): (r: Request)
      ensures r.context == context[key := value]
      ensures r.authorization == authorization && r.cookies == cookies && r.tls == tls
    {
      this.(context := context[key := value])
    }
  }

  /** r.Cookie(name): the first cookie with that name, or ErrNoCookie. */
  function CookieValue(cookies: seq<(string, string)>, name: string): (v: Option<string>)
    ensures v.None? <==> forall i :: 0 <= i < |cookies| ==> cookies[i].0 != name
    ensures v.Some? ==> exists i :: (0 <= i < |cookies| && cookies[i] == (name, v.value) &&
                                     forall j :: 0 <= j < i ==> cookies[j].0 != name)
  {
    if cookies == [] then None
    else if cookies[0].0 == name then Some(cookies[0].1)
    else CookieValue(cookies[1..], name)
  }

  /** What a handler did to the response: Set-Cookie headers, redirects (location
      and status), and the requests it passed to the handler it wraps. */
  class Exchange {
    var setCookies: seq<Cookie>
    var redirects: seq<(string, int)>
    var forwarded: seq<Request>

    constructor ()
      ensures setCookies == [] && redirects == [] && forwarded == []
    {
      setCookies := [];
      redirects := [];
      forwarded := [];
    }

    method SetCookie(c: Cookie)
      modifies this
      ensures setCookies == old(setCookies) + [c]
      ensures redirects == old(redirects) && forwarded == old(forwarded)
    {
      setCookies := setCookies + [c];
    }

    /** http.Redirect(w, r, location, code) */
    method Redirect(location: string, code: int)
      modifies this
      ensures redirects == old(redirects) + [(location, code)]
      ensures setCookies == old(setCookies) && forwarded == old(forwarded)
    {
      redirects := redirects + [(location, code)];
    }

    /** next.ServeHTTP(w, r): the wrapped handler's own effects are not modelled. */
    method Forward(r: Request)
      modifies this
      ensures forwarded == old(forwarded) + [r]
      ensures setCookies == old(setCookies) && redirects == old(redirects)
    {
      forwarded := forwarded + [r];
    }
  }
}
