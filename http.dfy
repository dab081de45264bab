/**
 * The request-side inputs the handlers read (cookies, headers, a JSON body)
 * and the cookie store they write to.
 */
module Http {
  import opened Wrappers

  datatype SameSite = Lax | Strict | NoRestriction

  /** A cookie as set on the response: value and attributes. */
  datatype Cookie = Cookie(value: string, path: string, maxAge: int, sameSite: SameSite, httpOnly: bool)

  /** Max-age of the preference cookies, in seconds: one year of 365 days. */
  const OneYear: int := 60 * 60 * 24 * 365

  /** An incoming request as the edge middleware sees it. Header names are lower-case. */
  datatype Request = Request(cookies: map<string, string>, headers: map<string, string>)

  /** The value under `key`, if any (`Map.get`, `Headers.get`). */
  function Get(m: map<string, string>, key: string): (r: Option<string>)
    ensures r.Some? <==> key in m
    ensures r.Some? ==> r.value == m[key]
  {
    if key in m then Some(m[key]) else None
  }

  /** The outcome of `await request.json()`: the body did not parse, or it parsed to these fields. */
  datatype Body<T> = Malformed | Parsed(fields: T)

  /** The request's cookie store (`cookies()` in a server component or route handler). */
  class CookieStore {
    var cookies: map<string, Cookie>

    constructor (initial: map<string, Cookie>)
      ensures cookies == initial
    {
      cookies := initial;
    }

    /** `cookieStore.get(name)?.value`. */
    function Get(name: string): (r: Option<string>)
      reads this
      ensures r.Some? <==> name in cookies
      ensures r.Some? ==> r.value == cookies[name].value
    {
      if name in cookies then Some(cookies[name].value) else None
    }

    /** `cookieStore.set(name, value, { path: '/', maxAge: one year, sameSite: 'lax' })`. */
    method SetPreference(name: string, value: string)
      modifies this
      ensures cookies == old(cookies)[name := Cookie(value, "/", OneYear, Lax, false)]
    {
      cookies := cookies[name := Cookie(value, "/", OneYear, Lax, false)];
    }
  }
}
