/** The parts of an ASP.NET Core request and response that the two
    authorization middlewares read and write. */
module Http {
  import opened Base
  import opened Text

  /** The endpoint metadata the middlewares look for: whether `[SignAuthorize]`
      is present, and the user list of `[CookieAuthorize(users)]` when that is. */
  datatype Endpoint = Endpoint(signAuthorize: bool, cookieAuthorize: Option<seq<string>>)

  /** An incoming request. Query, header and cookie names compare ignoring case,
      so each collection is stored under the folded form of its names. */
  datatype Request = Request(
    endpoint: Option<Endpoint>,
    path: string,
    query: map<string, seq<string>>,
    headers: map<string, seq<string>>,
    cookies: map<string, string>
  )

  /** `collection.TryGetValue(key, out v) ? v : StringValues.Empty`. */
  function ValuesOf(collection: map<string, seq<string>>, key: string): (values: seq<string>)
    ensures Fold(key) in collection ==> values == collection[Fold(key)]
    ensures Fold(key) !in collection ==> values == []
  {
    if Fold(key) in collection then collection[Fold(key)] else []
  }

  /** `Request.Cookies.TryGetValue(name, out value)`. */
  function CookieOf(r: Request, name: string): (value: Option<string>)
    ensures value.Some? <==> Fold(name) in r.cookies
    ensures value.Some? ==> value.value == r.cookies[Fold(name)]
  {
    if Fold(name) in r.cookies then Some(r.cookies[Fold(name)]) else None
  }

  /** Lookups do not distinguish names that differ only in ASCII case. */
  lemma ValuesIgnoreCase(collection: map<string, seq<string>>, a: string, b: string)
    requires EqualsIgnoreCase(a, b)
    ensures ValuesOf(collection, a) == ValuesOf(collection, b)
  {
  }

  /** The JSON text the default `UnauthorizedBack` object of both option
      classes serializes to. */
  const DefaultUnauthorizedBack: string := "{\"success\":false,\"status\":10000,\"msg\":\"Unauthorized\"}"

  datatype SameSiteMode = Unspecified | NoRestriction | Lax | Strict

  /** `CookieOptions`; times are seconds since the Unix epoch. */
  datatype CookieAttributes = CookieAttributes(
    domain: Option<string>,
    path: Option<string>,
    expires: Option<int>,
    httpOnly: bool,
    secure: bool,
    sameSite: SameSiteMode,
    maxAge: Option<int>,
    isEssential: bool,
    partitioned: bool,
    extensions: seq<string>
  )

  /** `new CookieOptions()` of ASP.NET Core 8: path "/", SameSite
      Unspecified, every flag off and nothing else set. */
  const NewCookieAttributes: CookieAttributes :=
    CookieAttributes(None, Some("/"), None, false, false, Unspecified, None, false, false, [])

  /** A cookie appended to the response with `Response.Cookies.Append`. */
  datatype SetCookie = SetCookie(name: string, value: string, attributes: CookieAttributes)

  /** A `ClaimsPrincipal` with one identity holding one claim. */
  datatype Principal = Principal(claimType: string, claimValue: string, authenticationType: string)

  /** `HttpContext`: the request and the response state written by a middleware.
      `nextCalls` counts the calls of the next delegate in the pipeline, whose
      own effects are not modelled. */
  class HttpContext {
    const request: Request
    var statusCode: int
    var contentType: Option<string>
    var body: string
    var user: Option<Principal>
    var items: map<string, string>
    var setCookies: seq<SetCookie>
    var nextCalls: nat

    constructor(request: Request)
      ensures this.request == request
      ensures statusCode == 200 && contentType == None && body == ""
      ensures user == None && items == map[] && setCookies == [] && nextCalls == 0
    {
      this.request := request;
      statusCode := 200;
      contentType := None;
      body := "";
      user := None;
      items := map[];
      setCookies := [];
      nextCalls := 0;
    }

    /** `await _next(context)`. */
    method CallNext()
      modifies this
      ensures nextCalls == old(nextCalls) + 1
      ensures statusCode == old(statusCode) && contentType == old(contentType) && body == old(body)
      ensures user == old(user) && items == old(items) && setCookies == old(setCookies)
    {
      nextCalls := nextCalls + 1;
    }

    /** `context.Response.WriteAsync(text)`. */
    method Write(text: string)
      modifies this
      ensures body == old(body) + text
      ensures statusCode == old(statusCode) && contentType == old(contentType)
      ensures user == old(user) && items == old(items) && setCookies == old(setCookies)
      ensures nextCalls == old(nextCalls)
    {
      body := body + text;
    }
  }
}
