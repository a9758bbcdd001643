# SignAuthorization in Dafny

A model of the two ASP.NET Core authorization middlewares of
Sang.AspNetCore.SignAuthorization and the signing primitive they share. Its
properties are proved with Dafny.

- **Canonical signer** (`MakeSignAuthorization.MakeSign`). Token, timestamp
  and nonce are always signed. The extra value and the path are signed only
  when non-empty. The fields are sorted in ordinal order, joined with no
  separator, hashed with SHA-1 and rendered as lower-case hex.
- **URL signer** (both `MakeSignUrl` overloads). It checks its arguments and
  takes the query and path of a relative URL by splitting on `?`. When an
  extra parameter is configured the URL must carry it. The signer sets the
  timestamp, nonce and signature parameters in the query.
- **Query/header authorizer** (`SignAuthorizationMiddleware`). On a
  `[SignAuthorize]` endpoint it takes the credentials from the headers or
  from the query, never both. It checks the timestamp's age, substitutes
  `"Err."` for a missing extra value, and compares the signature it
  recomputes, case-sensitively. The request then goes on to the next
  middleware or gets a 401 JSON response.
- **Cookie authorizer** (`CookieAuthorizationMiddleware`). On a
  `[CookieAuthorize]` endpoint it runs a fixed chain of checks on the signed
  cookie `user|timestamp|signature`:
  - the cookie is present;
  - it splits into three pieces;
  - no piece is blank;
  - the timestamp is a `long`;
  - the cookie has not expired;
  - the signature matches, ignoring case;
  - the user is on the route list or the global allow-list.

  On success it records the identity, optionally appends a renewed cookie,
  and calls the next middleware. Every failure gets one uniform denial
  response.
- **Cookie options** (`CookieAuthorizationOptions`): the defaults, the
  case-insensitive `AllowedUsers` set, `Validate`, and the two
  `UseCookieAuthorization` registrations.

## Layout

Modules:
- `Base`: options, results, 64-bit wrap-around, and the cryptographic primitives as uninterpreted functions.
- `Text`: .NET string operations (white space, OrdinalIgnoreCase, `Split`/`Join`, `long` formatting and parsing).
- `Ordinal`: `StringComparer.Ordinal` and the sort.
- `Http`: request, response context and cookie attributes.
- `MakeSignAuthorization`: the signers.
- `SignMiddleware`: the query/header authorizer.
- `CookieOptions`: the cookie options.
- `CookieMiddleware`: the cookie authorizer.

Each middleware's decision is a specification function:
- `SignMiddleware.Decide` gives an `Outcome` (`PassThrough`, `Allowed`, `Denied` or `Faulted`).
- `CookieMiddleware.Check` gives a `Verdict` (`NotMarked`, `Deny(reason)` or `Accept(user)`).

Each middleware's `Invoke` is an imperative method on a `HttpContext` object. Its postcondition states the new response state for every verdict. The URL signer is specified by `MakeSignAuthorization.SignedUri`.

## Model

| member | source | states |
|---|---|---|
| Base.Wrap64 | SignAuthorization/CookieAuthorizationMiddleware.cs:79-80 | the `long` subtraction `now - timeStamp`: congruent to the exact difference modulo 2^64, and equal to it whenever that difference fits in a `long` |
| Text.JoinSplit | SignAuthorization/CookieAuthorizationMiddleware.cs:56 | `Split` with `StringSplitOptions.None` keeps every piece, empty ones included: joining the pieces with the separator gives back the text |
| Text.SplitCharConcat | SignAuthorization/CookieAuthorizationMiddleware.cs:56 | with a one-character separator, the split of `x + sep + y` is the split of `x` followed by the split of `y` |
| Text.Split | SignAuthorization/CookieAuthorizationMiddleware.cs:56 | `Split` with one separator and `StringSplitOptions.None` gives at least one piece, and the pieces joined with the separator give back the text. An empty separator gives the text unsplit |
| Text.ParseLong | SignAuthorization/CookieAuthorizationMiddleware.cs:72 | `long.TryParse` succeeds exactly when the text is an integer within the `long` range, and then gives that integer |
| Text.ParseLongOfToString | SignAuthorization/CookieAuthorizationMiddleware.cs:73 | `long.TryParse` accepts every `long`'s `ToString()` and gives back that value, so the timestamp the renewal writes (line 113) is read back unchanged |
| Text.ParseIntegerOfToString | SignAuthorization/SignAuthorizationMiddleware.cs:54 | the timestamp text the URL signer writes converts back to the same number |
| Ordinal.SortOrdinal | SignAuthorization/MakeSignAuthorization.cs:39 | the list sorted with `StringComparer.Ordinal`: ordinally sorted, and a permutation of the input |
| Ordinal.SortedUnique | SignAuthorization/MakeSignAuthorization.cs:39 | two ordinally sorted lists holding the same strings are equal, so the sorted order is unique |
| Ordinal.SortIgnoresOrder | SignAuthorization/MakeSignAuthorization.cs:24-39 | the sorted field list depends only on which values are present, not on the order they were added |
| Http.ValuesOf | SignAuthorization/SignAuthorizationMiddleware.cs:101-105 | `TryGetValue` gives the values stored under the name when it succeeds, and `StringValues.Empty` when it fails |
| Http.CookieOf | SignAuthorization/CookieAuthorizationMiddleware.cs:50 | `Cookies.TryGetValue` succeeds exactly when a cookie of that name, ignoring case, is present, and then gives that cookie's value |
| Http.ValuesIgnoreCase | SignAuthorization/SignAuthorizationMiddleware.cs:97-107 | header and query names differing only in case give the same values |
| MakeSignAuthorization.MakeSign | SignAuthorization/MakeSignAuthorization.cs:22-46 | the signature is SHA-1 over the UTF-8 of the ordinally sorted fields, joined with no separator. The fields are token, timestamp and nonce, plus extra and path when non-empty. The result is 40 lower-case hex characters |
| MakeSignAuthorization.AlwaysSigned | SignAuthorization/MakeSignAuthorization.cs:24-37 | token, timestamp and nonce are always among the signed fields. Extra and path are added exactly when they are non-empty |
| MakeSignAuthorization.EmptyOptionalIsOmitted | SignAuthorization/MakeSignAuthorization.cs:22-37 | passing `""` for extra and path signs the same as signing the three required fields alone |
| MakeSignAuthorization.SwapExtraAndPath | SignAuthorization/MakeSignAuthorization.cs:39-41 | swapping the extra and path arguments leaves the signature unchanged (the unit test passes them swapped) |
| MakeSignAuthorization.ConcatenationIsAmbiguous | SignAuthorization/MakeSignAuthorization.cs:41 | because the fields are joined with no separator, two different field sets can sign alike: timestamp "1" with nonce "23", and "12" with "3", under token "x" |
| MakeSignAuthorization.HexLower | SignAuthorization/MakeSignAuthorization.cs:44 | `{0:x2}` per byte: two lower-case hex characters per digest byte |
| MakeSignAuthorization.HexRoundTrip | SignAuthorization/MakeSignAuthorization.cs:44 | the hex rendering is injective: parsing it back gives the digest bytes |
| MakeSignAuthorization.MakeCookieValue | SignAuthorization/CookieAuthorizationMiddleware.cs:114 | the cookie value is the user name, the timestamp and the cookie signature, joined with the separator |
| MakeSignAuthorization.CookieValueSplits | SignAuthorization/CookieAuthorizationMiddleware.cs:56-65 | a cookie value made by `MakeCookieValue` with a one-character separator splits back into user, timestamp and signature, when none of them contains the separator |
| MakeSignAuthorization.CookieValueWithSeparatorInName | SignAuthorization/CookieAuthorizationMiddleware.cs:56-61 | a user name containing the separator makes the cookie split into more than three pieces |
| MakeSignAuthorization.DefaultSignOptions | SignAuthorization/SignAuthorizationOptions.cs:11-46 | the defaults: the token "SignAuthorizationMiddleware", no path signing, parameter names "timestamp", "nonce" and "signature", and the standard unauthorized body |
| MakeSignAuthorization.QueryOf | SignAuthorization/MakeSignAuthorization.cs:67 | an absolute URI's query has its leading '?' characters trimmed. A relative URI's query is the text after the first '?' up to the next one, so it holds no '?' |
| MakeSignAuthorization.PathOf | SignAuthorization/MakeSignAuthorization.cs:80 | a relative URI's path is a prefix of its original text and holds no '?' |
| MakeSignAuthorization.Lookup | SignAuthorization/MakeSignAuthorization.cs:73-74 | the indexer gives a value exactly when some parameter's name equals the name ignoring case |
| MakeSignAuthorization.SetValue | SignAuthorization/MakeSignAuthorization.cs:98-101 | after `query[name] = value` the indexer gives that value. The collection grows by one entry exactly when the name was absent |
| MakeSignAuthorization.FormatQuery | SignAuthorization/MakeSignAuthorization.cs:102 | an empty collection re-emits as the empty text |
| MakeSignAuthorization.FormatQuerySplits | SignAuthorization/MakeSignAuthorization.cs:102 | when no pair text holds '&', splitting the re-emitted query on '&' gives back its pairs, in order |
| MakeSignAuthorization.LookupJoinsValues | SignAuthorization/MakeSignAuthorization.cs:73-74 | the `NameValueCollection` indexer gives all the values of the parameter, joined with ',' |
| MakeSignAuthorization.QueryValuesAfterSet | SignAuthorization/MakeSignAuthorization.cs:98-101 | after `query[name] = value`, the name has exactly that one value and every other name keeps its values |
| MakeSignAuthorization.SingleExtraValueAgrees | SignAuthorization/MakeSignAuthorization.cs:72-74 | when the extra parameter has at most one value, signing its joined values and signing its first value give the same URL |
| MakeSignAuthorization.MakeSignUrlForUri | SignAuthorization/MakeSignAuthorization.cs:55-104 | a null URI or null options throws `ArgumentNullException` naming that parameter. Otherwise the result is `SignedUri` for the clock reading and nonce |
| MakeSignAuthorization.MakeSignUrl | SignAuthorization/MakeSignAuthorization.cs:112-128 | a null or white-space URL throws `ArgumentNullException("url")`, then null options throw `ArgumentNullException("options")`. A URL `Uri.TryCreate` rejects throws "Invalid URL format." Otherwise the URI overload's result is returned |
| MakeSignAuthorization.ExtraParameterRequired | SignAuthorization/MakeSignAuthorization.cs:70-79 | signing fails exactly when an extra parameter is configured and the URL's query has no value, or an empty one, for it. The failure is then the `ArgumentException` of line 78 |
| MakeSignAuthorization.RelativePathAndQuery | SignAuthorization/MakeSignAuthorization.cs:67-84 | for a relative `path?query?rest`, the path is the text before the first '?' and the query is the text between the first and second '?' |
| MakeSignAuthorization.RelativeWithoutQuery | SignAuthorization/MakeSignAuthorization.cs:67-82 | a relative URL without '?' is all path, with an empty query |
| MakeSignAuthorization.InjectAppends | SignAuthorization/MakeSignAuthorization.cs:98-102 | setting three new, distinct parameters appends their three pairs to the re-emitted query text |
| MakeSignAuthorization.SignedUrlWithoutQuery | SignAuthorization/MakeSignAuthorization.cs:64-103 | a relative URL without a query, such as "/" or "/abc", signs as the path, '?' and the timestamp, nonce and signature pairs, the signature covering no extra value. With an extra parameter configured, signing fails |
| MakeSignAuthorization.SignedUrlKeepsPrefix | SignAuthorization/MakeSignAuthorization.cs:82-103 | when the query holds no '?', re-emits unchanged, and lacks the three (distinct) parameter names, and the path is kept by the builder: a signed relative URL `path?query` starts with the original `path?query` and ends with the timestamp, nonce and signature pairs under the configured names. The signature covers the path exactly when WithPath is set |
| SignMiddleware.ExtraValue | SignAuthorization/SignAuthorizationMiddleware.cs:60-73 | the signed extra value: `""` without an extra parameter, the first supplied value when there is one, and `"Err."` when none is supplied |
| SignMiddleware.GetHeaderValue | SignAuthorization/SignAuthorizationMiddleware.cs:97-107 | with UseHeader the values come from the headers, otherwise from the query, under the name ignoring case |
| SignMiddleware.ToNumber | SignAuthorization/SignAuthorizationMiddleware.cs:54 | an empty text does not convert, and a text of decimal digits converts to its value |
| SignMiddleware.Decide | SignAuthorization/SignAuthorizationMiddleware.cs:32-94 | an unmarked endpoint passes through. A marked one with all three parameters faults exactly when the timestamp does not convert. It is allowed exactly when the age is at most Expire and the first signature equals the one recomputed from the first timestamp and nonce. Every other case is denied |
| SignMiddleware.SignAuthorizationMiddleware.Reject | SignAuthorization/SignAuthorizationMiddleware.cs:87-90 | a denial sets status 401, whatever the options say, sets the JSON content type and writes the serialized `UnauthorizedBack` |
| SignMiddleware.SignAuthorizationMiddleware.Invoke | SignAuthorization/SignAuthorizationMiddleware.cs:32-94 | an unmarked endpoint, or an accepted request, calls the next middleware once and writes nothing. A denial writes the 401 response and does not call the next middleware. A non-numeric timestamp throws and leaves the response untouched. User, items and cookies never change |
| SignMiddleware.SingleCredentialSource | SignAuthorization/SignAuthorizationMiddleware.cs:97-107 | with UseHeader the query is never consulted; without it the headers are never consulted |
| SignMiddleware.OnlyFirstValuesMatter | SignAuthorization/SignAuthorizationMiddleware.cs:45-77 | requests that agree on the presence and first value of each parameter are decided alike |
| SignMiddleware.MissingCredentialDenied | SignAuthorization/SignAuthorizationMiddleware.cs:45-50 | on a marked endpoint, a request without a timestamp, nonce or signature is denied |
| SignMiddleware.NonNumericTimestampThrows | SignAuthorization/SignAuthorizationMiddleware.cs:53-54 | a timestamp that is not an integer text throws before the age or the signature is checked |
| SignMiddleware.UpperCaseSignatureRejected | SignAuthorization/SignAuthorizationMiddleware.cs:77 | the comparison is exact and case-sensitive: a supplied signature with an upper-case letter is never accepted |
| SignMiddleware.MissingExtraSignsSentinel | SignAuthorization/SignAuthorizationMiddleware.cs:61-73 | a request accepted without its configured extra parameter carried the signature over `"Err."` |
| SignMiddleware.FreshnessWindow | SignAuthorization/SignAuthorizationMiddleware.cs:53-54 | a correctly signed request is accepted exactly while `now - timestamp <= Expire`. An age equal to Expire, or a future timestamp, passes |
| SignMiddleware.AllowedNeedsSignature | SignAuthorization/SignAuthorizationMiddleware.cs:74-81 | a request goes on only when its first signature value equals the one recomputed from its first timestamp and nonce |
| SignMiddleware.SignedQueryValues | SignAuthorization/MakeSignAuthorization.cs:98-101 | the signed query holds exactly the timestamp, the nonce and the signature under their names, and the URL's own values under the extra name |
| SignMiddleware.SignedUrlAccepted | SignAuthorization/SignAuthorizationMiddleware.cs:53-77 | a URL signed over the first extra value, presented at its signed path, is accepted exactly while `now - t <= Expire` |
| SignMiddleware.RepeatedExtraSignedJoined | SignAuthorization/MakeSignAuthorization.cs:72-74 | with two values `a` and `b` for the extra parameter, the URL signer signs "a,b" while the middleware signs `a` |
| SignMiddleware.RepeatedExtraRejected | SignAuthorization/SignAuthorizationMiddleware.cs:60-77 | such a URL is signed but is not accepted by the middleware (unless SHA-1 collides on the two texts) |
| CookieOptions.CookieAuthorizationOptions.AddAllowedUser | SignAuthorization/CookieAuthorizationOptions.cs:68 | `AllowedUsers` compares with OrdinalIgnoreCase: after adding a user, exactly that user and the earlier ones are allowed, ignoring case. The set grows only when no entry equals the user ignoring case, and a set without case duplicates stays without them |
| CookieOptions.DefaultOptions | SignAuthorization/CookieAuthorizationOptions.cs:14-68 | the defaults: token, cookie name, separator "\|", Expire 3600, ReuseExpire, cookie attributes of `new CookieOptions()` (SameSite Unspecified) with HttpOnly and IsEssential set, the name claim type, the item key, and an empty allow-list |
| CookieOptions.Validate | SignAuthorization/CookieAuthorizationOptions.cs:74-100 | returns normally exactly for valid options. Otherwise it throws for the first failed check, in source order: token, cookie name or separator empty; Expire not positive; item key blank |
| CookieOptions.DefaultsValid | SignAuthorization/CookieAuthorizationOptions.cs:24-63 | the default options pass `Validate` |
| CookieOptions.WhiteSpaceOnlyRejectedForItemKey | SignAuthorization/CookieAuthorizationOptions.cs:76-99 | any non-empty token, cookie name or separator passes, blank ones included, while every blank item key is rejected |
| CookieOptions.UseCookieAuthorizationDefault | SignAuthorization/CookieAuthorizationMiddlewareExtensions.cs:12-15 | the default registration skips `Validate` and registers exactly the default options for the given status code and JSON body, which are valid |
| CookieOptions.UseCookieAuthorization | SignAuthorization/CookieAuthorizationMiddlewareExtensions.cs:22-28 | the configuring registration succeeds exactly when the configured options are valid. Otherwise it fails with `Validate`'s error |
| CookieMiddleware.CloneCookieOptions | SignAuthorization/CookieAuthorizationMiddleware.cs:123-136 | the eight listed attributes are copied; the others take the values of a new `CookieOptions` |
| CookieMiddleware.DenialBody | SignAuthorization/CookieAuthorizationMiddleware.cs:143-150 | the body is `UnauthorizedBackJson` when non-empty, otherwise the serialized `UnauthorizedBack` |
| CookieMiddleware.Check | SignAuthorization/CookieAuthorizationMiddleware.cs:35-105 | the verdict is unmarked exactly when the endpoint has no `[CookieAuthorize]`. It is the missing-cookie denial exactly when a marked request has no cookie of that name. An acceptance means the cookie split into three pieces, its first piece is the accepted user, its signature matched ignoring case, and the allow-lists admit the user |
| CookieMiddleware.RenewalCookie | SignAuthorization/CookieAuthorizationMiddleware.cs:111-118 | the renewed cookie has the configured name, expires at now + Expire, and its value is the user, the timestamp `now` and their cookie signature, joined with the separator |
| CookieMiddleware.CookieAuthorizationMiddleware.Deny | SignAuthorization/CookieAuthorizationMiddleware.cs:138-151 | every denial sets `UnauthorizedStatusCode`, the JSON content type and the same body, whatever the reason, and changes nothing else |
| CookieMiddleware.CheckSigned | SignAuthorization/CookieAuthorizationMiddleware.cs:79-105 | after a well-formed cookie is taken apart, the request is accepted, for that user, exactly when its 64-bit age is at most Expire, the signature matches ignoring case, and the allow-lists admit the user. It is never the unmarked verdict |
| CookieMiddleware.CookieAuthorizationMiddleware.AuthorizeSigned | SignAuthorization/CookieAuthorizationMiddleware.cs:79-120 | the age, signature and allow-list checks lead to the `Deny` response or to the sign-in and one call of next, as `CheckSigned` decides |
| CookieMiddleware.CookieAuthorizationMiddleware.SignIn | SignAuthorization/CookieAuthorizationMiddleware.cs:107-118 | the user is recorded as the name claim and under the item key. A renewed cookie is appended exactly when ReuseExpire is set |
| CookieMiddleware.CookieAuthorizationMiddleware.Invoke | SignAuthorization/CookieAuthorizationMiddleware.cs:35-121 | an unmarked endpoint calls the next middleware once and changes nothing. A denial is the `Deny` response, without calling next. An acceptance records the user, appends the renewed cookie iff ReuseExpire, and calls next once, leaving the response untouched |
| CookieMiddleware.CookieRoundTrip | SignAuthorization/CookieAuthorizationMiddleware.cs:50-105 | for a one-character separator that is neither a digit nor '-' and occurs in neither the user name nor the signature, and a non-blank user name and signature: a cookie made by `MakeCookieValue` is denied as expired when its 64-bit age exceeds Expire. Otherwise it is accepted exactly when the user passes the allow-lists, and denied as not allowed when not |
| CookieMiddleware.CheckOfSignedParts | SignAuthorization/CookieAuthorizationMiddleware.cs:56-105 | three non-blank pieces with a `long` timestamp and the matching signature pass every check before the age |
| CookieMiddleware.CookieExpiryBoundary | SignAuthorization/CookieAuthorizationMiddleware.cs:79-84 | with Expire 3600, a cookie stamped at T is accepted at T+3600 and denied as expired at T+3601 |
| CookieMiddleware.SmallestTimestampNeverExpires | SignAuthorization/CookieAuthorizationMiddleware.cs:79-80 | the age wraps: a cookie stamped with the smallest `long` has a negative age at every non-negative clock reading, so it never expires |
| CookieMiddleware.SeparatorInUserNameDenied | SignAuthorization/CookieAuthorizationMiddleware.cs:56-61 | a cookie for a user name containing the separator is always denied for its format |
| CookieMiddleware.EmptySeparatorDenied | SignAuthorization/CookieAuthorizationMiddleware.cs:56-60 | with an empty separator, .NET skips the empty entry of the separator array and does not split the cookie, so every present cookie is a format error |
| CookieMiddleware.MissingCookieDenied | SignAuthorization/CookieAuthorizationMiddleware.cs:50-54 | a marked endpoint without the cookie denies |
| CookieMiddleware.MalformedCookieDenied | SignAuthorization/CookieAuthorizationMiddleware.cs:56-77 | a split that does not give three pieces, a blank piece, or a timestamp `long.TryParse` rejects, each denies for that reason |
| CookieMiddleware.SignatureBeforeAllowList | SignAuthorization/CookieAuthorizationMiddleware.cs:86-105 | a signature error is reported whatever the allow-lists hold. A user denial implies the signature matched |
| CookieMiddleware.RouteListOverridesGlobal | SignAuthorization/CookieAuthorizationMiddleware.cs:93-105 | a non-empty route user list makes `AllowedUsers` irrelevant |
| CookieMiddleware.AllowListIgnoresCase | SignAuthorization/CookieAuthorizationMiddleware.cs:93-105 | allow-list membership ignores case, and with both lists empty every user passes |
| CookieMiddleware.RenewalKeepsAttributes | SignAuthorization/CookieAuthorizationMiddleware.cs:111-118 | when the configured attributes have Partitioned unset and no Extensions (which `CloneCookieOptions` drops): the renewed cookie has the configured name, and the configured attributes with only the expiry replaced by now + Expire |
| CookieMiddleware.RenewedCookieAccepted | SignAuthorization/CookieAuthorizationMiddleware.cs:111-117 | a renewed cookie presented later is accepted for the same user exactly while its age is at most Expire |

## Left out

- SHA-1, UTF-8 encoding and `MakeCookieSign` are uninterpreted functions. A digest is any 20 bytes.
- The bodies of `MakeCookieSign` and `MakeCookieValue` are not part of this model. `MakeCookieValue` is taken to be `user + separator + timestamp + separator + MakeCookieSign(token, user, timestamp)`, the layout the cookie middleware takes apart.
- The clock (`DateTimeOffset.Now`) and the nonce (`Guid.NewGuid`) are parameters.
  - The cookie middleware reads the clock three times: for the age check (line 79), the renewed timestamp (line 113) and the renewed expiry (line 116). The model uses one reading for all three.
- `Uri.TryCreate`, `HttpUtility.ParseQueryString`, the text of a query pair, the `UriBuilder.Path` setter and absolute-URI rendering are uninterpreted functions.
  - The fragment case `"/?#ext=1"` depends on them and is not modelled.
  - Absolute URLs are signed through the same abstract rendering.
- `Convert.ToDouble` is modelled as an integer parser, and both `Expire` values are integers. Fractional or exponent timestamps, a fractional Expire, and the `long`-to-`double` rounding of ages above 2^53 are not modelled.
- `SignAuthorizationOptions.TimeOut` is declared but never read. `Expire`, `UseHeader` and `nExtra` on the sign options, and `UnauthorizedStatusCode` and `UnauthorizedBackJson` on the cookie options, are used, but their declarations are not part of this model, so their defaults are parameters.
- SignMiddleware.NonNumericTimestampThrows: every timestamp that is not an integer text is modelled as a `Convert.ToDouble` exception. `Convert.ToDouble` also accepts thousands separators ("1,700,000,000") and the symbols "NaN" and "Infinity". With "NaN" the age comparison is false and the request is denied with 401. With "Infinity" the request is never stale and goes on to the signature check.
- `new CookieOptions()` takes the defaults of ASP.NET Core 8 (SameSite Unspecified, `Partitioned` present). Earlier framework versions are not modelled.
- `AllowedUsers` is a get-only `HashSet` with OrdinalIgnoreCase. Callers can only add or remove entries. Options built directly in the model may hold two entries equal ignoring case. The middleware reads only whether the set is empty and whether it holds the user ignoring case, and both answers are unaffected.
- OrdinalIgnoreCase is modelled as ASCII case folding. Non-ASCII case pairs are not folded.
- A string scalar above U+FFFF is ordered by its UTF-16 surrogate encoding, but not otherwise split into code units.
- The `null` context checks, logging, `JsonSerializer` (each `UnauthorizedBack` is its serialized text), `async` and the endpoint metadata lookup are left out. Endpoints are a record of the two attributes.
- `SignAuthorizeAttribute` and `SignAuthorizationMiddlewareExtensions` are marker and wiring code. The demo applications and unit tests are not modelled.
- `CookieAuthorizeAttribute`'s null user list becomes empty (its line 20). The model's endpoint record always holds a list.
- Query, header and cookie collections hold one entry per case-folded name. A second cookie with the same name is not modelled.
- The next middleware is a counter of calls; its own effects are not modelled.
- An exception in `SignAuthorizationMiddleware.Invoke` is its `threw` result. Exceptions from the URL signer and `Validate` are error values.
- `MakeSignAuthorization.MakeSignUrlForUri` signs the joined extra values, as the source does. The first-value signer is the separate definition `SignedUriFirstExtra` (see Findings).

## Findings

| source | as written | input that shows it | evidently intended | confidence | as-written member | corrected member |
|---|---|---|---|---|---|---|
| SignAuthorization/MakeSignAuthorization.cs:74 | `queryDictionary[nExtra]` joins every value of the extra parameter with ',' and signs that | `MakeSignUrl("/a?ext=1&ext=2", options with nExtra "ext")` signs extra "1,2", but the middleware (SignAuthorizationMiddleware.cs:66) signs "1" and rejects the URL | sign the first value, as the comment at line 72 says and as the middleware does | high; not executed | SignMiddleware.RepeatedExtraRejected | SignMiddleware.SignedUrlAccepted |
