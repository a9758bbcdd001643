/** SignAuthorization/MakeSignAuthorization.cs: the canonical signer `MakeSign`
    and the two `MakeSignUrl` overloads that append a signature to a URL. */
module MakeSignAuthorization {
  import opened Base
  import opened Text
  import opened Ordinal
  import opened Http

  // ---------------------------------------------------------------------
  // The canonical signer

  /** The strings `MakeSign` signs: token, timestamp and nonce always, the
      extra value and the path only when they are non-empty. */
  function SignedFields(token: string, timestamp: string, nonce: string,
                        extra: string, path: string): multiset<string>
  {
    multiset{token, timestamp, nonce}
    + (if extra != "" then multiset{extra} else multiset{})
    + (if path != "" then multiset{path} else multiset{})
  }

  /** `string.Join("", parts)`. */
  function Concat(parts: seq<string>): string
    decreases |parts|
  {
    if parts == [] then "" else parts[0] + Concat(parts[1..])
  }

  /** The text that is hashed: the fields in ordinal order, with no separator. */
  ghost function CanonicalText(fields: multiset<string>): string {
    Concat(SortedOf(fields))
  }

  /** The signature of a collection of fields: SHA-1 of the UTF-8 bytes of the
      canonical text, in lower-case hex. */
  ghost function SignatureOf(prims: Primitives, fields: multiset<string>): string {
    HexLower(prims.sha1(prims.utf8(CanonicalText(fields))))
  }

  predicate IsLowerHexChar(c: char) {
    '0' <= c <= '9' || 'a' <= c <= 'f'
  }

  predicate IsLowerHex(s: string) {
    forall i | 0 <= i < |s| :: IsLowerHexChar(s[i])
  }

  function HexDigit(v: int): (c: char)
    requires 0 <= v < 16
    ensures IsLowerHexChar(c)
  {
    if v < 10 then ('0' as int + v) as char else ('a' as int + v - 10) as char
  }

  /** The value of a lower-case hex digit; HexDigit is its inverse. */
  function HexValue(c: char): (v: int)
    requires IsLowerHexChar(c)
    ensures 0 <= v < 16 && HexDigit(v) == c
  {
    if c <= '9' then c as int - '0' as int else c as int - 'a' as int + 10
  }

  /** `string.Format("{0:x2}", b)` for each byte, joined: two lower-case hex
      digits per byte, high nibble first. */
  function HexLower(d: seq<byte>): (r: string)
    ensures |r| == 2 * |d| && IsLowerHex(r)
    decreases |d|
  {
    if d == [] then []
    else [HexDigit(d[0] / 16), HexDigit(d[0] % 16)] + HexLower(d[1..])
  }

  /** Reads lower-case hex back into bytes. */
  function ParseHex(s: string): Option<seq<byte>>
    decreases |s|
  {
    if |s| == 0 then Some([])
    else if |s| < 2 || !IsLowerHexChar(s[0]) || !IsLowerHexChar(s[1]) then None
    else match ParseHex(s[2..])
      case None => None
      case Some(rest) => Some([(HexValue(s[0]) * 16 + HexValue(s[1])) as byte] + rest)
  }

  /** The hex rendering loses nothing: it reads back to the digest bytes. */
  lemma {:induction false} HexRoundTrip(d: seq<byte>)
    ensures ParseHex(HexLower(d)) == Some(d)
    decreases |d|
  {
    if d != [] {
      var s := HexLower(d);
      HexRoundTrip(d[1..]);
      assert s[2..] == HexLower(d[1..]);
      assert HexValue(s[0]) == d[0] / 16 && HexValue(s[1]) == d[0] % 16 by {
        assert HexDigit(HexValue(s[0])) == s[0] == HexDigit(d[0] / 16);
        assert HexDigit(HexValue(s[1])) == s[1] == HexDigit(d[0] % 16);
      }
      assert d == [d[0]] + d[1..];
    }
  }

  /** `MakeSign(sToken, sTimeStamp, sNonce, sExtra, sPath)`. The list is grown
      field by field and sorted, as in the source; the result depends only on
      the multiset of included fields and is 40 lower-case hex characters. */
  method MakeSign(prims: Primitives, sToken: string, sTimeStamp: string, sNonce: string,
                  sExtra: string, sPath: string) returns (sign: string)
    ensures sign == SignatureOf(prims, SignedFields(sToken, sTimeStamp, sNonce, sExtra, sPath))
    ensures |sign| == 40 && IsLowerHex(sign)
  {
    var parameterList := [sToken, sTimeStamp, sNonce];
    ghost var required := multiset{sToken, sTimeStamp, sNonce};
    assert multiset(parameterList) == required;
    if sExtra != "" {
      parameterList := parameterList + [sExtra];
    }
    ghost var withExtra := required + (if sExtra != "" then multiset{sExtra} else multiset{});
    assert multiset(parameterList) == withExtra;
    if sPath != "" {
      parameterList := parameterList + [sPath];
    }
    ghost var collected := parameterList;
    assert multiset(collected) == withExtra + (if sPath != "" then multiset{sPath} else multiset{});
    parameterList := SortOrdinal(parameterList);
    SortIsSortedOf(collected);
    var raw := Concat(parameterList);
    var encry := prims.sha1(prims.utf8(raw));
    sign := HexLower(encry);
  }

  /** Token, timestamp and nonce are always signed; the extra value and the
      path are signed exactly when they are non-empty. */
  lemma AlwaysSigned(token: string, timestamp: string, nonce: string, extra: string, path: string)
    ensures var m := SignedFields(token, timestamp, nonce, extra, path);
            && token in m && timestamp in m && nonce in m
            && |m| == 3 + (if extra != "" then 1 else 0) + (if path != "" then 1 else 0)
            && (extra != "" ==> extra in m) && (path != "" ==> path in m)
  {
  }

  /** The extra value and the path play interchangeable roles: swapping the
      two arguments gives the same signature. */
  lemma SwapExtraAndPath(prims: Primitives, token: string, timestamp: string, nonce: string,
                         extra: string, path: string)
    ensures SignatureOf(prims, SignedFields(token, timestamp, nonce, extra, path))
         == SignatureOf(prims, SignedFields(token, timestamp, nonce, path, extra))
  {
    assert SignedFields(token, timestamp, nonce, extra, path)
        == SignedFields(token, timestamp, nonce, path, extra);
  }

  /** An empty extra value or path is the same as leaving it out. */
  lemma EmptyOptionalIsOmitted(prims: Primitives, token: string, timestamp: string, nonce: string)
    ensures SignatureOf(prims, SignedFields(token, timestamp, nonce, "", ""))
         == SignatureOf(prims, multiset{token, timestamp, nonce})
  {
    assert SignedFields(token, timestamp, nonce, "", "") == multiset{token, timestamp, nonce};
  }

  /** Three strings already in ordinal order are their own canonical arrangement. */
  lemma SortedOfThree(a: string, b: string, c: string)
    requires OrdinalLe(a, b) && OrdinalLe(b, c) && OrdinalLe(a, c)
    ensures SortedOf(multiset{a, b, c}) == [a, b, c]
  {
    var s := [a, b, c];
    assert Sorted(s);
    assert multiset(s) == multiset{a, b, c};
    SortedUnique(SortedOf(multiset{a, b, c}), s);
  }

  /** The fields are joined with no separator, so different field values can
      sign alike: timestamp "1" with nonce "23" and timestamp "12" with nonce
      "3" both hash the text "123x" under token "x". */
  lemma ConcatenationIsAmbiguous(prims: Primitives)
    ensures SignedFields("x", "1", "23", "", "") != SignedFields("x", "12", "3", "", "")
    ensures SignatureOf(prims, SignedFields("x", "1", "23", "", ""))
         == SignatureOf(prims, SignedFields("x", "12", "3", "", ""))
  {
    FieldsDiffer();
    CanonicalOfFirst();
    CanonicalOfSecond();
  }

  lemma FieldsDiffer()
    ensures "1" in SignedFields("x", "1", "23", "", "")
    ensures "1" !in SignedFields("x", "12", "3", "", "")
  {
  }

  /** Three strings in ordinal order are hashed in that order. */
  lemma CanonicalOfThree(a: string, b: string, c: string)
    requires OrdinalLe(a, b) && OrdinalLe(b, c) && OrdinalLe(a, c)
    ensures CanonicalText(multiset{a, b, c}) == a + b + c
  {
    SortedOfThree(a, b, c);
    ConcatThree(a, b, c);
  }

  lemma ConcatThree(a: string, b: string, c: string)
    ensures Concat([a, b, c]) == a + b + c
  {
    var s := [a, b, c];
    assert s[1..] == [b, c] && [b, c][1..] == [c] && [c][1..] == [];
    assert Concat([c]) == c;
  }

  lemma CanonicalOfFirst()
    ensures CanonicalText(SignedFields("x", "1", "23", "", "")) == "123x"
  {
    OrderOfFirst();
    CanonicalOfFields("x", "1", "23");
  }

  lemma OrderOfFirst()
    ensures OrdinalLe("1", "23") && OrdinalLe("23", "x") && OrdinalLe("1", "x")
  {
  }

  lemma CanonicalOfSecond()
    ensures CanonicalText(SignedFields("x", "12", "3", "", "")) == "123x"
  {
    OrderOfSecond();
    CanonicalOfFields("x", "12", "3");
  }

  lemma OrderOfSecond()
    ensures OrdinalLe("12", "3") && OrdinalLe("3", "x") && OrdinalLe("12", "x")
  {
  }

  /** Without extra and path, fields in the order timestamp, nonce, token are
      hashed in that order. */
  lemma CanonicalOfFields(token: string, timestamp: string, nonce: string)
    requires OrdinalLe(timestamp, nonce) && OrdinalLe(nonce, token) && OrdinalLe(timestamp, token)
    ensures CanonicalText(SignedFields(token, timestamp, nonce, "", "")) == timestamp + nonce + token
  {
    assert SignedFields(token, timestamp, nonce, "", "") == multiset{timestamp, nonce, token};
    CanonicalOfThree(timestamp, nonce, token);
  }

  // ---------------------------------------------------------------------
  // Cookie values

  /** `MakeCookieValue(sToken, userName, timeStampText, separator)`, whose body
      is not part of this model: taken to be the user name, the timestamp text
      and their `MakeCookieSign` signature, joined by the separator, the layout
      the cookie middleware takes apart. */
  function MakeCookieValue(prims: Primitives, token: string, userName: string, timestamp: string,
                           separator: string): (v: string)
    ensures v == Join([userName, timestamp, prims.cookieSign(token, userName, timestamp)], separator)
  {
    var sign := prims.cookieSign(token, userName, timestamp);
    assert [userName, timestamp, sign][1..] == [timestamp, sign] && [timestamp, sign][1..] == [sign];
    assert Join([timestamp, sign], separator) == timestamp + separator + sign;
    userName + separator + timestamp + separator + prims.cookieSign(token, userName, timestamp)
  }

  /** Three pieces without the separator character split back apart. */
  lemma SplitThree(a: string, b: string, d: string, c: char)
    requires c !in a && c !in b && c !in d
    ensures SplitOn(a + [c] + b + [c] + d, [c]) == [a, b, d]
  {
    var tail := b + [c] + d;
    SplitCharConcat(b, c, d);
    SplitCharAbsent(b, c);
    SplitCharAbsent(d, c);
    assert SplitOn(tail, [c]) == [b, d];
    assert a + [c] + b + [c] + d == a + [c] + tail;
    SplitCharConcat(a, c, tail);
    SplitCharAbsent(a, c);
  }

  /** A cookie value splits back into its user name, timestamp and signature
      when the one-character separator occurs in none of them. */
  lemma CookieValueSplits(prims: Primitives, token: string, userName: string, timestamp: string, c: char)
    requires c !in userName && c !in timestamp && c !in prims.cookieSign(token, userName, timestamp)
    ensures Split(MakeCookieValue(prims, token, userName, timestamp, [c]), [c])
         == [userName, timestamp, prims.cookieSign(token, userName, timestamp)]
  {
    SplitThree(userName, timestamp, prims.cookieSign(token, userName, timestamp), c);
  }

  /** A user name holding the separator character gives more than three pieces. */
  lemma CookieValueWithSeparatorInName(prims: Primitives, token: string, userName: string,
                                       timestamp: string, c: char)
    requires c in userName
    ensures |Split(MakeCookieValue(prims, token, userName, timestamp, [c]), [c])| > 3
  {
    var sign := prims.cookieSign(token, userName, timestamp);
    assert MakeCookieValue(prims, token, userName, timestamp, [c])
        == userName + [c] + (timestamp + [c] + sign);
    SplitCharConcat(userName, c, timestamp + [c] + sign);
    SplitCharConcat(timestamp, c, sign);
    SplitCharContaining(userName, c);
  }

  // ---------------------------------------------------------------------
  // URL signing

  /** The signing options `MakeSignUrl` and the signature middleware read
      (SignAuthorizationOptions). `TimeOut` is declared there but never read. */
  datatype SignOptions = SignOptions(
    sToken: string,
    withPath: bool,
    expire: int,
    nTimeStamp: string,
    nNonce: string,
    nSign: string,
    nExtra: string,           // "" when no extra parameter is configured
    useHeader: bool,
    unauthorizedBack: string  // the JSON serialization of UnauthorizedBack
  )

  /** `new SignAuthorizationOptions()`. The declarations of `Expire`,
      `UseHeader` and `nExtra` are not part of this model, so their defaults
      are parameters. */
  function DefaultSignOptions(expire: int, useHeader: bool, nExtra: string): (o: SignOptions)
    ensures o.sToken == "SignAuthorizationMiddleware" && !o.withPath
    ensures o.nTimeStamp == "timestamp" && o.nNonce == "nonce" && o.nSign == "signature"
    ensures o.unauthorizedBack == DefaultUnauthorizedBack
  {
    SignOptions("SignAuthorizationMiddleware", false, expire, "timestamp", "nonce", "signature",
                nExtra, useHeader, DefaultUnauthorizedBack)
  }

  /** A parsed `Uri`: an absolute one with its components (`Query` keeps its
      leading '?'), or a relative one, of which only the original text is used. */
  datatype Uri =
    | AbsoluteUri(scheme: string, host: string, port: int, absolutePath: string, query: string)
    | RelativeUri(originalString: string)

  /** A `NameValueCollection` from `HttpUtility.ParseQueryString`: each key once,
      in order of first appearance, with its values. */
  type QueryCollection = seq<(string, seq<string>)>

  /** The library parsing and formatting the URL signer relies on, as
      uninterpreted functions: `Uri.TryCreate(url, UriKind.RelativeOrAbsolute)`,
      `HttpUtility.ParseQueryString`, the text one key/value pair takes in
      `NameValueCollection.ToString()`, the path normalisation of the
      `UriBuilder.Path` setter, and `UriBuilder.ToString()` for an absolute URI. */
  datatype UrlLibrary = UrlLibrary(
    tryCreate: string -> Option<Uri>,
    parseQuery: string -> QueryCollection,
    formatPair: (string, string) -> string,
    builderPath: string -> string,
    formatAbsolute: (string, string, int, string, string) -> string
  )

  datatype UrlError =
    | ArgumentNull(paramName: string)   // ArgumentNullException
    | ExtraParameterMissing             // ArgumentException: nExtra set but absent from the URL
    | InvalidUrlFormat                  // ArgumentException: Uri.TryCreate failed

  function TrimStartChar(s: string, c: char): (t: string)
    ensures t == "" || t[0] != c
    ensures |t| <= |s| && t == s[|s| - |t|..]
    decreases |s|
  {
    if |s| > 0 && s[0] == c then TrimStartChar(s[1..], c) else s
  }

  /** The query text that is parsed and re-emitted (line 67). */
  function QueryOf(u: Uri): (q: string)
    ensures u.AbsoluteUri? ==> q == "" || q[0] != '?'
    ensures u.RelativeUri? ==> '?' !in q
  {
    match u
    case AbsoluteUri(_, _, _, _, query) => TrimStartChar(query, '?')
    case RelativeUri(original) =>
      if '?' in original then
        SplitCharContaining(original, '?');
        SplitCharPiecesFree(original, '?');
        SplitOn(original, "?")[1]
      else ""
  }

  /** The path that is kept and, with WithPath, signed (line 82). */
  function PathOf(u: Uri): (p: string)
    ensures u.RelativeUri? ==> '?' !in p && p <= u.originalString
  {
    match u
    case AbsoluteUri(_, _, _, path, _) => path
    case RelativeUri(original) => SplitCharPiecesFree(original, '?'); SplitOn(original, "?")[0]
  }

  /** `collection[name]`: the values of the first key equal to `name` ignoring
      case, joined with ','; None (null) when there is no such key. */
  function Lookup(q: QueryCollection, name: string): (r: Option<string>)
    ensures r.Some? <==> exists i | 0 <= i < |q| :: EqualsIgnoreCase(q[i].0, name)
    decreases |q|
  {
    if q == [] then None
    else if EqualsIgnoreCase(q[0].0, name) then Some(Join(q[0].1, ","))
    else Lookup(q[1..], name)
  }

  /** `collection[name] = value`: replaces the values of an existing key, in
      place and keeping its spelling, or appends a new key. */
  function SetValue(q: QueryCollection, name: string, value: string): (r: QueryCollection)
    ensures Lookup(r, name) == Some(value)
    ensures |r| == |q| + (if Lookup(q, name).Some? then 0 else 1)
    decreases |q|
  {
    if q == [] then [(name, [value])]
    else if EqualsIgnoreCase(q[0].0, name) then [(q[0].0, [value])] + q[1..]
    else [q[0]] + SetValue(q[1..], name, value)
  }

  /** `collection.GetValues(name)`: the values of the first key equal to
      `name` ignoring case, none when there is no such key. */
  function QueryValues(q: QueryCollection, name: string): seq<string>
    decreases |q|
  {
    if q == [] then []
    else if EqualsIgnoreCase(q[0].0, name) then q[0].1
    else QueryValues(q[1..], name)
  }

  /** The indexer joins all the values of a key with ','. */
  lemma {:induction false} LookupJoinsValues(q: QueryCollection, name: string)
    ensures Lookup(q, name).Some? ==> Lookup(q, name).value == Join(QueryValues(q, name), ",")
    ensures QueryValues(q, name) != [] ==> Lookup(q, name).Some?
    decreases |q|
  {
    if q != [] && !EqualsIgnoreCase(q[0].0, name) {
      LookupJoinsValues(q[1..], name);
    }
  }

  /** After `collection[name] = value`, `name` has exactly that value and every
      other name keeps its values. */
  lemma {:induction false} QueryValuesAfterSet(q: QueryCollection, name: string, value: string, other: string)
    ensures QueryValues(SetValue(q, name, value), other)
         == if EqualsIgnoreCase(name, other) then [value] else QueryValues(q, other)
    decreases |q|
  {
    if q != [] && !EqualsIgnoreCase(q[0].0, name) {
      QueryValuesAfterSet(q[1..], name, value, other);
    }
  }

  function PairTexts(lib: UrlLibrary, q: QueryCollection): seq<string>
    decreases |q|
  {
    if q == [] then []
    else
      var (key, values) := q[0];
      seq(|values|, i requires 0 <= i < |values| => lib.formatPair(key, values[i]))
      + PairTexts(lib, q[1..])
  }

  /** `NameValueCollection.ToString()`: every key/value pair, joined with '&'. */
  function FormatQuery(lib: UrlLibrary, q: QueryCollection): (text: string)
    ensures q == [] ==> text == ""
  {
    Join(PairTexts(lib, q), "&")
  }

  /** When no pair text holds '&', splitting the formatted query on '&' gives the pairs back. */
  lemma FormatQuerySplits(lib: UrlLibrary, q: QueryCollection)
    requires PairTexts(lib, q) != []
    requires forall i | 0 <= i < |PairTexts(lib, q)| :: '&' !in PairTexts(lib, q)[i]
    ensures SplitOn(FormatQuery(lib, q), "&") == PairTexts(lib, q)
  {
    SplitJoinChar(PairTexts(lib, q), '&');
  }

  /** The three parameters `MakeSignUrl` adds (lines 99-101). */
  function Inject(q: QueryCollection, o: SignOptions, timestamp: string, nonce: string,
                  sign: string): QueryCollection
  {
    SetValue(SetValue(SetValue(q, o.nTimeStamp, timestamp), o.nNonce, nonce), o.nSign, sign)
  }

  /** `uriBuilder.ToString()`: a relative URI keeps no scheme, host or port. */
  function Render(lib: UrlLibrary, u: Uri, path: string, query: string): string {
    match u
    case AbsoluteUri(scheme, host, port, _, _) =>
      lib.formatAbsolute(scheme, host, port, lib.builderPath(path), query)
    case RelativeUri(_) =>
      lib.builderPath(path) + (if query == "" then "" else "?" + query)
  }

  /** The extra value the URL supplies, `queryDictionary[nExtra] ?? ""`: all
      the values of the parameter, joined with ','. */
  function ExtraOf(lib: UrlLibrary, u: Uri, o: SignOptions): string {
    Lookup(lib.parseQuery(QueryOf(u)), o.nExtra).GetOr("")
  }

  /** The first value of the extra parameter, "" without one: what the
      comment at line 72 describes and what the middleware signs. */
  function FirstExtraOf(lib: UrlLibrary, u: Uri, o: SignOptions): string {
    var values := QueryValues(lib.parseQuery(QueryOf(u)), o.nExtra);
    if values == [] then "" else values[0]
  }

  /** The signature a URL gets with the given extra value. */
  ghost function UrlSignature(prims: Primitives, u: Uri, o: SignOptions, timestamp: string,
                              nonce: string, extra: string): string
  {
    SignatureOf(prims, SignedFields(o.sToken, timestamp, nonce, extra,
                                    if o.withPath then PathOf(u) else ""))
  }

  /** The query collection after the three parameters are set (lines 98-101). */
  ghost function SignedQuery(lib: UrlLibrary, prims: Primitives, u: Uri, o: SignOptions,
                             timestamp: string, nonce: string, extra: string): QueryCollection
  {
    Inject(lib.parseQuery(QueryOf(u)), o, timestamp, nonce, UrlSignature(prims, u, o, timestamp, nonce, extra))
  }

  /** Signing a URL with the given choice of extra value: fails when an extra
      parameter is configured and the value is empty. */
  ghost function SignUriWith(lib: UrlLibrary, prims: Primitives, u: Uri, o: SignOptions,
                             timestamp: string, nonce: string, extra: string): Result<string, UrlError>
  {
    if o.nExtra != "" && extra == "" then Err(ExtraParameterMissing)
    else Ok(Render(lib, u, PathOf(u), FormatQuery(lib, SignedQuery(lib, prims, u, o, timestamp, nonce, extra))))
  }

  /** What `MakeSignUrl(Uri, options)` returns for a given clock reading and
      nonce. The query re-parsed at line 98 is the builder's "?" + query, and
      ParseQueryString skips that leading '?'. */
  ghost function SignedUri(lib: UrlLibrary, prims: Primitives, u: Uri, o: SignOptions,
                           timestamp: string, nonce: string): Result<string, UrlError>
  {
    SignUriWith(lib, prims, u, o, timestamp, nonce, if o.nExtra != "" then ExtraOf(lib, u, o) else "")
  }

  /** URL signing that signs the first value of the extra parameter. */
  ghost function SignedUriFirstExtra(lib: UrlLibrary, prims: Primitives, u: Uri, o: SignOptions,
                                     timestamp: string, nonce: string): Result<string, UrlError>
  {
    SignUriWith(lib, prims, u, o, timestamp, nonce, if o.nExtra != "" then FirstExtraOf(lib, u, o) else "")
  }

  /** With at most one value for the extra parameter, the two readings agree. */
  lemma SingleExtraValueAgrees(lib: UrlLibrary, prims: Primitives, u: Uri, o: SignOptions,
                               timestamp: string, nonce: string)
    requires |QueryValues(lib.parseQuery(QueryOf(u)), o.nExtra)| <= 1
    ensures SignedUri(lib, prims, u, o, timestamp, nonce) == SignedUriFirstExtra(lib, prims, u, o, timestamp, nonce)
  {
    assert ExtraOf(lib, u, o) == FirstExtraOf(lib, u, o) by {
      var q := lib.parseQuery(QueryOf(u));
      LookupJoinsValues(q, o.nExtra);
      if Lookup(q, o.nExtra).Some? {
        var values := QueryValues(q, o.nExtra);
        if values == [] {
          assert Join(values, ",") == "";
        }
      }
    }
  }

  /** `MakeSignUrl(Uri uri, SignAuthorizationOptions options)`, with the clock
      reading `now` and the fresh nonce (`Guid.NewGuid().ToString("N")`) as inputs;
      null arguments are None. */
  method MakeSignUrlForUri(lib: UrlLibrary, prims: Primitives, uri: Option<Uri>,
                           options: Option<SignOptions>, now: Long, nonce: string)
    returns (r: Result<string, UrlError>)
    ensures uri.None? ==> r == Err(ArgumentNull("uri"))
    ensures uri.Some? && options.None? ==> r == Err(ArgumentNull("options"))
    ensures uri.Some? && options.Some? ==>
              r == SignedUri(lib, prims, uri.value, options.value, IntToString(now), nonce)
  {
    if uri.None? {
      return Err(ArgumentNull("uri"));
    }
    if options.None? {
      return Err(ArgumentNull("options"));
    }
    var u, o := uri.value, options.value;
    var sTimeStamp := IntToString(now);
    var sNonce := nonce;
    var sQuery := QueryOf(u);
    var sExtra := "";
    if o.nExtra != "" {
      var queryDictionary := lib.parseQuery(sQuery);
      sExtra := Lookup(queryDictionary, o.nExtra).GetOr("");
      if sExtra == "" {
        return Err(ExtraParameterMissing);
      }
    }
    var urlPath := PathOf(u);
    var sPath := if o.withPath then urlPath else "";
    var sSign := MakeSign(prims, o.sToken, sTimeStamp, sNonce, sExtra, sPath);
    var query := lib.parseQuery(sQuery);
    query := SetValue(query, o.nTimeStamp, sTimeStamp);
    query := SetValue(query, o.nNonce, sNonce);
    query := SetValue(query, o.nSign, sSign);
    r := Ok(Render(lib, u, urlPath, FormatQuery(lib, query)));
  }

  /** `MakeSignUrl(string url, SignAuthorizationOptions options)`. */
  method MakeSignUrl(lib: UrlLibrary, prims: Primitives, url: Option<string>,
                     options: Option<SignOptions>, now: Long, nonce: string)
    returns (r: Result<string, UrlError>)
    ensures url.None? || IsNullOrWhiteSpace(url.value) ==> r == Err(ArgumentNull("url"))
    ensures url.Some? && !IsNullOrWhiteSpace(url.value) && options.None? ==>
              r == Err(ArgumentNull("options"))
    ensures url.Some? && !IsNullOrWhiteSpace(url.value) && options.Some? ==>
              r == match lib.tryCreate(url.value)
                   case None => Err(InvalidUrlFormat)
                   case Some(u) => SignedUri(lib, prims, u, options.value, IntToString(now), nonce)
  {
    if url.None? || IsNullOrWhiteSpace(url.value) {
      return Err(ArgumentNull("url"));
    }
    if options.None? {
      return Err(ArgumentNull("options"));
    }
    var uri := lib.tryCreate(url.value);
    if uri.None? {
      return Err(InvalidUrlFormat);
    }
    r := MakeSignUrlForUri(lib, prims, uri, options, now, nonce);
  }

  // ---------------------------------------------------------------------
  // Properties of URL signing

  /** With an extra parameter configured, signing fails exactly when the URL's
      query has no value, or an empty one, for it; without one it never fails. */
  lemma ExtraParameterRequired(lib: UrlLibrary, prims: Primitives, u: Uri, o: SignOptions,
                               timestamp: string, nonce: string)
    ensures SignedUri(lib, prims, u, o, timestamp, nonce).Err? <==>
              o.nExtra != "" && Lookup(lib.parseQuery(QueryOf(u)), o.nExtra).GetOr("") == ""
    ensures SignedUri(lib, prims, u, o, timestamp, nonce).Err? ==>
              SignedUri(lib, prims, u, o, timestamp, nonce) == Err(ExtraParameterMissing)
  {
  }

  /** Splitting at '?' cuts at the first '?'. */
  lemma SplitAtFirstMark(piece: string, tail: string)
    requires '?' !in piece
    ensures SplitOn(piece + "?" + tail, "?") == [piece] + SplitOn(tail, "?")
  {
    SplitCharConcat(piece, '?', tail);
    SplitCharAbsent(piece, '?');
  }

  /** For a relative URL `path?query?rest`, the path is the text before the
      first '?' and the query the text between the first and second '?'. */
  lemma RelativePathAndQuery(path: string, query: string, rest: string)
    requires '?' !in path && '?' !in query
    requires rest == "" || rest[0] == '?'
    ensures PathOf(RelativeUri(path + "?" + query + rest)) == path
    ensures QueryOf(RelativeUri(path + "?" + query + rest)) == query
  {
    var original := path + "?" + query + rest;
    assert original == path + "?" + (query + rest);
    SplitAtFirstMark(path, query + rest);
    FirstPiece(query, rest);
    assert original[|path|] == '?';
  }

  /** The text before the first '?' of `query + rest`, where `rest` is empty
      or starts at a '?'. */
  lemma FirstPiece(query: string, rest: string)
    requires '?' !in query
    requires rest == "" || rest[0] == '?'
    ensures SplitOn(query + rest, "?")[0] == query
  {
    if rest == "" {
      assert query + rest == query;
      SplitCharAbsent(query, '?');
    } else {
      assert query + rest == query + "?" + rest[1..];
      SplitAtFirstMark(query, rest[1..]);
    }
  }

  /** A relative URL without '?' is all path, with an empty query. */
  lemma RelativeWithoutQuery(original: string)
    requires '?' !in original
    ensures PathOf(RelativeUri(original)) == original && QueryOf(RelativeUri(original)) == ""
  {
    SplitCharAbsent(original, '?');
  }

  lemma {:induction false} JoinAppend(parts: seq<string>, x: string, sep: string)
    requires |parts| > 0
    ensures Join(parts + [x], sep) == Join(parts, sep) + sep + x
    decreases |parts|
  {
    if |parts| > 1 {
      JoinAppend(parts[1..], x, sep);
      assert (parts + [x])[1..] == parts[1..] + [x];
    }
  }

  lemma {:induction false} SetValueAppends(q: QueryCollection, name: string, value: string)
    requires Lookup(q, name).None?
    ensures SetValue(q, name, value) == q + [(name, [value])]
    decreases |q|
  {
    if q != [] {
      SetValueAppends(q[1..], name, value);
      assert q == [q[0]] + q[1..];
    }
  }

  lemma {:induction false} LookupAfterAppend(q: QueryCollection, name: string, value: string, other: string)
    requires Lookup(q, other).None? && !EqualsIgnoreCase(name, other)
    ensures Lookup(q + [(name, [value])], other).None?
    decreases |q|
  {
    if q != [] {
      LookupAfterAppend(q[1..], name, value, other);
      assert (q + [(name, [value])])[1..] == q[1..] + [(name, [value])];
    }
  }

  lemma {:induction false} PairTextsAppend(lib: UrlLibrary, q: QueryCollection, name: string, value: string)
    ensures PairTexts(lib, q + [(name, [value])]) == PairTexts(lib, q) + [lib.formatPair(name, value)]
    decreases |q|
  {
    if q == [] {
    } else {
      PairTextsAppend(lib, q[1..], name, value);
      assert (q + [(name, [value])])[1..] == q[1..] + [(name, [value])];
    }
  }

  /** The extra value a query supplies for the configured name, "" without one. */
  function ExtraIn(lib: UrlLibrary, query: string, o: SignOptions): string {
    if o.nExtra != "" then Lookup(lib.parseQuery(query), o.nExtra).GetOr("") else ""
  }

  /** A signed relative URL is the original path and query, followed by the
      timestamp, nonce and signature under the configured names, when the
      query re-emits unchanged and holds none of those names. The signature
      covers the path exactly when WithPath is set. */
  lemma SignedUrlKeepsPrefix(lib: UrlLibrary, prims: Primitives, path: string, query: string,
                             o: SignOptions, timestamp: string, nonce: string)
    requires '?' !in path && '?' !in query
    requires lib.builderPath(path) == path
    requires FormatQuery(lib, lib.parseQuery(query)) == query
    requires PairTexts(lib, lib.parseQuery(query)) != []
    requires Lookup(lib.parseQuery(query), o.nTimeStamp).None?
    requires Lookup(lib.parseQuery(query), o.nNonce).None?
    requires Lookup(lib.parseQuery(query), o.nSign).None?
    requires !EqualsIgnoreCase(o.nTimeStamp, o.nNonce) && !EqualsIgnoreCase(o.nTimeStamp, o.nSign)
    requires !EqualsIgnoreCase(o.nNonce, o.nSign)
    requires o.nExtra != "" ==> ExtraIn(lib, query, o) != ""
    ensures SignedUri(lib, prims, RelativeUri(path + "?" + query), o, timestamp, nonce)
         == Ok(path + "?" + query
               + AddedPairs(lib, o, timestamp, nonce,
                            SignatureOf(prims, SignedFields(o.sToken, timestamp, nonce, ExtraIn(lib, query, o),
                                                            if o.withPath then path else ""))))
  {
    var sign := SignatureOf(prims, SignedFields(o.sToken, timestamp, nonce, ExtraIn(lib, query, o),
                                                if o.withPath then path else ""));
    var formatted := FormatQuery(lib, Inject(lib.parseQuery(query), o, timestamp, nonce, sign));
    var tail := AddedPairs(lib, o, timestamp, nonce, sign);
    InjectAppends(lib, lib.parseQuery(query), o, timestamp, nonce, sign);
    SignedRelativeUri(lib, prims, path, query, o, timestamp, nonce);
    RenderRelative(lib, path + "?" + query, path, formatted);
    ConcatRegroup(path, query, tail);
  }

  /** A relative URL without a query, such as "/" or "/abc", signs as its path,
      '?' and the three added pairs, the signature covering no extra value; with
      an extra parameter configured it has no value for it, so signing fails. */
  lemma SignedUrlWithoutQuery(lib: UrlLibrary, prims: Primitives, path: string, o: SignOptions,
                              timestamp: string, nonce: string)
    requires '?' !in path
    requires lib.builderPath(path) == path
    requires lib.parseQuery("") == []
    requires !EqualsIgnoreCase(o.nTimeStamp, o.nNonce) && !EqualsIgnoreCase(o.nTimeStamp, o.nSign)
    requires !EqualsIgnoreCase(o.nNonce, o.nSign)
    ensures o.nExtra != "" ==>
              SignedUri(lib, prims, RelativeUri(path), o, timestamp, nonce) == Err(ExtraParameterMissing)
    ensures o.nExtra == "" ==>
              SignedUri(lib, prims, RelativeUri(path), o, timestamp, nonce)
              == Ok(path + "?" + lib.formatPair(o.nTimeStamp, timestamp) + "&" + lib.formatPair(o.nNonce, nonce)
                    + "&" + lib.formatPair(o.nSign, SignatureOf(prims, SignedFields(o.sToken, timestamp, nonce, "",
                                                                                    if o.withPath then path else ""))))
  {
    RelativeWithoutQuery(path);
    if o.nExtra == "" {
      var sign := SignatureOf(prims, SignedFields(o.sToken, timestamp, nonce, "", if o.withPath then path else ""));
      var query := lib.formatPair(o.nTimeStamp, timestamp) + "&" + lib.formatPair(o.nNonce, nonce)
                   + "&" + lib.formatPair(o.nSign, sign);
      SignedWithoutQuery(lib, prims, path, o, timestamp, nonce);
      InjectIntoEmpty(lib, o, timestamp, nonce, sign);
      assert |query| > 0;
      PairsRegroup(path, lib.formatPair(o.nTimeStamp, timestamp), lib.formatPair(o.nNonce, nonce),
                   lib.formatPair(o.nSign, sign));
    }
  }

  lemma PairsRegroup(path: string, p1: string, p2: string, p3: string)
    ensures path + ("?" + (p1 + "&" + p2 + "&" + p3)) == path + "?" + p1 + "&" + p2 + "&" + p3
  {
  }

  /** The steps of signing a query-less relative URL without an extra parameter. */
  lemma SignedWithoutQuery(lib: UrlLibrary, prims: Primitives, path: string, o: SignOptions,
                           timestamp: string, nonce: string)
    requires '?' !in path && lib.builderPath(path) == path
    requires lib.parseQuery("") == [] && o.nExtra == ""
    ensures
      var sign := SignatureOf(prims, SignedFields(o.sToken, timestamp, nonce, "", if o.withPath then path else ""));
      var query := FormatQuery(lib, Inject([], o, timestamp, nonce, sign));
      query != "" ==> SignedUri(lib, prims, RelativeUri(path), o, timestamp, nonce) == Ok(path + ("?" + query))
  {
    RelativeWithoutQuery(path);
  }

  /** Setting three distinct names in an empty query gives their three pairs. */
  lemma InjectIntoEmpty(lib: UrlLibrary, o: SignOptions, timestamp: string, nonce: string, sign: string)
    requires !EqualsIgnoreCase(o.nTimeStamp, o.nNonce) && !EqualsIgnoreCase(o.nTimeStamp, o.nSign)
    requires !EqualsIgnoreCase(o.nNonce, o.nSign)
    ensures FormatQuery(lib, Inject([], o, timestamp, nonce, sign))
         == lib.formatPair(o.nTimeStamp, timestamp) + "&" + lib.formatPair(o.nNonce, nonce)
            + "&" + lib.formatPair(o.nSign, sign)
  {
    InjectPairTexts(lib, [], o, timestamp, nonce, sign);
    var p1, p2, p3 := lib.formatPair(o.nTimeStamp, timestamp), lib.formatPair(o.nNonce, nonce),
                      lib.formatPair(o.nSign, sign);
    assert PairTexts(lib, Inject([], o, timestamp, nonce, sign)) == [p1] + [p2] + [p3];
    JoinAppend([p1], p2, "&");
    JoinAppend([p1] + [p2], p3, "&");
  }

  lemma ConcatRegroup(path: string, query: string, tail: string)
    ensures path + ("?" + (query + tail)) == path + "?" + query + tail
  {
  }

  /** Signing a relative URI `path?query` keeps its path and renders the
      query with the three added parameters. */
  lemma SignedRelativeUri(lib: UrlLibrary, prims: Primitives, path: string, query: string,
                          o: SignOptions, timestamp: string, nonce: string)
    requires '?' !in path && '?' !in query
    requires o.nExtra != "" ==> ExtraIn(lib, query, o) != ""
    ensures
      var sign := SignatureOf(prims, SignedFields(o.sToken, timestamp, nonce, ExtraIn(lib, query, o),
                                                  if o.withPath then path else ""));
      var formatted := FormatQuery(lib, Inject(lib.parseQuery(query), o, timestamp, nonce, sign));
      SignedUri(lib, prims, RelativeUri(path + "?" + query), o, timestamp, nonce)
        == Ok(Render(lib, RelativeUri(path + "?" + query), path, formatted))
  {
    var u := RelativeUri(path + "?" + query);
    assert QueryOf(u) == query && PathOf(u) == path by {
      RelativePathAndQuery(path, query, "");
      assert path + "?" + query + "" == path + "?" + query;
    }
    var sign := SignatureOf(prims, SignedFields(o.sToken, timestamp, nonce, ExtraIn(lib, query, o),
                                                if o.withPath then path else ""));
    var formatted := FormatQuery(lib, Inject(lib.parseQuery(query), o, timestamp, nonce, sign));
    assert SignedUri(lib, prims, u, o, timestamp, nonce) == Ok(Render(lib, u, path, formatted));
  }

  /** A relative URI renders as its path, '?' and a non-empty query. */
  lemma RenderRelative(lib: UrlLibrary, original: string, path: string, query: string)
    requires lib.builderPath(path) == path && query != ""
    ensures Render(lib, RelativeUri(original), path, query) == path + ("?" + query)
  {
  }

  /** The text the three added pairs take at the end of a non-empty query. */
  function AddedPairs(lib: UrlLibrary, o: SignOptions, timestamp: string, nonce: string,
                      sign: string): string
  {
    ("&" + lib.formatPair(o.nTimeStamp, timestamp)) + ("&" + lib.formatPair(o.nNonce, nonce))
    + ("&" + lib.formatPair(o.nSign, sign))
  }

  /** Adding three new, distinct names to a query appends their pairs to its text. */
  lemma InjectAppends(lib: UrlLibrary, q0: QueryCollection, o: SignOptions,
                      timestamp: string, nonce: string, sign: string)
    requires PairTexts(lib, q0) != []
    requires Lookup(q0, o.nTimeStamp).None? && Lookup(q0, o.nNonce).None? && Lookup(q0, o.nSign).None?
    requires !EqualsIgnoreCase(o.nTimeStamp, o.nNonce) && !EqualsIgnoreCase(o.nTimeStamp, o.nSign)
    requires !EqualsIgnoreCase(o.nNonce, o.nSign)
    ensures FormatQuery(lib, Inject(q0, o, timestamp, nonce, sign))
         == FormatQuery(lib, q0) + AddedPairs(lib, o, timestamp, nonce, sign)
  {
    InjectPairTexts(lib, q0, o, timestamp, nonce, sign);
    JoinThree(PairTexts(lib, q0), lib.formatPair(o.nTimeStamp, timestamp), lib.formatPair(o.nNonce, nonce),
              lib.formatPair(o.nSign, sign));
  }

  /** The pair texts of a query after three distinct names it lacks are set. */
  lemma InjectPairTexts(lib: UrlLibrary, q0: QueryCollection, o: SignOptions,
                        timestamp: string, nonce: string, sign: string)
    requires Lookup(q0, o.nTimeStamp).None? && Lookup(q0, o.nNonce).None? && Lookup(q0, o.nSign).None?
    requires !EqualsIgnoreCase(o.nTimeStamp, o.nNonce) && !EqualsIgnoreCase(o.nTimeStamp, o.nSign)
    requires !EqualsIgnoreCase(o.nNonce, o.nSign)
    ensures PairTexts(lib, Inject(q0, o, timestamp, nonce, sign))
         == PairTexts(lib, q0) + [lib.formatPair(o.nTimeStamp, timestamp)] + [lib.formatPair(o.nNonce, nonce)]
            + [lib.formatPair(o.nSign, sign)]
  {
    InjectOfFresh(q0, o, timestamp, nonce, sign);
    var q1 := q0 + [(o.nTimeStamp, [timestamp])];
    var q2 := q1 + [(o.nNonce, [nonce])];
    PairTextsAppend(lib, q0, o.nTimeStamp, timestamp);
    PairTextsAppend(lib, q1, o.nNonce, nonce);
    PairTextsAppend(lib, q2, o.nSign, sign);
  }

  /** Joining three more pieces onto a non-empty list appends each after an '&'. */
  lemma JoinThree(t0: seq<string>, p1: string, p2: string, p3: string)
    requires t0 != []
    ensures Join(t0 + [p1] + [p2] + [p3], "&") == Join(t0, "&") + (("&" + p1) + ("&" + p2) + ("&" + p3))
  {
    var j0 := Join(t0, "&");
    JoinAppend(t0, p1, "&");
    var j1 := Join(t0 + [p1], "&");
    assert j1 == j0 + ("&" + p1);
    JoinAppend(t0 + [p1], p2, "&");
    var j2 := Join(t0 + [p1] + [p2], "&");
    assert j2 == j1 + ("&" + p2);
    JoinAppend(t0 + [p1] + [p2], p3, "&");
    assert Join(t0 + [p1] + [p2] + [p3], "&") == j2 + ("&" + p3);
    AppendRegroup(j0, "&" + p1, "&" + p2, "&" + p3);
  }

  /** Regrouping the text three pairs append. */
  lemma AppendRegroup(a: string, b: string, c: string, d: string)
    ensures a + b + c + d == a + (b + c + d)
  {
  }

  /** Setting three distinct names a query lacks appends them in order. */
  lemma InjectOfFresh(q0: QueryCollection, o: SignOptions, timestamp: string, nonce: string, sign: string)
    requires Lookup(q0, o.nTimeStamp).None? && Lookup(q0, o.nNonce).None? && Lookup(q0, o.nSign).None?
    requires !EqualsIgnoreCase(o.nTimeStamp, o.nNonce) && !EqualsIgnoreCase(o.nTimeStamp, o.nSign)
    requires !EqualsIgnoreCase(o.nNonce, o.nSign)
    ensures Inject(q0, o, timestamp, nonce, sign)
         == q0 + [(o.nTimeStamp, [timestamp])] + [(o.nNonce, [nonce])] + [(o.nSign, [sign])]
  {
    SetValueAppends(q0, o.nTimeStamp, timestamp);
    var q1 := q0 + [(o.nTimeStamp, [timestamp])];
    LookupAfterAppend(q0, o.nTimeStamp, timestamp, o.nNonce);
    SetValueAppends(q1, o.nNonce, nonce);
    var q2 := q1 + [(o.nNonce, [nonce])];
    LookupAfterAppend(q0, o.nTimeStamp, timestamp, o.nSign);
    LookupAfterAppend(q1, o.nNonce, nonce, o.nSign);
    SetValueAppends(q2, o.nSign, sign);
  }
}
