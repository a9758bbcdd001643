/** SignAuthorization/SignAuthorizationMiddleware.cs: the query/header signature
    check in front of endpoints marked `[SignAuthorize]`. */
module SignMiddleware {
  import opened Base
  import opened Text
  import opened Http
  import opened MakeSignAuthorization

  /** `GetHeaderValue(context, key)`: the values of `key` among the request
      headers when UseHeader is set, among the query parameters otherwise. */
  function GetHeaderValue(o: SignOptions, r: Request, key: string): (values: seq<string>)
    ensures o.useHeader ==> values == ValuesOf(r.headers, key)
    ensures !o.useHeader ==> values == ValuesOf(r.query, key)
  {
    if o.useHeader then ValuesOf(r.headers, key) else ValuesOf(r.query, key)
  }

  /** The value signed in place of a missing extra parameter. */
  const MissingExtra: string := "Err."

  /** The extra value the middleware signs: none without an extra parameter,
      its first value when supplied, the sentinel when absent. */
  function ExtraValue(o: SignOptions, r: Request): (extra: string)
    ensures o.nExtra == "" ==> extra == ""
    ensures o.nExtra != "" && GetHeaderValue(o, r, o.nExtra) == [] ==> extra == MissingExtra
    ensures o.nExtra != "" && GetHeaderValue(o, r, o.nExtra) != [] ==>
              extra == GetHeaderValue(o, r, o.nExtra)[0]
  {
    if o.nExtra == "" then ""
    else
      var values := GetHeaderValue(o, r, o.nExtra);
      if |values| > 0 then values[0] else MissingExtra
  }

  /** `Convert.ToDouble(text)` on the integer texts the model admits; None
      when it throws. */
  function ToNumber(text: string): (n: Option<int>)
    ensures text == "" ==> n.None?
    ensures text != "" && AllDigits(text) ==> n == Some(DigitsValue(text))
  {
    ParseIntegerOfDigits(text);
    ParseInteger(text)
  }

  /** The signature the middleware expects for a request whose timestamp
      and nonce parameters carry `timestamp` and `nonce`. */
  ghost function ExpectedSign(prims: Primitives, o: SignOptions, r: Request,
                              timestamp: string, nonce: string): string
  {
    SignatureOf(prims, SignedFields(o.sToken, timestamp, nonce, ExtraValue(o, r),
                                    if o.withPath then r.path else ""))
  }

  /** How `Invoke` ends: the request goes on unchecked, goes on after a
      successful check, is answered with the unauthorized response, or the
      timestamp conversion throws. */
  datatype Outcome = PassThrough | Allowed | Denied | Faulted

  predicate Marked(r: Request) {
    r.endpoint.Some? && r.endpoint.value.signAuthorize
  }

  /** The decision `Invoke` takes at clock reading `now` (Unix seconds). */
  ghost function Decide(prims: Primitives, o: SignOptions, r: Request, now: int): (outcome: Outcome)
    ensures outcome.PassThrough? <==> !Marked(r)
    ensures var timestamps, nonces, signs :=
              GetHeaderValue(o, r, o.nTimeStamp), GetHeaderValue(o, r, o.nNonce), GetHeaderValue(o, r, o.nSign);
            outcome.Faulted? <==> Marked(r) && timestamps != [] && nonces != [] && signs != []
                                  && ToNumber(timestamps[0]).None?
    ensures var timestamps, nonces, signs :=
              GetHeaderValue(o, r, o.nTimeStamp), GetHeaderValue(o, r, o.nNonce), GetHeaderValue(o, r, o.nSign);
            outcome.Allowed? <==> Marked(r) && timestamps != [] && nonces != [] && signs != []
                                  && ToNumber(timestamps[0]).Some? && now - ToNumber(timestamps[0]).value <= o.expire
                                  && signs[0] == ExpectedSign(prims, o, r, timestamps[0], nonces[0])
  {
    if !Marked(r) then PassThrough
    else
      var timestamps := GetHeaderValue(o, r, o.nTimeStamp);
      var nonces := GetHeaderValue(o, r, o.nNonce);
      var signs := GetHeaderValue(o, r, o.nSign);
      if |timestamps| > 0 && |signs| > 0 && |nonces| > 0 then
        match ToNumber(timestamps[0])
        case None => Faulted
        case Some(t) =>
          if now - t <= o.expire && signs[0] == ExpectedSign(prims, o, r, timestamps[0], nonces[0])
          then Allowed
          else Denied
      else Denied
  }

  /** The status every denial carries. */
  const Unauthorized: int := 401

  class SignAuthorizationMiddleware {
    const options: SignOptions
    const prims: Primitives

    constructor(options: SignOptions, prims: Primitives)
      ensures this.options == options && this.prims == prims
    {
      this.options := options;
      this.prims := prims;
    }

    /** The unauthorized response: status 401 and the configured JSON body. */
    method Reject(ctx: HttpContext)
      modifies ctx
      ensures ctx.statusCode == Unauthorized && ctx.contentType == Some("application/json")
      ensures ctx.body == old(ctx.body) + options.unauthorizedBack
      ensures ctx.nextCalls == old(ctx.nextCalls) && ctx.user == old(ctx.user)
      ensures ctx.items == old(ctx.items) && ctx.setCookies == old(ctx.setCookies)
    {
      ctx.statusCode := Unauthorized;
      ctx.contentType := Some("application/json");
      ctx.Write(options.unauthorizedBack);
    }

    /** `Invoke(context)` at clock reading `now`; `threw` reports the exception
      of a non-numeric timestamp, which leaves the response untouched. */
    method Invoke(ctx: HttpContext, now: int) returns (threw: bool)
      modifies ctx
      ensures threw <==> Decide(prims, options, ctx.request, now) == Faulted
      ensures Decide(prims, options, ctx.request, now).PassThrough?
              || Decide(prims, options, ctx.request, now).Allowed? ==>
                ctx.nextCalls == old(ctx.nextCalls) + 1
                && ctx.statusCode == old(ctx.statusCode) && ctx.contentType == old(ctx.contentType)
                && ctx.body == old(ctx.body)
      ensures Decide(prims, options, ctx.request, now) == Denied ==>
                ctx.nextCalls == old(ctx.nextCalls)
                && ctx.statusCode == Unauthorized && ctx.contentType == Some("application/json")
                && ctx.body == old(ctx.body) + options.unauthorizedBack
      ensures Decide(prims, options, ctx.request, now) == Faulted ==>
                ctx.nextCalls == old(ctx.nextCalls)
                && ctx.statusCode == old(ctx.statusCode) && ctx.contentType == old(ctx.contentType)
                && ctx.body == old(ctx.body)
      ensures ctx.user == old(ctx.user) && ctx.items == old(ctx.items)
      ensures ctx.setCookies == old(ctx.setCookies)
    {
      threw := false;
      var r := ctx.request;
      if r.endpoint.Some? && r.endpoint.value.signAuthorize {
        var sTimeStamp := GetHeaderValue(options, r, options.nTimeStamp);
        var sNonce := GetHeaderValue(options, r, options.nNonce);
        var sSign := GetHeaderValue(options, r, options.nSign);
        if |sTimeStamp| > 0 && |sSign| > 0 && |sNonce| > 0 {
          var unixTimestamp := now;
          var timeStamp := ToNumber(sTimeStamp[0]);
          if timeStamp.None? {
            assert Decide(prims, options, r, now) == Faulted;
            return true;
          }
          if unixTimestamp - timeStamp.value <= options.expire {
            var sPath := if options.withPath then r.path else "";
            var sExtra := "";
            if options.nExtra != "" {
              var sExtraList := GetHeaderValue(options, r, options.nExtra);
              if |sExtraList| > 0 {
                sExtra := sExtraList[0];
              } else {
                sExtra := MissingExtra;
              }
            }
            assert sExtra == ExtraValue(options, r);
            var sign := MakeSign(prims, options.sToken, sTimeStamp[0], sNonce[0], sExtra, sPath);
            assert sign == ExpectedSign(prims, options, r, sTimeStamp[0], sNonce[0]);
            if sSign[0] == sign {
              assert Decide(prims, options, r, now) == Allowed;
              ctx.CallNext();
              return;
            }
          }
        }
        assert Decide(prims, options, r, now) == Denied;
        Reject(ctx);
        return;
      }
      assert Decide(prims, options, r, now) == PassThrough;
      ctx.CallNext();
    }
  }

  // ---------------------------------------------------------------------
  // Properties of the decision

  /** Credentials come from exactly one source: with UseHeader the query is
      never consulted, without it the headers are never consulted. */
  lemma SingleCredentialSource(o: SignOptions, r: Request, other: map<string, seq<string>>,
                               prims: Primitives, now: int)
    ensures o.useHeader ==> Decide(prims, o, r.(query := other), now) == Decide(prims, o, r, now)
    ensures !o.useHeader ==> Decide(prims, o, r.(headers := other), now) == Decide(prims, o, r, now)
  {
    if o.useHeader {
      OnlyFirstValuesMatter(prims, o, r.(query := other), r, now);
    } else {
      OnlyFirstValuesMatter(prims, o, r.(headers := other), r, now);
    }
  }

  /** The parameter values that matter: whether each of the four parameters is
      present, and its first value. */
  predicate SameFirstValues(a: seq<string>, b: seq<string>) {
    (a == [] <==> b == []) && (a != [] ==> a[0] == b[0])
  }

  /** Only the first value of each parameter is used: requests that agree on
      those are decided alike. */
  lemma OnlyFirstValuesMatter(prims: Primitives, o: SignOptions, r: Request, r': Request, now: int)
    requires r.endpoint == r'.endpoint && r.path == r'.path
    requires SameFirstValues(GetHeaderValue(o, r, o.nTimeStamp), GetHeaderValue(o, r', o.nTimeStamp))
    requires SameFirstValues(GetHeaderValue(o, r, o.nNonce), GetHeaderValue(o, r', o.nNonce))
    requires SameFirstValues(GetHeaderValue(o, r, o.nSign), GetHeaderValue(o, r', o.nSign))
    requires SameFirstValues(GetHeaderValue(o, r, o.nExtra), GetHeaderValue(o, r', o.nExtra))
    ensures Decide(prims, o, r, now) == Decide(prims, o, r', now)
  {
    var timestamps, nonces := GetHeaderValue(o, r, o.nTimeStamp), GetHeaderValue(o, r, o.nNonce);
    var signs := GetHeaderValue(o, r, o.nSign);
    if !Marked(r) {
      assert Decide(prims, o, r, now) == PassThrough == Decide(prims, o, r', now);
    } else if timestamps == [] || nonces == [] || signs == [] {
      assert Decide(prims, o, r, now) == Denied == Decide(prims, o, r', now);
    } else {
      var t, n := timestamps[0], nonces[0];
      assert t == GetHeaderValue(o, r', o.nTimeStamp)[0] && n == GetHeaderValue(o, r', o.nNonce)[0];
      assert signs[0] == GetHeaderValue(o, r', o.nSign)[0];
      assert ExpectedSign(prims, o, r, t, n) == ExpectedSign(prims, o, r', t, n) by {
        assert ExtraValue(o, r) == ExtraValue(o, r');
      }
      match ToNumber(t)
      case None =>
        assert Decide(prims, o, r, now) == Faulted == Decide(prims, o, r', now);
      case Some(x) =>
        if now - x <= o.expire && signs[0] == ExpectedSign(prims, o, r, t, n) {
          assert Decide(prims, o, r, now) == Allowed == Decide(prims, o, r', now);
        } else {
          assert Decide(prims, o, r, now) == Denied == Decide(prims, o, r', now);
        }
    }
  }

  /** On a marked endpoint, a request lacking the timestamp, the nonce or the
      signature is denied. */
  lemma MissingCredentialDenied(prims: Primitives, o: SignOptions, r: Request, now: int)
    requires Marked(r)
    requires GetHeaderValue(o, r, o.nTimeStamp) == [] || GetHeaderValue(o, r, o.nNonce) == []
             || GetHeaderValue(o, r, o.nSign) == []
    ensures Decide(prims, o, r, now) == Denied
  {
  }

  /** A timestamp that does not convert to a number throws before any check
      of age or signature. */
  lemma NonNumericTimestampThrows(prims: Primitives, o: SignOptions, r: Request, now: int)
    requires Marked(r)
    requires GetHeaderValue(o, r, o.nNonce) != [] && GetHeaderValue(o, r, o.nSign) != []
    requires GetHeaderValue(o, r, o.nTimeStamp) != [] && ToNumber(GetHeaderValue(o, r, o.nTimeStamp)[0]).None?
    ensures Decide(prims, o, r, now) == Faulted
  {
  }

  /** Text with an upper-case letter is not lower-case hex. */
  lemma UpperCaseIsNotLowerHex(s: string, i: int)
    requires 0 <= i < |s| && 'A' <= s[i] <= 'Z'
    ensures !IsLowerHex(s)
  {
    assert !IsLowerHexChar(s[i]);
  }

  /** The recomputed signature is lower-case hex and is compared exactly, so a
      supplied signature with an upper-case letter is never accepted. */
  lemma UpperCaseSignatureRejected(prims: Primitives, o: SignOptions, r: Request, now: int, i: int)
    requires GetHeaderValue(o, r, o.nSign) != []
    requires 0 <= i < |GetHeaderValue(o, r, o.nSign)[0]|
    requires 'A' <= GetHeaderValue(o, r, o.nSign)[0][i] <= 'Z'
    ensures Decide(prims, o, r, now) != Allowed
  {
    UpperCaseIsNotLowerHex(GetHeaderValue(o, r, o.nSign)[0], i);
    var timestamps := GetHeaderValue(o, r, o.nTimeStamp);
    var nonces := GetHeaderValue(o, r, o.nNonce);
    if timestamps != [] && nonces != [] {
      assert IsLowerHex(ExpectedSign(prims, o, r, timestamps[0], nonces[0]));
    }
  }

  /** With an extra parameter configured but not supplied, only a signature
      over the sentinel value "Err." is accepted. */
  lemma MissingExtraSignsSentinel(prims: Primitives, o: SignOptions, r: Request, now: int)
    requires o.nExtra != "" && GetHeaderValue(o, r, o.nExtra) == []
    requires Decide(prims, o, r, now) == Allowed
    ensures GetHeaderValue(o, r, o.nSign)[0]
         == SignatureOf(prims, SignedFields(o.sToken, GetHeaderValue(o, r, o.nTimeStamp)[0],
                                            GetHeaderValue(o, r, o.nNonce)[0], MissingExtra,
                                            if o.withPath then r.path else ""))
  {
  }

  /** A request carrying timestamp `t`, a nonce and the signature over them
      is accepted exactly while its age `now - t` is at most Expire: an age
      equal to Expire and a timestamp in the future both pass. */
  lemma FreshnessWindow(prims: Primitives, o: SignOptions, r: Request, now: int, t: int)
    requires Marked(r)
    requires GetHeaderValue(o, r, o.nTimeStamp) != [] && GetHeaderValue(o, r, o.nNonce) != []
    requires GetHeaderValue(o, r, o.nTimeStamp)[0] == IntToString(t)
    requires GetHeaderValue(o, r, o.nSign)
             == [ExpectedSign(prims, o, r, IntToString(t), GetHeaderValue(o, r, o.nNonce)[0])]
    ensures Decide(prims, o, r, now) == Allowed <==> now - t <= o.expire
    ensures Decide(prims, o, r, now) != Faulted
  {
    ParseIntegerOfToString(t);
  }

  /** A request is let through on a marked endpoint only when its first
      signature value is the one expected for its first timestamp and nonce. */
  lemma AllowedNeedsSignature(prims: Primitives, o: SignOptions, r: Request, now: int)
    ensures Decide(prims, o, r, now) == Allowed ==>
              && GetHeaderValue(o, r, o.nTimeStamp) != [] && GetHeaderValue(o, r, o.nNonce) != []
              && GetHeaderValue(o, r, o.nSign) != []
              && GetHeaderValue(o, r, o.nSign)[0]
                 == ExpectedSign(prims, o, r, GetHeaderValue(o, r, o.nTimeStamp)[0],
                                 GetHeaderValue(o, r, o.nNonce)[0])
  {
  }

  // ---------------------------------------------------------------------
  // URL signing against the middleware

  /** The request presents, in its query, the parameters of a signed query
      collection `q` under the configured names. */
  predicate CarriesQuery(o: SignOptions, r: Request, q: QueryCollection) {
    && !o.useHeader
    && ValuesOf(r.query, o.nTimeStamp) == QueryValues(q, o.nTimeStamp)
    && ValuesOf(r.query, o.nNonce) == QueryValues(q, o.nNonce)
    && ValuesOf(r.query, o.nSign) == QueryValues(q, o.nSign)
    && (o.nExtra != "" ==> ValuesOf(r.query, o.nExtra) == QueryValues(q, o.nExtra))
  }

  /** The names the signer sets and the extra name differ, ignoring case. */
  predicate DistinctNames(o: SignOptions) {
    && !EqualsIgnoreCase(o.nTimeStamp, o.nNonce)
    && !EqualsIgnoreCase(o.nTimeStamp, o.nSign)
    && !EqualsIgnoreCase(o.nNonce, o.nSign)
    && (o.nExtra != "" ==>
          !EqualsIgnoreCase(o.nTimeStamp, o.nExtra) && !EqualsIgnoreCase(o.nNonce, o.nExtra)
          && !EqualsIgnoreCase(o.nSign, o.nExtra))
  }

  /** What the signed query holds under each name. */
  lemma SignedQueryValues(lib: UrlLibrary, prims: Primitives, u: Uri, o: SignOptions,
                          timestamp: string, nonce: string, extra: string)
    requires DistinctNames(o)
    ensures var q := SignedQuery(lib, prims, u, o, timestamp, nonce, extra);
            && QueryValues(q, o.nTimeStamp) == [timestamp]
            && QueryValues(q, o.nNonce) == [nonce]
            && QueryValues(q, o.nSign) == [UrlSignature(prims, u, o, timestamp, nonce, extra)]
            && (o.nExtra != "" ==>
                  QueryValues(q, o.nExtra) == QueryValues(lib.parseQuery(QueryOf(u)), o.nExtra))
  {
    var q0 := lib.parseQuery(QueryOf(u));
    var sign := UrlSignature(prims, u, o, timestamp, nonce, extra);
    var q1 := SetValue(q0, o.nTimeStamp, timestamp);
    var q2 := SetValue(q1, o.nNonce, nonce);
    QueryValuesAfterSet(q2, o.nSign, sign, o.nTimeStamp);
    QueryValuesAfterSet(q1, o.nNonce, nonce, o.nTimeStamp);
    QueryValuesAfterSet(q0, o.nTimeStamp, timestamp, o.nTimeStamp);
    QueryValuesAfterSet(q2, o.nSign, sign, o.nNonce);
    QueryValuesAfterSet(q1, o.nNonce, nonce, o.nNonce);
    QueryValuesAfterSet(q2, o.nSign, sign, o.nSign);
    QueryValuesAfterSet(q2, o.nSign, sign, o.nExtra);
    QueryValuesAfterSet(q1, o.nNonce, nonce, o.nExtra);
    QueryValuesAfterSet(q0, o.nTimeStamp, timestamp, o.nExtra);
  }

  /** A URL signed with the first value of its extra parameter, requested at
      the path it was signed for, is accepted exactly while `now - t` is at
      most Expire, `t` being the signing time. */
  lemma SignedUrlAccepted(lib: UrlLibrary, prims: Primitives, u: Uri, o: SignOptions,
                          r: Request, now: int, t: int, nonce: string)
    requires Marked(r) && DistinctNames(o)
    requires o.withPath ==> r.path == PathOf(u)
    requires SignedUriFirstExtra(lib, prims, u, o, IntToString(t), nonce).Ok?
    requires CarriesQuery(o, r, SignedQuery(lib, prims, u, o, IntToString(t), nonce,
                                            if o.nExtra != "" then FirstExtraOf(lib, u, o) else ""))
    ensures Decide(prims, o, r, now) == Allowed <==> now - t <= o.expire
  {
    var extra := if o.nExtra != "" then FirstExtraOf(lib, u, o) else "";
    SignedQueryValues(lib, prims, u, o, IntToString(t), nonce, extra);
    assert ExtraValue(o, r) == extra;
    FreshnessWindow(prims, o, r, now, t);
  }

  /** As written, a URL whose extra parameter has two values `a` and `b` is
      signed over "a,b", while the middleware signs only `a`. */
  lemma RepeatedExtraSignedJoined(lib: UrlLibrary, prims: Primitives, u: Uri, o: SignOptions,
                                  r: Request, t: int, nonce: string, a: string, b: string)
    requires o.nExtra != "" && DistinctNames(o)
    requires QueryValues(lib.parseQuery(QueryOf(u)), o.nExtra) == [a, b]
    requires CarriesQuery(o, r, SignedQuery(lib, prims, u, o, IntToString(t), nonce, ExtraOf(lib, u, o)))
    ensures ExtraOf(lib, u, o) == a + "," + b
    ensures ExtraValue(o, r) == a != ExtraOf(lib, u, o)
  {
    LookupJoinsValues(lib.parseQuery(QueryOf(u)), o.nExtra);
    assert Join([a, b], ",") == a + "," + Join([b], ",");
    SignedQueryValues(lib, prims, u, o, IntToString(t), nonce, ExtraOf(lib, u, o));
    assert |a + "," + b| > |a|;
  }

  /** As written, such a URL is rejected by the middleware it was signed for,
      unless SHA-1 maps the two canonical texts to the same digest. */
  lemma RepeatedExtraRejected(lib: UrlLibrary, prims: Primitives, u: Uri, o: SignOptions,
                              r: Request, now: int, t: int, nonce: string, a: string, b: string)
    requires o.nExtra != "" && Marked(r) && DistinctNames(o)
    requires o.withPath ==> r.path == PathOf(u)
    requires QueryValues(lib.parseQuery(QueryOf(u)), o.nExtra) == [a, b]
    requires CarriesQuery(o, r, SignedQuery(lib, prims, u, o, IntToString(t), nonce, ExtraOf(lib, u, o)))
    requires UrlSignature(prims, u, o, IntToString(t), nonce, a + "," + b)
          != UrlSignature(prims, u, o, IntToString(t), nonce, a)
    ensures SignedUri(lib, prims, u, o, IntToString(t), nonce).Ok?
    ensures Decide(prims, o, r, now) != Allowed
  {
    var ts := IntToString(t);
    RepeatedExtraSignedJoined(lib, prims, u, o, r, t, nonce, a, b);
    SignedQueryValues(lib, prims, u, o, ts, nonce, ExtraOf(lib, u, o));
    assert ExpectedSign(prims, o, r, ts, nonce) == UrlSignature(prims, u, o, ts, nonce, a);
    AllowedNeedsSignature(prims, o, r, now);
  }
}
