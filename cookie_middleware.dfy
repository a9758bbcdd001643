/** SignAuthorization/CookieAuthorizationMiddleware.cs: the signed-cookie check
    in front of endpoints marked `[CookieAuthorize]`, with cookie renewal. */
module CookieMiddleware {
  import opened Base
  import opened Text
  import opened Http
  import opened CookieOptions
  import opened MakeSignAuthorization

  /** The reasons `Invoke` logs when it denies a request. */
  datatype DenyReason =
    | CookieMissing | FormatError | DataInvalid | TimestampInvalid | Expired | SignatureError
    | UserNotAllowed
  {
    function Message(): string {
      match this
      case CookieMissing => "Cookie is missing."
      case FormatError => "Cookie format error."
      case DataInvalid => "Cookie data is invalid."
      case TimestampInvalid => "Cookie timestamp is invalid."
      case Expired => "Cookie expired."
      case SignatureError => "Cookie signature error."
      case UserNotAllowed => "User not allowed."
    }
  }

  /** How `Invoke` ends: the endpoint is not marked, the request is denied for
      a reason, or it is accepted for a user. */
  datatype Verdict = NotMarked | Deny(reason: DenyReason) | Accept(userName: string)

  /** The user list of the endpoint's `[CookieAuthorize]`, none when unmarked. */
  function RouteUsers(r: Request): seq<string> {
    if r.endpoint.Some? && r.endpoint.value.cookieAuthorize.Some?
    then r.endpoint.value.cookieAuthorize.value else []
  }

  /** The allow-list check: a non-empty route list decides alone; otherwise a
      non-empty `AllowedUsers` decides; with both empty everyone passes. */
  predicate UserAllowed(routeUsers: seq<string>, o: CookieAuthorizationOptions, userName: string) {
    if |routeUsers| > 0 then ContainsIgnoreCase(routeUsers, userName)
    else !(|o.allowedUsers| > 0 && !o.Allows(userName))
  }

  /** The decision `Invoke` takes at clock reading `now` (Unix seconds): the
      checks in source order, the first failing one naming the reason. */
  function Check(prims: Primitives, o: CookieAuthorizationOptions, r: Request, now: Long): (v: Verdict)
    ensures v.NotMarked? <==> r.endpoint.None? || r.endpoint.value.cookieAuthorize.None?
    ensures v == Deny(CookieMissing) <==> !v.NotMarked? && Fold(o.cookieName) !in r.cookies
    ensures v.Accept? ==>
              Fold(o.cookieName) in r.cookies
              && var parts := Split(r.cookies[Fold(o.cookieName)], o.cookieSeparator);
              && |parts| == 3 && v.userName == parts[0]
              && EqualsIgnoreCase(parts[2], prims.cookieSign(o.sToken, parts[0], parts[1]))
              && UserAllowed(RouteUsers(r), o, parts[0])
  {
    if r.endpoint.None? || r.endpoint.value.cookieAuthorize.None? then NotMarked
    else match CookieOf(r, o.cookieName)
      case None => Deny(CookieMissing)
      case Some(cookieValue) =>
        var parts := Split(cookieValue, o.cookieSeparator);
        if |parts| != 3 then Deny(FormatError)
        else if IsNullOrWhiteSpace(parts[0]) || IsNullOrWhiteSpace(parts[1]) || IsNullOrWhiteSpace(parts[2])
        then Deny(DataInvalid)
        else match ParseLong(parts[1])
          case None => Deny(TimestampInvalid)
          case Some(timeStamp) => CheckSigned(prims, o, RouteUsers(r), now, parts[0], parts[1], parts[2], timeStamp)
  }

  /** The checks after a well-formed cookie is taken apart: age, signature,
      then the allow-lists. */
  function CheckSigned(prims: Primitives, o: CookieAuthorizationOptions, routeUsers: seq<string>, now: Long,
                       userName: string, timeStampText: string, sign: string, timeStamp: Long): (v: Verdict)
    ensures v.Accept? <==> Wrap64(now - timeStamp) <= o.expire
                           && EqualsIgnoreCase(sign, prims.cookieSign(o.sToken, userName, timeStampText))
                           && UserAllowed(routeUsers, o, userName)
    ensures v.Accept? ==> v.userName == userName
    ensures !v.NotMarked?
  {
    if Wrap64(now - timeStamp) > o.expire then Deny(Expired)
    else if !EqualsIgnoreCase(sign, prims.cookieSign(o.sToken, userName, timeStampText)) then Deny(SignatureError)
    else if !UserAllowed(routeUsers, o, userName) then Deny(UserNotAllowed)
    else Accept(userName)
  }

  /** `CloneCookieOptions(options)`: a new `CookieOptions` carrying the eight
      listed attributes; the others keep the values of `new CookieOptions()`. */
  function CloneCookieOptions(a: CookieAttributes): (c: CookieAttributes)
    ensures c.domain == a.domain && c.path == a.path && c.expires == a.expires
    ensures c.httpOnly == a.httpOnly && c.secure == a.secure && c.sameSite == a.sameSite
    ensures c.maxAge == a.maxAge && c.isEssential == a.isEssential
    ensures c.partitioned == NewCookieAttributes.partitioned
    ensures c.extensions == NewCookieAttributes.extensions
  {
    NewCookieAttributes.(domain := a.domain, path := a.path, expires := a.expires,
                         httpOnly := a.httpOnly, secure := a.secure, sameSite := a.sameSite,
                         maxAge := a.maxAge, isEssential := a.isEssential)
  }

  /** The cookie the renewal branch appends at clock reading `now`. */
  function RenewalCookie(prims: Primitives, o: CookieAuthorizationOptions, userName: string,
                         now: Long): (c: SetCookie)
    ensures c.name == o.cookieName && c.attributes.expires == Some(now + o.expire)
    ensures c.value == Join([userName, IntToString(now),
                             prims.cookieSign(o.sToken, userName, IntToString(now))], o.cookieSeparator)
  {
    SetCookie(o.cookieName,
              MakeCookieValue(prims, o.sToken, userName, IntToString(now), o.cookieSeparator),
              CloneCookieOptions(o.cookieOptions).(expires := Some(now + o.expire)))
  }

  /** The body of every denial response. */
  function DenialBody(o: CookieAuthorizationOptions): (body: string)
    ensures o.unauthorizedBackJson != "" ==> body == o.unauthorizedBackJson
    ensures o.unauthorizedBackJson == "" ==> body == o.unauthorizedBack
  {
    if o.unauthorizedBackJson != "" then o.unauthorizedBackJson else o.unauthorizedBack
  }

  /** The authentication type of the identity an accepted request carries. */
  const AuthenticationType: string := "SignAuthorizationCookie"

  class CookieAuthorizationMiddleware {
    const options: CookieAuthorizationOptions
    const prims: Primitives

    constructor(options: CookieAuthorizationOptions, prims: Primitives)
      ensures this.options == options && this.prims == prims
    {
      this.options := options;
      this.prims := prims;
    }

    /** `Deny(context, reason)`: the same response whatever the reason, which
        is only logged. */
    method Deny(ctx: HttpContext, reason: DenyReason)
      modifies ctx
      ensures ctx.statusCode == options.unauthorizedStatusCode
      ensures ctx.contentType == Some("application/json")
      ensures ctx.body == old(ctx.body) + DenialBody(options)
      ensures ctx.nextCalls == old(ctx.nextCalls) && ctx.user == old(ctx.user)
      ensures ctx.items == old(ctx.items) && ctx.setCookies == old(ctx.setCookies)
    {
      ctx.statusCode := options.unauthorizedStatusCode;
      ctx.contentType := Some("application/json");
      if options.unauthorizedBackJson != "" {
        ctx.Write(options.unauthorizedBackJson);
      } else {
        ctx.Write(options.unauthorizedBack);
      }
    }

    /** The accepting branch: the identity, the item, and the renewed cookie
        when `ReuseExpire` is set. */
    method SignIn(ctx: HttpContext, userName: string, now: Long)
      modifies ctx
      ensures ctx.user == Some(Principal(options.userNameClaimType, userName, AuthenticationType))
      ensures ctx.items == old(ctx.items)[options.userNameItemKey := userName]
      ensures ctx.setCookies == old(ctx.setCookies)
                + (if options.reuseExpire then [RenewalCookie(prims, options, userName, now)] else [])
      ensures ctx.nextCalls == old(ctx.nextCalls) && ctx.statusCode == old(ctx.statusCode)
      ensures ctx.contentType == old(ctx.contentType) && ctx.body == old(ctx.body)
    {
      ctx.user := Some(Principal(options.userNameClaimType, userName, AuthenticationType));
      ctx.items := ctx.items[options.userNameItemKey := userName];
      if options.reuseExpire {
        var refreshedTimeStamp := IntToString(now);
        var refreshedCookie := MakeCookieValue(prims, options.sToken, userName, refreshedTimeStamp,
                                               options.cookieSeparator);
        var cookieOptions := CloneCookieOptions(options.cookieOptions);
        cookieOptions := cookieOptions.(expires := Some(now + options.expire));
        ctx.setCookies := ctx.setCookies + [SetCookie(options.cookieName, refreshedCookie, cookieOptions)];
      }
    }

    /** The age, signature and allow-list checks of `Invoke` on a cookie
        already taken apart, and the branch they lead to. */
    method AuthorizeSigned(ctx: HttpContext, users: seq<string>, userName: string, timeStampText: string,
                           sign: string, timeStamp: Long, now: Long)
      modifies ctx
      ensures var verdict := CheckSigned(prims, options, users, now, userName, timeStampText, sign, timeStamp);
              verdict.Deny? ==>
                ctx.statusCode == options.unauthorizedStatusCode
                && ctx.contentType == Some("application/json")
                && ctx.body == old(ctx.body) + DenialBody(options)
                && ctx.nextCalls == old(ctx.nextCalls) && ctx.user == old(ctx.user)
                && ctx.items == old(ctx.items) && ctx.setCookies == old(ctx.setCookies)
      ensures var verdict := CheckSigned(prims, options, users, now, userName, timeStampText, sign, timeStamp);
              verdict.Accept? ==>
                && ctx.user == Some(Principal(options.userNameClaimType, userName, AuthenticationType))
                && ctx.items == old(ctx.items)[options.userNameItemKey := userName]
                && ctx.setCookies == old(ctx.setCookies)
                     + (if options.reuseExpire then [RenewalCookie(prims, options, userName, now)] else [])
                && ctx.nextCalls == old(ctx.nextCalls) + 1
                && ctx.statusCode == old(ctx.statusCode) && ctx.contentType == old(ctx.contentType)
                && ctx.body == old(ctx.body)
    {
      ghost var verdict := CheckSigned(prims, options, users, now, userName, timeStampText, sign, timeStamp);
      var unixTimestamp := now;
      if Wrap64(unixTimestamp as int - timeStamp as int) > options.expire {
        assert verdict == Verdict.Deny(Expired);
        Deny(ctx, Expired);
        return;
      }
      var expectedSign := prims.cookieSign(options.sToken, userName, timeStampText);
      if !EqualsIgnoreCase(sign, expectedSign) {
        assert verdict == Verdict.Deny(SignatureError);
        Deny(ctx, SignatureError);
        return;
      }
      if |users| > 0 {
        if !ContainsIgnoreCase(users, userName) {
          assert verdict == Verdict.Deny(UserNotAllowed);
          Deny(ctx, UserNotAllowed);
          return;
        }
      } else if |options.allowedUsers| > 0 && !options.Allows(userName) {
        assert verdict == Verdict.Deny(UserNotAllowed);
        Deny(ctx, UserNotAllowed);
        return;
      }
      assert verdict == Accept(userName);
      SignIn(ctx, userName, unixTimestamp);
      ctx.CallNext();
    }

    /** `Invoke(context)` at clock reading `now`. */
    method Invoke(ctx: HttpContext, now: Long)
      modifies ctx
      ensures Check(prims, options, ctx.request, now).NotMarked? ==>
                ctx.nextCalls == old(ctx.nextCalls) + 1
                && ctx.statusCode == old(ctx.statusCode) && ctx.contentType == old(ctx.contentType)
                && ctx.body == old(ctx.body) && ctx.user == old(ctx.user)
                && ctx.items == old(ctx.items) && ctx.setCookies == old(ctx.setCookies)
      ensures Check(prims, options, ctx.request, now).Deny? ==>
                ctx.statusCode == options.unauthorizedStatusCode
                && ctx.contentType == Some("application/json")
                && ctx.body == old(ctx.body) + DenialBody(options)
                && ctx.nextCalls == old(ctx.nextCalls) && ctx.user == old(ctx.user)
                && ctx.items == old(ctx.items) && ctx.setCookies == old(ctx.setCookies)
      ensures Check(prims, options, ctx.request, now).Accept? ==>
                var userName := Check(prims, options, ctx.request, now).userName;
                && ctx.user == Some(Principal(options.userNameClaimType, userName, AuthenticationType))
                && ctx.items == old(ctx.items)[options.userNameItemKey := userName]
                && ctx.setCookies == old(ctx.setCookies)
                     + (if options.reuseExpire then [RenewalCookie(prims, options, userName, now)] else [])
                && ctx.nextCalls == old(ctx.nextCalls) + 1
                && ctx.statusCode == old(ctx.statusCode) && ctx.contentType == old(ctx.contentType)
                && ctx.body == old(ctx.body)
    {
      var r := ctx.request;
      if r.endpoint.None? || r.endpoint.value.cookieAuthorize.None? {
        assert Check(prims, options, r, now) == NotMarked;
        ctx.CallNext();
        return;
      }
      var users := r.endpoint.value.cookieAuthorize.value;
      assert RouteUsers(r) == users;
      var cookie := CookieOf(r, options.cookieName);
      if cookie.None? {
        assert Check(prims, options, r, now) == Verdict.Deny(CookieMissing);
        Deny(ctx, CookieMissing);
        return;
      }
      var parts := Split(cookie.value, options.cookieSeparator);
      if |parts| != 3 {
        assert Check(prims, options, r, now) == Verdict.Deny(FormatError);
        Deny(ctx, FormatError);
        return;
      }
      var userName, timeStampText, sign := parts[0], parts[1], parts[2];
      if IsNullOrWhiteSpace(userName) || IsNullOrWhiteSpace(timeStampText) || IsNullOrWhiteSpace(sign) {
        assert Check(prims, options, r, now) == Verdict.Deny(DataInvalid);
        Deny(ctx, DataInvalid);
        return;
      }
      var parsed := ParseLong(timeStampText);
      if parsed.None? {
        assert Check(prims, options, r, now) == Verdict.Deny(TimestampInvalid);
        Deny(ctx, TimestampInvalid);
        return;
      }
      var timeStamp := parsed.value;
      assert Check(prims, options, r, now)
          == CheckSigned(prims, options, users, now, userName, timeStampText, sign, timeStamp);
      AuthorizeSigned(ctx, users, userName, timeStampText, sign, timeStamp, now);
    }
  }

  // ---------------------------------------------------------------------
  // Properties of the decision

  /** The decimal text of a `long` holds only digits and '-', and is not blank. */
  lemma TimestampTextShape(n: int)
    ensures forall i | 0 <= i < |IntToString(n)| :: IsDigit(IntToString(n)[i]) || IntToString(n)[i] == '-'
    ensures !IsNullOrWhiteSpace(IntToString(n))
  {
    var s := IntToString(n);
    if n < 0 {
      assert s == "-" + NatToString(-n);
    }
    assert !IsWhiteSpace(s[0]);
  }

  /** A separator character that cannot occur in a timestamp text. */
  predicate SafeSeparator(c: char) {
    !IsDigit(c) && c != '-'
  }

  /** A cookie made by `MakeCookieValue` for `userName` at time `t` is accepted
      exactly while its age `now - t`, computed in 64-bit arithmetic, is at
      most Expire and the user passes the allow-lists; it is denied as expired
      or as not allowed otherwise. */
  lemma CookieRoundTrip(prims: Primitives, o: CookieAuthorizationOptions, r: Request, now: Long,
                        userName: string, t: Long, c: char)
    requires r.endpoint.Some? && r.endpoint.value.cookieAuthorize.Some?
    requires o.cookieSeparator == [c] && SafeSeparator(c)
    requires c !in userName && c !in prims.cookieSign(o.sToken, userName, IntToString(t))
    requires !IsNullOrWhiteSpace(userName)
    requires !IsNullOrWhiteSpace(prims.cookieSign(o.sToken, userName, IntToString(t)))
    requires CookieOf(r, o.cookieName)
             == Some(MakeCookieValue(prims, o.sToken, userName, IntToString(t), o.cookieSeparator))
    ensures Check(prims, o, r, now)
         == if Wrap64(now - t) > o.expire then Deny(Expired)
            else if UserAllowed(RouteUsers(r), o, userName) then Accept(userName)
            else Deny(UserNotAllowed)
  {
    var timestamp := IntToString(t);
    TimestampTextShape(t);
    assert c !in timestamp;
    CookieValueSplits(prims, o.sToken, userName, timestamp, c);
    ParseLongOfToString(t);
    CheckOfSignedParts(prims, o, r, now, userName, timestamp, t);
  }

  /** A cookie whose three pieces are non-blank, carry a `long` timestamp
      and a matching signature passes every check before the age. */
  lemma CheckOfSignedParts(prims: Primitives, o: CookieAuthorizationOptions, r: Request, now: Long,
                           userName: string, timestamp: string, t: Long)
    requires r.endpoint.Some? && r.endpoint.value.cookieAuthorize.Some?
    requires CookieOf(r, o.cookieName).Some?
    requires Split(CookieOf(r, o.cookieName).value, o.cookieSeparator)
             == [userName, timestamp, prims.cookieSign(o.sToken, userName, timestamp)]
    requires !IsNullOrWhiteSpace(userName) && !IsNullOrWhiteSpace(timestamp)
    requires !IsNullOrWhiteSpace(prims.cookieSign(o.sToken, userName, timestamp))
    requires ParseLong(timestamp) == Some(t)
    ensures Check(prims, o, r, now)
         == if Wrap64(now - t) > o.expire then Deny(Expired)
            else if UserAllowed(RouteUsers(r), o, userName) then Accept(userName)
            else Deny(UserNotAllowed)
  {
  }

  /** With the default one-hour Expire, a cookie minted at T is accepted at
      T + 3600 and denied as expired at T + 3601. */
  lemma CookieExpiryBoundary(prims: Primitives, o: CookieAuthorizationOptions, r: Request,
                             userName: string, t: Long, c: char)
    requires o.expire == 3600 && 0 <= t <= MaxLong - 3601
    requires r.endpoint.Some? && r.endpoint.value.cookieAuthorize.Some?
    requires o.cookieSeparator == [c] && SafeSeparator(c)
    requires c !in userName && c !in prims.cookieSign(o.sToken, userName, IntToString(t))
    requires !IsNullOrWhiteSpace(userName)
    requires !IsNullOrWhiteSpace(prims.cookieSign(o.sToken, userName, IntToString(t)))
    requires UserAllowed(RouteUsers(r), o, userName)
    requires CookieOf(r, o.cookieName)
             == Some(MakeCookieValue(prims, o.sToken, userName, IntToString(t), o.cookieSeparator))
    ensures Check(prims, o, r, t + 3600) == Accept(userName)
    ensures Check(prims, o, r, t + 3601) == Deny(Expired)
  {
    CookieRoundTrip(prims, o, r, t + 3600, userName, t, c);
    CookieRoundTrip(prims, o, r, t + 3601, userName, t, c);
  }

  /** The age is computed in 64-bit arithmetic: a cookie stamped with the
      smallest `long` has a negative age at any non-negative clock reading and
      never expires under a non-negative Expire. */
  lemma SmallestTimestampNeverExpires(now: Long, expire: int)
    requires now >= 0 && expire >= 0
    ensures Wrap64(now - MinLong) == now + MinLong
    ensures !(Wrap64(now - MinLong) > expire)
  {
    var x := now - MinLong;
    assert 0 <= x - MinLong < 2 * 0x1_0000_0000_0000_0000;
    assert (x - MinLong) % 0x1_0000_0000_0000_0000 == x - MinLong - 0x1_0000_0000_0000_0000;
  }

  /** A user name containing the one-character separator makes a cookie that
      is always denied for its format. */
  lemma SeparatorInUserNameDenied(prims: Primitives, o: CookieAuthorizationOptions, r: Request,
                                  now: Long, userName: string, timestamp: string, c: char)
    requires r.endpoint.Some? && r.endpoint.value.cookieAuthorize.Some?
    requires o.cookieSeparator == [c] && c in userName
    requires CookieOf(r, o.cookieName)
             == Some(MakeCookieValue(prims, o.sToken, userName, timestamp, o.cookieSeparator))
    ensures Check(prims, o, r, now) == Deny(FormatError)
  {
    CookieValueWithSeparatorInName(prims, o.sToken, userName, timestamp, c);
  }

  /** An empty separator, which only `Validate` keeps out, leaves every cookie
      in one piece: a cookie present on a marked endpoint is a format error. */
  lemma EmptySeparatorDenied(prims: Primitives, o: CookieAuthorizationOptions, r: Request, now: Long)
    requires r.endpoint.Some? && r.endpoint.value.cookieAuthorize.Some?
    requires o.cookieSeparator == "" && Fold(o.cookieName) in r.cookies
    ensures Check(prims, o, r, now) == Deny(FormatError)
  {
  }

  /** A missing cookie is denied on a marked endpoint. */
  lemma MissingCookieDenied(prims: Primitives, o: CookieAuthorizationOptions, r: Request, now: Long)
    requires r.endpoint.Some? && r.endpoint.value.cookieAuthorize.Some?
    requires Fold(o.cookieName) !in r.cookies
    ensures Check(prims, o, r, now) == Deny(CookieMissing)
  {
  }

  /** A cookie that does not split into three pieces, has a blank piece, or
      whose timestamp is not a `long` is denied for that reason. */
  lemma MalformedCookieDenied(prims: Primitives, o: CookieAuthorizationOptions, r: Request,
                              now: Long, cookieValue: string)
    requires r.endpoint.Some? && r.endpoint.value.cookieAuthorize.Some?
    requires CookieOf(r, o.cookieName) == Some(cookieValue)
    ensures |Split(cookieValue, o.cookieSeparator)| != 3 ==> Check(prims, o, r, now) == Deny(FormatError)
    ensures var parts := Split(cookieValue, o.cookieSeparator);
            |parts| == 3 && (exists i | 0 <= i < 3 :: IsNullOrWhiteSpace(parts[i])) ==>
              Check(prims, o, r, now) == Deny(DataInvalid)
    ensures var parts := Split(cookieValue, o.cookieSeparator);
            |parts| == 3 && (forall i | 0 <= i < 3 :: !IsNullOrWhiteSpace(parts[i]))
            && ParseLong(parts[1]).None? ==>
              Check(prims, o, r, now) == Deny(TimestampInvalid)
  {
    var parts := Split(cookieValue, o.cookieSeparator);
    if |parts| == 3 && (exists i | 0 <= i < 3 :: IsNullOrWhiteSpace(parts[i])) {
      var i :| 0 <= i < 3 && IsNullOrWhiteSpace(parts[i]);
      assert i == 0 || i == 1 || i == 2;
    }
  }

  /** The signature is checked before the allow-lists: a request denied for
      its signature stays denied for it whatever the lists hold, and a
      request denied for its user carried a valid signature. */
  lemma SignatureBeforeAllowList(prims: Primitives, o: CookieAuthorizationOptions, r: Request,
                                 now: Long, allowed: set<string>, routeUsers: seq<string>)
    requires r.endpoint.Some? && r.endpoint.value.cookieAuthorize.Some?
    ensures Check(prims, o, r, now) == Deny(SignatureError) ==>
              Check(prims, o.(allowedUsers := allowed),
                    r.(endpoint := Some(r.endpoint.value.(cookieAuthorize := Some(routeUsers)))), now)
              == Deny(SignatureError)
    ensures Check(prims, o, r, now) == Deny(UserNotAllowed) ==>
              var parts := Split(CookieOf(r, o.cookieName).value, o.cookieSeparator);
              |parts| == 3 && EqualsIgnoreCase(parts[2], prims.cookieSign(o.sToken, parts[0], parts[1]))
  {
  }

  /** A non-empty route list overrides `AllowedUsers`, which then has no effect. */
  lemma RouteListOverridesGlobal(prims: Primitives, o: CookieAuthorizationOptions, r: Request,
                                 now: Long, allowed: set<string>)
    requires |RouteUsers(r)| > 0
    ensures Check(prims, o.(allowedUsers := allowed), r, now) == Check(prims, o, r, now)
  {
    var o' := o.(allowedUsers := allowed);
    assert forall u :: UserAllowed(RouteUsers(r), o', u) == UserAllowed(RouteUsers(r), o, u);
  }

  /** Allow-list membership ignores case on both lists, and with both lists
      empty every user passes. */
  lemma AllowListIgnoresCase(routeUsers: seq<string>, o: CookieAuthorizationOptions,
                             a: string, b: string)
    requires EqualsIgnoreCase(a, b)
    ensures UserAllowed(routeUsers, o, a) <==> UserAllowed(routeUsers, o, b)
    ensures routeUsers == [] && o.allowedUsers == {} ==> UserAllowed(routeUsers, o, a)
  {
    if |routeUsers| > 0 && ContainsIgnoreCase(routeUsers, a) {
      var i :| 0 <= i < |routeUsers| && EqualsIgnoreCase(routeUsers[i], a);
      assert EqualsIgnoreCase(routeUsers[i], b);
    }
    if |routeUsers| > 0 && ContainsIgnoreCase(routeUsers, b) {
      var i :| 0 <= i < |routeUsers| && EqualsIgnoreCase(routeUsers[i], b);
      assert EqualsIgnoreCase(routeUsers[i], a);
    }
  }

  /** The renewed cookie carries the configured attributes with only its
      expiry replaced, when those attributes use nothing beyond the eight the
      clone copies. */
  lemma RenewalKeepsAttributes(prims: Primitives, o: CookieAuthorizationOptions, userName: string,
                               now: Long)
    requires !o.cookieOptions.partitioned && o.cookieOptions.extensions == []
    ensures RenewalCookie(prims, o, userName, now).attributes
         == o.cookieOptions.(expires := Some(now + o.expire))
    ensures RenewalCookie(prims, o, userName, now).name == o.cookieName
  {
  }

  /** A renewed cookie, presented at a later clock reading `later`, is
      accepted for the same user exactly while `later - now` is at most Expire. */
  lemma RenewedCookieAccepted(prims: Primitives, o: CookieAuthorizationOptions, r: Request,
                              now: Long, later: Long, userName: string, c: char)
    requires r.endpoint.Some? && r.endpoint.value.cookieAuthorize.Some?
    requires o.cookieSeparator == [c] && SafeSeparator(c)
    requires c !in userName && c !in prims.cookieSign(o.sToken, userName, IntToString(now))
    requires !IsNullOrWhiteSpace(userName)
    requires !IsNullOrWhiteSpace(prims.cookieSign(o.sToken, userName, IntToString(now)))
    requires UserAllowed(RouteUsers(r), o, userName)
    requires CookieOf(r, o.cookieName) == Some(RenewalCookie(prims, o, userName, now).value)
    ensures Check(prims, o, r, later) == Accept(userName) <==> Wrap64(later - now) <= o.expire
  {
    CookieRoundTrip(prims, o, r, later, userName, now, c);
  }
}
