/** SignAuthorization/CookieAuthorizationOptions.cs: the configuration of the
    cookie middleware, its defaults and `Validate`. */
module CookieOptions {
  import opened Base
  import opened Text
  import opened Http

  /** `ClaimTypes.Name`. */
  const NameClaimType: string := "http://schemas.xmlsoap.org/ws/2005/05/identity/claims/name"

  /** `CookieAuthorizationOptions`; a null string is "". `AllowedUsers` is a
      `HashSet` comparing with OrdinalIgnoreCase, kept as its entries as added. */
  datatype CookieAuthorizationOptions = CookieAuthorizationOptions(
    unauthorizedBack: string,        // the JSON serialization of UnauthorizedBack
    sToken: string,
    cookieName: string,
    cookieSeparator: string,
    expire: int,
    reuseExpire: bool,
    cookieOptions: CookieAttributes,
    userNameClaimType: string,
    userNameItemKey: string,
    allowedUsers: set<string>,
    unauthorizedStatusCode: int,
    unauthorizedBackJson: string
  )
  {
    /** `AllowedUsers.Contains(user)`: some entry equals `user` ignoring case. */
    predicate Allows(user: string) {
      exists a | a in allowedUsers :: EqualsIgnoreCase(a, user)
    }

    /** `AllowedUsers.Add(user)`: the set is left as it is when it already
        holds the user under any case, and gains `user` otherwise. */
    function AddAllowedUser(user: string): (o: CookieAuthorizationOptions)
      ensures forall other :: o.Allows(other) <==> Allows(other) || EqualsIgnoreCase(other, user)
      ensures |o.allowedUsers| == |allowedUsers| + (if Allows(user) then 0 else 1)
      ensures CaseDistinct(allowedUsers) ==> CaseDistinct(o.allowedUsers)
      ensures o == this.(allowedUsers := o.allowedUsers)
    {
      if Allows(user) then
        assert forall other :: EqualsIgnoreCase(other, user) ==> Allows(other) by {
          var a :| a in allowedUsers && EqualsIgnoreCase(a, user);
        }
        this
      else
        var o := this.(allowedUsers := allowedUsers + {user});
        assert forall other :: o.Allows(other) ==> Allows(other) || EqualsIgnoreCase(other, user) by {
          forall other | o.Allows(other)
            ensures Allows(other) || EqualsIgnoreCase(other, user)
          {
            var a :| a in o.allowedUsers && EqualsIgnoreCase(a, other);
          }
        }
        assert forall other :: EqualsIgnoreCase(other, user) ==> o.Allows(other) by {
          forall other | EqualsIgnoreCase(other, user)
            ensures o.Allows(other)
          {
            assert user in o.allowedUsers;
          }
        }
        assert user !in allowedUsers;
        assert (allowedUsers + {user}) - {user} == allowedUsers;
        o
    }
  }

  /** No two entries of a set are equal ignoring case, as in a `HashSet` built
      with OrdinalIgnoreCase. */
  predicate CaseDistinct(users: set<string>) {
    forall a, b | a in users && b in users && EqualsIgnoreCase(a, b) :: a == b
  }

  /** `new CookieAuthorizationOptions()`. The middleware also reads
      `UnauthorizedStatusCode` and `UnauthorizedBackJson`, whose declarations
      are not part of this model, so their defaults are parameters. */
  function DefaultOptions(statusCode: int, backJson: string): (o: CookieAuthorizationOptions)
    ensures o.sToken == "CookieAuthorizationMiddleware" && o.cookieName == "SignAuthorization"
    ensures o.cookieSeparator == "|" && o.expire == 3600 && o.reuseExpire
    ensures o.cookieOptions == NewCookieAttributes.(httpOnly := true, isEssential := true)
    ensures o.cookieOptions.sameSite == Unspecified && o.cookieOptions.path == Some("/")
    ensures o.userNameItemKey == "SignAuthorizationUserName" && o.userNameClaimType == NameClaimType
    ensures o.allowedUsers == {} && o.unauthorizedBack == DefaultUnauthorizedBack
  {
    CookieAuthorizationOptions(
      DefaultUnauthorizedBack, "CookieAuthorizationMiddleware", "SignAuthorization", "|", 3600, true,
      NewCookieAttributes.(httpOnly := true, isEssential := true),
      NameClaimType, "SignAuthorizationUserName", {}, statusCode, backJson)
  }

  /** The `ArgumentException`s `Validate` throws. */
  datatype ValidationError =
    | TokenEmpty | CookieNameEmpty | SeparatorEmpty | ExpireNotPositive | ItemKeyBlank
  {
    function Message(): string {
      match this
      case TokenEmpty => "sToken cannot be null or empty."
      case CookieNameEmpty => "CookieName cannot be null or empty."
      case SeparatorEmpty => "CookieSeparator cannot be null or empty."
      case ExpireNotPositive => "Expire must be greater than 0."
      case ItemKeyBlank => "UserNameItemKey cannot be null or empty."
    }
  }

  /** The conditions a usable configuration meets. */
  predicate Valid(o: CookieAuthorizationOptions) {
    && o.sToken != "" && o.cookieName != "" && o.cookieSeparator != ""
    && o.expire > 0 && !IsNullOrWhiteSpace(o.userNameItemKey)
  }

  /** `Validate()`: the first failed check, in source order; None when it
      returns normally. */
  function Validate(o: CookieAuthorizationOptions): (r: Option<ValidationError>)
    ensures r.None? <==> Valid(o)
    ensures r == Some(TokenEmpty) <==> o.sToken == ""
    ensures r == Some(CookieNameEmpty) <==> o.sToken != "" && o.cookieName == ""
    ensures r == Some(SeparatorEmpty) <==> o.sToken != "" && o.cookieName != "" && o.cookieSeparator == ""
    ensures r == Some(ExpireNotPositive) <==>
              o.sToken != "" && o.cookieName != "" && o.cookieSeparator != "" && o.expire <= 0
    ensures r == Some(ItemKeyBlank) <==>
              o.sToken != "" && o.cookieName != "" && o.cookieSeparator != "" && o.expire > 0
              && IsNullOrWhiteSpace(o.userNameItemKey)
  {
    if o.sToken == "" then Some(TokenEmpty)
    else if o.cookieName == "" then Some(CookieNameEmpty)
    else if o.cookieSeparator == "" then Some(SeparatorEmpty)
    else if o.expire <= 0 then Some(ExpireNotPositive)
    else if IsNullOrWhiteSpace(o.userNameItemKey) then Some(ItemKeyBlank)
    else None
  }

  /** The defaults pass `Validate`, whatever the two undeclared defaults are. */
  lemma DefaultsValid(statusCode: int, backJson: string)
    ensures Validate(DefaultOptions(statusCode, backJson)).None?
  {
    var key := DefaultOptions(statusCode, backJson).userNameItemKey;
    assert !IsWhiteSpace(key[0]);
  }

  /** Only the item key is checked for white space: a non-empty token, cookie
      name or separator passes whatever it holds, a blank one such as "\t"
      included, while every blank item key is rejected. */
  lemma WhiteSpaceOnlyRejectedForItemKey(o: CookieAuthorizationOptions, blank: string, key: string)
    requires o.sToken != "" && o.cookieName != "" && o.cookieSeparator != "" && o.expire > 0
    requires blank != "" && IsNullOrWhiteSpace(blank)
    ensures Validate(o).None? <==> !IsNullOrWhiteSpace(o.userNameItemKey)
    ensures Validate(o.(sToken := blank, cookieName := blank, cookieSeparator := blank)) == Validate(o)
    ensures IsNullOrWhiteSpace(key) ==> Validate(o.(userNameItemKey := key)) == Some(ItemKeyBlank)
  {
  }

  /** `UseCookieAuthorization()`: the defaults, registered without validation. */
  function UseCookieAuthorizationDefault(statusCode: int, backJson: string): (o: CookieAuthorizationOptions)
    ensures o == DefaultOptions(statusCode, backJson)
    ensures Valid(o)
  {
    DefaultsValid(statusCode, backJson);
    DefaultOptions(statusCode, backJson)
  }

  /** `UseCookieAuthorization(configureOptions)`: the configured defaults,
      registered only when they pass `Validate`, whose exception is the error. */
  function UseCookieAuthorization(configure: CookieAuthorizationOptions -> CookieAuthorizationOptions,
                                  statusCode: int, backJson: string)
    : (r: Result<CookieAuthorizationOptions, ValidationError>)
    ensures r.Ok? <==> Valid(configure(DefaultOptions(statusCode, backJson)))
    ensures r.Ok? ==> r.value == configure(DefaultOptions(statusCode, backJson))
    ensures r.Err? ==> Some(r.error) == Validate(configure(DefaultOptions(statusCode, backJson)))
  {
    var options := configure(DefaultOptions(statusCode, backJson));
    match Validate(options)
    case Some(e) => Err(e)
    case None => Ok(options)
  }
}
