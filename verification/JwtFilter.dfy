/**
 * JwtAuthenticationFilter: take the token out of the "Authorization: Bearer ..." header,
 * validate it, resolve its user into the security context and only then let the request
 * continue down the filter chain. Requests on the permit list skip all of this.
 */
module JwtFilter {
  import opened ErrorCodes
  import opened Users
  import opened Jwt
  import opened PermitUrls

  const BEARER: string := "Bearer "

  /** String.startsWith. */
  predicate StartsWith(s: string, prefix: string)
  {
    |prefix| <= |s| && s[..|prefix|] == prefix
  }

  /** `target` occurs somewhere in `s`. */
  predicate Contains(s: string, target: string)
  {
    |target| <= |s| && (s[..|target|] == target || Contains(s[1..], target))
  }

  /** String.replace(target, ""): scanning left to right, every non-overlapping occurrence is dropped. */
  function RemoveAll(s: string, target: string): (r: string)
    requires target != []
    ensures |r| <= |s|
    decreases |s|
  {
    if |s| < |target| then s
    else if s[..|target|] == target then RemoveAll(s[|target|..], target)
    else [s[0]] + RemoveAll(s[1..], target)
  }

  /** Where nothing occurs, nothing is removed. */
  lemma {:induction false} RemoveAllNothing(s: string, target: string)
    requires target != [] && !Contains(s, target)
    ensures RemoveAll(s, target) == s
    decreases |s|
  {
    if |s| >= |target| {
      RemoveAllNothing(s[1..], target);
      assert [s[0]] + s[1..] == s;
    }
  }

  /** Where something occurs, at least one whole occurrence is removed. */
  lemma {:induction false} RemoveAllShrinks(s: string, target: string)
    requires target != [] && Contains(s, target)
    ensures |RemoveAll(s, target)| <= |s| - |target|
    decreases |s|
  {
    if s[..|target|] != target {
      RemoveAllShrinks(s[1..], target);
    }
  }

  /** `r` is `s` with some of its characters left out, the rest kept in order. */
  predicate Subsequence(r: string, s: string)
    decreases |s|
  {
    |r| == 0 || (|s| > 0 && ((r[0] == s[0] && Subsequence(r[1..], s[1..])) || Subsequence(r, s[1..])))
  }

  /** Every string is a subsequence of itself. */
  lemma {:induction false} SubsequenceOfSelf(s: string)
    ensures Subsequence(s, s)
    decreases |s|
  {
    if |s| > 0 {
      SubsequenceOfSelf(s[1..]);
    }
  }

  /** Leaving out a prefix of `s` still leaves a subsequence of `s`. */
  lemma {:induction false} SubsequenceOfSuffix(r: string, s: string, k: nat)
    requires k <= |s| && Subsequence(r, s[k..])
    ensures Subsequence(r, s)
    decreases k
  {
    if k > 0 {
      assert s[1..][k - 1..] == s[k..];
      SubsequenceOfSuffix(r, s[1..], k - 1);
    }
  }

  /** n is a whole number of m's. */
  predicate MultipleOf(n: nat, m: nat)
    requires m > 0
    decreases n
  {
    n == 0 || (n >= m && MultipleOf(n - m, m))
  }

  /**
   * Only whole occurrences go: what replace leaves is a subsequence of the original,
   * shorter by a multiple of the target's length.
   */
  lemma {:induction false} RemoveAllWholeOccurrences(s: string, target: string)
    requires target != []
    ensures Subsequence(RemoveAll(s, target), s)
    ensures MultipleOf(|s| - |RemoveAll(s, target)|, |target|)
    decreases |s|
  {
    var r := RemoveAll(s, target);
    if |s| < |target| {
      SubsequenceOfSelf(s);
    } else if s[..|target|] == target {
      RemoveAllWholeOccurrences(s[|target|..], target);
      SubsequenceOfSuffix(r, s, |target|);
    } else {
      RemoveAllWholeOccurrences(s[1..], target);
      assert r == [s[0]] + RemoveAll(s[1..], target);
      assert r[1..] == RemoveAll(s[1..], target);
    }
  }

  /** A string without a space holds no "Bearer ". */
  lemma {:induction false} NoSpaceNoBearer(s: string)
    requires ' ' !in s
    ensures !Contains(s, BEARER)
  {
    if |BEARER| <= |s| {
      assert s[6] in s;
      NoSpaceNoBearer(s[1..]);
    }
  }

  /** getBearerToken: the header must be present and start with "Bearer "; every "Bearer " in it is then removed. */
  function GetBearerToken(authorizationHeader: Option<string>): (r: Result<string>)
    ensures r.Err? <==> authorizationHeader.None? || !StartsWith(authorizationHeader.value, BEARER)
    ensures r.Err? ==> r.error == MALFORMED_TOKEN_EXCEPTION
    ensures r.Ok? ==> |r.value| <= |authorizationHeader.value| - |BEARER|
  {
    if authorizationHeader.None? || !StartsWith(authorizationHeader.value, BEARER) then
      Err(MALFORMED_TOKEN_EXCEPTION)
    else
      Ok(RemoveAll(authorizationHeader.value, BEARER))
  }

  /** "Bearer " + t yields exactly t when t holds no further "Bearer "; otherwise those are removed too and the token is shorter. */
  lemma BearerTokenIsRest(t: string)
    ensures GetBearerToken(Some(BEARER + t)) == Ok(t) <==> !Contains(t, BEARER)
    ensures Contains(t, BEARER) ==> |GetBearerToken(Some(BEARER + t)).value| <= |t| - |BEARER|
  {
    var header := BEARER + t;
    assert header[..|BEARER|] == BEARER && header[|BEARER|..] == t;
    assert GetBearerToken(Some(header)) == Ok(RemoveAll(t, BEARER));
    if Contains(t, BEARER) {
      RemoveAllShrinks(t, BEARER);
    } else {
      RemoveAllNothing(t, BEARER);
    }
  }

  /** The bearer token is what is left of the header after its prefix once whole "Bearer " occurrences are dropped. */
  lemma BearerTokenWholeOccurrences(authorizationHeader: string)
    requires GetBearerToken(Some(authorizationHeader)).Ok?
    ensures Subsequence(GetBearerToken(Some(authorizationHeader)).value, authorizationHeader[|BEARER|..])
    ensures MultipleOf(|authorizationHeader| - |GetBearerToken(Some(authorizationHeader)).value|, |BEARER|)
  {
    var rest := authorizationHeader[|BEARER|..];
    assert authorizationHeader[..|BEARER|] == BEARER;
    assert GetBearerToken(Some(authorizationHeader)).value == RemoveAll(rest, BEARER);
    RemoveAllWholeOccurrences(rest, BEARER);
  }

  /** What the filter decides for a header: the principal to install, or the error that stops the request. */
  function Authenticate(provider: JwtTokenProvider, users: seq<UserEntity>, authorizationHeader: Option<string>, at: int)
    : Result<UserEntity>
  {
    match GetBearerToken(authorizationHeader)
    case Err(e) => Err(e)
    case Ok(token) =>
      match ValidateToken(provider, Some(token), at)
      case Fail(e) => Err(e)
      case Pass => GetAuthenticatedUser(provider, users, token, at)
  }

  /** Validation comes first: a bad header or a token that fails validation decides the outcome whatever the user table holds. */
  lemma ValidateBeforeResolve(provider: JwtTokenProvider, users: seq<UserEntity>, others: seq<UserEntity>, authorizationHeader: Option<string>, at: int)
    ensures GetBearerToken(authorizationHeader).Err? ==>
      Authenticate(provider, users, authorizationHeader, at) == Err(MALFORMED_TOKEN_EXCEPTION)
    ensures GetBearerToken(authorizationHeader).Ok? && ValidateToken(provider, Some(GetBearerToken(authorizationHeader).value), at).Fail? ==>
      && Authenticate(provider, users, authorizationHeader, at) == Err(ValidateToken(provider, Some(GetBearerToken(authorizationHeader).value), at).error)
      && Authenticate(provider, others, authorizationHeader, at) == Authenticate(provider, users, authorizationHeader, at)
    ensures Authenticate(provider, users, authorizationHeader, at).Ok? ==>
      && GetBearerToken(authorizationHeader).Ok?
      && ValidateToken(provider, Some(GetBearerToken(authorizationHeader).value), at) == Pass
      && Authenticate(provider, users, authorizationHeader, at).value in users
  {
  }

  /** A live access token of a stored user, sent as "Bearer <token>", authenticates that user. */
  lemma AccessTokenAuthenticates(provider: JwtTokenProvider, users: seq<UserEntity>, user: UserEntity, now: int, at: int)
    requires Sound(provider.codec)
    requires IncreasingUserIds(users) && user in users
    requires at <= Seconds(now + provider.tokenProperty.accessExpiration) * 1000
    ensures Authenticate(provider, users, Some(BEARER + CreateToken(provider, user, now).accessToken), at) == Ok(user)
  {
    var t := CreateToken(provider, user, now);
    CreateTokenClaims(provider, user, now, at);
    NoSpaceNoBearer(t.accessToken);
    BearerTokenIsRest(t.accessToken);
    AccessTokenValidates(provider, user, now, at);
    CreatedTokenAuthenticates(provider, users, user, now, at);
  }

  /** A refresh token never gets past the filter, although on its own it would resolve to its user. */
  lemma RefreshTokenRefused(provider: JwtTokenProvider, users: seq<UserEntity>, user: UserEntity, now: int, at: int)
    requires Sound(provider.codec)
    requires at <= Seconds(now + provider.tokenProperty.refreshExpiration) * 1000
    ensures Authenticate(provider, users, Some(BEARER + CreateToken(provider, user, now).refreshToken), at) == Err(INVALID_TOKEN_TYPE)
  {
    var t := CreateToken(provider, user, now);
    CreateTokenClaims(provider, user, now, at);
    NoSpaceNoBearer(t.refreshToken);
    BearerTokenIsRest(t.refreshToken);
    RefreshTokenRejected(provider, user, now, at);
  }

  /** The part of an HTTP request the filter reads. */
  datatype Request = Request(httpMethod: string, uri: string, authorization: Option<string>)

  /** The thread's security context: the authenticated principal, if any. */
  class SecurityContext {
    var authentication: Option<UserEntity>

    constructor ()
      ensures authentication.None?
    {
      authentication := None;
    }
  }

  /** The rest of the filter chain, recorded as the requests handed on to it. */
  class FilterChain {
    var forwarded: seq<Request>

    constructor ()
      ensures forwarded == []
    {
      forwarded := [];
    }

    method DoFilter(request: Request)
      modifies this
      ensures forwarded == old(forwarded) + [request]
    {
      forwarded := forwarded + [request];
    }
  }

  class JwtAuthenticationFilter {
    const provider: JwtTokenProvider
    const permitUrls: seq<string>
    /** AntPathMatcher.match(pattern, uri). */
    const antMatch: (string, string) -> bool
    const context: SecurityContext

    constructor (provider: JwtTokenProvider, permitUrls: seq<string>, antMatch: (string, string) -> bool, context: SecurityContext)
      ensures this.provider == provider && this.permitUrls == permitUrls
      ensures this.antMatch == antMatch && this.context == context
    {
      this.provider := provider;
      this.permitUrls := permitUrls;
      this.antMatch := antMatch;
      this.context := context;
    }

    /** shouldNotFilter: the permit list matches the request. */
    predicate ShouldNotFilter(request: Request)
    {
      Matches(permitUrls, request.httpMethod, request.uri, antMatch)
    }

    /** setAuthentication: resolve the token's user and install it as the principal. */
    method SetAuthentication(accessToken: string, users: seq<UserEntity>, at: int) returns (r: Outcome)
      modifies context
      ensures r.Fail? <==> GetAuthenticatedUser(provider, users, accessToken, at).Err?
      ensures r.Fail? ==> r.error == GetAuthenticatedUser(provider, users, accessToken, at).error && unchanged(context)
      ensures r.Pass? ==> context.authentication == Some(GetAuthenticatedUser(provider, users, accessToken, at).value)
    {
      var user := GetAuthenticatedUser(provider, users, accessToken, at);
      if user.Err? {
        return Fail(user.error);
      }
      context.authentication := Some(user.value);
      r := Pass;
    }

    /** doFilterInternal: bearer token, validate, install the principal, continue; the first failure stops the request. */
    method DoFilterInternal(request: Request, users: seq<UserEntity>, at: int, chain: FilterChain) returns (r: Outcome)
      modifies context, chain
      ensures var decided := Authenticate(provider, users, request.authorization, at);
        && (r.Pass? <==> decided.Ok?)
        && (r.Fail? ==> r.error == decided.error && unchanged(context) && unchanged(chain))
        && (r.Pass? ==> context.authentication == Some(decided.value) && chain.forwarded == old(chain.forwarded) + [request])
    {
      var authorizationHeader := request.authorization;
      var bearerToken := GetBearerToken(authorizationHeader);
      if bearerToken.Err? {
        return Fail(bearerToken.error);
      }
      var valid := ValidateToken(provider, Some(bearerToken.value), at);
      if valid.Fail? {
        return valid;
      }
      r := SetAuthentication(bearerToken.value, users, at);
      if r.Fail? {
        return;
      }
      chain.DoFilter(request);
    }

    /** The once-per-request dispatch: a permitted request goes straight on, unauthenticated; any other is filtered. */
    method DoFilter(request: Request, users: seq<UserEntity>, at: int, chain: FilterChain) returns (r: Outcome)
      modifies context, chain
      ensures ShouldNotFilter(request) ==>
        r == Pass && unchanged(context) && chain.forwarded == old(chain.forwarded) + [request]
      ensures !ShouldNotFilter(request) ==>
        var decided := Authenticate(provider, users, request.authorization, at);
        && (r.Pass? <==> decided.Ok?)
        && (r.Fail? ==> r.error == decided.error && unchanged(context) && unchanged(chain))
        && (r.Pass? ==> context.authentication == Some(decided.value) && chain.forwarded == old(chain.forwarded) + [request])
    {
      if ShouldNotFilter(request) {
        chain.DoFilter(request);
        return Pass;
      }
      r := DoFilterInternal(request, users, at, chain);
    }
  }
}
