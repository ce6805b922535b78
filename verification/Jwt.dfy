/**
 * JwtTokenProvider: the claims an access or refresh token is built from, the type check
 * of validateToken and the user lookup of getAuthenticatedUser. Signing and verified
 * parsing are the JWT library's and stay abstract (JwtCodec); the wall clock and the
 * user table are parameters. A parse failure is the library's JwtException, which the
 * security exception filter answers with JWT_AUTH_EXCEPTION; the null type claim that
 * makes validateToken dereference null is answered, like any other unexpected
 * exception there, with INTERNAL_SERVER_ERROR.
 */
module Jwt {
  import opened ErrorCodes
  import opened Users

  const ACCESS_TOKEN: string := "accessToken"
  const REFRESH_TOKEN: string := "refreshToken"

  /** The jwt.* configuration: signing secret and the two lifetimes in milliseconds. */
  datatype TokenProperty = TokenProperty(secretKey: string, accessExpiration: int, refreshExpiration: int)

  /** The claims this application reads and writes; iat and exp are whole seconds, as a compact JWS stores them. */
  datatype Claims = Claims(id: Option<int>, tokenType: Option<string>, issuedAt: int, expiration: int)

  /** createToken's pair. */
  datatype Token = Token(accessToken: string, refreshToken: string)

  /**
   * HS256 signing and verified parsing with the key derived from the secret. `parse(t, at)`
   * is None where the library throws a JwtException at clock `at` (milliseconds).
   */
  datatype JwtCodec = JwtCodec(sign: Claims -> string, parse: (string, int) -> Option<Claims>)

  /** The provider's configuration and its keyed codec. */
  datatype JwtTokenProvider = JwtTokenProvider(tokenProperty: TokenProperty, codec: JwtCodec)

  /** A millisecond instant as the whole seconds a JWS date claim keeps (Java's division truncates toward zero). */
  function Seconds(ms: int): int
  {
    if ms >= 0 then ms / 1000 else -((-ms) / 1000)
  }

  /** The library rejects a token once the clock is past its expiry instant. */
  predicate Expired(c: Claims, at: int)
  {
    at > c.expiration * 1000
  }

  /**
   * What the model assumes of the library: a compact token is never empty and, being
   * base64url parts joined by dots, holds no space; it parses back to its claims until it expires.
   */
  ghost predicate Sound(codec: JwtCodec)
  {
    && (forall c :: codec.sign(c) != [] && ' ' !in codec.sign(c))
    && (forall c, at :: codec.parse(codec.sign(c), at) == if Expired(c, at) then None else Some(c))
  }

  /** generateAccessToken's claims: the user's key, type "accessToken", issued now, expiring after accessExpiration. */
  function AccessClaims(p: TokenProperty, user: UserEntity, now: int): Claims
  {
    Claims(Some(user.id), Some(ACCESS_TOKEN), Seconds(now), Seconds(now + p.accessExpiration))
  }

  /** generateRefreshToken's claims: as the access claims, with type "refreshToken" and refreshExpiration. */
  function RefreshClaims(p: TokenProperty, user: UserEntity, now: int): Claims
  {
    Claims(Some(user.id), Some(REFRESH_TOKEN), Seconds(now), Seconds(now + p.refreshExpiration))
  }

  /** createToken at clock `now`. */
  function CreateToken(provider: JwtTokenProvider, user: UserEntity, now: int): Token
  {
    Token(provider.codec.sign(AccessClaims(provider.tokenProperty, user, now)),
          provider.codec.sign(RefreshClaims(provider.tokenProperty, user, now)))
  }

  /** getType: the type claim, absent as None; a token the library rejects is a JwtException. */
  function GetType(provider: JwtTokenProvider, token: string, at: int): (r: Result<Option<string>>)
    ensures r.Err? <==> provider.codec.parse(token, at).None?
    ensures r.Err? ==> r.error == JWT_AUTH_EXCEPTION
    ensures r.Ok? ==> r.value == provider.codec.parse(token, at).value.tokenType
  {
    match provider.codec.parse(token, at)
    case None => Err(JWT_AUTH_EXCEPTION)
    case Some(claims) => Ok(claims.tokenType)
  }

  /** validateToken: present and non-empty, then of type "accessToken". */
  function ValidateToken(provider: JwtTokenProvider, accessToken: Option<string>, at: int): (r: Outcome)
    ensures r == Fail(MALFORMED_TOKEN_EXCEPTION) <==> accessToken.None? || accessToken.value == []
    ensures accessToken.Some? && accessToken.value != [] && provider.codec.parse(accessToken.value, at).None? ==>
      r == Fail(JWT_AUTH_EXCEPTION)
    ensures (accessToken.Some? && accessToken.value != [] && provider.codec.parse(accessToken.value, at).Some?
             && provider.codec.parse(accessToken.value, at).value.tokenType.None?) ==>
      r == Fail(INTERNAL_SERVER_ERROR)
    ensures r.Pass? <==>
      && accessToken.Some? && accessToken.value != []
      && provider.codec.parse(accessToken.value, at).Some?
      && provider.codec.parse(accessToken.value, at).value.tokenType == Some(ACCESS_TOKEN)
    ensures r == Fail(INVALID_TOKEN_TYPE) <==>
      && accessToken.Some? && accessToken.value != []
      && provider.codec.parse(accessToken.value, at).Some?
      && provider.codec.parse(accessToken.value, at).value.tokenType.Some?
      && provider.codec.parse(accessToken.value, at).value.tokenType != Some(ACCESS_TOKEN)
  {
    if accessToken.None? || accessToken.value == [] then Fail(MALFORMED_TOKEN_EXCEPTION)
    else
      match GetType(provider, accessToken.value, at)
      case Err(e) => Fail(e)
      case Ok(None) => Fail(INTERNAL_SERVER_ERROR)
      case Ok(Some(tokenType)) => if tokenType != ACCESS_TOKEN then Fail(INVALID_TOKEN_TYPE) else Pass
  }

  /** getAuthenticatedUser: the user whose key the id claim carries. */
  function GetAuthenticatedUser(provider: JwtTokenProvider, users: seq<UserEntity>, accessToken: string, at: int)
    : (r: Result<UserEntity>)
    ensures provider.codec.parse(accessToken, at).None? ==> r == Err(JWT_AUTH_EXCEPTION)
    ensures r.Ok? ==>
      && provider.codec.parse(accessToken, at).Some?
      && provider.codec.parse(accessToken, at).value.id == Some(r.value.id)
      && r.value in users
    ensures r == Err(MALFORMED_TOKEN_EXCEPTION) <==>
      provider.codec.parse(accessToken, at).Some? && provider.codec.parse(accessToken, at).value.id.None?
    ensures r == Err(USER_NOT_FOUND_EXCEPTION) <==>
      && provider.codec.parse(accessToken, at).Some?
      && provider.codec.parse(accessToken, at).value.id.Some?
      && forall u :: u in users ==> u.id != provider.codec.parse(accessToken, at).value.id.value
    ensures forall u :: (u in users && provider.codec.parse(accessToken, at).Some?
                         && provider.codec.parse(accessToken, at).value.id == Some(u.id)) ==> r.Ok?
    ensures IncreasingUserIds(users) ==>
      forall u :: (u in users && provider.codec.parse(accessToken, at).Some?
                   && provider.codec.parse(accessToken, at).value.id == Some(u.id)) ==> r == Ok(u)
  {
    match provider.codec.parse(accessToken, at)
    case None => Err(JWT_AUTH_EXCEPTION)
    case Some(claims) =>
      if claims.id.None? then Err(MALFORMED_TOKEN_EXCEPTION)
      else
        FindUserSpec(users, claims.id.value);
        FindUserStored(users, claims.id.value);
        match FindUser(users, claims.id.value)
        case None => Err(USER_NOT_FOUND_EXCEPTION)
        case Some(user) => Ok(user)
  }

  /** Both tokens of a pair read back, until they expire, as claims naming the user, their type and their lifetime. */
  lemma CreateTokenClaims(provider: JwtTokenProvider, user: UserEntity, now: int, at: int)
    requires Sound(provider.codec)
    ensures var t := CreateToken(provider, user, now);
      var p := provider.tokenProperty;
      && t.accessToken != [] && t.refreshToken != []
      && ' ' !in t.accessToken && ' ' !in t.refreshToken
      && provider.codec.parse(t.accessToken, at)
         == (if at > Seconds(now + p.accessExpiration) * 1000 then None
             else Some(Claims(Some(user.id), Some("accessToken"), Seconds(now), Seconds(now + p.accessExpiration))))
      && provider.codec.parse(t.refreshToken, at)
         == (if at > Seconds(now + p.refreshExpiration) * 1000 then None
             else Some(Claims(Some(user.id), Some("refreshToken"), Seconds(now), Seconds(now + p.refreshExpiration))))
  {
    var p := provider.tokenProperty;
    assert provider.codec.sign(AccessClaims(p, user, now)) != [];
    assert provider.codec.sign(RefreshClaims(p, user, now)) != [];
    assert provider.codec.parse(provider.codec.sign(AccessClaims(p, user, now)), at)
      == if Expired(AccessClaims(p, user, now), at) then None else Some(AccessClaims(p, user, now));
    assert provider.codec.parse(provider.codec.sign(RefreshClaims(p, user, now)), at)
      == if Expired(RefreshClaims(p, user, now), at) then None else Some(RefreshClaims(p, user, now));
  }

  /** A lifetime of at least a second outlasts the truncation of exp to seconds: the token is live when issued. */
  lemma LiveWhenIssued(now: int, lifetime: int)
    requires now >= 0 && lifetime >= 1000
    ensures now <= Seconds(now + lifetime) * 1000
  {
    var s := now + lifetime;
    assert s == (s / 1000) * 1000 + s % 1000;
  }

  /** Until it expires, the access token of a pair passes validateToken. */
  lemma AccessTokenValidates(provider: JwtTokenProvider, user: UserEntity, now: int, at: int)
    requires Sound(provider.codec)
    requires at <= Seconds(now + provider.tokenProperty.accessExpiration) * 1000
    ensures ValidateToken(provider, Some(CreateToken(provider, user, now).accessToken), at) == Pass
  {
    CreateTokenClaims(provider, user, now, at);
  }

  /** A live refresh token is refused by validateToken for its type. */
  lemma RefreshTokenRejected(provider: JwtTokenProvider, user: UserEntity, now: int, at: int)
    requires Sound(provider.codec)
    requires at <= Seconds(now + provider.tokenProperty.refreshExpiration) * 1000
    ensures ValidateToken(provider, Some(CreateToken(provider, user, now).refreshToken), at) == Fail(INVALID_TOKEN_TYPE)
  {
    CreateTokenClaims(provider, user, now, at);
  }

  /** At the instant they are issued, with lifetimes of a second or more, the access token validates and the refresh token does not. */
  lemma FreshPairAtIssue(provider: JwtTokenProvider, user: UserEntity, now: int)
    requires Sound(provider.codec) && now >= 0
    requires provider.tokenProperty.accessExpiration >= 1000 && provider.tokenProperty.refreshExpiration >= 1000
    ensures ValidateToken(provider, Some(CreateToken(provider, user, now).accessToken), now) == Pass
    ensures ValidateToken(provider, Some(CreateToken(provider, user, now).refreshToken), now) == Fail(INVALID_TOKEN_TYPE)
  {
    LiveWhenIssued(now, provider.tokenProperty.accessExpiration);
    LiveWhenIssued(now, provider.tokenProperty.refreshExpiration);
    AccessTokenValidates(provider, user, now, now);
    RefreshTokenRejected(provider, user, now, now);
  }

  /** After its expiry instant, an access token is refused by the library. */
  lemma ExpiredAccessTokenRejected(provider: JwtTokenProvider, user: UserEntity, now: int, at: int)
    requires Sound(provider.codec)
    requires at > Seconds(now + provider.tokenProperty.accessExpiration) * 1000
    ensures ValidateToken(provider, Some(CreateToken(provider, user, now).accessToken), at) == Fail(JWT_AUTH_EXCEPTION)
  {
    CreateTokenClaims(provider, user, now, at);
  }

  /** A live token of a stored user resolves to that user; either token of the pair does, since the lookup reads only the id claim. */
  lemma CreatedTokenAuthenticates(provider: JwtTokenProvider, users: seq<UserEntity>, user: UserEntity, now: int, at: int)
    requires Sound(provider.codec)
    requires IncreasingUserIds(users) && user in users
    ensures at <= Seconds(now + provider.tokenProperty.accessExpiration) * 1000 ==>
      GetAuthenticatedUser(provider, users, CreateToken(provider, user, now).accessToken, at) == Ok(user)
    ensures at <= Seconds(now + provider.tokenProperty.refreshExpiration) * 1000 ==>
      GetAuthenticatedUser(provider, users, CreateToken(provider, user, now).refreshToken, at) == Ok(user)
  {
    CreateTokenClaims(provider, user, now, at);
    FindUserMember(users, user);
  }

  /** A live token whose user has left the table resolves to USER_NOT_FOUND_EXCEPTION. */
  lemma RemovedUserNotFound(provider: JwtTokenProvider, users: seq<UserEntity>, user: UserEntity, now: int, at: int)
    requires Sound(provider.codec)
    requires forall u :: u in users ==> u.id != user.id
    requires at <= Seconds(now + provider.tokenProperty.accessExpiration) * 1000
    ensures GetAuthenticatedUser(provider, users, CreateToken(provider, user, now).accessToken, at) == Err(USER_NOT_FOUND_EXCEPTION)
  {
    CreateTokenClaims(provider, user, now, at);
  }
}
