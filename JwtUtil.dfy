/**
 * JwtUtil: the claims of access and refresh tokens, their lifetimes, and validation. Signing
 * and parsing (HMAC, Base64 key, the jjwt parser) are opaque functions; the clock is a
 * parameter in milliseconds.
 */
module JwtUtil {
  import opened Common
  import opened Exceptions
  import opened UserDetailsService

  /** A claim value: a plain string, or the list of authority strings of an access token. */
  datatype ClaimValue = Text(text: string) | Authorities(authorities: set<string>)

  /**
   * The payload of a token. A parsed token may lack a subject or an expiration; the time
   * stamps are in milliseconds.
   */
  datatype Jwt = Jwt(subject: Option<string>, claims: map<string, ClaimValue>, issuedAt: int, expiration: Option<int>)

  /**
   * The signing key as two functions. `parse(token, now)` is the jjwt parser at time `now`;
   * `None` is any exception it throws. It may reject any token, an expired one in particular.
   */
  datatype JwtCodec = JwtCodec(sign: Jwt -> string, parse: (string, int) -> Option<Jwt>)

  /** jwt.expiration and jwt.refresh.expiration, in milliseconds. */
  datatype JwtConfig = JwtConfig(expiration: int, refreshExpiration: int)

  const RolesClaim := "roles"
  const TypeClaim := "type"
  const RefreshType := "refresh"

  /** A JWT stores time stamps in whole seconds: `Date.getTime() / 1000`, truncated toward zero. */
  function ToWholeSeconds(millis: int): (r: int)
    ensures r % 1000 == 0
    ensures millis >= 0 ==> 0 <= r <= millis < r + 1000
    ensures millis < 0 ==> r - 1000 < millis <= r <= 0
  {
    if millis >= 0 then
      assert millis == millis / 1000 * 1000 + millis % 1000 && 0 <= millis % 1000 < 1000;
      millis / 1000 * 1000
    else
      assert -millis == (-millis) / 1000 * 1000 + (-millis) % 1000 && 0 <= (-millis) % 1000 < 1000;
      -((-millis) / 1000 * 1000)
  }

  /** The payload as it reads back after signing: both time stamps cut to whole seconds. */
  function Stored(jwt: Jwt): Jwt
  {
    jwt.(issuedAt := ToWholeSeconds(jwt.issuedAt),
         expiration := if jwt.expiration.Some? then Some(ToWholeSeconds(jwt.expiration.value)) else None)
  }

  /**
   * The signing key works: a token signed with it parses back to its payload at any time up to
   * the stored expiration. Nothing is promised once the token has expired.
   */
  ghost predicate Faithful(codec: JwtCodec)
  {
    forall jwt: Jwt, now: int ::
      jwt.expiration.Some? && now <= ToWholeSeconds(jwt.expiration.value) ==>
        codec.parse(codec.sign(jwt), now) == Some(Stored(jwt))
  }

  /** extractAllClaims: the parsed payload, or the parser's exception. */
  function ExtractAllClaims(codec: JwtCodec, token: string, now: int): (r: Result<Jwt, TokenError>)
    ensures r.Err? <==> codec.parse(token, now).None?
    ensures r.Err? ==> r.error == Rejected
    ensures r.Ok? ==> Some(r.value) == codec.parse(token, now)
  {
    match codec.parse(token, now)
    case None => Err(Rejected)
    case Some(jwt) => Ok(jwt)
  }

  /** extractUsername: the subject, possibly null. */
  function ExtractUsername(codec: JwtCodec, token: string, now: int): Result<Option<string>, TokenError>
  {
    var jwt :- ExtractAllClaims(codec, token, now);
    Ok(jwt.subject)
  }

  /** extractExpiration, possibly null. */
  function ExtractExpiration(codec: JwtCodec, token: string, now: int): Result<Option<int>, TokenError>
  {
    var jwt :- ExtractAllClaims(codec, token, now);
    Ok(jwt.expiration)
  }

  /** isTokenExpired: `exp.before(now)`, so a token whose expiration is exactly now has not expired. */
  function IsTokenExpired(codec: JwtCodec, token: string, now: int): Result<bool, TokenError>
  {
    var expiration :- ExtractExpiration(codec, token, now);
    if expiration.None? then Err(NullReference) else Ok(expiration.value < now)
  }

  /**
   * validateToken: the subject must equal the username (a missing subject throws), and only then
   * is the expiration checked. Nothing else in the token is looked at.
   */
  function ValidateToken(codec: JwtCodec, token: string, details: UserDetails, now: int): (r: Result<bool, TokenError>)
    ensures codec.parse(token, now).None? ==> r == Err(Rejected)
    ensures codec.parse(token, now).Some? ==>
              var jwt := codec.parse(token, now).value;
              r == if jwt.subject.None? then Err(NullReference)
                   else if jwt.subject.value != details.username then Ok(false)
                   else if jwt.expiration.None? then Err(NullReference)
                   else Ok(!(jwt.expiration.value < now))
  {
    var username :- ExtractUsername(codec, token, now);
    if username.None? then Err(NullReference)
    else if username.value != details.username then Ok(false)
    else
      var expired :- IsTokenExpired(codec, token, now);
      Ok(!expired)
  }

  /** validateToken holds exactly for a token of this user that has not yet expired. */
  lemma ValidateTokenIff(codec: JwtCodec, token: string, details: UserDetails, now: int)
    ensures ValidateToken(codec, token, details, now) == Ok(true) <==>
            exists jwt :: codec.parse(token, now) == Some(jwt) && jwt.subject == Some(details.username) &&
                          jwt.expiration.Some? && now <= jwt.expiration.value
  {
    if ValidateToken(codec, token, details, now) == Ok(true) {
      var jwt := codec.parse(token, now).value;
      assert jwt.subject == Some(details.username);
    }
  }

  /** The payload createToken signs: the claims, the subject, issued now, expiring after `validity`. */
  function NewJwt(claims: map<string, ClaimValue>, subject: string, validity: int, now: int): Jwt
  {
    Jwt(Some(subject), claims, now, Some(now + validity))
  }

  function CreateToken(codec: JwtCodec, claims: map<string, ClaimValue>, subject: string, validity: int, now: int): string
  {
    codec.sign(NewJwt(claims, subject, validity, now))
  }

  function AccessClaims(details: UserDetails): (claims: map<string, ClaimValue>)
    ensures claims.Keys == {RolesClaim} && claims[RolesClaim] == Authorities(details.authorities)
  {
    map[RolesClaim := Authorities(details.authorities)]
  }

  function RefreshClaims(): (claims: map<string, ClaimValue>)
    ensures claims.Keys == {TypeClaim} && claims[TypeClaim] == Text(RefreshType)
  {
    map[TypeClaim := Text(RefreshType)]
  }

  /** generateToken: the access token, carrying the authorities under "roles". */
  function GenerateToken(codec: JwtCodec, details: UserDetails, config: JwtConfig, now: int): string
  {
    CreateToken(codec, AccessClaims(details), details.username, config.expiration, now)
  }

  /** generateRefreshToken: type "refresh" and no roles, with the refresh lifetime. */
  function GenerateRefreshToken(codec: JwtCodec, details: UserDetails, config: JwtConfig, now: int): string
  {
    CreateToken(codec, RefreshClaims(), details.username, config.refreshExpiration, now)
  }

  /** The token carries the refresh marker: claim "type" with the text "refresh". */
  predicate IsRefreshToken(jwt: Jwt)
  {
    TypeClaim in jwt.claims && jwt.claims[TypeClaim] == Text(RefreshType)
  }

  /** extractRoles: the "roles" claim cast to a list; null when absent, a ClassCastException on a string. */
  function ExtractRoles(codec: JwtCodec, token: string, now: int): Result<Option<set<string>>, TokenError>
  {
    var jwt :- ExtractAllClaims(codec, token, now);
    if RolesClaim !in jwt.claims then Ok(None)
    else
      match jwt.claims[RolesClaim]
      case Authorities(authorities) => Ok(Some(authorities))
      case Text(_) => Err(ClassCast)
  }

  /**
   * An access token read back before it expires: its subject is the username, its roles are
   * the user's authorities, and it expires `expiration` after it was issued (to the second).
   */
  lemma AccessTokenRoundTrip(codec: JwtCodec, details: UserDetails, config: JwtConfig, issued: int, now: int)
    requires Faithful(codec)
    requires now <= ToWholeSeconds(issued + config.expiration)
    ensures var token := GenerateToken(codec, details, config, issued);
            && ExtractUsername(codec, token, now) == Ok(Some(details.username))
            && ExtractRoles(codec, token, now) == Ok(Some(details.authorities))
            && ExtractExpiration(codec, token, now) == Ok(Some(ToWholeSeconds(issued + config.expiration)))
            && ValidateToken(codec, token, details, now) == Ok(true)
  {
    var jwt := NewJwt(AccessClaims(details), details.username, config.expiration, issued);
    assert codec.parse(codec.sign(jwt), now) == Some(Stored(jwt));
  }

  /**
   * A refresh token read back before it expires: its subject is the username, it carries
   * type "refresh" and no roles, and it lives `refreshExpiration`.
   */
  lemma RefreshTokenRoundTrip(codec: JwtCodec, details: UserDetails, config: JwtConfig, issued: int, now: int)
    requires Faithful(codec)
    requires now <= ToWholeSeconds(issued + config.refreshExpiration)
    ensures var token := GenerateRefreshToken(codec, details, config, issued);
            && ExtractUsername(codec, token, now) == Ok(Some(details.username))
            && ExtractRoles(codec, token, now) == Ok(None)
            && ExtractAllClaims(codec, token, now).value.claims == map[TypeClaim := Text(RefreshType)]
            && ExtractExpiration(codec, token, now) == Ok(Some(ToWholeSeconds(issued + config.refreshExpiration)))
            && ValidateToken(codec, token, details, now) == Ok(true)
  {
    var jwt := NewJwt(RefreshClaims(), details.username, config.refreshExpiration, issued);
    assert codec.parse(codec.sign(jwt), now) == Some(Stored(jwt));
  }

  /**
   * Validation reads only the subject and the expiration: two tokens that parse to payloads
   * agreeing on those two validate alike, whatever their "type" or "roles" claims.
   */
  lemma ValidateIgnoresClaims(codec: JwtCodec, t1: string, t2: string, details: UserDetails, now: int)
    requires codec.parse(t1, now).Some? && codec.parse(t2, now).Some?
    requires codec.parse(t1, now).value.subject == codec.parse(t2, now).value.subject
    requires codec.parse(t1, now).value.expiration == codec.parse(t2, now).value.expiration
    ensures ValidateToken(codec, t1, details, now) == ValidateToken(codec, t2, details, now)
  {
  }
}
