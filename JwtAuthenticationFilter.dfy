/**
 * JwtAuthenticationFilter: once per request, a valid bearer token sets the authentication of
 * the request's security context; anything else leaves the context alone. The request always
 * goes on down the filter chain.
 */
module JwtAuthenticationFilter {
  import opened Common
  import opened Text
  import opened Entities
  import opened Repositories
  import opened UserDetailsService
  import opened JwtUtil

  /** UsernamePasswordAuthenticationToken: the loaded user and the authorities granted to it. */
  datatype Authentication = Authentication(principal: UserDetails, authorities: set<string>)

  /** The request-scoped SecurityContext. */
  class SecurityContext {
    var authentication: Option<Authentication>

    constructor ()
      ensures authentication == None
    {
      authentication := None;
    }
  }

  /** The rest of the filter chain, as the sequence of contexts it has been called with. */
  class FilterChain {
    var seen: seq<Option<Authentication>>

    constructor ()
      ensures seen == []
    {
      seen := [];
    }

    method DoFilter(context: SecurityContext)
      modifies this
      ensures seen == old(seen) + [context.authentication]
    {
      seen := seen + [context.authentication];
    }
  }

  const BearerPrefix := "Bearer "

  /**
   * The authentication a request leaves in the context: a header that starts with "Bearer "
   * and carries, from index 7, a token whose non-null subject loads from the store and
   * validates, sets one built from the loaded user, unless the context already holds one.
   * Every exception on the way is caught, so it leaves the context as it was.
   */
  function Authenticated(users: map<UserId, User>, header: Option<string>, current: Option<Authentication>,
                         codec: JwtCodec, now: int): (r: Option<Authentication>)
    requires UniqueUsernames(users)
    ensures r == current || r.Some?
  {
    if header.None? || !StartsWith(header.value, BearerPrefix) then current
    else
      var token := header.value[|BearerPrefix|..];
      match ExtractUsername(codec, token, now)
      case Err(_) => current
      case Ok(None) => current
      case Ok(Some(username)) =>
        if current.Some? then current
        else
          match LoadUserByUsername(users, username)
          case Err(_) => current
          case Ok(details) =>
            if ValidateToken(codec, token, details, now) == Ok(true) then
              Some(Authentication(details, details.authorities))
            else current
  }

  /** doFilterInternal: the context ends as `Authenticated` says, and the chain runs exactly once on it. */
  method DoFilterInternal(context: SecurityContext, chain: FilterChain, users: map<UserId, User>, header: Option<string>,
                          codec: JwtCodec, now: int)
    requires UniqueUsernames(users)
    modifies context, chain
    ensures context.authentication == Authenticated(users, header, old(context.authentication), codec, now)
    ensures chain.seen == old(chain.seen) + [context.authentication]
  {
    if header.None? || !StartsWith(header.value, BearerPrefix) {
      chain.DoFilter(context);
      return;
    }
    var jwt := header.value[7..];
    var username := ExtractUsername(codec, jwt, now);
    if username.Ok? && username.value.Some? && context.authentication.None? {
      var details := LoadUserByUsername(users, username.value.value);
      if details.Ok? {
        var valid := ValidateToken(codec, jwt, details.value, now);
        if valid == Ok(true) {
          context.authentication := Some(Authentication(details.value, details.value.authorities));
        }
      }
    }
    chain.DoFilter(context);
  }

  /**
   * Fail-open: the context changes only when it was empty and the bearer token validates for
   * a stored user, and then it holds that user with the store's authorities.
   */
  lemma SetOnlyByValidToken(users: map<UserId, User>, header: Option<string>, current: Option<Authentication>,
                            codec: JwtCodec, now: int)
    requires UniqueUsernames(users)
    ensures var r := Authenticated(users, header, current, codec, now);
            r != current ==>
              && current.None? && header.Some? && StartsWith(header.value, BearerPrefix)
              && var token := header.value[7..];
                 exists jwt, id :: codec.parse(token, now) == Some(jwt) && id in users &&
                                   jwt.subject == Some(users[id].username) &&
                                   jwt.expiration.Some? && now <= jwt.expiration.value &&
                                   r == Some(Authentication(UserDetails(users[id].username, users[id].password, AuthoritiesOf(users[id].roles)),
                                                            AuthoritiesOf(users[id].roles)))
  {
    var r := Authenticated(users, header, current, codec, now);
    if r != current {
      var token := header.value[7..];
      var jwt := codec.parse(token, now).value;
      var username := jwt.subject.value;
      var details := LoadUserByUsername(users, username).value;
      ValidateTokenIff(codec, token, details, now);
      var id :| id in users && users[id].username == username &&
                details == UserDetails(username, users[id].password, AuthoritiesOf(users[id].roles));
      assert jwt.subject == Some(users[id].username);
    }
  }

  /** An authentication already in the context is never replaced. */
  lemma ExistingAuthenticationKept(users: map<UserId, User>, header: Option<string>, current: Authentication,
                                   codec: JwtCodec, now: int)
    requires UniqueUsernames(users)
    ensures Authenticated(users, header, Some(current), codec, now) == Some(current)
  {
  }

  /** A missing header, or one without the case-sensitive "Bearer " prefix, changes nothing. */
  lemma NoBearerNoChange(users: map<UserId, User>, header: Option<string>, current: Option<Authentication>,
                         codec: JwtCodec, now: int)
    requires UniqueUsernames(users)
    requires header.None? || !StartsWith(header.value, BearerPrefix)
    ensures Authenticated(users, header, current, codec, now) == current
  {
  }

  /**
   * The granted authorities come from the store, not the token: two tokens that differ only in
   * their claims ("roles" included) authenticate alike.
   */
  lemma AuthoritiesIgnoreTokenRoles(users: map<UserId, User>, token1: string, token2: string, current: Option<Authentication>,
                                    codec: JwtCodec, now: int)
    requires UniqueUsernames(users)
    requires codec.parse(token1, now).Some? && codec.parse(token2, now).Some?
    requires codec.parse(token1, now).value.subject == codec.parse(token2, now).value.subject
    requires codec.parse(token1, now).value.expiration == codec.parse(token2, now).value.expiration
    ensures Authenticated(users, Some(BearerPrefix + token1), current, codec, now) ==
            Authenticated(users, Some(BearerPrefix + token2), current, codec, now)
  {
    assert (BearerPrefix + token1)[|BearerPrefix|..] == token1;
    assert (BearerPrefix + token2)[|BearerPrefix|..] == token2;
    assert StartsWith(BearerPrefix + token1, BearerPrefix) by { assert (BearerPrefix + token1)[..|BearerPrefix|] == BearerPrefix; }
    assert StartsWith(BearerPrefix + token2, BearerPrefix) by { assert (BearerPrefix + token2)[..|BearerPrefix|] == BearerPrefix; }
    var subject := codec.parse(token1, now).value.subject;
    if subject.Some? && ExistsByUsername(users, subject.value) {
      ValidateIgnoresClaims(codec, token1, token2, LoadUserByUsername(users, subject.value).value, now);
    }
  }

  /**
   * The converse of SetOnlyByValidToken: with an empty context, a "Bearer " header whose token
   * parses to an unexpired payload naming a stored user sets the authentication of that user,
   * with the store's authorities.
   */
  lemma ValidTokenSetsAuthentication(users: map<UserId, User>, header: Option<string>, codec: JwtCodec, now: int,
                                     jwt: Jwt, id: UserId)
    requires UniqueUsernames(users)
    requires header.Some? && StartsWith(header.value, BearerPrefix)
    requires codec.parse(header.value[7..], now) == Some(jwt)
    requires id in users && jwt.subject == Some(users[id].username)
    requires jwt.expiration.Some? && now <= jwt.expiration.value
    ensures Authenticated(users, header, None, codec, now) ==
            Some(Authentication(UserDetails(users[id].username, users[id].password, AuthoritiesOf(users[id].roles)),
                                AuthoritiesOf(users[id].roles)))
  {
    var username := users[id].username;
    assert ExistsByUsername(users, username);
    var details := LoadUserByUsername(users, username).value;
    var other :| other in users && users[other].username == username &&
                 details == UserDetails(username, users[other].password, AuthoritiesOf(users[other].roles));
    assert other == id;
    ValidateTokenIff(codec, header.value[7..], details, now);
  }

  /** A header made of the prefix and a token is a bearer header carrying exactly that token. */
  lemma BearerHeader(token: string)
    ensures StartsWith(BearerPrefix + token, BearerPrefix)
    ensures (BearerPrefix + token)[7..] == token
  {
    assert (BearerPrefix + token)[..|BearerPrefix|] == BearerPrefix;
  }

  /**
   * The filter does not check the token type: an unexpired refresh token of a stored user
   * authenticates a request like an access token, with the store's authorities.
   */
  lemma RefreshTokenAuthenticates(users: map<UserId, User>, username: string, codec: JwtCodec, config: JwtConfig,
                                  issued: int, now: int)
    requires UniqueUsernames(users) && Faithful(codec)
    requires ExistsByUsername(users, username)
    requires now <= ToWholeSeconds(issued + config.refreshExpiration)
    ensures var details := LoadUserByUsername(users, username).value;
            Authenticated(users, Some(BearerPrefix + GenerateRefreshToken(codec, details, config, issued)), None, codec, now) ==
              Some(Authentication(details, details.authorities))
  {
    var details := LoadUserByUsername(users, username).value;
    var token := GenerateRefreshToken(codec, details, config, issued);
    RefreshTokenRoundTrip(codec, details, config, issued, now);
    BearerHeader(token);
    var jwt := codec.parse(token, now).value;
    var id :| id in users && users[id].username == username &&
              details == UserDetails(username, users[id].password, AuthoritiesOf(users[id].roles));
    ValidTokenSetsAuthentication(users, Some(BearerPrefix + token), codec, now, jwt, id);
  }

  /**
   * The authentication as evidently intended: the same steps, and a token carrying the refresh
   * marker is ignored like an invalid one. It only ever sets what the filter as written sets.
   */
  function AuthenticatedChecked(users: map<UserId, User>, header: Option<string>, current: Option<Authentication>,
                                codec: JwtCodec, now: int): (r: Option<Authentication>)
    requires UniqueUsernames(users)
    ensures r == current || r == Authenticated(users, header, current, codec, now)
  {
    if header.None? || !StartsWith(header.value, BearerPrefix) then current
    else
      var token := header.value[|BearerPrefix|..];
      match ExtractUsername(codec, token, now)
      case Err(_) => current
      case Ok(None) => current
      case Ok(Some(username)) =>
        if current.Some? then current
        else
          match LoadUserByUsername(users, username)
          case Err(_) => current
          case Ok(details) =>
            if ValidateToken(codec, token, details, now) == Ok(true) && !IsRefreshToken(codec.parse(token, now).value) then
              Some(Authentication(details, details.authorities))
            else current
  }

  /** With the type check, an unexpired access token still authenticates and a refresh token does not. */
  lemma CheckedFilterKeepsTokenKindsApart(users: map<UserId, User>, username: string, codec: JwtCodec, config: JwtConfig,
                                          issued: int, now: int)
    requires UniqueUsernames(users) && Faithful(codec)
    requires ExistsByUsername(users, username)
    ensures var details := LoadUserByUsername(users, username).value;
            now <= ToWholeSeconds(issued + config.expiration) ==>
              AuthenticatedChecked(users, Some(BearerPrefix + GenerateToken(codec, details, config, issued)), None, codec, now) ==
                Some(Authentication(details, details.authorities))
    ensures var details := LoadUserByUsername(users, username).value;
            now <= ToWholeSeconds(issued + config.refreshExpiration) ==>
              AuthenticatedChecked(users, Some(BearerPrefix + GenerateRefreshToken(codec, details, config, issued)), None, codec, now) == None
  {
    var details := LoadUserByUsername(users, username).value;
    if now <= ToWholeSeconds(issued + config.expiration) {
      var token := GenerateToken(codec, details, config, issued);
      AccessTokenRoundTrip(codec, details, config, issued, now);
      BearerHeader(token);
      assert TypeClaim !in codec.parse(token, now).value.claims;
    }
    if now <= ToWholeSeconds(issued + config.refreshExpiration) {
      var token := GenerateRefreshToken(codec, details, config, issued);
      RefreshTokenRoundTrip(codec, details, config, issued, now);
      BearerHeader(token);
    }
  }
}
