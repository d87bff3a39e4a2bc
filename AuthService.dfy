/** AuthService: registration, login and token refresh, and the response they all build. */
module AuthService {
  import opened Common
  import opened Text
  import opened Entities
  import opened Repositories
  import opened Exceptions
  import opened UserDetailsService
  import opened UserFactory
  import opened JwtUtil

  datatype AuthRequest = AuthRequest(username: string, password: string)

  /**
   * AuthResponse. `roles` are the raw role names. The builder ignores the initializer of
   * `tokenType`, so a built response carries null there.
   */
  datatype AuthResponse = AuthResponse(accessToken: string, refreshToken: string, username: string, email: string,
                                       fullName: string, roles: set<string>, tokenType: Option<string>)

  const DefaultRoleName := "USER"

  function RoleNames(roles: set<Role>): (r: set<string>)
    ensures forall name :: name in r <==> exists role :: role in roles && role.name == name
  {
    set role | role in roles :: role.name
  }

  /**
   * getAuthResponse: reloads the user's details by username, signs an access and a refresh
   * token from them, and copies the profile and the role names of the given user row.
   */
  function GetAuthResponse(users: map<UserId, User>, user: User, codec: JwtCodec, config: JwtConfig, now: int): (r: Result<AuthResponse, AuthError>)
    requires UniqueUsernames(users)
    ensures r.Ok? <==> ExistsByUsername(users, user.username)
    ensures r.Ok? ==>
              var details := LoadUserByUsername(users, user.username).value;
              && r.value.accessToken == GenerateToken(codec, details, config, now)
              && r.value.refreshToken == GenerateRefreshToken(codec, details, config, now)
              && r.value.username == user.username && r.value.email == user.email && r.value.fullName == user.fullName
              && r.value.roles == RoleNames(user.roles) && r.value.tokenType == None
  {
    var details :- LoadUserByUsername(users, user.username);
    Ok(AuthResponse(GenerateToken(codec, details, config, now), GenerateRefreshToken(codec, details, config, now),
                    user.username, user.email, user.fullName, RoleNames(user.roles), None))
  }

  /**
   * The AuthenticationManager with its DaoAuthenticationProvider: the username loads and the
   * password matches the stored hash.
   */
  predicate Authenticates(users: map<UserId, User>, username: string, password: string, encoder: PasswordEncoder)
    requires UniqueUsernames(users)
  {
    var details := LoadUserByUsername(users, username);
    details.Ok? && encoder.matches(password, details.value.password)
  }

  /** login: any authentication failure is reported with one message; otherwise the stored user's response. */
  function Login(users: map<UserId, User>, request: AuthRequest, encoder: PasswordEncoder, codec: JwtCodec, config: JwtConfig, now: int): Result<AuthResponse, AuthError>
    requires UniqueUsernames(users)
  {
    if !Authenticates(users, request.username, request.password, encoder) then
      Err(BadCredentials(LoginFailedMessage))
    else
      match FindByUsername(users, request.username)
      case None => Err(UsernameNotFound(UserMissingMessage))
      case Some(user) => GetAuthResponse(users, user, codec, config, now)
  }

  /**
   * Login succeeds exactly when the credentials authenticate, and an unknown username and a
   * wrong password fail alike, so the caller cannot tell which it was.
   */
  lemma LoginFailsUniformly(users: map<UserId, User>, request: AuthRequest, encoder: PasswordEncoder, codec: JwtCodec, config: JwtConfig, now: int)
    requires UniqueUsernames(users)
    ensures Login(users, request, encoder, codec, config, now).Ok? <==> Authenticates(users, request.username, request.password, encoder)
    ensures Login(users, request, encoder, codec, config, now).Err? ==>
              Login(users, request, encoder, codec, config, now) == Err(BadCredentials(LoginFailedMessage))
    ensures !ExistsByUsername(users, request.username) ==>
              Login(users, request, encoder, codec, config, now) == Err(BadCredentials(LoginFailedMessage))
  {
    if Authenticates(users, request.username, request.password, encoder) {
      var user := FindByUsername(users, request.username).value;
      assert user.username == request.username;
    }
  }

  /** A successful login answers with the stored user's profile and role names. */
  lemma LoginAnswersStoredUser(users: map<UserId, User>, request: AuthRequest, encoder: PasswordEncoder, codec: JwtCodec, config: JwtConfig, now: int)
    requires UniqueUsernames(users)
    requires Login(users, request, encoder, codec, config, now).Ok?
    ensures var response := Login(users, request, encoder, codec, config, now).value;
            exists id :: id in users && users[id].username == request.username &&
                         response.username == request.username && response.email == users[id].email &&
                         response.roles == RoleNames(users[id].roles)
  {
    var user := FindByUsername(users, request.username).value;
    var id :| id in users && users[id].username == request.username;
    assert users[id] == user;
  }

  /** loadUserByUsername on the subject of the token; a null subject finds no row. */
  function LoadUserBySubject(users: map<UserId, User>, subject: Option<string>): (r: Result<UserDetails, AuthError>)
    requires UniqueUsernames(users)
    ensures r.Ok? <==> subject.Some? && ExistsByUsername(users, subject.value)
  {
    if subject.None? then Err(UsernameNotFound(UnknownUsernameMessage("null")))
    else LoadUserByUsername(users, subject.value)
  }

  /**
   * refreshToken, as written: the token's subject is reloaded from the store and the token is
   * validated against it. Its "type" claim is never read.
   */
  function RefreshToken(users: map<UserId, User>, token: string, codec: JwtCodec, config: JwtConfig, now: int): Result<AuthResponse, AuthError>
    requires UniqueUsernames(users)
  {
    var username :- ExtractUsername(codec, token, now).MapFailure(e => Token(e));
    var details :- LoadUserBySubject(users, username);
    var valid :- ValidateToken(codec, token, details, now).MapFailure(e => Token(e));
    if !valid then
      Err(BadCredentials(RefreshRejectedMessage))
    else
      match FindByUsername(users, username.value)
      case None => Err(UsernameNotFound(UserMissingMessage))
      case Some(user) => GetAuthResponse(users, user, codec, config, now)
  }

  /** Every outcome of a refresh, by what the parsed token holds. */
  lemma RefreshTokenOutcomes(users: map<UserId, User>, token: string, codec: JwtCodec, config: JwtConfig, now: int)
    requires UniqueUsernames(users)
    ensures var r := RefreshToken(users, token, codec, config, now);
            var parsed := codec.parse(token, now);
            && (parsed.None? ==> r == Err(Token(Rejected)))
            && (parsed.Some? && parsed.value.subject.None? ==> r == Err(UsernameNotFound(UnknownUsernameMessage("null"))))
            && (parsed.Some? && parsed.value.subject.Some? && !ExistsByUsername(users, parsed.value.subject.value) ==>
                  r == Err(UsernameNotFound(UnknownUsernameMessage(parsed.value.subject.value))))
            && (parsed.Some? && parsed.value.subject.Some? && ExistsByUsername(users, parsed.value.subject.value) ==>
                  (parsed.value.expiration.None? ==> r == Err(Token(NullReference))) &&
                  (parsed.value.expiration.Some? && parsed.value.expiration.value < now ==> r == Err(BadCredentials(RefreshRejectedMessage))) &&
                  (parsed.value.expiration.Some? && now <= parsed.value.expiration.value ==> r.Ok?))
  {
    var parsed := codec.parse(token, now);
    if parsed.Some? && parsed.value.subject.Some? && ExistsByUsername(users, parsed.value.subject.value) {
      var username := parsed.value.subject.value;
      var details := LoadUserByUsername(users, username).value;
      assert details.username == username;
      var user := FindByUsername(users, username).value;
      assert user.username == username;
    }
  }

  /**
   * A refresh answers from the store at refresh time: the subject's current row gives the role
   * names and the authorities of the new tokens, whatever roles the presented token carried.
   */
  lemma RefreshReloadsUser(users: map<UserId, User>, token: string, codec: JwtCodec, config: JwtConfig, now: int)
    requires UniqueUsernames(users)
    requires RefreshToken(users, token, codec, config, now).Ok?
    ensures var response := RefreshToken(users, token, codec, config, now).value;
            var subject := codec.parse(token, now).value.subject.value;
            exists id :: id in users && users[id].username == subject &&
                         response.username == subject && response.roles == RoleNames(users[id].roles) &&
                         response.accessToken == GenerateToken(codec, LoadUserByUsername(users, subject).value, config, now)
  {
    var subject := codec.parse(token, now).value.subject.value;
    var user := FindByUsername(users, subject).value;
    var id :| id in users && users[id].username == subject;
    assert users[id] == user;
  }

  /**
   * Refresh does not check the token type: an access token, like a refresh token, is accepted
   * for a stored user until it expires.
   */
  lemma RefreshAcceptsAccessToken(users: map<UserId, User>, username: string, codec: JwtCodec, config: JwtConfig, issued: int, now: int)
    requires UniqueUsernames(users) && Faithful(codec)
    requires ExistsByUsername(users, username)
    requires now <= ToWholeSeconds(issued + config.expiration)
    ensures var details := LoadUserByUsername(users, username).value;
            RefreshToken(users, GenerateToken(codec, details, config, issued), codec, config, now).Ok?
  {
    var details := LoadUserByUsername(users, username).value;
    var token := GenerateToken(codec, details, config, issued);
    AccessTokenRoundTrip(codec, details, config, issued, now);
    RefreshTokenOutcomes(users, token, codec, config, now);
  }

  lemma RefreshAcceptsRefreshToken(users: map<UserId, User>, username: string, codec: JwtCodec, config: JwtConfig, issued: int, now: int)
    requires UniqueUsernames(users) && Faithful(codec)
    requires ExistsByUsername(users, username)
    requires now <= ToWholeSeconds(issued + config.refreshExpiration)
    ensures var details := LoadUserByUsername(users, username).value;
            RefreshToken(users, GenerateRefreshToken(codec, details, config, issued), codec, config, now).Ok?
  {
    var details := LoadUserByUsername(users, username).value;
    var token := GenerateRefreshToken(codec, details, config, issued);
    RefreshTokenRoundTrip(codec, details, config, issued, now);
    RefreshTokenOutcomes(users, token, codec, config, now);
  }

  /**
   * refreshToken as evidently intended: the same steps, and a token that does not carry the
   * refresh marker is rejected like an invalid one.
   */
  function RefreshTokenChecked(users: map<UserId, User>, token: string, codec: JwtCodec, config: JwtConfig, now: int): Result<AuthResponse, AuthError>
    requires UniqueUsernames(users)
  {
    var username :- ExtractUsername(codec, token, now).MapFailure(e => Token(e));
    var details :- LoadUserBySubject(users, username);
    var valid :- ValidateToken(codec, token, details, now).MapFailure(e => Token(e));
    if !valid || !IsRefreshToken(codec.parse(token, now).value) then
      Err(BadCredentials(RefreshRejectedMessage))
    else
      match FindByUsername(users, username.value)
      case None => Err(UsernameNotFound(UserMissingMessage))
      case Some(user) => GetAuthResponse(users, user, codec, config, now)
  }

  /** With the type check, an access token is refused and a refresh token still accepted. */
  lemma CheckedRefreshKeepsTokenKindsApart(users: map<UserId, User>, username: string, codec: JwtCodec, config: JwtConfig, issued: int, now: int)
    requires UniqueUsernames(users) && Faithful(codec)
    requires ExistsByUsername(users, username)
    ensures var details := LoadUserByUsername(users, username).value;
            now <= ToWholeSeconds(issued + config.expiration) ==>
              RefreshTokenChecked(users, GenerateToken(codec, details, config, issued), codec, config, now) ==
                Err(BadCredentials(RefreshRejectedMessage))
    ensures var details := LoadUserByUsername(users, username).value;
            now <= ToWholeSeconds(issued + config.refreshExpiration) ==>
              RefreshTokenChecked(users, GenerateRefreshToken(codec, details, config, issued), codec, config, now).Ok?
  {
    var details := LoadUserByUsername(users, username).value;
    if now <= ToWholeSeconds(issued + config.expiration) {
      AccessTokenRoundTrip(codec, details, config, issued, now);
      var jwt := codec.parse(GenerateToken(codec, details, config, issued), now).value;
      assert TypeClaim !in jwt.claims;
    }
    if now <= ToWholeSeconds(issued + config.refreshExpiration) {
      var token := GenerateRefreshToken(codec, details, config, issued);
      RefreshTokenRoundTrip(codec, details, config, issued, now);
      RefreshTokenOutcomes(users, token, codec, config, now);
      var user := FindByUsername(users, username).value;
      assert user.username == username;
    }
  }

  /**
   * The response lists the raw role names of a stored user, while its access token carries
   * their "ROLE_" authorities.
   */
  lemma ResponseRolesVersusTokenRoles(users: map<UserId, User>, id: UserId, codec: JwtCodec, config: JwtConfig, now: int)
    requires UniqueUsernames(users) && Faithful(codec) && id in users
    requires now <= ToWholeSeconds(now + config.expiration)
    ensures var response := GetAuthResponse(users, users[id], codec, config, now);
            && response.Ok?
            && response.value.roles == RoleNames(users[id].roles)
            && ExtractRoles(codec, response.value.accessToken, now) == Ok(Some(AuthoritiesOf(users[id].roles)))
  {
    var details := LoadUserByUsername(users, users[id].username).value;
    var found := FindByUsername(users, users[id].username).value;
    assert found == users[id];
    AccessTokenRoundTrip(codec, details, config, now, now);
  }

  /** The default role grants exactly the authority ROLE_USER. */
  lemma DefaultRoleAuthority(roleId: nat)
    ensures AuthoritiesOf({Role(roleId, DefaultRoleName)}) == {"ROLE_USER"}
  {
    assert Upper(DefaultRoleName) == DefaultRoleName;
    assert AuthorityOf(Role(roleId, DefaultRoleName)) == "ROLE_USER";
  }

  /**
   * register: the uniqueness checks first, with nothing written when they fail; then the
   * "USER" role is reused, or created when absent; the new user gets exactly that role and the
   * response is built for it.
   */
  method Register(db: Database, request: RegisterRequest, encoder: PasswordEncoder, codec: JwtCodec, config: JwtConfig, now: int)
    returns (r: Result<AuthResponse, AuthError>)
    requires db.Valid()
    modifies db
    ensures db.Valid()
    ensures db.products == old(db.products) && db.bills == old(db.bills)
    ensures ValidateAndBuildUser(old(db.users), request, encoder).Err? ==>
              r == Err(ValidateAndBuildUser(old(db.users), request, encoder).error) &&
              db.users == old(db.users) && db.roles == old(db.roles)
    ensures ValidateAndBuildUser(old(db.users), request, encoder).Ok? ==>
              var role := if DefaultRoleName in old(db.roles) then old(db.roles)[DefaultRoleName]
                          else Role(old(db.nextRoleId), DefaultRoleName);
              var user := ValidateAndBuildUser(old(db.users), request, encoder).value.(roles := {role});
              && db.roles == old(db.roles)[DefaultRoleName := role]
              && db.users == old(db.users)[old(db.nextUserId) := user]
              && r == GetAuthResponse(db.users, user, codec, config, now)
              && r.Ok? && r.value.roles == {DefaultRoleName}
  {
    var built := ValidateAndBuildUser(db.users, request, encoder);
    if built.Err? {
      return Err(built.error);
    }
    var role: Role;
    if DefaultRoleName in db.roles {
      role := db.roles[DefaultRoleName];
    } else {
      role := db.SaveRole(DefaultRoleName);
    }
    var user := built.value.(roles := {role});
    var id := db.SaveUser(user);
    assert db.users[id].username == user.username;
    r := GetAuthResponse(db.users, user, codec, config, now);
  }
}
