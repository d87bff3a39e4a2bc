/** UserFactory: the uniqueness checks of registration and the construction of the new user row. */
module UserFactory {
  import opened Common
  import opened Entities
  import opened Repositories
  import opened Exceptions

  /**
   * RegisterRequest. `roleNames` are the names of the roles the request carries, in the order
   * they are iterated; only the administrator's user creation reads them.
   */
  datatype RegisterRequest = RegisterRequest(fullName: string, username: string, email: string, password: string, roleNames: seq<string>)

  /** The PasswordEncoder bean (BCrypt), as two opaque functions. */
  datatype PasswordEncoder = PasswordEncoder(encode: string -> string, matches: (string, string) -> bool)

  /**
   * validateAndBuildUser: the username check runs first, then the email check; a request that
   * passes both yields a fresh user row with the encoded password and no roles. The store is
   * not written.
   */
  function ValidateAndBuildUser(users: map<UserId, User>, request: RegisterRequest, encoder: PasswordEncoder): (r: Result<User, AuthError>)
    ensures r.Ok? <==> !ExistsByUsername(users, request.username) && !ExistsByEmail(users, request.email)
    ensures ExistsByUsername(users, request.username) ==> r == Err(UserAlreadyExists(UsernameTakenMessage))
    ensures !ExistsByUsername(users, request.username) && ExistsByEmail(users, request.email) ==>
              r == Err(UserAlreadyExists(EmailTakenMessage))
    ensures r.Ok? ==> r.value.fullName == request.fullName && r.value.username == request.username &&
                      r.value.email == request.email && r.value.password == encoder.encode(request.password) &&
                      r.value.roles == {}
  {
    if ExistsByUsername(users, request.username) then
      Err(UserAlreadyExists(UsernameTakenMessage))
    else if ExistsByEmail(users, request.email) then
      Err(UserAlreadyExists(EmailTakenMessage))
    else
      Ok(User(request.fullName, request.username, request.email, encoder.encode(request.password), {}))
  }

  /**
   * A built user, whatever roles it is then given, can be stored under a new id without
   * breaking the unique username and email columns.
   */
  lemma BuiltUserKeepsColumnsUnique(users: map<UserId, User>, request: RegisterRequest, encoder: PasswordEncoder,
                                    id: UserId, roles: set<Role>)
    requires UniqueUsernames(users) && UniqueEmails(users) && id !in users
    requires ValidateAndBuildUser(users, request, encoder).Ok?
    ensures var user := ValidateAndBuildUser(users, request, encoder).value.(roles := roles);
            UniqueUsernames(users[id := user]) && UniqueEmails(users[id := user])
  {
  }
}
