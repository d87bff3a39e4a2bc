/** CustomUserDetailsService: a user row as Spring Security's UserDetails. */
module UserDetailsService {
  import opened Common
  import opened Text
  import opened Entities
  import opened Repositories
  import opened Exceptions

  /**
   * Spring's User: username, password hash and granted authorities. The builder keeps the
   * authorities in a sorted set, so they are a set here.
   */
  datatype UserDetails = UserDetails(username: string, password: string, authorities: set<string>)

  const RolePrefix := "ROLE_"

  /** The authority granted for one role. */
  function AuthorityOf(role: Role): string
  {
    RolePrefix + Upper(role.name)
  }

  function AuthoritiesOf(roles: set<Role>): (r: set<string>)
    ensures forall a :: a in r <==> exists role :: role in roles && a == AuthorityOf(role)
  {
    set role | role in roles :: AuthorityOf(role)
  }

  /**
   * loadUserByUsername: the stored username and password hash with one authority per role,
   * or UsernameNotFoundException for an unknown username. The store is only read.
   */
  function LoadUserByUsername(users: map<UserId, User>, username: string): (r: Result<UserDetails, AuthError>)
    requires UniqueUsernames(users)
    ensures r.Err? <==> !ExistsByUsername(users, username)
    ensures r.Err? ==> r.error == UsernameNotFound(UnknownUsernameMessage(username))
    ensures r.Ok? ==> exists id :: id in users && users[id].username == username &&
                        r.value == UserDetails(username, users[id].password, AuthoritiesOf(users[id].roles))
  {
    match FindByUsername(users, username)
    case None => Err(UsernameNotFound(UnknownUsernameMessage(username)))
    case Some(user) => Ok(UserDetails(user.username, user.password, AuthoritiesOf(user.roles)))
  }

  /** Every granted authority carries the "ROLE_" prefix followed by an upper-cased role name. */
  lemma AuthoritiesArePrefixed(roles: set<Role>, a: string)
    requires a in AuthoritiesOf(roles)
    ensures StartsWith(a, RolePrefix)
    ensures exists role :: role in roles && a[|RolePrefix|..] == Upper(role.name)
  {
    var role :| role in roles && a == AuthorityOf(role);
    assert a[..|RolePrefix|] == RolePrefix && a[|RolePrefix|..] == Upper(role.name);
  }

  lemma AuthorityOfInjective(r1: Role, r2: Role)
    requires AuthorityOf(r1) == AuthorityOf(r2)
    ensures Upper(r1.name) == Upper(r2.name)
  {
    assert Upper(r1.name) == AuthorityOf(r1)[|RolePrefix|..];
    assert Upper(r2.name) == AuthorityOf(r2)[|RolePrefix|..];
  }

  /**
   * One authority per role: when no two roles of the user upper-case to the same name, there are
   * exactly as many authorities as roles.
   */
  lemma {:induction false} OneAuthorityPerRole(roles: set<Role>)
    requires forall r1, r2 :: r1 in roles && r2 in roles && Upper(r1.name) == Upper(r2.name) ==> r1 == r2
    ensures |AuthoritiesOf(roles)| == |roles|
    decreases |roles|
  {
    if roles != {} {
      var role :| role in roles;
      var rest := roles - {role};
      OneAuthorityPerRole(rest);
      assert AuthoritiesOf(roles) == AuthoritiesOf(rest) + {AuthorityOf(role)};
      if AuthorityOf(role) in AuthoritiesOf(rest) {
        var other :| other in rest && AuthorityOf(role) == AuthorityOf(other);
        AuthorityOfInjective(role, other);
      }
    }
  }
}
