/** AdminService: an administrator creates a user with named roles, all or nothing. */
module AdminService {
  import opened Common
  import opened Entities
  import opened Repositories
  import opened Exceptions
  import opened UserFactory

  /** UserDTO: only the id and the username of the saved user. */
  datatype UserDto = UserDto(id: UserId, username: string)

  /** convertToDTO: only the id and the username of the saved user. */
  function ConvertToDto(id: UserId, user: User): UserDto
  {
    UserDto(id, user.username)
  }

  /** The first requested name, in iteration order, that names no stored role. */
  function FirstMissingRole(roles: map<string, Role>, names: seq<string>): (missing: Option<string>)
    ensures missing.None? <==> forall k :: 0 <= k < |names| ==> names[k] in roles
    ensures missing.Some? ==> exists k :: 0 <= k < |names| && names[k] == missing.value && names[k] !in roles &&
                                          forall j :: 0 <= j < k ==> names[j] in roles
    decreases |names|
  {
    if names == [] then None
    else if names[0] !in roles then Some(names[0])
    else
      var rest := FirstMissingRole(roles, names[1..]);
      assert forall k :: 1 <= k < |names| ==> names[k] == names[1..][k - 1];
      if rest.Some? then
        assert exists k :: 0 <= k < |names| && names[k] == rest.value && names[k] !in roles &&
                           forall j :: 0 <= j < k ==> names[j] in roles by {
          var k :| 0 <= k < |names[1..]| && names[1..][k] == rest.value && names[1..][k] !in roles &&
                   forall j :: 0 <= j < k ==> names[1..][j] in roles;
          assert names[k + 1] == rest.value;
        }
        rest
      else
        rest
  }

  /** The stored roles the requested names refer to. */
  function RolesNamed(roles: map<string, Role>, names: seq<string>): (found: set<Role>)
    ensures forall role :: role in found <==> exists k :: 0 <= k < |names| && names[k] in roles && roles[names[k]] == role
  {
    set k | 0 <= k < |names| && names[k] in roles :: roles[names[k]]
  }

  /**
   * The loop of createUserWithRoles: each name in turn is looked up (never created); the first
   * one with no stored role stops the loop.
   */
  method LookUpRoles(db: Database, names: seq<string>) returns (missing: Option<string>, found: set<Role>)
    ensures missing == FirstMissingRole(db.roles, names)
    ensures missing.None? ==> found == RolesNamed(db.roles, names)
  {
    found := {};
    var i := 0;
    while i < |names|
      invariant 0 <= i <= |names|
      invariant forall k :: 0 <= k < i ==> names[k] in db.roles
      invariant found == RolesNamed(db.roles, names[..i])
    {
      if names[i] !in db.roles {
        return Some(names[i]), found;
      }
      assert names[..i + 1] == names[..i] + [names[i]];
      found := found + {db.roles[names[i]]};
      i := i + 1;
    }
    assert names[..i] == names;
    return None, found;
  }

  /**
   * createUserWithRoles: the uniqueness checks run before any role lookup; a missing role
   * raises RoleNotFoundException and no user is saved; otherwise the user is saved with exactly
   * the roles found, and only its id and username are returned. The role table is only read.
   */
  method CreateUserWithRoles(db: Database, request: RegisterRequest, encoder: PasswordEncoder) returns (r: Result<UserDto, AuthError>)
    requires db.Valid()
    modifies db
    ensures db.Valid()
    ensures db.roles == old(db.roles) && db.products == old(db.products) && db.bills == old(db.bills)
    ensures ValidateAndBuildUser(old(db.users), request, encoder).Err? ==>
              r == Err(ValidateAndBuildUser(old(db.users), request, encoder).error) && db.users == old(db.users)
    ensures ValidateAndBuildUser(old(db.users), request, encoder).Ok? && FirstMissingRole(old(db.roles), request.roleNames).Some? ==>
              r == Err(RoleNotFound(UnknownRoleMessage(FirstMissingRole(old(db.roles), request.roleNames).value))) &&
              db.users == old(db.users)
    ensures ValidateAndBuildUser(old(db.users), request, encoder).Ok? && FirstMissingRole(old(db.roles), request.roleNames).None? ==>
              var user := ValidateAndBuildUser(old(db.users), request, encoder).value.(roles := RolesNamed(old(db.roles), request.roleNames));
              r == Ok(ConvertToDto(old(db.nextUserId), user)) && db.users == old(db.users)[old(db.nextUserId) := user]
  {
    var built := ValidateAndBuildUser(db.users, request, encoder);
    if built.Err? {
      return Err(built.error);
    }
    var missing, roles := LookUpRoles(db, request.roleNames);
    if missing.Some? {
      return Err(RoleNotFound(UnknownRoleMessage(missing.value)));
    }
    var user := built.value.(roles := roles);
    var id := db.SaveUser(user);
    return Ok(ConvertToDto(id, user));
  }
}
