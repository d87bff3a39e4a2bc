/**
 * The authorization rules of SecurityConfig.securityFilterChain: an ordered list of path
 * patterns, each with the access it requires; the first pattern that matches decides, and
 * every other request needs an authenticated principal.
 */
module SecurityConfig {
  import opened Common
  import opened Text

  /**
   * A request matcher: an exact path, or a base path followed by the "any sub-path" wildcard,
   * which matches the base and everything below it.
   */
  datatype PathPattern = Exact(path: string) | Subtree(base: string)

  datatype Access = PermitAll | HasAnyAuthority(authorities: set<string>) | IsAuthenticated

  datatype Rule = Rule(patterns: seq<PathPattern>, access: Access)

  /** Permit; Challenge: an anonymous request sent to the entry point (401); Forbidden (403). */
  datatype Decision = Permit | Challenge | Forbidden

  predicate PatternMatches(pattern: PathPattern, path: string)
  {
    match pattern
    case Exact(p) => path == p
    case Subtree(base) => path == base || StartsWith(path, base + "/")
  }

  predicate RuleMatches(rule: Rule, path: string)
  {
    exists k :: 0 <= k < |rule.patterns| && PatternMatches(rule.patterns[k], path)
  }

  /** hasRole(role): the authority "ROLE_" + role. */
  function HasRole(role: string): Access
  {
    HasAnyAuthority({"ROLE_" + role})
  }

  /** hasAnyRole(roles...): any of the authorities "ROLE_" + role. */
  function HasAnyRole(roles: seq<string>): Access
  {
    HasAnyAuthority(set k | 0 <= k < |roles| :: "ROLE_" + roles[k])
  }

  const PublicPatterns := [Subtree("/api/auth"), Subtree("/v3/api-docs"), Subtree("/swagger-ui"),
                           Exact("/swagger-ui.html"), Exact("/actuator/health")]

  /** The requestMatchers of authorizeHttpRequests, in declaration order. */
  const Rules := [
    Rule(PublicPatterns, PermitAll),
    Rule([Subtree("/api/admin")], HasRole("ADMIN")),
    Rule([Subtree("/api/user")], HasAnyRole(["USER", "ADMIN"]))
  ]

  /** anyRequest().authenticated() */
  const AnyRequest := IsAuthenticated

  /** The access of the first rule that matches the path. */
  function FirstMatch(rules: seq<Rule>, path: string): Option<Access>
    decreases |rules|
  {
    if rules == [] then None
    else if RuleMatches(rules[0], path) then Some(rules[0].access)
    else FirstMatch(rules[1..], path)
  }

  /** The check of one access rule; `principal` holds the authorities, and is None for an anonymous request. */
  function Check(access: Access, principal: Option<set<string>>): Decision
  {
    match access
    case PermitAll => Permit
    case IsAuthenticated => if principal.Some? then Permit else Challenge
    case HasAnyAuthority(required) =>
      if principal.None? then Challenge
      else if required * principal.value != {} then Permit
      else Forbidden
  }

  function Authorize(rules: seq<Rule>, anyRequest: Access, path: string, principal: Option<set<string>>): Decision
  {
    match FirstMatch(rules, path)
    case Some(access) => Check(access, principal)
    case None => Check(anyRequest, principal)
  }

  /** The decision for a request under the application's rules. */
  function Decide(path: string, principal: Option<set<string>>): Decision
  {
    Authorize(Rules, AnyRequest, path, principal)
  }

  /** The rules are tried in order: the first rule that matches gives the access, later ones are not consulted. */
  lemma {:induction false} FirstMatchIsFirst(rules: seq<Rule>, path: string)
    ensures FirstMatch(rules, path).None? <==> forall k :: 0 <= k < |rules| ==> !RuleMatches(rules[k], path)
    ensures FirstMatch(rules, path).Some? ==>
              exists k :: 0 <= k < |rules| && RuleMatches(rules[k], path) && FirstMatch(rules, path).value == rules[k].access &&
                          forall j :: 0 <= j < k ==> !RuleMatches(rules[j], path)
    decreases |rules|
  {
    if rules != [] {
      FirstMatchIsFirst(rules[1..], path);
      assert forall k :: 1 <= k < |rules| ==> rules[k] == rules[1..][k - 1];
      if !RuleMatches(rules[0], path) && FirstMatch(rules[1..], path).Some? {
        var k :| 0 <= k < |rules[1..]| && RuleMatches(rules[1..][k], path) && FirstMatch(rules[1..], path).value == rules[1..][k].access &&
                 forall j :: 0 <= j < k ==> !RuleMatches(rules[1..][j], path);
        assert RuleMatches(rules[k + 1], path);
        assert forall j :: 0 <= j < k + 1 ==> !RuleMatches(rules[j], path) by {
          forall j | 0 <= j < k + 1
            ensures !RuleMatches(rules[j], path)
          {
            if j > 0 {
              assert rules[j] == rules[1..][j - 1];
            }
          }
        }
      }
    }
  }

  /**
   * hasRole(role) is hasAnyRole(role), and hasAnyRole(roles) admits an authenticated principal
   * exactly when it holds "ROLE_" + one of the roles; any other one is forbidden.
   */
  lemma RoleChecksAddPrefix(roles: seq<string>, role: string, authorities: set<string>)
    ensures HasRole(role) == HasAnyRole([role])
    ensures Check(HasAnyRole(roles), Some(authorities)) == Permit <==>
            exists k :: 0 <= k < |roles| && "ROLE_" + roles[k] in authorities
    ensures Check(HasAnyRole(roles), Some(authorities)) != Permit ==> Check(HasAnyRole(roles), Some(authorities)) == Forbidden
    ensures Check(HasAnyRole(roles), None) == Challenge
  {
    var one := [role];
    assert (set k | 0 <= k < |one| :: "ROLE_" + one[k]) == {"ROLE_" + role} by {
      assert one[0] == role;
      assert "ROLE_" + one[0] in (set k | 0 <= k < |one| :: "ROLE_" + one[k]);
    }
    var required := set k | 0 <= k < |roles| :: "ROLE_" + roles[k];
    if exists k :: 0 <= k < |roles| && "ROLE_" + roles[k] in authorities {
      var k :| 0 <= k < |roles| && "ROLE_" + roles[k] in authorities;
      assert "ROLE_" + roles[k] in required * authorities;
    }
  }

  /** The two instances of the prefix the rule table uses. */
  lemma AuthorityHelpers()
    ensures HasRole("ADMIN") == HasAnyAuthority({"ROLE_ADMIN"})
    ensures HasAnyRole(["USER", "ADMIN"]) == HasAnyAuthority({"ROLE_USER", "ROLE_ADMIN"})
  {
    var roles := ["USER", "ADMIN"];
    assert "ROLE_" + roles[0] == "ROLE_USER";
    assert "ROLE_" + roles[1] == "ROLE_ADMIN";
  }

  lemma SubtreeMatch(base: string, rest: string)
    ensures PatternMatches(Subtree(base), base + "/" + rest)
  {
    assert (base + "/" + rest)[..|base + "/"|] == base + "/";
  }

  /** The authentication endpoints, the API docs and the health check are open to everyone. */
  lemma PublicPathsOpen(rest: string, principal: Option<set<string>>)
    ensures Decide("/api/auth/" + rest, principal) == Permit
    ensures Decide("/v3/api-docs/" + rest, principal) == Permit
    ensures Decide("/swagger-ui/" + rest, principal) == Permit
    ensures Decide("/swagger-ui.html", principal) == Permit
    ensures Decide("/actuator/health", principal) == Permit
  {
    SubtreeMatch("/api/auth", rest);
    assert "/api/auth/" + rest == "/api/auth" + "/" + rest;
    assert PatternMatches(PublicPatterns[0], "/api/auth/" + rest);
    SubtreeMatch("/v3/api-docs", rest);
    assert "/v3/api-docs/" + rest == "/v3/api-docs" + "/" + rest;
    assert PatternMatches(PublicPatterns[1], "/v3/api-docs/" + rest);
    SubtreeMatch("/swagger-ui", rest);
    assert "/swagger-ui/" + rest == "/swagger-ui" + "/" + rest;
    assert PatternMatches(PublicPatterns[2], "/swagger-ui/" + rest);
    assert PatternMatches(PublicPatterns[3], "/swagger-ui.html");
    assert PatternMatches(PublicPatterns[4], "/actuator/health");
  }

  /**
   * The administration API needs ROLE_ADMIN: anonymous requests are challenged, and an
   * authenticated principal without it is forbidden.
   */
  lemma AdminPathsNeedAdmin(rest: string, principal: Option<set<string>>)
    ensures Decide("/api/admin/" + rest, principal) ==
            if principal.None? then Challenge else if "ROLE_ADMIN" in principal.value then Permit else Forbidden
  {
    var path := "/api/admin/" + rest;
    SubtreeMatch("/api/admin", rest);
    assert path == "/api/admin" + "/" + rest;
    assert !RuleMatches(Rules[0], path) by {
      forall k | 0 <= k < |PublicPatterns|
        ensures !PatternMatches(PublicPatterns[k], path)
      {
        assert path[..5] == "/api/";
        assert path[..6] == "/api/a" && path[6] == 'd';
      }
    }
    assert RuleMatches(Rules[1], path) by { assert PatternMatches(Rules[1].patterns[0], path); }
    assert Rules[1..][0] == Rules[1];
    assert FirstMatch(Rules, path) == Some(Rules[1].access);
    AuthorityHelpers();
    if principal.Some? && "ROLE_ADMIN" in principal.value {
      assert "ROLE_ADMIN" in {"ROLE_ADMIN"} * principal.value;
    }
  }

  /** The user API needs ROLE_USER or ROLE_ADMIN. */
  lemma UserPathsNeedUserOrAdmin(rest: string, principal: Option<set<string>>)
    ensures Decide("/api/user/" + rest, principal) ==
            if principal.None? then Challenge
            else if "ROLE_USER" in principal.value || "ROLE_ADMIN" in principal.value then Permit
            else Forbidden
  {
    var path := "/api/user/" + rest;
    SubtreeMatch("/api/user", rest);
    assert path == "/api/user" + "/" + rest;
    assert path[..5] == "/api/" && path[5] == 'u';
    assert !RuleMatches(Rules[0], path) by {
      forall k | 0 <= k < |PublicPatterns|
        ensures !PatternMatches(PublicPatterns[k], path)
      {
      }
    }
    assert !RuleMatches(Rules[1], path) by {
      assert !PatternMatches(Rules[1].patterns[0], path);
    }
    assert RuleMatches(Rules[2], path) by { assert PatternMatches(Rules[2].patterns[0], path); }
    var tail := Rules[1..];
    assert tail[0] == Rules[1] && tail[1..][0] == Rules[2];
    assert FirstMatch(tail[1..], path) == Some(Rules[2].access);
    assert FirstMatch(tail, path) == FirstMatch(tail[1..], path);
    assert FirstMatch(Rules, path) == FirstMatch(tail, path);
    AuthorityHelpers();
    var a := principal;
    if a.Some? {
      assert "ROLE_USER" in a.value ==> "ROLE_USER" in {"ROLE_USER", "ROLE_ADMIN"} * a.value;
      assert "ROLE_ADMIN" in a.value ==> "ROLE_ADMIN" in {"ROLE_USER", "ROLE_ADMIN"} * a.value;
    }
  }

  /** A path no rule lists (the billing API, say) is open to any authenticated principal and to no one else. */
  lemma OtherPathsNeedAuthentication(path: string, principal: Option<set<string>>)
    requires forall k :: 0 <= k < |Rules| ==> !RuleMatches(Rules[k], path)
    ensures Decide(path, principal) == if principal.Some? then Permit else Challenge
  {
    FirstMatchIsFirst(Rules, path);
  }

  /** An example of a path no rule lists, "/api/bills": it falls to the catch-all rule. */
  lemma UnlistedPathExample(principal: Option<set<string>>)
    ensures Decide("/api/bills", principal) == if principal.Some? then Permit else Challenge
  {
    var path := "/api/bills";
    forall k | 0 <= k < |Rules|
      ensures !RuleMatches(Rules[k], path)
    {
      forall j | 0 <= j < |Rules[k].patterns|
        ensures !PatternMatches(Rules[k].patterns[j], path)
      {
        assert path[..5] == "/api/" && path[5] == 'b';
      }
    }
    OtherPathsNeedAuthentication(path, principal);
  }
}
