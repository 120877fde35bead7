/** The two permission matchers (the actor's own and the role authorizer's), what their wildcards
    grant, and where they differ. */
module Permissions {
  import opened Text

  /** The actor's matcher. */
  predicate ActorMatch(granted: string, requested: string) {
    if granted == requested then true
    else if granted == "*" then true
    else if |granted| > 2 && granted[|granted| - 2..] == ".*" then
      |requested| >= |granted| - 1 && requested[..|granted| - 1] == granted[..|granted| - 1]
    else if HasPrefix(granted, "*.") then
      |requested| >= |granted[1..]| && HasSuffix(requested, granted[1..])
    else false
  }

  /** The role authorizer's matcher. */
  predicate RoleMatch(granted: string, requested: string) {
    if granted == requested || granted == "*" then true
    else if |granted| > 2 && granted[|granted| - 2..] == ".*" then
      |requested| >= |granted| - 1 && requested[..|granted| - 1] == granted[..|granted| - 1]
    else if |granted| > 2 && granted[..2] == "*." then
      var suffix := granted[1..];
      |requested| >= |suffix| && requested[|requested| - |suffix|..] == suffix
    else false
  }

  /** They differ exactly on the grant `*.`, for another request ending in a dot. */
  lemma MatchersDifferExactly(granted: string, requested: string)
    ensures ActorMatch(granted, requested) != RoleMatch(granted, requested)
       <==> granted == "*." && requested != "*." && HasSuffix(requested, ".")
  {
    if |granted| == 2 && HasPrefix(granted, "*.") {
      assert granted == "*." && granted[1..] == ".";
    } else if HasPrefix(granted, "*.") {
      assert granted[..2] == "*.";
    }
  }

  /** `r.*` grants exactly the requests under `r.`. */
  lemma ResourceWildcard(resource: string, requested: string)
    requires resource != ""
    ensures ActorMatch(resource + ".*", requested) <==> HasPrefix(requested, resource + ".")
    ensures RoleMatch(resource + ".*", requested) <==> HasPrefix(requested, resource + ".")
  {
    var granted := resource + ".*";
    assert granted[|granted| - 2..] == ".*" && granted[..|granted| - 1] == resource + ".";
    if HasPrefix(requested, resource + ".") { assert requested[..|granted| - 1] == resource + "."; }
    if requested == granted { assert requested[..|granted| - 1] == resource + "."; }
  }

  /** Whether `*.v` is read as a suffix pattern: not when it also ends in `.*`. */
  predicate IsSuffixPattern(action: string) { action != "" && action != "*" && !HasSuffix(action, ".*") }

  /** `*.v` grants exactly the requests ending in `.v`, unless it also ends in `.*`, which is
      looked at first: then a request ending in `.v` can be refused. */
  lemma ActionWildcard(action: string, requested: string)
    requires action != ""
    ensures IsSuffixPattern(action) ==> (ActorMatch("*." + action, requested) <==> HasSuffix(requested, "." + action))
    ensures IsSuffixPattern(action) ==> (RoleMatch("*." + action, requested) <==> HasSuffix(requested, "." + action))
    ensures !IsSuffixPattern(action) ==>
      HasSuffix("x." + action, "." + action) && !ActorMatch("*." + action, "x." + action)
  {
    var granted, suffix := "*." + action, "." + action;
    assert granted[1..] == suffix && granted[..2] == "*.";
    assert HasPrefix(granted, "*.");
    var last := granted[|granted| - 2..];
    if |action| == 1 {
      assert last == "." + action;
    } else {
      assert last == action[|action| - 2..];
    }
    var other := "x." + action;
    assert other[|other| - |suffix|..] == suffix;
    assert other[0] == 'x' && granted[0] == '*';
    assert other[..|granted| - 1][0] == 'x' && granted[..|granted| - 1][0] == '*';
  }

  /** A grant without a wildcard grants itself and nothing else; `*` grants everything. */
  lemma PlainGrant(granted: string, requested: string)
    ensures ActorMatch("*", requested) && RoleMatch("*", requested)
    ensures granted != "*" && !HasPrefix(granted, "*.") && !HasSuffix(granted, ".*") ==>
      (ActorMatch(granted, requested) <==> requested == granted) && (RoleMatch(granted, requested) <==>
        requested == granted)
  {
    if |granted| > 2 && granted[..2] == "*." { assert HasPrefix(granted, "*."); }
  }

  /******* Actors and roles *******/

  datatype Actor = Actor(roles: seq<string>, permissions: seq<string>)

  type Roles = map<string, seq<string>>

  predicate ActorGrants(permissions: seq<string>, requested: string) {
    exists i :: 0 <= i < |permissions| && (permissions[i] == "*" || ActorMatch(permissions[i], requested))
  }

  predicate RoleGrants(roles: Roles, role: string, requested: string) {
    role in roles && exists i :: 0 <= i < |roles[role]| && RoleMatch(roles[role][i], requested)
  }

  /** What an actor may do: by an own permission, or by one of a role. */
  predicate Grants(roles: Roles, actor: Actor, requested: string) {
    ActorGrants(actor.permissions, requested) || exists i ::
      0 <= i < |actor.roles| && RoleGrants(roles, actor.roles[i], requested)
  }

  method ActorCan(actor: Actor, requested: string) returns (ok: bool)
    ensures ok <==> ActorGrants(actor.permissions, requested)
  {
    for i := 0 to |actor.permissions|
      invariant forall j :: 0 <= j < i ==> !(actor.permissions[j] == "*" || ActorMatch(actor.permissions[j], requested))
    {
      if actor.permissions[i] == "*" || ActorMatch(actor.permissions[i], requested) { return true; }
    }
    return false;
  }

  method Can(roles: Roles, actor: Actor, requested: string) returns (ok: bool)
    ensures ok <==> Grants(roles, actor, requested)
  {
    var own := ActorCan(actor, requested);
    if own { return true; }
    for i := 0 to |actor.roles|
      invariant forall j :: 0 <= j < i ==> !RoleGrants(roles, actor.roles[j], requested)
    {
      var name := actor.roles[i];
      if name !in roles { continue; }
      var permissions := roles[name];
      for k := 0 to |permissions|
        invariant forall j :: 0 <= j < k ==> !RoleMatch(permissions[j], requested)
      {
        if RoleMatch(permissions[k], requested) { return true; }
      }
    }
    return false;
  }

  /** A role table with at least the roles of another, each with at least its permissions. */
  predicate Wider(roles: Roles, more: Roles) {
    forall name :: name in roles ==> name in more && forall p :: p in roles[name] ==> p in more[name]
  }

  /** More permissions, more roles, and wider roles never take a right away. */
  lemma GrantsMonotone(roles: Roles, more: Roles, actor: Actor, other: Actor, requested: string)
    requires Wider(roles, more) && Grants(roles, actor, requested)
    requires (forall p :: p in actor.permissions ==> p in other.permissions) && forall r :: r in actor.roles ==>
      r in other.roles
    ensures Grants(more, other, requested)
  {
    if ActorGrants(actor.permissions, requested) {
      var i :| 0 <= i < |actor.permissions| &&
        (actor.permissions[i] == "*" || ActorMatch(actor.permissions[i], requested));
      assert actor.permissions[i] in other.permissions;
      var j :| 0 <= j < |other.permissions| && other.permissions[j] == actor.permissions[i];
    } else {
      var i :| 0 <= i < |actor.roles| && RoleGrants(roles, actor.roles[i], requested);
      var role := actor.roles[i];
      assert role in other.roles;
      var k :| 0 <= k < |roles[role]| && RoleMatch(roles[role][k], requested);
      assert roles[role][k] in more[role];
      var n :| 0 <= n < |more[role]| && more[role][n] == roles[role][k];
      assert RoleGrants(more, role, requested);
      var j :| 0 <= j < |other.roles| && other.roles[j] == role;
    }
  }

  const DEFAULT_ROLES: Roles := map[
    "super_admin" := ["*"],
    "tenant_admin" := ["users.*", "invoices.*", "files.*", "audit.view"],
    "manager" := ["users.view", "users.update", "invoices.view", "invoices.update", "audit.view"],
    "support" := ["users.view", "invoices.view", "audit.view"],
    "viewer" := ["*.view"]]

  lemma OneOf(permissions: seq<string>, role: string, roles: Roles, requested: string)
    requires role in roles && roles[role] == permissions
    ensures RoleGrants(roles, role, requested) <==> exists p :: p in permissions && RoleMatch(p, requested)
  {
    if p :| p in permissions && RoleMatch(p, requested) {
      var i :| 0 <= i < |permissions| && permissions[i] == p;
      assert RoleMatch(roles[role][i], requested);
    }
  }

  /** With the default roles super_admin may do everything, viewer exactly what ends in `.view`, tenant_admin
      what is under users, invoices and files and the viewing of the audit log, and manager and support
      exactly what is listed; nobody else may do anything by a role. */
  lemma DefaultRoles(role: string, requested: string)
    ensures RoleGrants(DEFAULT_ROLES, "super_admin", requested)
    ensures RoleGrants(DEFAULT_ROLES, "viewer", requested) <==> HasSuffix(requested, ".view")
    ensures RoleGrants(DEFAULT_ROLES, "tenant_admin", requested) <==>
      HasPrefix(requested, "users.") || HasPrefix(requested, "invoices.") || HasPrefix(requested, "files.")
      || requested == "audit.view"
    ensures RoleGrants(DEFAULT_ROLES, "manager", requested) <==>
      requested in ["users.view", "users.update", "invoices.view", "invoices.update", "audit.view"]
    ensures RoleGrants(DEFAULT_ROLES, "support", requested) <==>
      requested in ["users.view", "invoices.view", "audit.view"]
    ensures RoleGrants(DEFAULT_ROLES, role, requested) ==>
      role in ["super_admin", "tenant_admin", "manager", "support", "viewer"]
  {
    hide *;
    SuperAdminRole(requested);
    ViewerRole(requested);
    TenantAdminRole(requested);
    ManagerRole(requested);
    SupportRole(requested);
    NoOtherRole(role, requested);
  }

  lemma SuperAdminRole(requested: string)
    ensures RoleGrants(DEFAULT_ROLES, "super_admin", requested)
  {
    assert DEFAULT_ROLES["super_admin"][0] == "*";
  }

  lemma ManagerRole(requested: string)
    ensures RoleGrants(DEFAULT_ROLES, "manager", requested) <==>
      requested in ["users.view", "users.update", "invoices.view", "invoices.update", "audit.view"]
  {
    hide RoleMatch, RoleGrants;
    ListedRole("manager", DEFAULT_ROLES["manager"], requested);
  }

  lemma SupportRole(requested: string)
    ensures RoleGrants(DEFAULT_ROLES, "support", requested) <==>
      requested in ["users.view", "invoices.view", "audit.view"]
  {
    hide RoleMatch, RoleGrants;
    ListedRole("support", DEFAULT_ROLES["support"], requested);
  }

  lemma NoOtherRole(role: string, requested: string)
    ensures RoleGrants(DEFAULT_ROLES, role, requested) ==>
      role in ["super_admin", "tenant_admin", "manager", "support", "viewer"]
  {
    hide RoleMatch;
  }

  lemma ViewerRole(requested: string)
    ensures RoleGrants(DEFAULT_ROLES, "viewer", requested) <==> HasSuffix(requested, ".view")
  {
    var viewer := DEFAULT_ROLES["viewer"];
    assert viewer == ["*.view"] && viewer[0] == "*." + "view" && "." + "view" == ".view";
    ActionWildcard("view", requested);
  }

  lemma TenantAdminRole(requested: string)
    ensures RoleGrants(DEFAULT_ROLES, "tenant_admin", requested) <==>
      HasPrefix(requested, "users.") || HasPrefix(requested, "invoices.") || HasPrefix(requested, "files.")
      || requested == "audit.view"
  {
    var all := DEFAULT_ROLES["tenant_admin"];
    assert "users" + ".*" == "users.*" && "invoices" + ".*" == "invoices.*" && "files" + ".*" == "files.*";
    assert all == ["users" + ".*", "invoices" + ".*", "files" + ".*", "audit.view"];
    OneOf(all, "tenant_admin", DEFAULT_ROLES, requested);
    ResourceWildcard("users", requested);
    ResourceWildcard("invoices", requested);
    ResourceWildcard("files", requested);
    NamedGrant("audit.view", requested);
    hide RoleMatch;
    assert "users" + "." == "users." && "invoices" + "." == "invoices." && "files" + "." == "files.";
  }

  lemma NamedGrant(p: string, requested: string)
    requires |p| > 2 && p[0] != '*' && p[|p| - 1] != '*'
    ensures RoleMatch(p, requested) <==> requested == p
  {
    assert p[..2][0] == p[0] && p[|p| - 2..][1] == p[|p| - 1];
    PlainGrant(p, requested);
  }

  lemma ListedRole(role: string, permissions: seq<string>, requested: string)
    requires role in DEFAULT_ROLES && DEFAULT_ROLES[role] == permissions
    requires forall p :: p in permissions ==> |p| > 2 && p[0] != '*' && p[|p| - 1] != '*'
    ensures RoleGrants(DEFAULT_ROLES, role, requested) <==> requested in permissions
  {
    OneOf(permissions, role, DEFAULT_ROLES, requested);
    forall p | p in permissions ensures RoleMatch(p, requested) <==> requested == p { NamedGrant(p, requested); }
  }
}
