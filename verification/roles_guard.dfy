/**
  The role/permission gate of a protected handler: required roles and required
  permissions are each optional; within a category any one match suffices, and
  every declared category must pass.
 */
module RolesGuard {
  import opened Wrappers
  import opened Entities

  /** The `resource:action` string a permission contributes to the effective set. */
  function Key(p: Permission): string {
    p.resource + ":" + p.action
  }

  /** The role carries a permission whose key is `key`. */
  ghost predicate Grants(r: UserRole, key: string) {
    r.permissions.Some? &&
    exists m | 0 <= m < |r.permissions.value| :: Key(r.permissions.value[m]) == key
  }

  /** Some role of the user carries a permission whose key is `key`. */
  ghost predicate HoldsPermission(u: User, key: string) {
    u.roles.Some? && exists j | 0 <= j < |u.roles.value| :: Grants(u.roles.value[j], key)
  }

  /** The keys of one role's permission list, added one by one to the set. */
  function PermissionKeys(perms: seq<Permission>): (keys: set<string>)
    ensures forall k :: k in keys <==> exists m | 0 <= m < |perms| :: Key(perms[m]) == k
  {
    if |perms| == 0 then {}
    else
      var rest := PermissionKeys(perms[1..]);
      forall k | k in rest ensures exists m | 0 <= m < |perms| :: Key(perms[m]) == k {
        var m :| 0 <= m < |perms[1..]| && Key(perms[1..][m]) == k;
        assert Key(perms[m + 1]) == k;
      }
      forall m | 1 <= m < |perms| ensures Key(perms[m]) in rest {
        assert perms[1..][m - 1] == perms[m];
      }
      {Key(perms[0])} + rest
  }

  /** The keys of a role: none when its permission list is missing (`role.permissions?.forEach`). */
  function RoleKeys(r: UserRole): (keys: set<string>)
    ensures forall k :: k in keys <==> Grants(r, k)
  {
    if r.permissions.None? then {} else PermissionKeys(r.permissions.value)
  }

  /** The union of the keys of every role in the list. */
  function CollectKeys(roles: seq<UserRole>): (keys: set<string>)
    ensures forall k :: k in keys <==> exists j | 0 <= j < |roles| :: Grants(roles[j], k)
  {
    if |roles| == 0 then {}
    else
      var rest := CollectKeys(roles[1..]);
      forall k | k in rest ensures exists j | 0 <= j < |roles| :: Grants(roles[j], k) {
        var j :| 0 <= j < |roles[1..]| && Grants(roles[1..][j], k);
        assert Grants(roles[j + 1], k);
      }
      forall j, k | 1 <= j < |roles| && Grants(roles[j], k) ensures k in rest {
        assert roles[1..][j - 1] == roles[j];
      }
      RoleKeys(roles[0]) + rest
  }

  /**
    The user's effective permission set: the union over its roles of
    `resource:action` for each permission; empty when the role list is missing.
   */
  function EffectivePermissions(u: User): (keys: set<string>)
    ensures forall k :: k in keys <==> HoldsPermission(u, k)
  {
    if u.roles.None? then {} else CollectKeys(u.roles.value)
  }

  /** `required.some(role => user.roles?.some(r => r.name === role))`. */
  function RoleGate(required: seq<string>, u: User): (pass: bool)
    ensures pass <==> exists i | 0 <= i < |required| :: HoldsRole(u, required[i])
  {
    if |required| == 0 then false
    else if HasRole(u, required[0]) then true
    else
      var rest := RoleGate(required[1..], u);
      assert rest ==> exists i | 0 <= i < |required| :: HoldsRole(u, required[i]) by {
        if rest {
          var i :| 0 <= i < |required[1..]| && HoldsRole(u, required[1..][i]);
          assert HoldsRole(u, required[i + 1]);
        }
      }
      assert (exists i | 0 <= i < |required| :: HoldsRole(u, required[i])) ==> rest by {
        if exists i | 0 <= i < |required| :: HoldsRole(u, required[i]) {
          var i :| 0 <= i < |required| && HoldsRole(u, required[i]);
          assert required[1..][i - 1] == required[i];
        }
      }
      rest
  }

  /** `required.some(permission => userPermissions.has(permission))`. */
  function PermissionGate(required: seq<string>, effective: set<string>): (pass: bool)
    ensures pass <==> exists i | 0 <= i < |required| :: required[i] in effective
  {
    if |required| == 0 then false
    else if required[0] in effective then true
    else
      var rest := PermissionGate(required[1..], effective);
      assert rest ==> exists i | 0 <= i < |required| :: required[i] in effective by {
        if rest {
          var i :| 0 <= i < |required[1..]| && required[1..][i] in effective;
          assert required[i + 1] in effective;
        }
      }
      assert (exists i | 0 <= i < |required| :: required[i] in effective) ==> rest by {
        if exists i | 0 <= i < |required| :: required[i] in effective {
          var i :| 0 <= i < |required| && required[i] in effective;
          assert required[1..][i - 1] == required[i];
        }
      }
      rest
  }

  /**
    The guard's decision. A requirement that is `None` was not declared; a
    declared list, even an empty one, is checked. A declared empty role list
    denies before the user is read (`[].some(...)` never runs its callback).
    Any other declared requirement reads `user.roles`, and the guard has no
    branch for a missing user, so its presence is required then.
   */
  function CanActivate(
    requiredRoles: Option<seq<string>>,
    requiredPermissions: Option<seq<string>>,
    user: Option<User>): (allowed: bool)
    requires (requiredRoles != Some([]) && (requiredRoles.Some? || requiredPermissions.Some?)) ==> user.Some?
    ensures (requiredRoles.None? && requiredPermissions.None?) ==> allowed
    ensures user.Some? ==>
      (allowed <==>
        && (requiredRoles.Some? ==>
              exists i | 0 <= i < |requiredRoles.value| :: HoldsRole(user.value, requiredRoles.value[i]))
        && (requiredPermissions.Some? ==>
              exists i | 0 <= i < |requiredPermissions.value| ::
                HoldsPermission(user.value, requiredPermissions.value[i])))
    ensures requiredRoles == Some([]) ==> !allowed
    ensures requiredPermissions == Some([]) ==> !allowed
  {
    if requiredRoles.None? && requiredPermissions.None? then true
    else if requiredRoles == Some([]) then false
    else if requiredRoles.Some? && !RoleGate(requiredRoles.value, user.value) then false
    else if requiredPermissions.Some? &&
            !PermissionGate(requiredPermissions.value, EffectivePermissions(user.value)) then false
    else true
  }

  /** A user with a missing or empty role list fails every declared requirement. */
  lemma NoRolesFailsEveryDeclaredRequirement(
    requiredRoles: Option<seq<string>>,
    requiredPermissions: Option<seq<string>>,
    u: User)
    requires u.roles == None || u.roles == Some([])
    requires requiredRoles.Some? || requiredPermissions.Some?
    ensures !CanActivate(requiredRoles, requiredPermissions, Some(u))
  {
  }

  /** A user holding every role another holds holds every permission key the other holds. */
  lemma {:induction false} HoldsPermissionMonotone(u: User, v: User, key: string)
    requires RoleSet(u) <= RoleSet(v)
    requires HoldsPermission(u, key)
    ensures HoldsPermission(v, key)
  {
    var j :| 0 <= j < |u.roles.value| && Grants(u.roles.value[j], key);
    var r := u.roles.value[j];
    assert r in RoleSet(u);
    assert r in RoleSet(v);
    var k :| 0 <= k < |v.roles.value| && v.roles.value[k] == r;
    assert Grants(v.roles.value[k], key);
  }

  /** The effective set depends only on which roles are held: not on their order or repetition. */
  lemma EffectivePermissionsDependOnRoleSet(u: User, v: User)
    requires RoleSet(u) == RoleSet(v)
    ensures EffectivePermissions(u) == EffectivePermissions(v)
  {
    forall k | k in EffectivePermissions(u) ensures k in EffectivePermissions(v) {
      HoldsPermissionMonotone(u, v, k);
    }
    forall k | k in EffectivePermissions(v) ensures k in EffectivePermissions(u) {
      HoldsPermissionMonotone(v, u, k);
    }
  }

  /** Holding more roles never turns an allow into a deny: both gates are unions of ORs. */
  lemma MoreRolesNeverDeny(
    requiredRoles: Option<seq<string>>,
    requiredPermissions: Option<seq<string>>,
    u: User,
    v: User)
    requires RoleSet(u) <= RoleSet(v)
    requires CanActivate(requiredRoles, requiredPermissions, Some(u))
    ensures CanActivate(requiredRoles, requiredPermissions, Some(v))
  {
    if requiredRoles.Some? {
      var i :| 0 <= i < |requiredRoles.value| && HoldsRole(u, requiredRoles.value[i]);
      HoldsRoleMonotone(u, v, requiredRoles.value[i]);
    }
    if requiredPermissions.Some? {
      var i :| 0 <= i < |requiredPermissions.value| && HoldsPermission(u, requiredPermissions.value[i]);
      HoldsPermissionMonotone(u, v, requiredPermissions.value[i]);
    }
  }

  /** The user with one more role appended to its list (a missing list becomes a one-role list). */
  function WithRole(u: User, extra: UserRole): (v: User)
    ensures RoleSet(v) == RoleSet(u) + {extra}
  {
    var v := User(u.id, Some((if u.roles.None? then [] else u.roles.value) + [extra]));
    assert forall r :: r in RoleSet(v) <==> r in RoleSet(u) || r == extra;
    v
  }

  /** Adding a role to the user never turns an allow into a deny. */
  lemma AddingRoleNeverDenies(
    requiredRoles: Option<seq<string>>,
    requiredPermissions: Option<seq<string>>,
    u: User,
    extra: UserRole)
    requires CanActivate(requiredRoles, requiredPermissions, Some(u))
    ensures CanActivate(requiredRoles, requiredPermissions, Some(WithRole(u, extra)))
  {
    MoreRolesNeverDeny(requiredRoles, requiredPermissions, u, WithRole(u, extra));
  }

  /** Two users holding the same set of roles get the same decision. */
  lemma DecisionDependsOnRoleSet(
    requiredRoles: Option<seq<string>>,
    requiredPermissions: Option<seq<string>>,
    u: User,
    v: User)
    requires RoleSet(u) == RoleSet(v)
    ensures CanActivate(requiredRoles, requiredPermissions, Some(u))
         == CanActivate(requiredRoles, requiredPermissions, Some(v))
  {
    if CanActivate(requiredRoles, requiredPermissions, Some(u)) {
      MoreRolesNeverDeny(requiredRoles, requiredPermissions, u, v);
    }
    if CanActivate(requiredRoles, requiredPermissions, Some(v)) {
      MoreRolesNeverDeny(requiredRoles, requiredPermissions, v, u);
    }
  }
}
