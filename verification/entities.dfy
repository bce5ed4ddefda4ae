/**
  The data the access-control decisions read: permission rows, role rows and
  the request's user snapshot with its roles attached.
 */
module Entities {
  import opened Wrappers

  /** A permission row: a `resource:action` capability with a unique name. */
  datatype Permission = Permission(
    id: nat,
    name: string,
    resource: string,
    action: string,
    description: Option<string>)

  /** A role row of the registry, with its permissions loaded. */
  datatype Role = Role(
    id: nat,
    name: string,
    description: Option<string>,
    permissions: seq<Permission>)

  /** A role as attached to the request's user; its permission list may be missing. */
  datatype UserRole = UserRole(name: string, permissions: Option<seq<Permission>>)

  /** The authenticated user snapshot of a request; its role list may be missing. */
  datatype User = User(id: int, roles: Option<seq<UserRole>>)

  /** The snapshot of a registry role as it appears on a user whose roles were loaded with permissions. */
  function AsUserRole(r: Role): UserRole {
    UserRole(r.name, Some(r.permissions))
  }

  /** The user holds a role whose name is `name`. */
  ghost predicate HoldsRole(u: User, name: string) {
    u.roles.Some? && exists j | 0 <= j < |u.roles.value| :: u.roles.value[j].name == name
  }

  /** Left-to-right scan for a role with the given name, as `Array.prototype.some` does. */
  function SomeRoleNamed(roles: seq<UserRole>, name: string): (found: bool)
    ensures found <==> exists j | 0 <= j < |roles| :: roles[j].name == name
  {
    if |roles| == 0 then false
    else if roles[0].name == name then true
    else
      var rest := SomeRoleNamed(roles[1..], name);
      assert rest <==> exists j | 1 <= j < |roles| :: roles[j].name == name by {
        if rest {
          var k :| 0 <= k < |roles[1..]| && roles[1..][k].name == name;
          assert roles[k + 1].name == name;
        }
      }
      rest
  }

  /** `user.roles?.some(role => role.name === name)`: a missing role list never matches. */
  function HasRole(u: User, name: string): (found: bool)
    ensures found <==> HoldsRole(u, name)
  {
    u.roles.Some? && SomeRoleNamed(u.roles.value, name)
  }

  /** The roles of a user as a set; a missing list holds none. */
  function RoleSet(u: User): set<UserRole> {
    if u.roles.None? then {} else set r | r in u.roles.value
  }

  /** Every role `u` holds is also held by `v`. */
  lemma {:induction false} HoldsRoleMonotone(u: User, v: User, name: string)
    requires RoleSet(u) <= RoleSet(v)
    requires HoldsRole(u, name)
    ensures HoldsRole(v, name)
  {
    var j :| 0 <= j < |u.roles.value| && u.roles.value[j].name == name;
    var r := u.roles.value[j];
    assert r in RoleSet(u);
    assert r in RoleSet(v);
    var k :| 0 <= k < |v.roles.value| && v.roles.value[k] == r;
  }
}
