/**
  The role/permission registry: name-unique creation of roles and permissions
  and idempotent assignment of a permission to a role. The two tables are held
  as sequences in insertion order; each has its own auto-increment id counter.
 */
module RoleService {
  import opened Wrappers
  import opened Entities

  /** The exceptions the registry throws. */
  datatype ServiceError = Conflict(message: string) | NotFound(message: string)

  const RoleExists := "Role already exists"
  const PermissionExists := "Permission already exists"
  const RoleMissing := "Role not found"
  const PermissionMissing := "Permission not found"

  /** The stored tables and the next id each table will generate. */
  datatype Registry = Registry(
    roles: seq<Role>,
    permissions: seq<Permission>,
    nextRoleId: nat,
    nextPermissionId: nat)

  /** The state after an operation together with what the operation returned or threw. */
  datatype Step<+T> = Step(state: Registry, result: Result<T, ServiceError>)

  /** The empty store; generated ids start at 1. */
  const Empty := Registry([], [], 1, 1)

  /** No two permissions of the list share an id. */
  ghost predicate DistinctPermissionIds(perms: seq<Permission>) {
    forall a, b | 0 <= a < b < |perms| :: perms[a].id != perms[b].id
  }

  /** The uniqueness constraints of the two tables and the id counters' freshness. */
  ghost predicate Valid(reg: Registry) {
    && (forall i, j | 0 <= i < j < |reg.roles| :: reg.roles[i].name != reg.roles[j].name)
    && (forall i, j | 0 <= i < j < |reg.roles| :: reg.roles[i].id != reg.roles[j].id)
    && (forall i | 0 <= i < |reg.roles| :: reg.roles[i].id < reg.nextRoleId)
    && (forall i | 0 <= i < |reg.roles| :: DistinctPermissionIds(reg.roles[i].permissions))
    && (forall i, p | 0 <= i < |reg.roles| && p in reg.roles[i].permissions :: p in reg.permissions)
    && (forall i, j | 0 <= i < j < |reg.permissions| :: reg.permissions[i].name != reg.permissions[j].name)
    && DistinctPermissionIds(reg.permissions)
    && (forall i | 0 <= i < |reg.permissions| :: reg.permissions[i].id < reg.nextPermissionId)
  }

  /** `findOne`: the position of the first row satisfying `matches`, if any. */
  function FindFirst<T>(rows: seq<T>, matches: T -> bool): (found: Option<nat>)
    ensures found.None? <==> forall i | 0 <= i < |rows| :: !matches(rows[i])
    ensures found.Some? ==>
      && found.value < |rows|
      && matches(rows[found.value])
      && forall i | 0 <= i < found.value :: !matches(rows[i])
  {
    if |rows| == 0 then None
    else if matches(rows[0]) then Some(0)
    else
      match FindFirst(rows[1..], matches)
      case None =>
        assert forall i | 1 <= i < |rows| :: rows[i] == rows[1..][i - 1];
        None
      case Some(k) =>
        assert forall i | 1 <= i <= k + 1 :: rows[i] == rows[1..][i - 1];
        Some(k + 1)
  }

  /** `createRole`: refuses a taken name; otherwise stores a role with no permissions under a fresh id. */
  function CreateRole(reg: Registry, name: string, description: Option<string>): (out: Step<Role>)
    ensures (exists i | 0 <= i < |reg.roles| :: reg.roles[i].name == name) <==> out.result.Failure?
    ensures out.result.Failure? ==> out == Step(reg, Failure(Conflict(RoleExists)))
    ensures out.result.Success? ==>
      var role := out.result.value;
      && role.name == name
      && role.description == description
      && role.permissions == []
      && out.state.roles == reg.roles + [role]
      && out.state.permissions == reg.permissions
      && out.state.nextPermissionId == reg.nextPermissionId
    ensures Valid(reg) && out.result.Success? ==>
      (forall i | 0 <= i < |reg.roles| :: reg.roles[i].id != out.result.value.id)
    ensures Valid(reg) ==> Valid(out.state)
  {
    if FindFirst(reg.roles, (r: Role) => r.name == name).Some? then
      Step(reg, Failure(Conflict(RoleExists)))
    else
      var role := Role(reg.nextRoleId, name, description, []);
      Step(reg.(roles := reg.roles + [role], nextRoleId := reg.nextRoleId + 1), Success(role))
  }

  /** `findAllRoles`: every stored role with its permissions, in table order; the store is untouched. */
  function FindAllRoles(reg: Registry): (out: Step<seq<Role>>)
    ensures out.state == reg
    ensures out.result.Success?
    ensures forall r :: r in out.result.value <==> r in reg.roles
    ensures Valid(reg) ==>
      forall r, p | r in out.result.value && p in r.permissions :: p in reg.permissions
  {
    Step(reg, Success(reg.roles))
  }

  /** `createPermission`: refuses a taken name; otherwise stores the permission under a fresh id. */
  function CreatePermission(
    reg: Registry,
    name: string,
    resource: string,
    action: string,
    description: Option<string>): (out: Step<Permission>)
    ensures (exists i | 0 <= i < |reg.permissions| :: reg.permissions[i].name == name) <==> out.result.Failure?
    ensures out.result.Failure? ==> out == Step(reg, Failure(Conflict(PermissionExists)))
    ensures out.result.Success? ==>
      var p := out.result.value;
      && p.name == name
      && p.resource == resource
      && p.action == action
      && p.description == description
      && out.state.permissions == reg.permissions + [p]
      && out.state.roles == reg.roles
      && out.state.nextRoleId == reg.nextRoleId
    ensures Valid(reg) && out.result.Success? ==>
      (forall i | 0 <= i < |reg.permissions| :: reg.permissions[i].id != out.result.value.id)
    ensures Valid(reg) ==> Valid(out.state)
  {
    if FindFirst(reg.permissions, (p: Permission) => p.name == name).Some? then
      Step(reg, Failure(Conflict(PermissionExists)))
    else
      var p := Permission(reg.nextPermissionId, name, resource, action, description);
      Step(reg.(permissions := reg.permissions + [p], nextPermissionId := reg.nextPermissionId + 1),
           Success(p))
  }

  /** `findAllPermissions`: every stored permission in table order; the store is untouched. */
  function FindAllPermissions(reg: Registry): (out: Step<seq<Permission>>)
    ensures out.state == reg
    ensures out.result.Success?
    ensures forall p :: p in out.result.value <==> p in reg.permissions
  {
    Step(reg, Success(reg.permissions))
  }

  /** The role already holds a permission with this id. */
  predicate HoldsPermissionId(role: Role, permissionId: int) {
    exists m | 0 <= m < |role.permissions| :: role.permissions[m].id == permissionId
  }

  /**
    `assignPermissionToRole`: looks the role up first, then the permission;
    appends the permission to the role unless the role already holds its id.
   */
  function AssignPermissionToRole(reg: Registry, roleId: int, permissionId: int): (out: Step<Role>)
    ensures out.result.Failure? ==> out.state == reg
    ensures (forall i | 0 <= i < |reg.roles| :: reg.roles[i].id != roleId) ==>
      out.result == Failure(NotFound(RoleMissing))
    ensures (exists i | 0 <= i < |reg.roles| :: reg.roles[i].id == roleId) &&
            (forall m | 0 <= m < |reg.permissions| :: reg.permissions[m].id != permissionId) ==>
      out.result == Failure(NotFound(PermissionMissing))
    ensures Valid(reg) ==>
      forall i, m | 0 <= i < |reg.roles| && 0 <= m < |reg.permissions| &&
                    reg.roles[i].id == roleId && reg.permissions[m].id == permissionId ::
        if HoldsPermissionId(reg.roles[i], permissionId) then
          out == Step(reg, Success(reg.roles[i]))
        else
          var role := reg.roles[i].(permissions := reg.roles[i].permissions + [reg.permissions[m]]);
          out == Step(reg.(roles := reg.roles[i := role]), Success(role))
    ensures Valid(reg) ==> Valid(out.state)
  {
    match FindFirst(reg.roles, (r: Role) => r.id == roleId)
    case None => Step(reg, Failure(NotFound(RoleMissing)))
    case Some(i) =>
      match FindFirst(reg.permissions, (p: Permission) => p.id == permissionId)
      case None => Step(reg, Failure(NotFound(PermissionMissing)))
      case Some(m) =>
        var role := reg.roles[i];
        if HoldsPermissionId(role, permissionId) then Step(reg, Success(role))
        else
          var updated := role.(permissions := role.permissions + [reg.permissions[m]]);
          AppendKeepsValid(reg, i, m);
          Step(reg.(roles := reg.roles[i := updated]), Success(updated))
  }

  /** Appending a stored permission whose id the role does not hold keeps the store valid. */
  lemma AppendKeepsValid(reg: Registry, i: nat, m: nat)
    requires i < |reg.roles| && m < |reg.permissions|
    requires !HoldsPermissionId(reg.roles[i], reg.permissions[m].id)
    ensures Valid(reg) ==>
      Valid(reg.(roles := reg.roles[i := reg.roles[i].(permissions := reg.roles[i].permissions + [reg.permissions[m]])]))
  {
  }

  /** A second identical assignment returns the same role and leaves the store as the first left it. */
  lemma AssignTwiceIsIdempotent(reg: Registry, roleId: int, permissionId: int)
    requires AssignPermissionToRole(reg, roleId, permissionId).result.Success?
    ensures
      var first := AssignPermissionToRole(reg, roleId, permissionId);
      AssignPermissionToRole(first.state, roleId, permissionId) == first
  {
    var first := AssignPermissionToRole(reg, roleId, permissionId);
    var i := FindFirst(reg.roles, (r: Role) => r.id == roleId).value;
    var m := FindFirst(reg.permissions, (p: Permission) => p.id == permissionId).value;
    var s := first.state;
    assert s.permissions == reg.permissions;
    assert |s.roles| == |reg.roles| && s.roles[i] == first.result.value;
    assert forall k | 0 <= k < i :: s.roles[k] == reg.roles[k];
    assert FindFirst(s.roles, (r: Role) => r.id == roleId) == Some(i);
    var role := first.result.value;
    assert role.permissions[|role.permissions| - 1] == reg.permissions[m]
        || HoldsPermissionId(reg.roles[i], permissionId);
    assert HoldsPermissionId(role, permissionId);
  }

  /** After a successful assignment on a valid store, the role holds exactly one permission with that id. */
  lemma AssignedExactlyOnce(reg: Registry, roleId: int, permissionId: int)
    requires Valid(reg)
    requires AssignPermissionToRole(reg, roleId, permissionId).result.Success?
    ensures
      var role := AssignPermissionToRole(reg, roleId, permissionId).result.value;
      && HoldsPermissionId(role, permissionId)
      && forall a, b | 0 <= a < |role.permissions| && 0 <= b < |role.permissions| &&
                       role.permissions[a].id == permissionId && role.permissions[b].id == permissionId :: a == b
  {
    var out := AssignPermissionToRole(reg, roleId, permissionId);
    var i := FindFirst(reg.roles, (r: Role) => r.id == roleId).value;
    assert out.state.roles[i] == out.result.value;
    var role := out.result.value;
    assert DistinctPermissionIds(role.permissions);
    if !HoldsPermissionId(reg.roles[i], permissionId) {
      assert role.permissions[|role.permissions| - 1].id == permissionId;
    }
  }

  /** Creating a role twice under one name: the second call throws Conflict and stores nothing. */
  lemma CreateRoleTwiceConflicts(reg: Registry, name: string, d1: Option<string>, d2: Option<string>)
    requires CreateRole(reg, name, d1).result.Success?
    ensures
      var first := CreateRole(reg, name, d1);
      CreateRole(first.state, name, d2) == Step(first.state, Failure(Conflict(RoleExists)))
  {
    var first := CreateRole(reg, name, d1);
    assert first.state.roles[|reg.roles|].name == name;
  }

  /** On a valid store, the role returned by a successful assignment carries the stored permission with that id. */
  lemma AssignedRoleCarriesStoredPermission(reg: Registry, roleId: int, permissionId: int)
    requires Valid(reg)
    requires AssignPermissionToRole(reg, roleId, permissionId).result.Success?
    ensures
      var role := AssignPermissionToRole(reg, roleId, permissionId).result.value;
      exists m | 0 <= m < |reg.permissions| ::
        reg.permissions[m].id == permissionId && reg.permissions[m] in role.permissions
  {
    var role := AssignPermissionToRole(reg, roleId, permissionId).result.value;
    var i := FindFirst(reg.roles, (r: Role) => r.id == roleId).value;
    var m := FindFirst(reg.permissions, (p: Permission) => p.id == permissionId).value;
    if HoldsPermissionId(reg.roles[i], permissionId) {
      var a :| 0 <= a < |reg.roles[i].permissions| && reg.roles[i].permissions[a].id == permissionId;
      var q := reg.roles[i].permissions[a];
      assert q in reg.permissions;
      var n :| 0 <= n < |reg.permissions| && reg.permissions[n] == q;
      assert n == m;
    } else {
      assert role.permissions[|role.permissions| - 1] == reg.permissions[m];
    }
  }
}
