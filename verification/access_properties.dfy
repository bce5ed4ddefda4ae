/**
  Properties that connect the components: what a registry assignment means to
  the roles guard, how the two guards agree on the admin role, and the
  viewer/editor scenario.
 */
module AccessProperties {
  import opened Wrappers
  import opened Entities
  import RolesGuard
  import RoleService
  import OwnershipGuard

  /**
    After a permission is assigned to a role, a user who carries that role as
    stored (with its permissions loaded) passes a guard that requires the
    permission's `resource:action` key.
   */
  lemma AssignedPermissionPassesGuard(
    reg: RoleService.Registry,
    roleId: int,
    permissionId: int,
    u: User)
    requires RoleService.Valid(reg)
    requires RoleService.AssignPermissionToRole(reg, roleId, permissionId).result.Success?
    requires u.roles.Some?
    requires AsUserRole(RoleService.AssignPermissionToRole(reg, roleId, permissionId).result.value) in u.roles.value
    ensures exists m | 0 <= m < |reg.permissions| && reg.permissions[m].id == permissionId ::
      RolesGuard.CanActivate(None, Some([RolesGuard.Key(reg.permissions[m])]), Some(u))
  {
    var role := RoleService.AssignPermissionToRole(reg, roleId, permissionId).result.value;
    RoleService.AssignedRoleCarriesStoredPermission(reg, roleId, permissionId);
    var m :| 0 <= m < |reg.permissions| && reg.permissions[m].id == permissionId
             && reg.permissions[m] in role.permissions;
    var key := RolesGuard.Key(reg.permissions[m]);
    var a :| 0 <= a < |role.permissions| && role.permissions[a] == reg.permissions[m];
    var j :| 0 <= j < |u.roles.value| && u.roles.value[j] == AsUserRole(role);
    assert RolesGuard.Grants(u.roles.value[j], key);
    assert RolesGuard.HoldsPermission(u, key);
    assert [key][0] == key;
    assert RolesGuard.CanActivate(None, Some([key]), Some(u));
  }

  /** The ownership guard's admin test is the roles guard's `admin` role requirement. */
  lemma AdminAgreesWithRolesGuard(u: User, resourceId: Option<int>)
    requires RolesGuard.CanActivate(Some([OwnershipGuard.AdminRole]), None, Some(u))
    ensures OwnershipGuard.CanActivate(Some(u), resourceId) == Success(true)
  {
    var i :| 0 <= i < 1 && HoldsRole(u, [OwnershipGuard.AdminRole][i]);
  }

  const Document := "document"
  const Editor := UserRole("editor", Some([Permission(1, "document-write", Document, "write", None)]))
  const Viewer := UserRole("viewer", Some([Permission(2, "document-read", Document, "read", None)]))

  /** A viewer is refused `document:write`; the same user with `editor` added is let through. */
  lemma ViewerEditorScenario()
    ensures !RolesGuard.CanActivate(None, Some(["document:write"]), Some(User(7, Some([Viewer]))))
    ensures RolesGuard.CanActivate(None, Some(["document:write"]), Some(User(7, Some([Viewer, Editor]))))
  {
    var viewerOnly := User(7, Some([Viewer]));
    var both := User(7, Some([Viewer, Editor]));
    assert RolesGuard.Key(Editor.permissions.value[0]) == "document:write";
    assert RolesGuard.HoldsPermission(both, "document:write") by {
      assert RolesGuard.Grants(both.roles.value[1], "document:write");
    }
    assert "document:read" != "document:write" by {
      assert "document:read"[9] != "document:write"[9];
    }
    assert !RolesGuard.HoldsPermission(viewerOnly, "document:write") by {
      assert RolesGuard.Key(Viewer.permissions.value[0]) == "document:read";
    }
  }
}
