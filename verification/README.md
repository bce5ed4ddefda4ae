# Access-control decisions of the expense tracker, in Dafny

This project models the three pieces of the expense tracker's NestJS back end
that decide who may do what:

- **RolesGuard** (`roles_guard.dfy`): a handler may declare required role names
  and required `resource:action` permission strings. Each declaration may be
  absent. The guard lets the request through when nothing is declared.
  Otherwise every declared category must pass, and within a category any one
  match suffices. The user's effective permissions are the union, over their
  roles, of `resource + ":" + action` for each permission.
- **RoleService** (`role_service.dfy`): the registry of roles and permissions.
  It creates name-unique roles and permissions under auto-increment ids and
  assigns a stored permission to a stored role. Assignment is idempotent by
  permission id.
- **UserOwnershipGuard** (`ownership_guard.dfy`): a user may act on a user
  resource when they hold the `admin` role or own the resource. Otherwise the
  guard throws Forbidden.

`entities.dfy` holds the permission and role rows and the request's user
snapshot. In the snapshot, a role list or a permission list may be missing
(JavaScript `undefined`), and the optional chaining in the guards treats a
missing list as empty. `wrappers.dfy` holds `Option` and `Result`.
`access_properties.dfy` connects the components: what a registry assignment
means to the roles guard, and how the two guards agree on `admin`.

Modelling choices:
- A requirement is `Option<seq<string>>`. `None` means the handler declared
  nothing. `Some([])` is a declared empty list. In JavaScript an empty array
  is truthy, so it is checked and always denies.
- A declared empty role list denies before the user is read, since
  `[].some(...)` never runs its callback. Every other declared requirement
  reads `user.roles`, and the roles guard has no branch for a missing user.
  So `RolesGuard.CanActivate` requires a user in those cases only.
- Registry operations return `Step(state, result)`. The state is the store
  after the call. The result is either the returned row or the thrown
  exception (`Conflict` / `NotFound` with the source's message). This lets the
  contracts say the store is unchanged on an error, on an idempotent
  assignment and on the `findAll` reads.
- Each table generates ids from its own counter, starting at 1. Lookups
  (`findOne`) return the first matching row (`RoleService.FindFirst`).
- `parseInt(request.params.id)` is given to the ownership guard already
  parsed, as `Option<int>`. `None` stands for NaN, which equals no user id.

Decision outcomes:
- A declared empty requirement list denies; only an undeclared one is
  unguarded.
- The roles guard has no unauthenticated outcome.
- Denials carry no structured reason. The roles guard returns a bare `false`;
  the ownership guard throws Forbidden with one of two messages; the registry
  throws Conflict or NotFound with a fixed message.
- Role and permission names are compared by exact string equality.

## Model

| member | source | states |
|---|---|---|
| Entities.SomeRoleNamed | src/auth/roles.guard.ts:29 | the left-to-right `some` scan over the roles finds a match exactly when some role in the list has the given name |
| Entities.HasRole | src/user/guards/user.guards.ts:19 | `user.roles?.some(role => role.name === name)` holds exactly when the user has a role list and some role in it has that name; a missing list matches nothing |
| Entities.HoldsRoleMonotone | src/auth/roles.guard.ts:28-29 | a user whose role set includes another user's roles holds every role name the other holds |
| RolesGuard.PermissionKeys | src/auth/roles.guard.ts:37-39 | the set built from one role's permissions contains a string exactly when some permission in the list has it as `resource:action` |
| RolesGuard.RoleKeys | src/auth/roles.guard.ts:37-39 | a role contributes a key exactly when its permission list is present and one of its permissions has that key; a missing list contributes nothing |
| RolesGuard.CollectKeys | src/auth/roles.guard.ts:35-40 | the keys collected over a role list are exactly those that some role of the list grants |
| RolesGuard.EffectivePermissions | src/auth/roles.guard.ts:35-40 | the effective set is exactly the union, over the user's roles, of `resource:action` of each permission; it is empty for a missing role list |
| RolesGuard.RoleGate | src/auth/roles.guard.ts:27-32 | the role gate passes exactly when some required role name is the name of some role the user holds |
| RolesGuard.PermissionGate | src/auth/roles.guard.ts:42-45 | the permission gate passes exactly when some required permission string is in the effective set |
| RolesGuard.CanActivate | src/auth/roles.guard.ts:10-49 | allows when neither category is declared; a declared empty list always denies, a declared empty role list even without a user; otherwise, for a present user, allows exactly when every declared category has a match (OR within a category, AND across them) |
| RolesGuard.NoRolesFailsEveryDeclaredRequirement | src/auth/roles.guard.ts:27-46 | a user with a missing or empty role list is denied whenever any requirement is declared |
| RolesGuard.HoldsPermissionMonotone | src/auth/roles.guard.ts:35-43 | a user whose role set includes another user's roles holds every permission key the other holds |
| RolesGuard.EffectivePermissionsDependOnRoleSet | src/auth/roles.guard.ts:35-40 | two users with the same set of roles have the same effective set, whatever the order or repetition of the roles |
| RolesGuard.MoreRolesNeverDeny | src/auth/roles.guard.ts:27-48 | if a user is allowed, any user holding at least the same roles is allowed too |
| RolesGuard.WithRole | src/auth/roles.guard.ts:28-43 | helper that builds the larger user for `AddingRoleNeverDenies`: appending a role to the list (a missing list, which `user.roles?` reads as empty, becomes a one-role list) adds exactly that role to the role set |
| RolesGuard.AddingRoleNeverDenies | src/auth/roles.guard.ts:28-43 | adding a role to an allowed user keeps the user allowed |
| RolesGuard.DecisionDependsOnRoleSet | src/auth/roles.guard.ts:27-48 | two users with the same set of roles get the same decision |
| RoleService.FindFirst | src/auth/role.service.ts:45-48 | the lookup returns no index exactly when no row matches; otherwise it returns the position of the first matching row |
| RoleService.CreateRole | src/auth/role.service.ts:16-24 | throws Conflict("Role already exists") exactly when the name is taken, leaving the store unchanged; otherwise appends one role with the given name and description, no permissions and an id no stored role has; the permission table is untouched; validity (unique names and ids) is kept |
| RoleService.FindAllRoles | src/auth/role.service.ts:26-28 | returns exactly the stored roles and leaves the store unchanged; on a valid store every permission a returned role carries is a stored permission |
| RoleService.CreatePermission | src/auth/role.service.ts:30-38 | throws Conflict("Permission already exists") exactly when the name is taken, leaving the store unchanged; otherwise appends one permission with the given name, resource, action and description and an id no stored permission has; roles are untouched; validity is kept |
| RoleService.FindAllPermissions | src/auth/role.service.ts:40-42 | returns exactly the stored permissions and leaves the store unchanged |
| RoleService.AssignPermissionToRole | src/auth/role.service.ts:44-66 | an unknown role id throws NotFound("Role not found") whatever the permission id; a known role and an unknown permission id throw NotFound("Permission not found"); errors leave the store unchanged; if the role already holds the permission id, the role is returned and the store is unchanged; otherwise the permission is appended to that role only; validity is kept |
| RoleService.AssignTwiceIsIdempotent | src/auth/role.service.ts:59-65 | repeating a successful assignment returns the same role and leaves the store as the first call left it |
| RoleService.AssignedExactlyOnce | src/auth/role.service.ts:59-63 | after a successful assignment on a valid store, the role holds exactly one permission with that id |
| RoleService.CreateRoleTwiceConflicts | src/auth/role.service.ts:17-20 | creating a role under a name just created throws Conflict and stores nothing |
| RoleService.AssignedRoleCarriesStoredPermission | src/auth/role.service.ts:54-63 | after a successful assignment on a valid store, the returned role carries the stored permission with that id |
| OwnershipGuard.CanActivate | src/user/guards/user.guards.ts:10-27 | never yields false; a missing user is Forbidden("User not authenticated"); a present user passes exactly when they hold `admin` or their id equals the parsed resource id, and is otherwise Forbidden("Access denied: You can only access your own resources") |
| OwnershipGuard.AdminPassesEverywhere | src/user/guards/user.guards.ts:19-26 | an admin passes for every resource id, an unparsable one included |
| OwnershipGuard.UnparsableIdAdminsOnly | src/user/guards/user.guards.ts:13-26 | when the id does not parse, exactly the admins pass |
| AccessProperties.AssignedPermissionPassesGuard | src/auth/roles.guard.ts:35-45 | after a permission is assigned to a role in a valid store, a user carrying that role passes a guard requiring the permission's `resource:action` key |
| AccessProperties.AdminAgreesWithRolesGuard | src/user/guards/user.guards.ts:19 | a user the roles guard admits for the `admin` role passes the ownership guard for any resource id |
| AccessProperties.ViewerEditorScenario | src/auth/roles.guard.ts:34-46 | a `viewer` is refused `document:write`, and the same user with `editor` added is admitted |

## Left out

- Reading the requirements from handler and class metadata (`Reflector.getAllAndOverride`, src/auth/roles.guard.ts:11-19) is framework reflection. The two optional lists are parameters instead.
- `parseInt` is not modelled. That includes whitespace skipping, sign handling, stopping at the first non-digit and `0x` prefixes. Its result is a parameter: `None` for NaN, `Some(n)` otherwise.
- The ownership guard compares `user.id === resourceId` with the user id as an integer. A non-numeric `user.id` is not modelled.
- Persistence (TypeORM repositories and `save`) and `async` are not modelled. So are the database's uniqueness constraints and races between a check and the following create. The registry is one sequential state.
- src/user/role.entity.ts is not part of this model. The Role fields (id, name, description, permissions) are taken from their use in src/auth/role.service.ts.
- RoleService.CreateRole: role names are matched by exact string equality. The lookup runs in a MySQL query whose default collation ignores case, so `Admin` would conflict with an existing `admin` there; the database collation is not modelled.
- RoleService.CreatePermission: permission names are matched by exact string equality, not under the database collation, for the same reason.
- RoleService.CreateRole returns the new role with an empty permission list. The ORM returns the saved row without the relation field, which reads as empty once loaded.
- RoleService.AssignPermissionToRole: the successful outcomes are stated only for a store satisfying `RoleService.Valid`, that is with unique ids as the primary keys guarantee. The error outcomes are stated for every store.
- AccessProperties.AssignedPermissionPassesGuard assumes a valid store, for the same reason.
- The user service, the auth service (password hashing, token signing, the roles projection into the token payload), the controllers, the DTOs and the module wiring are not modelled. They are transport, persistence or library calls with no decision logic. The user service's `assignRole`/`removeRole` ignore their role name and are not role mutations.
