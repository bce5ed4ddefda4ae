/**
  The ownership gate of per-user endpoints: an authenticated user may act on a
  user resource when they hold the `admin` role or the resource is their own.
  The resource id arrives already parsed: `None` stands for a `parseInt` that
  produced NaN, which equals no user id.
 */
module OwnershipGuard {
  import opened Wrappers
  import opened Entities

  /** The exception the guard throws instead of returning false. */
  datatype Forbidden = Forbidden(message: string)

  const AdminRole := "admin"
  const NotAuthenticated := "User not authenticated"
  const NotOwner := "Access denied: You can only access your own resources"

  /** The guard's decision: `Success(true)` lets the request through; it never yields `Success(false)`. */
  function CanActivate(user: Option<User>, resourceId: Option<int>): (out: Result<bool, Forbidden>)
    ensures out.Success? ==> out.value
    ensures user.None? <==> out == Failure(Forbidden(NotAuthenticated))
    ensures user.Some? ==>
      (out.Success? <==> HoldsRole(user.value, AdminRole) || resourceId == Some(user.value.id))
    ensures user.Some? && out.Failure? ==> out.error == Forbidden(NotOwner)
  {
    if user.None? then Failure(Forbidden(NotAuthenticated))
    else
      var isAdmin := HasRole(user.value, AdminRole);
      var isOwner := resourceId.Some? && user.value.id == resourceId.value;
      if !isAdmin && !isOwner then Failure(Forbidden(NotOwner))
      else Success(true)
  }

  /** An admin passes for every resource id, an unparsable one included. */
  lemma AdminPassesEverywhere(u: User, resourceId: Option<int>)
    requires HoldsRole(u, AdminRole)
    ensures CanActivate(Some(u), resourceId) == Success(true)
  {
  }

  /** When the id does not parse, exactly the admins pass. */
  lemma UnparsableIdAdminsOnly(u: User)
    ensures CanActivate(Some(u), None).Success? <==> HoldsRole(u, AdminRole)
  {
  }
}
