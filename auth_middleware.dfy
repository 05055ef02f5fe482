/** The access decisions of the API middleware (backend/middleware/auth.js):
    `authorize(...roles)` and `checkPermission(permission)`, once the token
    has been verified and the user loaded. */
module AuthMiddleware {
  import opened Wrappers
  import opened Json
  import opened Users

  /** The part of `req.user` the decisions read. `permissions` is the JSONB
      object of the record, or null. */
  datatype RequestUser = RequestUser(role: Role, permissions: Option<map<string, Json>>)

  /** What the middleware does: answer 401, answer 403, or call `next()`. */
  datatype Decision = Unauthenticated | Forbidden | Allow

  /** `authorize(...roles)`: no user is a 401; a user whose role is not
      listed is a 403; every other user passes. */
  function Authorize(roles: seq<Role>, user: Option<RequestUser>): (d: Decision)
    ensures d == Unauthenticated <==> user.None?
    ensures d == Forbidden <==> user.Some? && user.value.role !in roles
    ensures d == Allow <==> user.Some? && user.value.role in roles
  {
    if user.None? then Unauthenticated
    else if user.value.role !in roles then Forbidden
    else Allow
  }

  /** `userPermissions[permission]` is truthy, a missing permissions object
      counting as `{}` and a missing key as `undefined`. */
  predicate Granted(permissions: Option<map<string, Json>>, permission: string) {
    var m := permissions.GetOr(map[]);
    permission in m && Truthy(m[permission])
  }

  /** `checkPermission(permission)`: no user is a 401; an admin always
      passes; any other user passes exactly when the permission is granted. */
  function CheckPermission(permission: string, user: Option<RequestUser>): (d: Decision)
    ensures d == Unauthenticated <==> user.None?
    ensures d == Allow <==> user.Some? && (user.value.role == Admin || Granted(user.value.permissions, permission))
    ensures d == Forbidden <==> user.Some? && user.value.role != Admin && !Granted(user.value.permissions, permission)
  {
    if user.None? then Unauthenticated
    else if user.value.role == Admin then Allow
    else
      var userPermissions := user.value.permissions.GetOr(map[]);
      if !(permission in userPermissions && Truthy(userPermissions[permission])) then Forbidden
      else Allow
  }

  /** Listing more roles never turns an allowed request away. */
  lemma AuthorizeMonotonic(roles: seq<Role>, more: seq<Role>, user: Option<RequestUser>)
    requires forall r :: r in roles ==> r in more
    requires Authorize(roles, user) == Allow
    ensures Authorize(more, user) == Allow
  {
  }

  /** A null permissions object behaves as an empty one. */
  lemma NullPermissionsAreEmpty(permission: string, role: Role)
    ensures CheckPermission(permission, Some(RequestUser(role, None)))
            == CheckPermission(permission, Some(RequestUser(role, Some(map[]))))
    ensures CheckPermission(permission, Some(RequestUser(role, None))) == if role == Admin then Allow else Forbidden
  {
  }

  /** A permission stored as `false`, `0`, `""` or `null` is a refusal, as
      if it were absent. */
  lemma FalsyPermissionRefused(permission: string, role: Role, m: map<string, Json>, v: Json)
    requires role != Admin && !Truthy(v)
    ensures CheckPermission(permission, Some(RequestUser(role, Some(m[permission := v])))) == Forbidden
    ensures CheckPermission(permission, Some(RequestUser(role, Some(m[permission := v]))))
            == CheckPermission(permission, Some(RequestUser(role, Some(m - {permission}))))
  {
  }

  /** Granting one more permission never revokes another. */
  lemma GrantMonotonic(permission: string, other: string, user: RequestUser, v: Json)
    requires Truthy(v) && CheckPermission(permission, Some(user)) == Allow
    ensures CheckPermission(permission,
              Some(user.(permissions := Some(user.permissions.GetOr(map[])[other := v])))) == Allow
  {
  }

  /** The two checks agree on the absence of a user. */
  lemma UnauthenticatedEverywhere(roles: seq<Role>, permission: string)
    ensures Authorize(roles, None) == CheckPermission(permission, None) == Unauthenticated
  {
  }
}
