/** The permission guard (src/permissions/permissions.guard.ts). A handler may name a required
    (resource, action); the caller is admitted when one of the permissions reached through
    their roles is named `<resource>_<action>`, compared without regard to ASCII case. */
module Guard {
  import opened Common
  import opened Schema
  import Roles

  /** `toLowerCase` on ASCII letters; other characters are kept. */
  function Lower(s: string): (r: string)
    ensures |r| == |s|
    ensures forall i :: 0 <= i < |s| ==> r[i] == (if 'A' <= s[i] <= 'Z' then (s[i] as int + 32) as char else s[i])
  {
    seq(|s|, i requires 0 <= i < |s| => if 'A' <= s[i] <= 'Z' then (s[i] as int + 32) as char else s[i])
  }

  /** Lowering twice is lowering once. */
  lemma LowerIsIdempotent(s: string)
    ensures Lower(Lower(s)) == Lower(s)
  {
  }

  /** The required permission a handler is decorated with. */
  datatype Required = Required(resource: string, action: string)

  /** The lowercased names of the permissions linked to any role the user holds. */
  function HeldPermissions(permissions: map<string, Permission>, rolePermissions: map<string, seq<string>>,
                           userRoles: map<string, seq<string>>, userId: string): (r: set<string>)
    ensures forall name :: name in r <==> exists roleId, permissionId ::
      && userId in userRoles && roleId in userRoles[userId]
      && roleId in rolePermissions && permissionId in rolePermissions[roleId]
      && permissionId in permissions && name == Lower(permissions[permissionId].name)
  {
    set roleId, permissionId | userId in userRoles && roleId in userRoles[userId]
                            && roleId in rolePermissions && permissionId in rolePermissions[roleId]
                            && permissionId in permissions
      :: Lower(permissions[permissionId].name)
  }

  function Target(required: Required): string {
    Lower(required.resource + "_" + required.action)
  }

  /** `canActivate`: `sub` is the subject of the request's token, absent when the request
      carries no user. */
  function CanActivate(required: Option<Required>, sub: Option<string>, held: string -> set<string>): (r: Result<bool>)
    ensures required.None? ==> r == Ok(true)
    ensures required.Some? && !Truthy(sub) ==> r == Err(Unauthorized("Token is invalid or expired"))
    ensures r.Ok? ==> r.value
    ensures r == Ok(true) <==> required.None? || (Truthy(sub) && Target(required.value) in held(sub.value))
    ensures r.Err? && Truthy(sub) ==> r.error == Forbidden("User does not have the required permission to access this resource")
  {
    if required.None? then Ok(true)
    else if !Truthy(sub) then Err(Unauthorized("Token is invalid or expired"))
    else if Target(required.value) in held(sub.value) then Ok(true)
    else Err(Forbidden("User does not have the required permission to access this resource"))
  }

  /** Matching ignores case on both sides: a permission named in any case admits the handler
      whose resource and action spell the same name in any other case. */
  lemma MatchingIgnoresCase(permissions: map<string, Permission>, rolePermissions: map<string, seq<string>>,
                            userRoles: map<string, seq<string>>, userId: string, roleId: string, permissionId: string,
                            required: Required)
    requires userId != "" && userId in userRoles && roleId in userRoles[userId]
    requires roleId in rolePermissions && permissionId in rolePermissions[roleId] && permissionId in permissions
    requires Lower(permissions[permissionId].name) == Target(required)
    ensures CanActivate(Some(required), Some(userId), u => HeldPermissions(permissions, rolePermissions, userRoles, u)) == Ok(true)
  {
  }

  /** A user who holds no role is refused every guarded handler. */
  lemma NoRoleNoAccess(permissions: map<string, Permission>, rolePermissions: map<string, seq<string>>,
                       userRoles: map<string, seq<string>>, userId: string, required: Required)
    requires userId != "" && (userId !in userRoles || userRoles[userId] == [])
    ensures CanActivate(Some(required), Some(userId), u => HeldPermissions(permissions, rolePermissions, userRoles, u))
      == Err(Forbidden("User does not have the required permission to access this resource"))
  {
  }

  /** Once a role is deleted, a user keeps exactly the permissions reached through their
      other roles. */
  lemma DeletedRoleGrantsNothing(permissions: map<string, Permission>, rolePermissions: map<string, seq<string>>,
                                 userRoles: map<string, seq<string>>, roleId: string, userId: string)
    ensures forall name ::
      (name in HeldPermissions(permissions, rolePermissions, Roles.WithoutRole(userRoles, roleId), userId)
       <==> exists other, permissionId ::
              && userId in userRoles && other in userRoles[userId] && other != roleId
              && other in rolePermissions && permissionId in rolePermissions[other]
              && permissionId in permissions && name == Lower(permissions[permissionId].name))
  {
  }
}
