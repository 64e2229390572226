/** Roles and their permissions (src/roles/roles.service.ts). A role holds an ordered list of
    permission links; deleting a role is soft: the role is marked and renamed, its permission
    links are kept, and every user loses it. */
module Roles {
  import opened Common
  import opened Schema
  import opened Formatters

  predicate Live(r: Role) {
    r.deletedAt.None?
  }

  /** Role names are unique (the name column has a unique index), and every link of a role
      names an existing permission once. */
  predicate RolesValid(roles: map<string, Role>, permissions: map<string, Permission>, links: map<string, seq<string>>) {
    && (forall a, b :: a in roles && b in roles && a != b ==> roles[a].name != roles[b].name)
    && (forall r :: r in links ==> r in roles && NoDuplicates(links[r]))
    && (forall r, p :: r in links && p in links[r] ==> p in permissions)
  }

  predicate NameTaken(roles: map<string, Role>, name: string) {
    exists r :: r in roles && roles[r].name == name
  }

  /** The permissions a role's links join to, in link order; a link to no permission joins
      to nothing. */
  function PermissionsOf(permissions: map<string, Permission>, ids: seq<string>): (r: seq<Permission>)
    ensures forall x :: x in r ==> exists p :: p in ids && p in permissions && permissions[p] == x
    ensures (forall p :: p in ids ==> p in permissions) ==>
      |r| == |ids| && forall i :: 0 <= i < |ids| ==> r[i] == permissions[ids[i]]
    decreases |ids|
  {
    if ids == [] then []
    else
      var rest := PermissionsOf(permissions, ids[1..]);
      assert forall p :: p in ids[1..] ==> p in ids;
      if ids[0] in permissions then [permissions[ids[0]]] + rest else rest
  }

  /** A role with the permissions it is linked to. */
  function RoleRowOf(roles: map<string, Role>, permissions: map<string, Permission>, links: map<string, seq<string>>, id: string): (r: RoleRow)
    requires id in roles
    ensures r.id == id && r.role == roles[id]
    ensures r.permissions == PermissionsOf(permissions, if id in links then links[id] else [])
  {
    RoleRow(id, roles[id], PermissionsOf(permissions, if id in links then links[id] else []))
  }

  /** `getRoles`: `rows` is the role table with its permissions, in the order the database
      returns it; soft-deleted roles are left out. */
  function GetRoles(rows: seq<RoleRow>): (r: seq<RoleResponse>)
    ensures forall x :: x in r <==> exists row :: row in rows && Live(row.role) && x == FormatRoleResponse(row)
    decreases |rows|
  {
    if rows == [] then []
    else
      var n := |rows| - 1;
      assert forall row :: row in rows <==> row in rows[..n] || row == rows[n];
      GetRoles(rows[..n]) + (if Live(rows[n].role) then [FormatRoleResponse(rows[n])] else [])
  }

  /** The permission ids a request asks for: `permissionIds ? [...new Set(permissionIds)] : []`. */
  function FinalPermissionIds(permissionIds: Option<seq<string>>): (r: seq<string>)
    ensures NoDuplicates(r)
    ensures permissionIds.None? ==> r == []
    ensures permissionIds.Some? ==> forall p :: p in r <==> p in permissionIds.value
  {
    if permissionIds.Some? then Dedup(permissionIds.value) else []
  }

  /** The refusal for unknown permission ids, which it lists. */
  function MissingPermissions(ids: seq<string>, permissions: map<string, Permission>): (r: Option<Error>)
    ensures r.None? <==> forall p :: p in ids ==> p in permissions
    ensures r.Some? ==> r.value == BadRequest("Some permissions do not exist: " + Join(Missing(ids, permissions.Keys), ", "))
  {
    var missing := Missing(ids, permissions.Keys);
    if |missing| > 0 then Some(BadRequest("Some permissions do not exist: " + Join(missing, ", "))) else None
  }

  datatype NewRole = NewRole(name: string, description: Option<string>, permissionIds: Option<seq<string>>)

  /** The role row and links `createNewRoleForAdmin` writes, or why it refuses. The name check
      also sees soft-deleted roles. */
  function RoleCreation(roles: map<string, Role>, permissions: map<string, Permission>, payload: NewRole): (r: Result<(Role, seq<string>)>)
    ensures NameTaken(roles, payload.name) ==> r == Err(Conflict("Role with this name already exists"))
    ensures r.Ok? <==> !NameTaken(roles, payload.name) && forall p :: p in FinalPermissionIds(payload.permissionIds) ==> p in permissions
    ensures !NameTaken(roles, payload.name) && r.Err? ==> r == Err(MissingPermissions(FinalPermissionIds(payload.permissionIds), permissions).value)
    ensures r.Ok? ==> r.value.0 == Role(payload.name, payload.description, None)
    ensures r.Ok? ==> r.value.1 == FinalPermissionIds(payload.permissionIds)
  {
    if NameTaken(roles, payload.name) then Err(Conflict("Role with this name already exists"))
    else
      var ids := FinalPermissionIds(payload.permissionIds);
      var missing := MissingPermissions(ids, permissions);
      if missing.Some? then Err(missing.value)
      else Ok((Role(payload.name, payload.description, None), ids))
  }

  /** A created role is linked to exactly the requested permissions, each once, and the tables
      stay valid. */
  lemma CreateKeepsRolesValid(roles: map<string, Role>, permissions: map<string, Permission>, links: map<string, seq<string>>,
                              payload: NewRole, newId: string)
    requires RolesValid(roles, permissions, links) && newId !in roles
    requires RoleCreation(roles, permissions, payload).Ok?
    ensures var (role, ids) := RoleCreation(roles, permissions, payload).value;
      && RolesValid(roles[newId := role], permissions, links[newId := ids])
      && (payload.permissionIds.Some? ==> forall p :: p in ids <==> p in payload.permissionIds.value)
  {
  }

  method CreateNewRoleForAdmin(db: Db, payload: NewRole, newId: string) returns (r: Result<RoleResponse>)
    requires newId !in db.roles && newId !in db.rolePermissions
    modifies db`roles, db`rolePermissions
    ensures var c := RoleCreation(old(db.roles), db.permissions, payload);
      && (c.Ok? ==> && db.roles == old(db.roles)[newId := c.value.0]
                    && db.rolePermissions == old(db.rolePermissions)[newId := c.value.1]
                    && r == Ok(FormatRoleResponse(RoleRow(newId, c.value.0, PermissionsOf(db.permissions, c.value.1)))))
      && (c.Err? ==> db.roles == old(db.roles) && db.rolePermissions == old(db.rolePermissions) && r == Err(c.error))
  {
    var c := RoleCreation(db.roles, db.permissions, payload);
    if c.Err? {
      return Err(c.error);
    }
    var (role, ids) := c.value;
    db.roles := db.roles[newId := role];
    db.rolePermissions := db.rolePermissions[newId := ids];
    r := Ok(FormatRoleResponse(RoleRow(newId, role, PermissionsOf(db.permissions, ids))));
  }

  /** The fields of an update; `None` is a field left out. */
  datatype RolePatch = RolePatch(name: Option<string>, description: Option<string>, permissionIds: Option<seq<string>>)

  /** The role row and links after `updateRoleForAdmin`, or why it refuses. A soft-deleted role
      can still be updated. Keeping the current name is allowed; a new non-empty name held by
      another role is a Conflict; an empty new name skips the check, so a clash is a database
      error the service does not catch. */
  function RoleUpdate(roles: map<string, Role>, permissions: map<string, Permission>, links: map<string, seq<string>>,
                      id: string, patch: RolePatch): (r: Result<(Role, seq<string>)>)
    ensures id !in roles ==> r == Err(NotFound("Role not found"))
    ensures id in roles && Truthy(patch.name) && patch.name.value != roles[id].name && NameTaken(roles, patch.name.value) ==>
      r == Err(Conflict("Role with this name already exists"))
    ensures r.Ok? ==> id in roles
    ensures r.Ok? ==> && r.value.0.name == (if patch.name.Some? then patch.name.value else roles[id].name)
                      && r.value.0.description == (if patch.description.Some? then patch.description else roles[id].description)
                      && r.value.0.deletedAt == roles[id].deletedAt
    ensures r.Ok? && patch.permissionIds.Some? ==> forall p :: p in r.value.1 <==> p in patch.permissionIds.value
    ensures r.Ok? && patch.permissionIds.None? ==> r.value.1 == (if id in links then links[id] else [])
    ensures r.Ok? ==> forall p :: p in FinalPermissionIds(patch.permissionIds) ==> p in permissions
    ensures r.Ok? <==> (
      && id in roles
      && !(Truthy(patch.name) && patch.name.value != roles[id].name && NameTaken(roles, patch.name.value))
      && (forall p :: p in FinalPermissionIds(patch.permissionIds) ==> p in permissions)
      && !(patch.name == Some("") && roles[id].name != "" && NameTaken(roles, "")))
    ensures id in roles && !(Truthy(patch.name) && patch.name.value != roles[id].name && NameTaken(roles, patch.name.value))
            && MissingPermissions(FinalPermissionIds(patch.permissionIds), permissions).Some? ==>
      r == Err(MissingPermissions(FinalPermissionIds(patch.permissionIds), permissions).value)
    ensures r.Err? && patch.name == Some("") && id in roles && roles[id].name != "" && NameTaken(roles, "")
            && MissingPermissions(FinalPermissionIds(patch.permissionIds), permissions).None? ==>
      r == Err(Internal("Unique constraint failed on the fields: (`name`)"))
  {
    if id !in roles then Err(NotFound("Role not found"))
    else
      var existing := roles[id];
      if Truthy(patch.name) && patch.name.value != existing.name && NameTaken(roles, patch.name.value) then
        Err(Conflict("Role with this name already exists"))
      else
        var ids := FinalPermissionIds(patch.permissionIds);
        var missing := MissingPermissions(ids, permissions);
        if missing.Some? then Err(missing.value)
        else if patch.name == Some("") && existing.name != "" && NameTaken(roles, "") then
          Err(Internal("Unique constraint failed on the fields: (`name`)"))
        else
          var role := existing.(name := if patch.name.Some? then patch.name.value else existing.name,
                                description := if patch.description.Some? then patch.description else existing.description);
          Ok((role, if patch.permissionIds.Some? then ids else if id in links then links[id] else []))
  }

  /** An update keeps the tables valid; an empty `permissionIds` clears the role's links. */
  lemma UpdateKeepsRolesValid(roles: map<string, Role>, permissions: map<string, Permission>, links: map<string, seq<string>>,
                              id: string, patch: RolePatch)
    requires RolesValid(roles, permissions, links)
    requires RoleUpdate(roles, permissions, links, id, patch).Ok?
    ensures var (role, ids) := RoleUpdate(roles, permissions, links, id, patch).value;
      && RolesValid(roles[id := role], permissions, links[id := ids])
      && (patch.permissionIds == Some([]) ==> ids == [])
  {
    var (role, ids) := RoleUpdate(roles, permissions, links, id, patch).value;
    if patch.permissionIds.None? && id !in links {
      assert ids == [];
    }
    var after := roles[id := role];
    forall a, b | a in after && b in after && a != b
      ensures after[a].name != after[b].name
    {
      if a == id || b == id {
        var other := if a == id then b else a;
        assert after[other] == roles[other];
        if patch.name.Some? && patch.name.value != roles[id].name {
          assert NameTaken(roles, patch.name.value) ==> false;
        }
      }
    }
  }

  method UpdateRoleForAdmin(db: Db, id: string, patch: RolePatch) returns (r: Result<RoleResponse>)
    requires RolesValid(db.roles, db.permissions, db.rolePermissions)
    modifies db`roles, db`rolePermissions
    ensures var u := RoleUpdate(old(db.roles), db.permissions, old(db.rolePermissions), id, patch);
      && (u.Ok? ==> && db.roles == old(db.roles)[id := u.value.0]
                    && db.rolePermissions == (if patch.permissionIds.Some? then old(db.rolePermissions)[id := u.value.1] else old(db.rolePermissions))
                    && r == Ok(FormatRoleResponse(RoleRow(id, u.value.0, PermissionsOf(db.permissions, u.value.1)))))
      && (u.Err? ==> db.roles == old(db.roles) && db.rolePermissions == old(db.rolePermissions) && r == Err(u.error))
  {
    var u := RoleUpdate(db.roles, db.permissions, db.rolePermissions, id, patch);
    if u.Err? {
      return Err(u.error);
    }
    var (role, ids) := u.value;
    db.roles := db.roles[id := role];
    if patch.permissionIds.Some? {
      db.rolePermissions := db.rolePermissions[id := ids];
    }
    r := Ok(FormatRoleResponse(RoleRow(id, role, PermissionsOf(db.permissions, ids))));
  }

  /** `${name}_deleted_${Date.now()}`. */
  function DeletedName(name: string, now: nat): (r: string)
    ensures |r| > |name| + 9 && r[..|name|] == name
    ensures r[|name|..|name| + 9] == "_deleted_"
  {
    name + "_deleted_" + DecimalString(now)
  }

  /** Every user's role list without the role. */
  function WithoutRole(userRoles: map<string, seq<string>>, id: string): (r: map<string, seq<string>>)
    ensures r.Keys == userRoles.Keys
    ensures forall u, x :: u in r ==> (x in r[u] <==> x in userRoles[u] && x != id)
  {
    map u | u in userRoles :: Filter(userRoles[u], (x: string) => x != id)
  }

  /** The role row and the user-role links after `deleteRoleForAdmin`, or why it refuses. */
  function RoleDeletion(roles: map<string, Role>, userRoles: map<string, seq<string>>, id: string, now: nat)
    : (r: Result<(Role, map<string, seq<string>>)>)
    ensures !(id in roles && Live(roles[id])) ==> r == Err(NotFound("Role not found"))
    ensures r.Ok? ==> id in roles && Live(roles[id])
    ensures r.Ok? ==> r.value.0 == roles[id].(name := DeletedName(roles[id].name, now), deletedAt := Some(now))
    ensures r.Ok? ==> r.value.1 == WithoutRole(userRoles, id)
    ensures r.Ok? <==> id in roles && Live(roles[id]) && !NameTaken(roles, DeletedName(roles[id].name, now))
    ensures id in roles && Live(roles[id]) && NameTaken(roles, DeletedName(roles[id].name, now)) ==>
      r == Err(Internal("Unique constraint failed on the fields: (`name`)"))
  {
    if !(id in roles && Live(roles[id])) then Err(NotFound("Role not found"))
    else
      var newName := DeletedName(roles[id].name, now);
      if NameTaken(roles, newName) then Err(Internal("Unique constraint failed on the fields: (`name`)"))
      else Ok((roles[id].(name := newName, deletedAt := Some(now)), WithoutRole(userRoles, id)))
  }

  /** After a delete no user holds the role, every other link is kept, the role's own
      permission links are untouched, and role names stay unique. */
  lemma DeleteRevokesRole(roles: map<string, Role>, permissions: map<string, Permission>, links: map<string, seq<string>>,
                          userRoles: map<string, seq<string>>, id: string, now: nat)
    requires RolesValid(roles, permissions, links)
    requires RoleDeletion(roles, userRoles, id, now).Ok?
    ensures var (role, after) := RoleDeletion(roles, userRoles, id, now).value;
      && !Live(role)
      && (forall u :: u in after ==> id !in after[u])
      && (forall u, x :: u in after && x != id ==> (x in after[u] <==> x in userRoles[u]))
      && RolesValid(roles[id := role], permissions, links)
  {
    var (role, after) := RoleDeletion(roles, userRoles, id, now).value;
    var rows := roles[id := role];
    forall a, b | a in rows && b in rows && a != b
      ensures rows[a].name != rows[b].name
    {
      if a == id {
        assert roles[b].name != role.name;
      } else if b == id {
        assert roles[a].name != role.name;
      }
    }
  }

  method DeleteRoleForAdmin(db: Db, id: string, now: nat) returns (r: Result<Role>)
    modifies db`roles, db`userRoles
    ensures var d := RoleDeletion(old(db.roles), old(db.userRoles), id, now);
      && (d.Ok? ==> db.roles == old(db.roles)[id := d.value.0] && db.userRoles == d.value.1 && r == Ok(d.value.0))
      && (d.Err? ==> db.roles == old(db.roles) && db.userRoles == old(db.userRoles) && r == Err(d.error))
  {
    var d := RoleDeletion(db.roles, db.userRoles, id, now);
    if d.Err? {
      return Err(d.error);
    }
    db.userRoles := d.value.1;
    db.roles := db.roles[id := d.value.0];
    r := Ok(d.value.0);
  }
}
