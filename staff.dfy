/** Staff accounts (src/staff/staff.service.ts): users that hold at least one role. Role ids
    are checked against every role row, soft-deleted ones included; registration silently
    merges repeated role ids while an update refuses them. */
module Staff {
  import opened Common
  import opened Schema
  import opened Formatters
  import opened Roles

  /** Emails are unique (the service looks users up by email). */
  predicate UniqueEmails(users: map<string, User>) {
    forall a, b :: a in users && b in users && a != b ==> users[a].email != users[b].email
  }

  predicate EmailTaken(users: map<string, User>, email: string) {
    exists u :: u in users && users[u].email == email
  }

  predicate IsStaff(row: UserRow) {
    row.user.status != "deleted" && |row.userRoles| > 0
  }

  /** `getAllStaff`: `rows` is the user table with roles and permissions, in the order the
      database returns it. */
  function GetAllStaff(rows: seq<UserRow>): (r: seq<UserResponse>)
    ensures forall x :: x in r <==> exists row :: row in rows && IsStaff(row) && x == FormatPermission(row)
    decreases |rows|
  {
    if rows == [] then []
    else
      var n := |rows| - 1;
      assert forall row :: row in rows <==> row in rows[..n] || row == rows[n];
      GetAllStaff(rows[..n]) + (if IsStaff(rows[n]) then [FormatPermission(rows[n])] else [])
  }

  /** The roles a user's links join to, each with its permissions, in link order. */
  function UserRoleRows(roles: map<string, Role>, permissions: map<string, Permission>, links: map<string, seq<string>>,
                        roleIds: seq<string>): (r: seq<UserRoleRow>)
    ensures (forall x :: x in roleIds ==> x in roles) ==>
      && |r| == |roleIds|
      && forall i :: 0 <= i < |roleIds| ==> r[i] == UserRoleRow(roleIds[i], roles[roleIds[i]], RoleRowOf(roles, permissions, links, roleIds[i]).permissions)
    decreases |roleIds|
  {
    if roleIds == [] then []
    else
      var rest := UserRoleRows(roles, permissions, links, roleIds[1..]);
      assert forall x :: x in roleIds[1..] ==> x in roleIds;
      if roleIds[0] in roles then
        var row := RoleRowOf(roles, permissions, links, roleIds[0]);
        [UserRoleRow(row.id, row.role, row.permissions)] + rest
      else rest
  }

  /** The refusal for unknown role ids, which it lists. */
  function MissingRoles(ids: seq<string>, roles: map<string, Role>): (r: Option<Error>)
    ensures r.None? <==> forall x :: x in ids ==> x in roles
    ensures r.Some? ==> r.value == BadRequest("Some roles do not exist: " + Join(Missing(ids, roles.Keys), ", "))
  {
    var missing := Missing(ids, roles.Keys);
    if |missing| > 0 then Some(BadRequest("Some roles do not exist: " + Join(missing, ", "))) else None
  }

  datatype NewStaff = NewStaff(email: string, fullName: string, phone: Option<string>, password: string, roleIds: seq<string>)

  /** The user row and role links `registerStaffForAdmin` writes, or why it refuses. The
      stored row holds the hash of the password, never the password. */
  function StaffRegistration(users: map<string, User>, roles: map<string, Role>, payload: NewStaff,
                             hash: string -> string, defaults: UserDefaults): (r: Result<(User, seq<string>)>)
    ensures EmailTaken(users, payload.email) ==> r == Err(Conflict("User with this email already exists"))
    ensures r.Ok? <==> !EmailTaken(users, payload.email) && forall x :: x in payload.roleIds ==> x in roles
    ensures !EmailTaken(users, payload.email) && r.Err? ==> r == Err(MissingRoles(Dedup(payload.roleIds), roles).value)
    ensures r.Ok? ==> r.value.0 == User(payload.email, Some(payload.fullName), payload.phone, None,
                                        Some(hash(payload.password)), defaults.status, defaults.isVerified, None)
    ensures r.Ok? ==> NoDuplicates(r.value.1) && forall x :: x in r.value.1 <==> x in payload.roleIds
  {
    if EmailTaken(users, payload.email) then Err(Conflict("User with this email already exists"))
    else
      var ids := Dedup(payload.roleIds);
      var missing := MissingRoles(ids, roles);
      if missing.Some? then Err(missing.value)
      else Ok((User(payload.email, Some(payload.fullName), payload.phone, None,
                    Some(hash(payload.password)), defaults.status, defaults.isVerified, None), ids))
  }

  /** A registration keeps emails unique. */
  lemma RegisterKeepsEmailsUnique(users: map<string, User>, roles: map<string, Role>, payload: NewStaff,
                                  hash: string -> string, defaults: UserDefaults, newId: string)
    requires UniqueEmails(users) && newId !in users
    requires StaffRegistration(users, roles, payload, hash, defaults).Ok?
    ensures UniqueEmails(users[newId := StaffRegistration(users, roles, payload, hash, defaults).value.0])
  {
    var after := users[newId := StaffRegistration(users, roles, payload, hash, defaults).value.0];
    forall a, b | a in after && b in after && a != b
      ensures after[a].email != after[b].email
    {
      if a == newId {
        assert users[b].email != payload.email;
      } else if b == newId {
        assert users[a].email != payload.email;
      }
    }
  }

  method RegisterStaffForAdmin(db: Db, payload: NewStaff, hash: string -> string, defaults: UserDefaults, newId: string)
    returns (r: Result<UserResponse>)
    requires newId !in db.users && newId !in db.userRoles
    modifies db`users, db`userRoles
    ensures var c := StaffRegistration(old(db.users), db.roles, payload, hash, defaults);
      && (c.Ok? ==> && db.users == old(db.users)[newId := c.value.0]
                    && db.userRoles == old(db.userRoles)[newId := c.value.1]
                    && r == Ok(FormatPermission(UserRow(newId, c.value.0, UserRoleRows(db.roles, db.permissions, db.rolePermissions, c.value.1)))))
      && (c.Err? ==> db.users == old(db.users) && db.userRoles == old(db.userRoles) && r == Err(c.error))
  {
    var c := StaffRegistration(db.users, db.roles, payload, hash, defaults);
    if c.Err? {
      return Err(c.error);
    }
    var (user, ids) := c.value;
    db.users := db.users[newId := user];
    db.userRoles := db.userRoles[newId := ids];
    r := Ok(FormatPermission(UserRow(newId, user, UserRoleRows(db.roles, db.permissions, db.rolePermissions, ids))));
  }

  /** The fields of a staff update; `None` is a field left out. */
  datatype StaffPatch = StaffPatch(fullName: Option<string>, phone: Option<string>, avatarUrl: Option<string>,
                                   password: Option<string>, roleIds: Option<seq<string>>)

  predicate LiveUser(users: map<string, User>, id: string) {
    id in users && users[id].deletedAt.None?
  }

  /** The user row and role links after `updateStaffForAdmin`, or why it refuses. */
  function StaffUpdate(users: map<string, User>, roles: map<string, Role>, userRoles: map<string, seq<string>>,
                       id: string, patch: StaffPatch, hash: string -> string): (r: Result<(User, seq<string>)>)
    ensures !LiveUser(users, id) ==> r == Err(NotFound("User not found"))
    ensures LiveUser(users, id) && patch.roleIds.Some? && !NoDuplicates(patch.roleIds.value) ==>
      r == Err(BadRequest("Duplicate role IDs are not allowed"))
    ensures LiveUser(users, id) && patch.roleIds.Some? && NoDuplicates(patch.roleIds.value)
            && MissingRoles(patch.roleIds.value, roles).Some? ==>
      r == Err(MissingRoles(patch.roleIds.value, roles).value)
    ensures r.Ok? <==> LiveUser(users, id) && (patch.roleIds.Some? ==>
      NoDuplicates(patch.roleIds.value) && forall x :: x in patch.roleIds.value ==> x in roles)
    ensures r.Ok? ==> && r.value.0.passwordHash == (if Truthy(patch.password) then Some(hash(patch.password.value)) else users[id].passwordHash)
                      && r.value.0.fullName == (if patch.fullName.Some? then patch.fullName else users[id].fullName)
                      && r.value.0.phone == (if patch.phone.Some? then patch.phone else users[id].phone)
                      && r.value.0.avatarUrl == (if patch.avatarUrl.Some? then patch.avatarUrl else users[id].avatarUrl)
                      && r.value.0.(fullName := None, phone := None, avatarUrl := None, passwordHash := None)
                         == users[id].(fullName := None, phone := None, avatarUrl := None, passwordHash := None)
    ensures r.Ok? ==> r.value.1 == (if patch.roleIds.Some? then patch.roleIds.value else if id in userRoles then userRoles[id] else [])
  {
    if !LiveUser(users, id) then Err(NotFound("User not found"))
    else if patch.roleIds.Some? && |Dedup(patch.roleIds.value)| != |patch.roleIds.value| then
      Err(BadRequest("Duplicate role IDs are not allowed"))
    else
      var missing := if patch.roleIds.Some? then MissingRoles(patch.roleIds.value, roles) else None;
      if missing.Some? then Err(missing.value)
      else
        var u := users[id];
        var user := u.(fullName := if patch.fullName.Some? then patch.fullName else u.fullName,
                       phone := if patch.phone.Some? then patch.phone else u.phone,
                       avatarUrl := if patch.avatarUrl.Some? then patch.avatarUrl else u.avatarUrl,
                       passwordHash := if Truthy(patch.password) then Some(hash(patch.password.value)) else u.passwordHash);
        Ok((user, if patch.roleIds.Some? then patch.roleIds.value else if id in userRoles then userRoles[id] else []))
  }

  /** The same role list with a repeat: registration accepts it and links each role once,
      an update refuses it. */
  lemma RegisterMergesWhatUpdateRefuses(users: map<string, User>, roles: map<string, Role>, userRoles: map<string, seq<string>>,
                                        payload: NewStaff, hash: string -> string, defaults: UserDefaults, id: string)
    requires !EmailTaken(users, payload.email) && LiveUser(users, id)
    requires forall x :: x in payload.roleIds ==> x in roles
    requires !NoDuplicates(payload.roleIds)
    ensures StaffRegistration(users, roles, payload, hash, defaults).Ok?
    ensures |StaffRegistration(users, roles, payload, hash, defaults).value.1| < |payload.roleIds|
    ensures StaffUpdate(users, roles, userRoles, id, StaffPatch(None, None, None, None, Some(payload.roleIds)), hash)
      == Err(BadRequest("Duplicate role IDs are not allowed"))
  {
  }

  method UpdateStaffForAdmin(db: Db, id: string, patch: StaffPatch, hash: string -> string) returns (r: Result<UserResponse>)
    modifies db`users, db`userRoles
    ensures var u := StaffUpdate(old(db.users), db.roles, old(db.userRoles), id, patch, hash);
      && (u.Ok? ==> && db.users == old(db.users)[id := u.value.0]
                    && db.userRoles == (if patch.roleIds.Some? then old(db.userRoles)[id := u.value.1] else old(db.userRoles))
                    && r == Ok(FormatPermission(UserRow(id, u.value.0, UserRoleRows(db.roles, db.permissions, db.rolePermissions, u.value.1)))))
      && (u.Err? ==> db.users == old(db.users) && db.userRoles == old(db.userRoles) && r == Err(u.error))
  {
    var u := StaffUpdate(db.users, db.roles, db.userRoles, id, patch, hash);
    if u.Err? {
      return Err(u.error);
    }
    var (user, ids) := u.value;
    db.users := db.users[id := user];
    if patch.roleIds.Some? {
      db.userRoles := db.userRoles[id := ids];
    }
    r := Ok(FormatPermission(UserRow(id, user, UserRoleRows(db.roles, db.permissions, db.rolePermissions, ids))));
  }

  /** The user row after `deleteAccountForAdmin`: marked deleted and its email prefixed, which
      frees the email for a new account. */
  function StaffDeletion(users: map<string, User>, id: string, now: int): (r: Result<User>)
    ensures !LiveUser(users, id) ==> r == Err(NotFound("User not found"))
    ensures r.Ok? ==> LiveUser(users, id)
    ensures r.Ok? ==> r.value == users[id].(status := "deleted", email := "deleted_" + users[id].email, deletedAt := Some(now))
    ensures r.Ok? <==> LiveUser(users, id) && !EmailTaken(users, "deleted_" + users[id].email)
    ensures LiveUser(users, id) && EmailTaken(users, "deleted_" + users[id].email) ==>
      r == Err(Internal("Unique constraint failed on the fields: (`email`)"))
  {
    if !LiveUser(users, id) then Err(NotFound("User not found"))
    else
      var email := "deleted_" + users[id].email;
      if EmailTaken(users, email) then Err(Internal("Unique constraint failed on the fields: (`email`)"))
      else Ok(users[id].(status := "deleted", email := email, deletedAt := Some(now)))
  }

  /** A deleted account keeps emails unique, no longer holds its old email, and a second delete
      is refused. */
  lemma {:induction false} DeleteReleasesEmail(users: map<string, User>, id: string, now: int, later: int)
    requires UniqueEmails(users)
    requires StaffDeletion(users, id, now).Ok?
    ensures var after := users[id := StaffDeletion(users, id, now).value];
      && UniqueEmails(after)
      && !EmailTaken(after, users[id].email)
      && StaffDeletion(after, id, later) == Err(NotFound("User not found"))
  {
    var row := StaffDeletion(users, id, now).value;
    var after := users[id := row];
    forall a, b | a in after && b in after && a != b
      ensures after[a].email != after[b].email
    {
      if a == id {
        assert !EmailTaken(users, row.email);
        assert users[b].email != row.email;
      } else if b == id {
        assert !EmailTaken(users, row.email);
        assert users[a].email != row.email;
      }
    }
    forall u | u in after
      ensures after[u].email != users[id].email
    {
      if u == id {
        assert |row.email| > |users[id].email|;
      } else {
        assert users[u].email != users[id].email;
      }
    }
  }

  method DeleteAccountForAdmin(db: Db, id: string, now: int) returns (r: Result<()>)
    modifies db`users
    ensures var d := StaffDeletion(old(db.users), id, now);
      && (d.Ok? ==> db.users == old(db.users)[id := d.value] && r == Ok(()))
      && (d.Err? ==> db.users == old(db.users) && r == Err(d.error))
  {
    var d := StaffDeletion(db.users, id, now);
    if d.Err? {
      return Err(d.error);
    }
    db.users := db.users[id := d.value];
    r := Ok(());
  }
}
