/** Account self-service (src/user/user.service.ts): the profile, password changes and email
    verification. A verification token lives under `verify-account:<userId>` for 15 minutes;
    a new one may be requested only once fewer than 13 minutes are left on the old one, and a
    token is consumed by its first successful use. The random token and the password hash and
    comparison are parameters; sending the email is not modelled. */
module Accounts {
  import opened Common
  import opened Schema
  import opened KeyValue
  import opened Staff

  /** `getUserProfile`: any user row, soft-deleted ones included. */
  function UserProfile(users: map<string, User>, userId: string): (r: Result<User>)
    ensures r.Ok? <==> userId in users
    ensures r.Ok? ==> r.value == users[userId]
    ensures r.Err? ==> r.error == NotFound("User doesn't exist")
  {
    if userId in users then Ok(users[userId]) else Err(NotFound("User doesn't exist"))
  }

  /** The fields of a profile update; `None` is a field left out. */
  datatype ProfilePatch = ProfilePatch(email: Option<string>, fullName: Option<string>, phone: Option<string>, avatarUrl: Option<string>)

  /** The row after `updateProfileInfo`. The service does not check a new email against other
      accounts, so a clash is a database error it does not catch. */
  function ProfileUpdate(users: map<string, User>, userId: string, patch: ProfilePatch): (r: Result<User>)
    ensures userId !in users ==> r == Err(NotFound("User doesn't exist"))
    ensures r.Ok? <==> userId in users && (patch.email.Some? ==> forall u :: u in users && u != userId ==> users[u].email != patch.email.value)
    ensures r.Ok? ==> && r.value.email == (if patch.email.Some? then patch.email.value else users[userId].email)
                      && r.value.fullName == (if patch.fullName.Some? then patch.fullName else users[userId].fullName)
                      && r.value.phone == (if patch.phone.Some? then patch.phone else users[userId].phone)
                      && r.value.avatarUrl == (if patch.avatarUrl.Some? then patch.avatarUrl else users[userId].avatarUrl)
                      && r.value.(email := "", fullName := None, phone := None, avatarUrl := None)
                         == users[userId].(email := "", fullName := None, phone := None, avatarUrl := None)
  {
    if userId !in users then Err(NotFound("User doesn't exist"))
    else if patch.email.Some? && exists u :: u in users && u != userId && users[u].email == patch.email.value then
      Err(Internal("Unique constraint failed on the fields: (`email`)"))
    else
      var u := users[userId];
      Ok(u.(email := if patch.email.Some? then patch.email.value else u.email,
            fullName := if patch.fullName.Some? then patch.fullName else u.fullName,
            phone := if patch.phone.Some? then patch.phone else u.phone,
            avatarUrl := if patch.avatarUrl.Some? then patch.avatarUrl else u.avatarUrl))
  }

  /** A profile update keeps emails unique. */
  lemma ProfileUpdateKeepsEmailsUnique(users: map<string, User>, userId: string, patch: ProfilePatch)
    requires UniqueEmails(users)
    requires ProfileUpdate(users, userId, patch).Ok?
    ensures UniqueEmails(users[userId := ProfileUpdate(users, userId, patch).value])
  {
    var after := users[userId := ProfileUpdate(users, userId, patch).value];
    forall a, b | a in after && b in after && a != b
      ensures after[a].email != after[b].email
    {
      if a == userId {
        assert after[b] == users[b];
      } else if b == userId {
        assert after[a] == users[a];
      }
    }
  }

  method UpdateProfileInfo(db: Db, userId: string, patch: ProfilePatch) returns (r: Result<User>)
    modifies db`users
    ensures r == ProfileUpdate(old(db.users), userId, patch)
    ensures r.Ok? ==> db.users == old(db.users)[userId := r.value]
    ensures r.Err? ==> db.users == old(db.users)
  {
    r := ProfileUpdate(db.users, userId, patch);
    if r.Ok? {
      db.users := db.users[userId := r.value];
    }
  }

  /** The row after `changePassword`, or why it refuses; the first check needs no lookup. */
  function PasswordChange(users: map<string, User>, userId: string, oldPassword: string, newPassword: string,
                          compare: (string, string) -> bool, hash: string -> string): (r: Result<User>)
    ensures newPassword == oldPassword ==> r == Err(BadRequest("New password must be different from old password"))
    ensures newPassword != oldPassword && !(userId in users && Truthy(users[userId].passwordHash)) ==>
      r == Err(NotFound("User not found or invalid account state"))
    ensures r.Ok? <==> && newPassword != oldPassword && userId in users && Truthy(users[userId].passwordHash)
                       && compare(oldPassword, users[userId].passwordHash.value)
    ensures r.Ok? ==> r.value == users[userId].(passwordHash := Some(hash(newPassword)))
    ensures && newPassword != oldPassword && userId in users && Truthy(users[userId].passwordHash)
            && !compare(oldPassword, users[userId].passwordHash.value) ==>
      r == Err(BadRequest("Old password doesn't match"))
  {
    if newPassword == oldPassword then Err(BadRequest("New password must be different from old password"))
    else if !(userId in users && Truthy(users[userId].passwordHash)) then Err(NotFound("User not found or invalid account state"))
    else if !compare(oldPassword, users[userId].passwordHash.value) then Err(BadRequest("Old password doesn't match"))
    else Ok(users[userId].(passwordHash := Some(hash(newPassword))))
  }

  /** With a comparison that accepts exactly the password a hash was made from, a change
      swaps the credentials: the new password is accepted and the old one no longer is. */
  lemma PasswordChangeSwapsCredentials(users: map<string, User>, userId: string, oldPassword: string, newPassword: string,
                                       compare: (string, string) -> bool, hash: string -> string)
    requires forall p, q :: compare(p, hash(q)) <==> p == q
    requires hash(newPassword) != ""
    requires PasswordChange(users, userId, oldPassword, newPassword, compare, hash).Ok?
    ensures var after := users[userId := PasswordChange(users, userId, oldPassword, newPassword, compare, hash).value];
      && PasswordChange(after, userId, newPassword, oldPassword, compare, hash).Ok?
      && PasswordChange(after, userId, oldPassword, newPassword, compare, hash) == Err(BadRequest("Old password doesn't match"))
  {
  }

  method ChangePassword(db: Db, userId: string, oldPassword: string, newPassword: string,
                        compare: (string, string) -> bool, hash: string -> string) returns (r: Result<User>)
    modifies db`users
    ensures r == PasswordChange(old(db.users), userId, oldPassword, newPassword, compare, hash)
    ensures r.Ok? ==> db.users == old(db.users)[userId := r.value]
    ensures r.Err? ==> db.users == old(db.users)
  {
    r := PasswordChange(db.users, userId, oldPassword, newPassword, compare, hash);
    if r.Ok? {
      db.users := db.users[userId := r.value];
    }
  }

  function VerifyKey(userId: string): string {
    "verify-account:" + userId
  }

  /** Seconds a verification token lives: 15 minutes. */
  const VerifyTtl: int := 15 * 60

  /** A new token may be requested once at most this many seconds are left: 13 minutes. */
  const ResendThreshold: int := 13 * 60

  /** The answer of `requestVerificationEmail` and the store after it. A user id with no row
      is not refused. */
  function VerificationRequest(users: map<string, User>, entries: map<string, Entry>, userId: string, token: string, now: int)
    : (r: (Result<()>, map<string, Entry>))
    ensures userId in users && users[userId].isVerified ==> r == (Err(BadRequest("User is already verified")), entries)
    ensures r.0.Ok? <==> !(userId in users && users[userId].isVerified) && TimeToLive(entries, VerifyKey(userId), now) <= ResendThreshold
    ensures r.0.Ok? ==> r.1 == entries[VerifyKey(userId) := Entry(token, now + VerifyTtl)]
    ensures r.0.Err? ==> r.1 == entries
  {
    if userId in users && users[userId].isVerified then (Err(BadRequest("User is already verified")), entries)
    else if TimeToLive(entries, VerifyKey(userId), now) > ResendThreshold then
      (Err(BadRequest("You can't request another verification email yet. Please try again later.")), entries)
    else (Ok(()), entries[VerifyKey(userId) := Entry(token, now + VerifyTtl)])
  }

  /** Requests are throttled: after a granted request, another one for an unverified user is
      refused for exactly the first two minutes. */
  lemma RequestsAreThrottled(users: map<string, User>, entries: map<string, Entry>, userId: string, token: string, now: int,
                             next: string, later: int)
    requires VerificationRequest(users, entries, userId, token, now).0.Ok?
    requires now <= later
    ensures VerificationRequest(users, VerificationRequest(users, entries, userId, token, now).1, userId, next, later).0.Err?
      <==> later < now + (VerifyTtl - ResendThreshold)
  {
  }

  method RequestVerificationEmail(db: Db, redis: Redis, userId: string, token: string, now: int) returns (r: Result<()>)
    modifies redis
    ensures (r, redis.entries) == VerificationRequest(db.users, old(redis.entries), userId, token, now)
  {
    if userId in db.users && db.users[userId].isVerified {
      return Err(BadRequest("User is already verified"));
    }
    var key := VerifyKey(userId);
    if TimeToLive(redis.entries, key, now) > ResendThreshold {
      return Err(BadRequest("You can't request another verification email yet. Please try again later."));
    }
    redis.Set(key, token, VerifyTtl, now);
    r := Ok(());
  }

  /** The answer of `verificationToken`, the store and the user table after it. The key is
      deleted before the user row is updated, so for a user id with no row the token is
      consumed although the update fails. */
  function TokenVerification(users: map<string, User>, entries: map<string, Entry>, userId: string, token: string, now: int)
    : (r: (Result<()>, map<string, Entry>, map<string, User>))
    ensures Lookup(entries, VerifyKey(userId), now) != Some(token) || token == "" ==>
      r == (Err(BadRequest("Invalid or expired verification token")), entries, users)
    ensures Lookup(entries, VerifyKey(userId), now) == Some(token) && token != "" ==> r.1 == entries - {VerifyKey(userId)}
    ensures r.0.Ok? <==> Lookup(entries, VerifyKey(userId), now) == Some(token) && token != "" && userId in users
    ensures r.0.Ok? ==> r.2 == users[userId := users[userId].(isVerified := true)]
    ensures r.0.Err? ==> r.2 == users
  {
    var saved := Lookup(entries, VerifyKey(userId), now);
    if !Truthy(saved) || saved.value != token then (Err(BadRequest("Invalid or expired verification token")), entries, users)
    else if userId !in users then (Err(Internal("Record to update not found.")), entries - {VerifyKey(userId)}, users)
    else (Ok(()), entries - {VerifyKey(userId)}, users[userId := users[userId].(isVerified := true)])
  }

  /** A token from a granted request verifies the account while it lives, and only once. */
  lemma {:induction false} TokenVerifiesOnce(users: map<string, User>, entries: map<string, Entry>, userId: string, token: string,
                                             now: int, later: int, last: int)
    requires token != "" && userId in users
    requires VerificationRequest(users, entries, userId, token, now).0.Ok?
    requires now <= later < now + VerifyTtl
    ensures var requested := VerificationRequest(users, entries, userId, token, now).1;
      var (first, store, table) := TokenVerification(users, requested, userId, token, later);
      && first.Ok? && table[userId].isVerified
      && TokenVerification(table, store, userId, token, last).0 == Err(BadRequest("Invalid or expired verification token"))
  {
    var requested := VerificationRequest(users, entries, userId, token, now).1;
    assert Lookup(requested, VerifyKey(userId), later) == Some(token);
    var (first, store, table) := TokenVerification(users, requested, userId, token, later);
    assert VerifyKey(userId) !in store;
  }

  method VerificationToken(db: Db, redis: Redis, userId: string, token: string, now: int) returns (r: Result<()>)
    modifies db`users, redis
    ensures (r, redis.entries, db.users) == TokenVerification(old(db.users), old(redis.entries), userId, token, now)
  {
    var key := VerifyKey(userId);
    var saved := Lookup(redis.entries, key, now);
    if !Truthy(saved) || saved.value != token {
      return Err(BadRequest("Invalid or expired verification token"));
    }
    redis.Del(key);
    if userId !in db.users {
      return Err(Internal("Record to update not found."));
    }
    db.users := db.users[userId := db.users[userId].(isVerified := true)];
    r := Ok(());
  }
}
