/** Accounts and the refresh-token whitelist (src/auth/auth.service.ts).

    A refresh token is valid only while the key `whitelist:<sub>:<jti>` holds exactly that
    token, where `sub` and `jti` are the subject and token-id claims (sections 4.1.2 and 4.1.7
    of RFC 7519). Logging in adds one key; refreshing replaces the key of the presented token
    with the key of a new one, so each refresh token is good for one refresh; presenting a
    token that no longer matches its key revokes every token of its subject. Signing and
    verifying tokens are parameters: `verify` gives the claims of a token it accepts. */
module Auth {
  import opened Common
  import opened Schema
  import opened KeyValue
  import opened Staff

  datatype Claims = Claims(sub: string, email: string, jti: string)

  /** The two expiries a token is signed with: 15 minutes and 7 days. */
  datatype Lifetime = AccessLifetime | RefreshLifetime

  datatype Tokens = Tokens(accessToken: string, refreshToken: string)

  /** Seconds a whitelist entry lives: seven days. */
  const RefreshTtl: int := 7 * 24 * 60 * 60

  function GenerateToken(sign: (Claims, Lifetime) -> string, userId: string, email: string, tokenId: string): Tokens {
    Tokens(sign(Claims(userId, email, tokenId), AccessLifetime), sign(Claims(userId, email, tokenId), RefreshLifetime))
  }

  /** Both tokens are signed over the same claims, so a verifier that inverts the signer reads
      back the user, the email and the token id from either; the refresh token's claims name
      the whitelist key the login writes. */
  lemma GeneratedTokensCarryClaims(sign: (Claims, Lifetime) -> string, verify: string -> Option<Claims>,
                                   userId: string, email: string, tokenId: string)
    requires forall c, l :: verify(sign(c, l)) == Some(c)
    ensures var t := GenerateToken(sign, userId, email, tokenId);
      && verify(t.accessToken) == Some(Claims(userId, email, tokenId))
      && verify(t.refreshToken) == Some(Claims(userId, email, tokenId))
      && WhitelistKey(verify(t.refreshToken).value.sub, verify(t.refreshToken).value.jti) == WhitelistKey(userId, tokenId)
  {
  }

  function WhitelistKey(sub: string, jti: string): string {
    "whitelist:" + sub + ":" + jti
  }

  /** The text `whitelist:<userId>:*` matches. */
  function OwnerPrefix(userId: string): string {
    "whitelist:" + userId + ":"
  }

  /** Every key of a subject carries its prefix, and keys of one subject differ exactly when
      their token ids do. */
  lemma {:induction false} KeysOfOneOwner(sub: string, jti: string, other: string)
    ensures HasPrefix(OwnerPrefix(sub), WhitelistKey(sub, jti))
    ensures WhitelistKey(sub, jti) == WhitelistKey(sub, other) <==> jti == other
  {
    assert WhitelistKey(sub, jti) == OwnerPrefix(sub) + jti;
    assert WhitelistKey(sub, other) == OwnerPrefix(sub) + other;
    if WhitelistKey(sub, jti) == WhitelistKey(sub, other) {
      var n := |OwnerPrefix(sub)|;
      assert jti == (OwnerPrefix(sub) + jti)[n..];
      assert other == (OwnerPrefix(sub) + other)[n..];
    }
  }

  /** With subjects that hold no ':' (uuids), the prefix of one subject matches no key of
      another, so revoking one user's tokens leaves every other user's alone. */
  lemma {:induction false} OwnersDoNotShareKeys(sub: string, other: string, jti: string)
    requires ':' !in sub && ':' !in other && sub != other
    ensures !HasPrefix(OwnerPrefix(sub), WhitelistKey(other, jti))
  {
    var key := WhitelistKey(other, jti);
    var p := OwnerPrefix(sub);
    var h := |"whitelist:"|;
    assert key == "whitelist:" + other + ":" + jti;
    assert p == "whitelist:" + sub + ":";
    if |p| <= |key| {
      var n := if |sub| < |other| then |sub| else if |sub| > |other| then |other|
               else var i :| 0 <= i < |sub| && sub[i] != other[i]; i;
      assert key[..|p|][h + n] == key[h + n] && key[h + n] != p[h + n];
    }
  }

  /** The registration payload of a client account. */
  datatype NewUser = NewUser(email: string, password: string, fullName: Option<string>)

  /** The user row `registerUserForClient` writes: the password is stored only as its hash.
      Soft-deleted accounts keep their email, so they also block it. */
  function UserRegistration(users: map<string, User>, payload: NewUser, hash: string -> string, defaults: UserDefaults)
    : (r: Result<User>)
    ensures r.Err? <==> EmailTaken(users, payload.email)
    ensures r.Err? ==> r.error == Conflict("User with this email already exists")
    ensures r.Ok? ==> && r.value.email == payload.email && r.value.fullName == payload.fullName
                      && r.value.passwordHash == Some(hash(payload.password))
                      && r.value.status == defaults.status && r.value.isVerified == defaults.isVerified
                      && r.value.phone.None? && r.value.avatarUrl.None? && r.value.deletedAt.None?
  {
    if EmailTaken(users, payload.email) then Err(Conflict("User with this email already exists"))
    else Ok(User(payload.email, payload.fullName, None, None, Some(hash(payload.password)), defaults.status, defaults.isVerified, None))
  }

  /** Client registration keeps emails unique. */
  lemma RegistrationKeepsEmailsUnique(users: map<string, User>, payload: NewUser, hash: string -> string,
                                      defaults: UserDefaults, newId: string)
    requires UniqueEmails(users) && newId !in users
    requires UserRegistration(users, payload, hash, defaults).Ok?
    ensures UniqueEmails(users[newId := UserRegistration(users, payload, hash, defaults).value])
  {
    var after := users[newId := UserRegistration(users, payload, hash, defaults).value];
    forall a, b | a in after && b in after && a != b
      ensures after[a].email != after[b].email
    {
      if a == newId {
        assert users[b].email != payload.email;
      } else if b == newId {
        assert users[a].email != payload.email;
      }
    }
  }

  method RegisterUserForClient(db: Db, payload: NewUser, hash: string -> string, defaults: UserDefaults, newId: string)
    returns (r: Result<User>)
    requires newId !in db.users
    modifies db`users
    ensures r == UserRegistration(old(db.users), payload, hash, defaults)
    ensures r.Ok? ==> db.users == old(db.users)[newId := r.value]
    ensures r.Err? ==> db.users == old(db.users)
  {
    r := UserRegistration(db.users, payload, hash, defaults);
    if r.Ok? {
      db.users := db.users[newId := r.value];
    }
  }

  /** `validateUser`: the account with the email, without its password hash, when the account
      has a hash and `compare` accepts the password against it. */
  method ValidateUser(db: Db, email: string, password: string, compare: (string, string) -> bool)
    returns (r: Option<(string, User)>)
    requires UniqueEmails(db.users)
    ensures r.Some? <==> exists id :: id in db.users && db.users[id].email == email
                          && Truthy(db.users[id].passwordHash) && compare(password, db.users[id].passwordHash.value)
    ensures r.Some? ==> && r.value.0 in db.users && db.users[r.value.0].email == email
                        && r.value.1 == db.users[r.value.0].(passwordHash := None)
  {
    if id :| id in db.users && db.users[id].email == email {
      var user := db.users[id];
      if Truthy(user.passwordHash) && compare(password, user.passwordHash.value) {
        return Some((id, user.(passwordHash := None)));
      }
    }
    return None;
  }

  /** `login`: one new whitelist entry, for the fresh token id, holding the refresh token. */
  method Login(redis: Redis, userId: string, email: string, tokenId: string, sign: (Claims, Lifetime) -> string, now: int)
    returns (r: Tokens)
    modifies redis
    ensures r == GenerateToken(sign, userId, email, tokenId)
    ensures redis.entries == old(redis.entries)[WhitelistKey(userId, tokenId) := Entry(r.refreshToken, now + RefreshTtl)]
  {
    r := GenerateToken(sign, userId, email, tokenId);
    redis.Set(WhitelistKey(userId, tokenId), r.refreshToken, RefreshTtl, now);
  }

  /** The answer of `logout` and the store after it. */
  function LogoutOutcome(entries: map<string, Entry>, refreshToken: string, userId: string, verify: string -> Option<Claims>)
    : (r: (Result<()>, map<string, Entry>))
    ensures verify(refreshToken).None? ==> r == (Err(BadRequest("Invalid refresh token")), entries)
    ensures verify(refreshToken).Some? && verify(refreshToken).value.sub != userId ==>
      r == (Err(BadRequest("Invalid token for user")), entries)
    ensures r.0.Ok? <==> verify(refreshToken).Some? && verify(refreshToken).value.sub == userId
    ensures r.0.Ok? ==> r.1 == entries - {WhitelistKey(userId, verify(refreshToken).value.jti)}
  {
    match verify(refreshToken)
    case None => (Err(BadRequest("Invalid refresh token")), entries)
    case Some(c) =>
      if userId != c.sub then (Err(BadRequest("Invalid token for user")), entries)
      else (Ok(()), entries - {WhitelistKey(c.sub, c.jti)})
  }

  /** Logging out ends the presented token and no other: every other token of the same user
      that could refresh before still can. */
  lemma LogoutEndsOneToken(entries: map<string, Entry>, refreshToken: string, userId: string,
                           verify: string -> Option<Claims>, jti: string, now: int)
    requires LogoutOutcome(entries, refreshToken, userId, verify).0.Ok?
    ensures Lookup(LogoutOutcome(entries, refreshToken, userId, verify).1, WhitelistKey(userId, verify(refreshToken).value.jti), now).None?
    ensures jti != verify(refreshToken).value.jti ==>
      Lookup(LogoutOutcome(entries, refreshToken, userId, verify).1, WhitelistKey(userId, jti), now) == Lookup(entries, WhitelistKey(userId, jti), now)
  {
    KeysOfOneOwner(userId, jti, verify(refreshToken).value.jti);
  }

  method Logout(redis: Redis, refreshToken: string, userId: string, verify: string -> Option<Claims>)
    returns (r: Result<()>)
    modifies redis
    ensures (r, redis.entries) == LogoutOutcome(old(redis.entries), refreshToken, userId, verify)
  {
    var decoded := verify(refreshToken);
    if decoded.None? {
      return Err(BadRequest("Invalid refresh token"));
    }
    if userId != decoded.value.sub {
      return Err(BadRequest("Invalid token for user"));
    }
    redis.Del(WhitelistKey(decoded.value.sub, decoded.value.jti));
    r := Ok(());
  }

  /** The store without any key of the user. */
  function Revoked(entries: map<string, Entry>, userId: string): (r: map<string, Entry>)
    ensures forall k :: k in r <==> k in entries && !HasPrefix(OwnerPrefix(userId), k)
    ensures forall k :: k in r ==> r[k] == entries[k]
  {
    map k | k in entries && !HasPrefix(OwnerPrefix(userId), k) :: entries[k]
  }

  /** `revokeAllTokens`: unlinks, one by one, every key the pattern `whitelist:<userId>:*`
      matches. */
  method RevokeAllTokens(redis: Redis, userId: string)
    modifies redis
    ensures redis.entries == Revoked(old(redis.entries), userId)
  {
    var pending := set k | k in redis.entries && HasPrefix(OwnerPrefix(userId), k);
    while pending != {}
      invariant forall k :: k in redis.entries <==> k in old(redis.entries) && (k in pending || !HasPrefix(OwnerPrefix(userId), k))
      invariant forall k :: k in redis.entries ==> redis.entries[k] == old(redis.entries)[k]
      invariant forall k :: k in pending ==> HasPrefix(OwnerPrefix(userId), k)
      decreases |pending|
    {
      var k :| k in pending;
      redis.Del(k);
      pending := pending - {k};
    }
    assert redis.entries == Revoked(old(redis.entries), userId);
  }

  /** The answer of `refreshTokens` and the store after it; `newJti` is the fresh token id. */
  function RefreshOutcome(entries: map<string, Entry>, refreshToken: string, verify: string -> Option<Claims>,
                          sign: (Claims, Lifetime) -> string, newJti: string, now: int): (r: (Result<Tokens>, map<string, Entry>))
    ensures verify(refreshToken).None? ==> r == (Err(BadRequest("Invalid refresh token")), entries)
    ensures verify(refreshToken).Some? ==>
      var c := verify(refreshToken).value;
      var stored := Lookup(entries, WhitelistKey(c.sub, c.jti), now);
      && (!Truthy(stored) ==> r == (Err(Forbidden("Refresh token expired or invalid")), entries))
      && (Truthy(stored) && stored.value != refreshToken ==> r == (Err(Forbidden("Access Denied")), Revoked(entries, c.sub)))
      && (r.0.Ok? <==> stored == Some(refreshToken) && refreshToken != "")
      && (r.0.Ok? ==> && r.0.value == GenerateToken(sign, c.sub, c.email, newJti)
                      && r.1 == (entries - {WhitelistKey(c.sub, c.jti)})[WhitelistKey(c.sub, newJti) := Entry(r.0.value.refreshToken, now + RefreshTtl)])
  {
    match verify(refreshToken)
    case None => (Err(BadRequest("Invalid refresh token")), entries)
    case Some(c) =>
      var key := WhitelistKey(c.sub, c.jti);
      var stored := Lookup(entries, key, now);
      if !Truthy(stored) then (Err(Forbidden("Refresh token expired or invalid")), entries)
      else if refreshToken != stored.value then (Err(Forbidden("Access Denied")), Revoked(entries, c.sub))
      else
        var tokens := GenerateToken(sign, c.sub, c.email, newJti);
        (Ok(tokens), (entries - {key})[WhitelistKey(c.sub, newJti) := Entry(tokens.refreshToken, now + RefreshTtl)])
  }

  /** A token from `login` refreshes while its entry lives, provided `verify` accepts what
      `sign` produced and the token is not empty. */
  lemma LoginThenRefresh(entries: map<string, Entry>, userId: string, email: string, tokenId: string,
                         sign: (Claims, Lifetime) -> string, verify: string -> Option<Claims>, newJti: string, now: int, later: int)
    requires var t := GenerateToken(sign, userId, email, tokenId).refreshToken;
      verify(t) == Some(Claims(userId, email, tokenId)) && t != ""
    requires now <= later < now + RefreshTtl
    ensures var t := GenerateToken(sign, userId, email, tokenId).refreshToken;
      var after := entries[WhitelistKey(userId, tokenId) := Entry(t, now + RefreshTtl)];
      RefreshOutcome(after, t, verify, sign, newJti, later).0 == Ok(GenerateToken(sign, userId, email, newJti))
  {
  }

  /** A refresh token is good for one refresh: presenting it again, with the new token id
      fresh, is refused and changes nothing. */
  lemma {:induction false} RefreshTokenIsSingleUse(entries: map<string, Entry>, refreshToken: string, verify: string -> Option<Claims>,
                                                   sign: (Claims, Lifetime) -> string, newJti: string, now: int,
                                                   nextJti: string, later: int)
    requires RefreshOutcome(entries, refreshToken, verify, sign, newJti, now).0.Ok?
    requires newJti != verify(refreshToken).value.jti
    ensures var after := RefreshOutcome(entries, refreshToken, verify, sign, newJti, now).1;
      RefreshOutcome(after, refreshToken, verify, sign, nextJti, later) == (Err(Forbidden("Refresh token expired or invalid")), after)
  {
    var c := verify(refreshToken).value;
    KeysOfOneOwner(c.sub, c.jti, newJti);
  }

  /** Presenting a token whose entry holds another token ends every session of its subject
      and touches no key outside the subject's prefix. */
  lemma ReuseRevokesEverySession(entries: map<string, Entry>, refreshToken: string, verify: string -> Option<Claims>,
                                 sign: (Claims, Lifetime) -> string, newJti: string, now: int, jti: string, later: int)
    requires verify(refreshToken).Some?
    requires var c := verify(refreshToken).value;
      var stored := Lookup(entries, WhitelistKey(c.sub, c.jti), now);
      Truthy(stored) && stored.value != refreshToken
    ensures var after := RefreshOutcome(entries, refreshToken, verify, sign, newJti, now).1;
      && Lookup(after, WhitelistKey(verify(refreshToken).value.sub, jti), later).None?
      && forall k :: k in entries && !HasPrefix(OwnerPrefix(verify(refreshToken).value.sub), k) ==> k in after && after[k] == entries[k]
  {
    KeysOfOneOwner(verify(refreshToken).value.sub, jti, jti);
  }

  method RefreshTokens(redis: Redis, refreshToken: string, verify: string -> Option<Claims>,
                       sign: (Claims, Lifetime) -> string, newJti: string, now: int) returns (r: Result<Tokens>)
    modifies redis
    ensures (r, redis.entries) == RefreshOutcome(old(redis.entries), refreshToken, verify, sign, newJti, now)
  {
    var decoded := verify(refreshToken);
    if decoded.None? {
      return Err(BadRequest("Invalid refresh token"));
    }
    var c := decoded.value;
    var key := WhitelistKey(c.sub, c.jti);
    var stored := Lookup(redis.entries, key, now);
    if !Truthy(stored) {
      return Err(Forbidden("Refresh token expired or invalid"));
    }
    if refreshToken != stored.value {
      RevokeAllTokens(redis, c.sub);
      return Err(Forbidden("Access Denied"));
    }
    var tokens := GenerateToken(sign, c.sub, c.email, newJti);
    redis.Del(key);
    redis.Set(WhitelistKey(c.sub, newJti), tokens.refreshToken, RefreshTtl, now);
    r := Ok(tokens);
  }
}
