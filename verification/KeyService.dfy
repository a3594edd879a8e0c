/** The API-key engine over a key store: create, rotate, revoke, set, authenticate
    (internal/auth/auth.go, internal/store/store.go). */
module KeyService {
  import opened Prelude
  import opened Tokens

  /** Instants, in nanoseconds. */
  type Time = int

  type Hash = (Bytes, string) -> Bytes

  datatype Limits = Limits(rpm: nat, tpm: nat, dailyTokens: nat, monthlyTokens: nat)

  /** The role, scope and model lists that SetPermissions replaces as a unit. */
  datatype Grants = Grants(roles: seq<string>, adminScopes: seq<string>, allowModels: seq<string>, denyModels: seq<string>)

  datatype Permissions = Permissions(grants: Grants, owner: string, team: string, expiresAt: Option<Time>, createdBy: string)

  datatype APIKey = APIKey(
    id: string, name: string, prefix: string, secretHash: Bytes, salt: Bytes,
    createdAt: Time, lastUsedAt: Option<Time>, usageCount: nat, revokedAt: Option<Time>,
    owner: string, team: string, expiresAt: Option<Time>, createdBy: string,
    grants: Grants, limits: Option<Limits>)
  {
    predicate Revoked() { revokedAt.Some? }

    predicate Expired(now: Time) { expiresAt.Some? && now > expiresAt.value }
  }

  type Keys = map<string, APIKey>

  type IdEntropy = b: Bytes | |b| == 8 witness [0, 0, 0, 0, 0, 0, 0, 0]
  type SecretEntropy = b: Bytes | |b| == 32 witness seq(32, _ => 0 as Byte)

  /** What one successful read of the entropy source yields. */
  datatype Mint = Mint(id: IdEntropy, secret: SecretEntropy, salt: SecretEntropy)

  datatype Error = NotFound | StoreFailed | EntropyFailed | Unauthenticated | RotateRevoked

  datatype Outcome =
    | Issued(token: string)         // Create and Rotate: the one-time plaintext token
    | Updated(key: APIKey)          // SetPermissions and SetLimits
    | Done                          // Revoke
    | Authenticated(key: APIKey)
    | Failed(error: Error)

  datatype Op =
    | Create(name: string, perms: Permissions, mint: Option<Mint>)
    | Rotate(id: string, mint: Option<Mint>)
    | Revoke(id: string)
    | SetPermissions(id: string, perms: Permissions)
    | SetLimits(id: string, limits: Option<Limits>)
    | Authenticate(token: string)

  /** What a Put comes to. The file-backed store changes its map first and then writes the file:
      when that fails the caller gets an error, but the map keeps the record. */
  datatype PutResult = Stored | Refused | Unflushed

  /** What the surroundings do during one call: whether the store's Get works, what its Put
      comes to, and the clock's two readings. */
  datatype Env = Env(getOk: bool, put: PutResult, now: Time, stamp: Time)

  // ----- one call, on values -----

  function NewKey(h: Hash, name: string, perms: Permissions, m: Mint, now: Time): APIKey {
    APIKey(Hex(m.id), name, PREFIX, h(m.salt, Hex(m.secret)), m.salt, now, None, 0, None,
           perms.owner, perms.team, perms.expiresAt, perms.createdBy, perms.grants, None)
  }

  /** Get, then edit, then Put: how every operation on an existing key reaches the store. */
  function Save(keys: Keys, key: APIKey, env: Env, out: Outcome): (Keys, Outcome) {
    (if env.put.Refused? then keys else keys[key.id := key], if env.put.Stored? then out else Failed(StoreFailed))
  }

  function Step(h: Hash, keys: Keys, op: Op, env: Env): (Keys, Outcome) {
    match op
    case Create(name, perms, mint) =>
      if mint.None? then (keys, Failed(EntropyFailed))
      else
        var key := NewKey(h, name, perms, mint.value, env.now);
        Save(keys, key, env, Issued(FormatToken(key.id, Hex(mint.value.secret))))
    case Authenticate(token) =>
      (match ParseToken(token)
       case None => (keys, Failed(Unauthenticated))
       case Some(c) =>
         if !env.getOk then (keys, Failed(StoreFailed))
         else if c.id !in keys then (keys, Failed(Unauthenticated))
         else
           var key := keys[c.id];
           if key.secretHash != h(key.salt, c.secret) || key.Revoked() || key.Expired(env.now)
           then (keys, Failed(Unauthenticated))
           else
             var used := key.(usageCount := (key.usageCount + 1) % TWO_64, lastUsedAt := Some(env.stamp));
             Save(keys, used, env, Authenticated(used)))
    case _ =>
      if !env.getOk then (keys, Failed(StoreFailed))
      else if op.id !in keys then (keys, Failed(NotFound))
      else Edit(h, keys, keys[op.id], op, env)
  }

  function Edit(h: Hash, keys: Keys, key: APIKey, op: Op, env: Env): (Keys, Outcome)
    requires !op.Create? && !op.Authenticate?
  {
    match op
    case Revoke(_) =>
      if key.Revoked() then (keys, Done)
      else Save(keys, key.(revokedAt := Some(env.now)), env, Done)
    case SetPermissions(_, perms) =>
      var next := key.(grants := perms.grants);
      Save(keys, next, env, Updated(next))
    case SetLimits(_, limits) =>
      var next := key.(limits := limits);
      Save(keys, next, env, Updated(next))
    case Rotate(id, mint) =>
      if key.Revoked() then (keys, Failed(RotateRevoked))
      else if mint.None? then (keys, Failed(EntropyFailed))
      else
        var secret := Hex(mint.value.secret);
        var next := key.(secretHash := h(mint.value.salt, secret), salt := mint.value.salt);
        Save(keys, next, env, Issued(FormatToken(id, secret)))
  }

  /** The call writes the file: its put works. A key that is revoked already is not put again. */
  predicate Flushes(h: Hash, keys: Keys, op: Op, env: Env) {
    && env.put.Stored? && !Step(h, keys, op, env).1.Failed?
    && !(op.Revoke? && op.id in keys && keys[op.id].Revoked())
  }

  // ----- the service object -----

  class Service {
    const hash: Hash
    var keys: Keys
    var disk: Keys

    /** A new process over what the file holds. */
    constructor (hash: Hash, disk: Keys)
      ensures this.hash == hash && keys == disk && this.disk == disk
    {
      this.hash := hash;
      keys, this.disk := disk, disk;
    }

    method Put(key: APIKey, env: Env) returns (ok: bool)
      modifies this
      ensures ok <==> env.put.Stored?
      ensures keys == if env.put.Refused? then old(keys) else old(keys)[key.id := key]
      ensures disk == if ok then keys else old(disk)
    {
      if env.put.Refused? { return false; }
      keys := keys[key.id := key];
      ok := env.put.Stored?;
      if ok { disk := keys; }
    }

    method Get(id: string, env: Env) returns (r: Result<APIKey, Error>)
      ensures r == if !env.getOk then Err(StoreFailed) else if id in keys then Ok(keys[id]) else Err(NotFound)
    {
      if !env.getOk { return Err(StoreFailed); }
      if id !in keys { return Err(NotFound); }
      return Ok(keys[id]);
    }

    method CreateWithPermissions(name: string, perms: Permissions, mint: Option<Mint>, env: Env) returns (out: Outcome)
      modifies this
      ensures (keys, out) == Step(hash, old(keys), Op.Create(name, perms, mint), env)
      ensures disk == if Flushes(hash, old(keys), Op.Create(name, perms, mint), env) then keys else old(disk)
    {
      if mint.None? { return Failed(EntropyFailed); }
      var secret := Hex(mint.value.secret);
      var key := NewKey(hash, name, perms, mint.value, env.now);
      var ok := Put(key, env);
      if !ok { return Failed(StoreFailed); }
      return Issued(FormatToken(key.id, secret));
    }

    method Revoke(id: string, env: Env) returns (out: Outcome)
      modifies this
      ensures (keys, out) == Step(hash, old(keys), Op.Revoke(id), env)
      ensures disk == if Flushes(hash, old(keys), Op.Revoke(id), env) then keys else old(disk)
    {
      var got := Get(id, env);
      if got.Err? { return Failed(got.error); }
      var key := got.value;
      if key.Revoked() { return Done; }
      var ok := Put(key.(revokedAt := Some(env.now)), env);
      if !ok { return Failed(StoreFailed); }
      return Done;
    }

    method SetPermissions(id: string, perms: Permissions, env: Env) returns (out: Outcome)
      modifies this
      ensures (keys, out) == Step(hash, old(keys), Op.SetPermissions(id, perms), env)
      ensures disk == if Flushes(hash, old(keys), Op.SetPermissions(id, perms), env) then keys else old(disk)
    {
      var got := Get(id, env);
      if got.Err? { return Failed(got.error); }
      var key := got.value;
      key := key.(grants := perms.grants);
      var ok := Put(key, env);
      if !ok { return Failed(StoreFailed); }
      return Updated(key);
    }

    method SetLimits(id: string, limits: Option<Limits>, env: Env) returns (out: Outcome)
      modifies this
      ensures (keys, out) == Step(hash, old(keys), Op.SetLimits(id, limits), env)
      ensures disk == if Flushes(hash, old(keys), Op.SetLimits(id, limits), env) then keys else old(disk)
    {
      var got := Get(id, env);
      if got.Err? { return Failed(got.error); }
      var key := got.value;
      key := key.(limits := limits);
      var ok := Put(key, env);
      if !ok { return Failed(StoreFailed); }
      return Updated(key);
    }

    method Rotate(id: string, mint: Option<Mint>, env: Env) returns (out: Outcome)
      modifies this
      ensures (keys, out) == Step(hash, old(keys), Op.Rotate(id, mint), env)
      ensures disk == if Flushes(hash, old(keys), Op.Rotate(id, mint), env) then keys else old(disk)
    {
      var got := Get(id, env);
      if got.Err? { return Failed(got.error); }
      var key := got.value;
      if key.Revoked() { return Failed(RotateRevoked); }
      if mint.None? { return Failed(EntropyFailed); }
      var secret := Hex(mint.value.secret);
      key := key.(secretHash := hash(mint.value.salt, secret), salt := mint.value.salt);
      var ok := Put(key, env);
      if !ok { return Failed(StoreFailed); }
      return Issued(FormatToken(id, secret));
    }

    method Authenticate(token: string, env: Env) returns (out: Outcome)
      modifies this
      ensures (keys, out) == Step(hash, old(keys), Op.Authenticate(token), env)
      ensures disk == if Flushes(hash, old(keys), Op.Authenticate(token), env) then keys else old(disk)
    {
      var parsed := ParseToken(token);
      if parsed.None? { return Failed(Unauthenticated); }
      var got := Get(parsed.value.id, env);
      if got.Err? {
        return Failed(if got.error.NotFound? then Unauthenticated else got.error);
      }
      var key := got.value;
      if key.secretHash != hash(key.salt, parsed.value.secret) { return Failed(Unauthenticated); }
      if key.Revoked() { return Failed(Unauthenticated); }
      if key.Expired(env.now) { return Failed(Unauthenticated); }
      key := key.(usageCount := (key.usageCount + 1) % TWO_64, lastUsedAt := Some(env.stamp));
      var ok := Put(key, env);
      if !ok { return Failed(StoreFailed); }
      return Authenticated(key);
    }
  }
}
