/** What a log of key-service calls says about each key id, and that one more call keeps the store
    in step with it (internal/auth/auth.go). */
module KeyLog {
  import opened Prelude
  import opened Arithmetic
  import opened Text
  import opened Tokens
  import opened KeyService

  datatype Call = Call(op: Op, env: Env)

  datatype Event = Event(op: Op, env: Env, out: Outcome)

  // ----- what the log says about one key id -----

  /** The call changed the store: it succeeded, or it failed only in writing the file. */
  predicate Effective(e: Event) {
    || !e.out.Failed?
    || (e.out == Failed(StoreFailed) && e.env.put.Unflushed? && (e.op.Create? || e.env.getOk))
  }

  predicate Creates(e: Event, id: string) {
    e.op.Create? && e.op.mint.Some? && Hex(e.op.mint.value.id) == id && Effective(e)
  }

  predicate Rotates(e: Event, id: string) { e.op.Rotate? && e.op.mint.Some? && e.op.id == id && Effective(e) }

  predicate Uses(e: Event, id: string) { e.op.Authenticate? && IdOf(e.op.token) == Some(id) && Effective(e) }

  /** A minted token and the salt its secret is hashed with. */
  datatype Minted = Minted(token: string, salt: Bytes)

  /** What an event that mints a token for id mints. */
  function MintedBy(e: Event, id: string): Minted
    requires Creates(e, id) || Rotates(e, id)
  {
    Minted(FormatToken(id, Hex(e.op.mint.value.secret)), e.op.mint.value.salt)
  }

  /** What was most recently minted for id. */
  function LastMint(log: seq<Event>, id: string): Option<Minted> {
    if log == [] then None
    else
      var e := log[|log| - 1];
      if Creates(e, id) || Rotates(e, id) then Some(MintedBy(e, id)) else LastMint(log[..|log| - 1], id)
  }

  predicate IsLastToken(log: seq<Event>, id: string, token: string) {
    LastMint(log, id).Some? && LastMint(log, id).value.token == token
  }

  function Creation(log: seq<Event>, id: string): Option<Event> {
    if log == [] then None
    else
      var e := log[|log| - 1];
      if Creates(e, id) then Some(e) else Creation(log[..|log| - 1], id)
  }

  predicate Revokes(e: Event, id: string) { e.op == Revoke(id) && Effective(e) }

  predicate Regrants(e: Event, id: string) { e.op.SetPermissions? && e.op.id == id && Effective(e) }

  predicate Relimits(e: Event, id: string) { e.op.SetLimits? && e.op.id == id && Effective(e) }

  /** When id was first revoked; revoking it again does not move the date. */
  function RevokedIn(log: seq<Event>, id: string): Option<Time> {
    if log == [] then None
    else
      var e, earlier := log[|log| - 1], RevokedIn(log[..|log| - 1], id);
      if earlier.None? && Revokes(e, id) then Some(e.env.now) else earlier
  }

  function UseCount(log: seq<Event>, id: string): nat {
    if log == [] then 0
    else UseCount(log[..|log| - 1], id) + (if Uses(log[|log| - 1], id) then 1 else 0)
  }

  function LastUse(log: seq<Event>, id: string): Option<Time> {
    if log == [] then None
    else
      var e := log[|log| - 1];
      if Uses(e, id) then Some(e.env.stamp) else LastUse(log[..|log| - 1], id)
  }

  /** The grants named by the last Create or SetPermissions that took effect on id. */
  function LastGrants(log: seq<Event>, id: string): Option<Grants> {
    if log == [] then None
    else
      var e := log[|log| - 1];
      if Creates(e, id) then Some(e.op.perms.grants)
      else if Regrants(e, id) then Some(e.op.perms.grants)
      else LastGrants(log[..|log| - 1], id)
  }

  function LastLimits(log: seq<Event>, id: string): Option<Limits> {
    if log == [] then None
    else
      var e := log[|log| - 1];
      if Creates(e, id) then None
      else if Relimits(e, id) then e.op.limits
      else LastLimits(log[..|log| - 1], id)
  }

  predicate ExpiredIn(log: seq<Event>, id: string, now: Time) {
    var c := Creation(log, id);
    c.Some? && c.value.op.Create? && c.value.op.perms.expiresAt.Some? && now > c.value.op.perms.expiresAt.value
  }

  // ----- the store is a function of the log -----

  /** Everything the log says about one id. */
  datatype View = View(
    mint: Option<Minted>, creation: Option<Event>, revoked: Option<Time>, uses: nat, lastUse: Option<Time>,
    grants: Option<Grants>, limits: Option<Limits>)

  function ViewOf(log: seq<Event>, id: string): View {
    View(LastMint(log, id), Creation(log, id), RevokedIn(log, id), UseCount(log, id), LastUse(log, id),
         LastGrants(log, id), LastLimits(log, id))
  }

  /** How one more event changes that. */
  function Advance(v: View, e: Event, id: string): View {
    View(if Creates(e, id) || Rotates(e, id) then Some(MintedBy(e, id)) else v.mint,
         if Creates(e, id) then Some(e) else v.creation,
         if v.revoked.None? && Revokes(e, id) then Some(e.env.now) else v.revoked,
         v.uses + (if Uses(e, id) then 1 else 0),
         if Uses(e, id) then Some(e.env.stamp) else v.lastUse,
         if Creates(e, id) then Some(e.op.perms.grants)
         else if Regrants(e, id) then Some(e.op.perms.grants)
         else v.grants,
         if Creates(e, id) then None
         else if Relimits(e, id) then e.op.limits
         else v.limits)
  }

  lemma ViewAdvances(log: seq<Event>, e: Event, id: string)
    ensures ViewOf(log + [e], id) == Advance(ViewOf(log, id), e, id)
  {
    var all := log + [e];
    assert all[..|log|] == log && all[|log|] == e;
  }

  predicate SecretMatches(h: Hash, key: APIKey, m: Minted) {
    var c := ParseToken(m.token);
    c.Some? && c.value.id == key.id && key.salt == m.salt && key.secretHash == h(m.salt, c.value.secret)
  }

  /** What Create sets and nothing else ever changes. */
  predicate BirthMatches(key: APIKey, creation: Option<Event>) {
    && creation.Some? && creation.value.op.Create?
    && var perms := creation.value.op.perms;
       && key.name == creation.value.op.name
       && key.createdAt == creation.value.env.now
       && key.owner == perms.owner
       && key.team == perms.team
       && key.expiresAt == perms.expiresAt
       && key.createdBy == perms.createdBy
  }

  /** Every field of a stored key, from the events that named it. */
  predicate RecordMatches(h: Hash, key: APIKey, v: View, id: string) {
    && key.id == id && id != "" && Free(id, '_')
    && key.prefix == PREFIX
    && v.mint.Some? && SecretMatches(h, key, v.mint.value)
    && BirthMatches(key, v.creation)
    && key.revokedAt == v.revoked
    && key.usageCount == v.uses % TWO_64
    && key.lastUsedAt == v.lastUse
    && v.grants == Some(key.grants)
    && key.limits == v.limits
  }

  /** A stored key matches its events; an id that is not stored has none. */
  predicate Fits(h: Hash, keys: Keys, id: string, v: View) {
    if id in keys then RecordMatches(h, keys[id], v, id)
    else v == View(None, None, None, 0, None, v.grants, v.limits)
  }

  /** Any record found in the store is filed under its own well-formed id. */
  predicate GoodIds(keys: Keys) {
    forall id :: id in keys ==> id != "" && Free(id, '_') && keys[id].id == id
  }

  lemma MintedToken(id: string, secret: string)
    requires id != "" && Free(id, '_') && secret != ""
    ensures ParseToken(FormatToken(id, secret)) == Some(Credential(id, secret))
  {
    ParseInvertsFormat(FormatToken(id, secret), id, secret);
  }

  lemma CreateFits(h: Hash, keys: Keys, c: Call, id: string, v: View)
    requires Fits(h, keys, id, v) && GoodIds(keys)
    requires c.op.Create?
    requires c.op.mint.Some? ==> Hex(c.op.mint.value.id) !in keys
    ensures var (keys', out) := Step(h, keys, c.op, c.env);
            Fits(h, keys', id, Advance(v, Event(c.op, c.env, out), id))
  {
    var (keys', out) := Step(h, keys, c.op, c.env);
    var e := Event(c.op, c.env, out);
    if Creates(e, id) {
      RecordCreated(h, v, id, e);
    } else {
      assert Advance(v, e, id) == v;
    }
  }

  lemma RecordCreated(h: Hash, v: View, id: string, e: Event)
    requires v == View(None, None, None, 0, None, v.grants, v.limits)
    requires Creates(e, id)
    ensures RecordMatches(h, NewKey(h, e.op.name, e.op.perms, e.op.mint.value, e.env.now), Advance(v, e, id), id)
  {
    MintedToken(id, Hex(e.op.mint.value.secret));
  }

  lemma RotateFits(h: Hash, keys: Keys, c: Call, id: string, v: View)
    requires Fits(h, keys, id, v) && GoodIds(keys)
    requires c.op.Rotate?
    ensures var (keys', out) := Step(h, keys, c.op, c.env);
            Fits(h, keys', id, Advance(v, Event(c.op, c.env, out), id))
  {
    var (keys', out) := Step(h, keys, c.op, c.env);
    var e := Event(c.op, c.env, out);
    if Rotates(e, id) {
      RecordRotated(h, keys[id], v, id, e);
    } else {
      assert Advance(v, e, id) == v;
    }
  }

  function Rotated(h: Hash, key: APIKey, m: Mint): APIKey {
    key.(secretHash := h(m.salt, Hex(m.secret)), salt := m.salt)
  }

  lemma RecordRotated(h: Hash, key: APIKey, v: View, id: string, e: Event)
    requires RecordMatches(h, key, v, id)
    requires Rotates(e, id)
    ensures RecordMatches(h, Rotated(h, key, e.op.mint.value), Advance(v, e, id), id)
  {
    MintedToken(id, Hex(e.op.mint.value.secret));
  }

  lemma AuthenticateFits(h: Hash, keys: Keys, c: Call, id: string, v: View)
    requires Fits(h, keys, id, v) && GoodIds(keys)
    requires c.op.Authenticate?
    ensures var (keys', out) := Step(h, keys, c.op, c.env);
            Fits(h, keys', id, Advance(v, Event(c.op, c.env, out), id))
  {
    var (keys', out) := Step(h, keys, c.op, c.env);
    var e := Event(c.op, c.env, out);
    if Uses(e, id) {
      RecordUsed(h, keys[id], v, id, e);
    } else {
      assert Advance(v, e, id) == v;
    }
  }

  function Used(key: APIKey, stamp: Time): APIKey {
    key.(usageCount := (key.usageCount + 1) % TWO_64, lastUsedAt := Some(stamp))
  }

  lemma RecordUsed(h: Hash, key: APIKey, v: View, id: string, e: Event)
    requires RecordMatches(h, key, v, id)
    requires Uses(e, id)
    ensures RecordMatches(h, Used(key, e.env.stamp), Advance(v, e, id), id)
  {
    ModAdd(v.uses, 1, TWO_64);
  }

  lemma EditFits(h: Hash, keys: Keys, c: Call, id: string, v: View)
    requires Fits(h, keys, id, v) && GoodIds(keys)
    requires c.op.Revoke? || c.op.SetPermissions? || c.op.SetLimits?
    ensures var (keys', out) := Step(h, keys, c.op, c.env);
            Fits(h, keys', id, Advance(v, Event(c.op, c.env, out), id))
  {
    var (keys', out) := Step(h, keys, c.op, c.env);
    var e := Event(c.op, c.env, out);
    EditOutcome(h, keys, c.op, c.env);
    if Effective(e) && c.op.id == id {
      RecordEdited(h, keys[id], v, id, e);
    } else {
      assert Advance(v, e, id) == v;
    }
  }

  lemma EditOutcome(h: Hash, keys: Keys, op: Op, env: Env)
    requires GoodIds(keys)
    requires op.Revoke? || op.SetPermissions? || op.SetLimits?
    ensures var (keys', out) := Step(h, keys, op, env);
      if Effective(Event(op, env, out))
      then op.id in keys && keys' == keys[op.id := Edited(keys[op.id], op, env.now)]
      else keys' == keys
  {
    assert op.id in keys ==> keys[op.id := keys[op.id]] == keys;
  }

  function Edited(key: APIKey, op: Op, now: Time): APIKey {
    match op
    case SetPermissions(_, perms) => key.(grants := perms.grants)
    case SetLimits(_, limits) => key.(limits := limits)
    case Revoke(_) => if key.Revoked() then key else key.(revokedAt := Some(now))
    case _ => key
  }

  lemma RecordEdited(h: Hash, key: APIKey, v: View, id: string, e: Event)
    requires RecordMatches(h, key, v, id)
    requires Effective(e) && (e.op.Revoke? || e.op.SetPermissions? || e.op.SetLimits?)
    requires e.op.id == id
    ensures RecordMatches(h, Edited(key, e.op, e.env.now), Advance(v, e, id), id)
  {
  }

  lemma StepFits(h: Hash, keys: Keys, c: Call, id: string, v: View)
    requires Fits(h, keys, id, v) && GoodIds(keys)
    requires c.op.Create? && c.op.mint.Some? ==> Hex(c.op.mint.value.id) !in keys
    ensures var (keys', out) := Step(h, keys, c.op, c.env);
            Fits(h, keys', id, Advance(v, Event(c.op, c.env, out), id))
  {
    match c.op {
      case Create(_, _, _) => CreateFits(h, keys, c, id, v);
      case Rotate(_, _) => RotateFits(h, keys, c, id, v);
      case Authenticate(_) => AuthenticateFits(h, keys, c, id, v);
      case _ => EditFits(h, keys, c, id, v);
    }
  }

  lemma SaveKeepsGoodIds(keys: Keys, key: APIKey, env: Env, out: Outcome)
    requires GoodIds(keys) && key.id != "" && Free(key.id, '_')
    ensures GoodIds(Save(keys, key, env, out).0)
  {
  }

  lemma StepGoodIds(h: Hash, keys: Keys, c: Call)
    requires GoodIds(keys)
    ensures GoodIds(Step(h, keys, c.op, c.env).0)
  {
    var keys' := Step(h, keys, c.op, c.env).0;
    assert keys' == keys || exists key, out ::
      keys' == Save(keys, key, c.env, out).0 && key.id != "" && Free(key.id, '_');
    if keys' != keys {
      var key, out :| keys' == Save(keys, key, c.env, out).0 && key.id != "" && Free(key.id, '_');
      SaveKeepsGoodIds(keys, key, c.env, out);
    }
  }

  /** The id a call is about. */
  predicate Names(op: Op, id: string) {
    match op
    case Create(_, _, mint) => mint.Some? && Hex(mint.value.id) == id
    case Authenticate(token) => IdOf(token) == Some(id)
    case _ => op.id == id
  }

  lemma StepKeepsOthers(h: Hash, keys: Keys, op: Op, env: Env, id: string)
    requires GoodIds(keys) && id in keys && !Names(op, id)
    ensures id in Step(h, keys, op, env).0 && Step(h, keys, op, env).0[id] == keys[id]
  {
  }

  /** Authentication against a record that matches a log. */
  lemma AcceptedByView(h: Hash, keys: Keys, log: seq<Event>, token: string, env: Env)
    requires IdOf(token).Some? && env.getOk && env.put.Stored?
    requires forall salt, s, t :: h(salt, s) == h(salt, t) ==> s == t
    requires Fits(h, keys, IdOf(token).value, ViewOf(log, IdOf(token).value))
    ensures var out, id := Step(h, keys, Authenticate(token), env).1, IdOf(token).value;
            && (out.Authenticated? <==> IsLastToken(log, id, token) && RevokedIn(log, id).None? && !ExpiredIn(log, id, env.now))
            && (out.Authenticated? || out == Failed(Unauthenticated))
  {
    var c := ParseToken(token).value;
    if c.id in keys {
      var current := LastMint(log, c.id).value.token;
      var d := ParseToken(current).value;
      ParseInvertsFormat(token, c.id, c.secret);
      ParseInvertsFormat(current, d.id, d.secret);
    }
  }
}
