/** What the key service answers its callers, over every run: the record it hands back, and the
    error it gives (internal/auth/auth.go). */
module KeyAnswers {
  import opened Prelude
  import opened Tokens
  import opened KeyService
  import opened KeyLog
  import opened KeyRuns

  // ----- the record -----

  /** The state after one more call. */
  function After(h: Hash, inputs: seq<Input>, c: Call): State { Exec(h, inputs + [Invoke(c)]) }

  function Answer(h: Hash, inputs: seq<Input>, c: Call): Outcome { Step(h, Exec(h, inputs).keys, c.op, c.env).1 }

  /** The record is the one now stored under the id, and each field of it is what the events in force,
      this call among them, say. */
  predicate IsCurrentRecord(h: Hash, st: State, id: string, key: APIKey) {
    id in st.keys && st.keys[id] == key && RecordMatches(h, key, ViewOf(InForce(st), id), id)
  }

  lemma StoredIsCurrent(h: Hash, inputs: seq<Input>, c: Call, id: string)
    requires Fresh(h, inputs) && FreshInput(Exec(h, inputs), Invoke(c)) && id in After(h, inputs, c).keys
    ensures IsCurrentRecord(h, After(h, inputs, c), id, After(h, inputs, c).keys[id])
  {
    FreshNext(h, inputs, Invoke(c));
    StoreMatchesLog(h, inputs + [Invoke(c)]);
    assert Tracks(h, After(h, inputs, c), id);
  }

  /** One call hands back the record it has just stored. */
  lemma AnswersWhatItStores(h: Hash, keys: Keys, op: Op, env: Env)
    requires GoodIds(keys)
    ensures var (keys', out) := Step(h, keys, op, env);
            && (out.Authenticated? ==>
                && op.Authenticate? && IdOf(op.token).Some?
                && var id := IdOf(op.token).value;
                   id in keys' && keys'[id] == out.key)
            && (out.Updated? ==> (op.SetPermissions? || op.SetLimits?) && op.id in keys' && keys'[op.id] == out.key)
  {
  }

  /** In every run an accepted token gets back its own key, as it is now stored: the grants of the
      last setter, the limits, the owner and the rest as the log says, this use counted and stamped
      with its time. */
  lemma AuthenticatedIsCurrentRecord(h: Hash, inputs: seq<Input>, token: string, env: Env)
    requires Fresh(h, inputs) && Answer(h, inputs, Call(Authenticate(token), env)).Authenticated?
    ensures var c := Call(Authenticate(token), env);
            var st, next, key := Exec(h, inputs), After(h, inputs, c), Answer(h, inputs, c).key;
            && IdOf(token).Some?
            && var id := IdOf(token).value;
               && IsCurrentRecord(h, next, id, key)
               && id in st.keys && key.grants == st.keys[id].grants && key.limits == st.keys[id].limits
               && key.usageCount == UseCount(InForce(next), id) % TWO_64
               && UseCount(InForce(next), id) == UseCount(InForce(st), id) + 1
               && key.lastUsedAt == Some(env.stamp)
  {
    var c := Call(Authenticate(token), env);
    StoreMatchesLog(h, inputs);
    AnswersWhatItStores(h, Exec(h, inputs).keys, c.op, env);
    ExecNext(h, inputs, Invoke(c));
    var id := IdOf(token).value;
    StoredIsCurrent(h, inputs, c, id);
    InForceNext(h, inputs, c);
    CountsThisUse(InForce(Exec(h, inputs)), Event(c.op, env, Answer(h, inputs, c)), id);
  }

  lemma CountsThisUse(now: seq<Event>, e: Event, id: string)
    requires Uses(e, id)
    ensures UseCount(now + [e], id) == UseCount(now, id) + 1 && LastUse(now + [e], id) == Some(e.env.stamp)
  {
    assert (now + [e])[..|now|] == now;
  }

  /** And a setter gets back the record with what it set. */
  lemma UpdatedIsCurrentRecord(h: Hash, inputs: seq<Input>, c: Call)
    requires Fresh(h, inputs) && Answer(h, inputs, c).Updated?
    ensures c.op.SetPermissions? || c.op.SetLimits?
    ensures var key := Answer(h, inputs, c).key;
            && IsCurrentRecord(h, After(h, inputs, c), c.op.id, key)
            && (c.op.SetPermissions? ==> key.grants == c.op.perms.grants)
            && (c.op.SetLimits? ==> key.limits == c.op.limits)
  {
    StoreMatchesLog(h, inputs);
    AnswersWhatItStores(h, Exec(h, inputs).keys, c.op, c.env);
    ExecNext(h, inputs, Invoke(c));
    StoredIsCurrent(h, inputs, c, c.op.id);
  }

  // ----- the errors -----

  /** The id was minted, by the events in force. */
  predicate Known(now: seq<Event>, id: string) { LastMint(now, id).Some? }

  lemma KnownIsStored(h: Hash, inputs: seq<Input>, id: string)
    requires Fresh(h, inputs)
    ensures var st := Exec(h, inputs);
            && (id in st.keys <==> Known(InForce(st), id))
            && (id in st.keys ==> st.keys[id].revokedAt == RevokedIn(InForce(st), id))
  {
    StoreMatchesLog(h, inputs);
    assert Tracks(h, Exec(h, inputs), id);
  }

  /** The cause of each error, in the order in which they are looked for: the store could not be
      read, the id is unknown, it is revoked, the entropy source failed, the write failed. */
  function ErrorOf(now: seq<Event>, op: Op, env: Env): Option<Error>
    requires !op.Authenticate?
  {
    if op.Create? then
      if op.mint.None? then Some(EntropyFailed) else if env.put.Stored? then None else Some(StoreFailed)
    else if !env.getOk then Some(StoreFailed)
    else if !Known(now, op.id) then Some(NotFound)
    else if op.Rotate? && RevokedIn(now, op.id).Some? then Some(RotateRevoked)
    else if op.Rotate? && op.mint.None? then Some(EntropyFailed)
    else if op.Revoke? && RevokedIn(now, op.id).Some? then None
    else if env.put.Stored? then None
    else Some(StoreFailed)
  }

  lemma CreateFails(h: Hash, keys: Keys, now: seq<Event>, op: Op, env: Env)
    requires op.Create?
    ensures var cause, out := ErrorOf(now, op, env), Step(h, keys, op, env).1;
            if cause.Some? then out == Failed(cause.value) else !out.Failed?
  {
  }

  lemma EditFails(h: Hash, keys: Keys, now: seq<Event>, op: Op, env: Env)
    requires !op.Create? && !op.Authenticate?
    requires op.id in keys <==> Known(now, op.id)
    requires op.id in keys ==> keys[op.id].revokedAt == RevokedIn(now, op.id)
    ensures var cause, out := ErrorOf(now, op, env), Step(h, keys, op, env).1;
            if cause.Some? then out == Failed(cause.value) else !out.Failed?
  {
  }

  /** In every run a call other than an authentication fails exactly for the cause the log gives. */
  lemma FailsExactlyFor(h: Hash, inputs: seq<Input>, c: Call)
    requires Fresh(h, inputs) && !c.op.Authenticate?
    ensures var cause := ErrorOf(InForce(Exec(h, inputs)), c.op, c.env);
            if cause.Some? then Answer(h, inputs, c) == Failed(cause.value) else !Answer(h, inputs, c).Failed?
  {
    var st := Exec(h, inputs);
    if c.op.Create? {
      CreateFails(h, st.keys, InForce(st), c.op, c.env);
    } else {
      KnownIsStored(h, inputs, c.op.id);
      EditFails(h, st.keys, InForce(st), c.op, c.env);
    }
  }

  // ----- tokens of different draws -----

  /** What a lower-case hexadecimal digit stands for. */
  function HexValue(c: char): int { if '0' <= c <= '9' then (c - '0') as int else if 'a' <= c <= 'f' then (c - 'a') as int + 10 else -1 }

  /** Each byte can be read back from its two digits, the high one first. */
  lemma {:induction false} HexReadsBack(b: Bytes, i: nat)
    requires i < |b|
    ensures 0 <= HexValue(Hex(b)[2 * i]) < 16 && 0 <= HexValue(Hex(b)[2 * i + 1]) < 16
    ensures HexValue(Hex(b)[2 * i]) * 16 + HexValue(Hex(b)[2 * i + 1]) == b[i] as int
  {
    if i == 0 {
      assert b[0] as int == b[0] as int / 16 * 16 + b[0] as int % 16;
    } else {
      assert Hex(b)[2..] == Hex(b[1..]);
      assert Hex(b)[2 * i] == Hex(b[1..])[2 * (i - 1)] && Hex(b)[2 * i + 1] == Hex(b[1..])[2 * (i - 1) + 1];
      HexReadsBack(b[1..], i - 1);
    }
  }

  lemma HexInjective(a: Bytes, b: Bytes)
    requires Hex(a) == Hex(b)
    ensures a == b
  {
    assert |a| == |b|;
    forall i | 0 <= i < |a| ensures a[i] == b[i] {
      HexReadsBack(a, i);
      HexReadsBack(b, i);
    }
  }

  /** Two draws give the same token only if they are the same id and secret. */
  lemma TokensTellDrawsApart(a: Mint, b: Mint)
    requires FormatToken(Hex(a.id), Hex(a.secret)) == FormatToken(Hex(b.id), Hex(b.secret))
    ensures a.id == b.id && a.secret == b.secret
  {
    MintedToken(Hex(a.id), Hex(a.secret));
    MintedToken(Hex(b.id), Hex(b.secret));
    HexInjective(a.id, b.id);
    HexInjective(a.secret, b.secret);
  }

  /** After a rotation every token of the id with another secret is refused, the one it replaces
      included. */
  lemma RotationRetiresOldTokens(h: Hash, inputs: seq<Input>, id: string, m: Mint, env: Env, secret: SecretEntropy, later: Env)
    requires InjectivePerSalt(h) && Fresh(h, inputs) && secret != m.secret
    requires Answer(h, inputs, Call(Rotate(id, Some(m)), env)).Issued? && later.getOk && later.put.Stored?
    ensures var c := Call(Rotate(id, Some(m)), env);
            Step(h, After(h, inputs, c).keys, Authenticate(FormatToken(id, Hex(secret))), later).1 == Failed(Unauthenticated)
  {
    var c, st := Call(Rotate(id, Some(m)), env), Exec(h, inputs);
    StoreMatchesLog(h, inputs);
    assert Tracks(h, st, id);
    MintedIsCurrent(h, st, c.op, env);
    InForceNext(h, inputs, c);
    FreshNext(h, inputs, Invoke(c));
    MintedToken(id, Hex(secret));
    MintedToken(id, Hex(m.secret));
    if Hex(secret) == Hex(m.secret) { HexInjective(secret, m.secret); }
    AcceptedExactlyWhenCurrent(h, inputs + [Invoke(c)], FormatToken(id, Hex(secret)), later);
  }
}
