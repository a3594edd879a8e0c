/** What every run of the key service guarantees, restarts of its file-backed store included, told
    from the run's log alone (internal/auth/auth.go, internal/store/file.go). */
module KeyRuns {
  import opened Prelude
  import opened Tokens
  import opened KeyService
  import opened KeyLog

  // ----- the machine -----

  /** A call on the service, or a restart of the process. */
  datatype Input = Invoke(call: Call) | Restart

  datatype Entry = Happened(e: Event) | Restarted

  /** disk is what the file holds: the whole map as of the last put whose write worked. */
  datatype State = State(keys: Keys, disk: Keys, log: seq<Entry>)

  function Next(h: Hash, st: State, i: Input): State {
    match i
    case Restart => State(st.disk, st.disk, st.log + [Restarted])
    case Invoke(c) =>
      var (keys, out) := Step(h, st.keys, c.op, c.env);
      State(keys, if Flushes(h, st.keys, c.op, c.env) then keys else st.disk, st.log + [Happened(Event(c.op, c.env, out))])
  }

  /** The state after a run that starts with an empty store. */
  function Exec(h: Hash, inputs: seq<Input>): State {
    if inputs == [] then State(map[], map[], [])
    else Next(h, Exec(h, inputs[..|inputs| - 1]), inputs[|inputs| - 1])
  }

  /** SHA-256 over a fixed salt, idealised: different secrets have different hashes. */
  ghost predicate InjectivePerSalt(h: Hash) {
    forall salt, s, t :: h(salt, s) == h(salt, t) ==> s == t
  }

  predicate FreshInput(st: State, i: Input) {
    i.Invoke? && i.call.op.Create? && i.call.op.mint.Some? ==> Hex(i.call.op.mint.value.id) !in st.keys
  }

  /** No Create draws an id that is already in the store. */
  predicate Fresh(h: Hash, inputs: seq<Input>) {
    inputs != [] ==>
      var before := inputs[..|inputs| - 1];
      Fresh(h, before) && FreshInput(Exec(h, before), inputs[|inputs| - 1])
  }

  // ----- the history that counts -----

  /** The event wrote the file: it succeeded, and was not the second revocation of a key, which
      finds nothing to write. */
  predicate Wrote(now: seq<Event>, e: Event) {
    e.env.put.Stored? && !e.out.Failed? && !(e.op.Revoke? && RevokedIn(now, e.op.id).Some?)
  }

  /** The events in force, and those in force at the last write: a restart falls back to these. */
  function Surviving(log: seq<Entry>): (seq<Event>, seq<Event>) {
    if log == [] then ([], [])
    else
      var (now, saved) := Surviving(log[..|log| - 1]);
      match log[|log| - 1]
      case Restarted => (saved, saved)
      case Happened(e) => (now + [e], if Wrote(now, e) then now + [e] else saved)
  }

  function InForce(st: State): seq<Event> { Surviving(st.log).0 }

  function OnFile(st: State): seq<Event> { Surviving(st.log).1 }

  predicate Tracks(h: Hash, st: State, id: string) {
    Fits(h, st.keys, id, ViewOf(InForce(st), id)) && Fits(h, st.disk, id, ViewOf(OnFile(st), id))
  }

  lemma SurvivingNext(log: seq<Entry>, x: Entry)
    ensures Surviving(log + [x]) ==
      var (now, saved) := Surviving(log);
      match x
      case Restarted => (saved, saved)
      case Happened(e) => (now + [e], if Wrote(now, e) then now + [e] else saved)
  {
    assert (log + [x])[..|log|] == log;
  }

  /** The log can tell when the file was written. */
  lemma WroteWhenFlushed(h: Hash, keys: Keys, c: Call, now: seq<Event>)
    requires forall id :: Fits(h, keys, id, ViewOf(now, id))
    ensures Wrote(now, Event(c.op, c.env, Step(h, keys, c.op, c.env).1)) <==> Flushes(h, keys, c.op, c.env)
  {
    if c.op.Revoke? { assert Fits(h, keys, c.op.id, ViewOf(now, c.op.id)); }
  }

  lemma InvokeTracks(h: Hash, st: State, c: Call, id: string)
    requires GoodIds(st.keys) && FreshInput(st, Invoke(c)) && forall i :: Tracks(h, st, i)
    ensures Tracks(h, Next(h, st, Invoke(c)), id)
  {
    var now := InForce(st);
    var e := Event(c.op, c.env, Step(h, st.keys, c.op, c.env).1);
    SurvivingNext(st.log, Happened(e));
    assert Tracks(h, st, id);
    forall i ensures Fits(h, st.keys, i, ViewOf(now, i)) { assert Tracks(h, st, i); }
    WroteWhenFlushed(h, st.keys, c, now);
    StepFits(h, st.keys, c, id, ViewOf(now, id));
    ViewAdvances(now, e, id);
  }

  /** After every run with fresh ids, each stored record is exactly what the events in force say,
      and each record on file what the events in force at the last write say: the fields an
      operation does not name survive it. */
  lemma {:induction false} StoreMatchesLog(h: Hash, inputs: seq<Input>)
    requires Fresh(h, inputs)
    ensures GoodIds(Exec(h, inputs).keys) && GoodIds(Exec(h, inputs).disk)
    ensures forall id :: Tracks(h, Exec(h, inputs), id)
  {
    if inputs != [] {
      var before, i := inputs[..|inputs| - 1], inputs[|inputs| - 1];
      StoreMatchesLog(h, before);
      var st := Exec(h, before);
      match i {
        case Restart =>
          SurvivingNext(st.log, Restarted);
          forall id ensures Tracks(h, Exec(h, inputs), id) { assert Tracks(h, st, id); }
        case Invoke(c) =>
          StepGoodIds(h, st.keys, c);
          forall id ensures Tracks(h, Exec(h, inputs), id) { InvokeTracks(h, st, c, id); }
      }
    }
  }

  // ----- the theorems -----

  /** A token is accepted exactly when it is the one most recently minted for its id, the id was
      never revoked, and its time to live has not passed, all by the events in force. Every other
      token gets the same error. */
  lemma AcceptedExactlyWhenCurrent(h: Hash, inputs: seq<Input>, token: string, env: Env)
    requires InjectivePerSalt(h) && Fresh(h, inputs)
    requires env.getOk && env.put.Stored?
    ensures var now := InForce(Exec(h, inputs));
            var out := Step(h, Exec(h, inputs).keys, Authenticate(token), env).1;
            && (out.Authenticated? <==>
                && IdOf(token).Some?
                && var id := IdOf(token).value;
                   && IsLastToken(now, id, token)
                   && RevokedIn(now, id).None?
                   && !ExpiredIn(now, id, env.now))
            && (out.Authenticated? || out == Failed(Unauthenticated))
  {
    StoreMatchesLog(h, inputs);
    if IdOf(token).Some? {
      assert Tracks(h, Exec(h, inputs), IdOf(token).value);
      AcceptedByView(h, Exec(h, inputs).keys, InForce(Exec(h, inputs)), token, env);
    }
  }

  lemma RevokedIsRefused(h: Hash, keys: Keys, id: string, token: string, mint: Option<Mint>, env: Env)
    requires id in keys && keys[id].Revoked()
    requires env.getOk
    ensures IdOf(token) == Some(id) ==> Step(h, keys, Authenticate(token), env).1 == Failed(Unauthenticated)
    ensures Step(h, keys, Rotate(id, mint), env).1 == Failed(RotateRevoked)
  {
  }

  lemma ExecNext(h: Hash, inputs: seq<Input>, i: Input)
    ensures Exec(h, inputs + [i]) == Next(h, Exec(h, inputs), i)
  {
    assert (inputs + [i])[..|inputs|] == inputs;
  }

  lemma FreshNext(h: Hash, inputs: seq<Input>, i: Input)
    requires Fresh(h, inputs) && FreshInput(Exec(h, inputs), i)
    ensures Fresh(h, inputs + [i])
  {
    assert (inputs + [i])[..|inputs|] == inputs;
  }

  lemma RevokedNext(now: seq<Event>, e: Event, id: string)
    requires RevokedIn(now, id).Some?
    ensures RevokedIn(now + [e], id) == RevokedIn(now, id)
  {
    assert (now + [e])[..|now|] == now;
  }

  lemma RevokedStep(h: Hash, st: State, i: Input, id: string, date: Time)
    requires RevokedIn(InForce(st), id) == Some(date)
    requires i.Invoke? || RevokedIn(OnFile(st), id) == Some(date)
    ensures RevokedIn(InForce(Next(h, st, i)), id) == Some(date)
    ensures RevokedIn(OnFile(st), id) == Some(date) ==> RevokedIn(OnFile(Next(h, st, i)), id) == Some(date)
  {
    if i.Invoke? {
      var e := Event(i.call.op, i.call.env, Step(h, st.keys, i.call.op, i.call.env).1);
      SurvivingNext(st.log, Happened(e));
      RevokedNext(InForce(st), e, id);
    } else {
      SurvivingNext(st.log, Restarted);
    }
  }

  /** The place of the first restart, or the length if there is none. */
  function FirstRestart(inputs: seq<Input>): (n: nat)
    ensures n <= |inputs| && (n < |inputs| ==> inputs[n].Restart?)
    ensures forall i :: 0 <= i < n ==> inputs[i].Invoke?
  {
    if inputs == [] || inputs[0].Restart? then 0 else 1 + FirstRestart(inputs[1..])
  }

  /** The revocation is on file when the process first restarts, if it does. */
  predicate OnFileInTime(h: Hash, inputs: seq<Input>, later: seq<Input>, id: string) {
    var n := FirstRestart(later);
    n < |later| ==> RevokedIn(OnFile(Exec(h, inputs + later[..n])), id).Some?
  }

  /** What is on file is the beginning of what is in force. */
  lemma {:induction false} FileIsPrefix(log: seq<Entry>)
    ensures Surviving(log).1 <= Surviving(log).0
  {
    if log != [] { FileIsPrefix(log[..|log| - 1]); }
  }

  lemma {:induction false} RevokedInPrefix(short: seq<Event>, long: seq<Event>, id: string)
    requires short <= long && RevokedIn(short, id).Some?
    ensures RevokedIn(long, id) == RevokedIn(short, id)
  {
    if |short| < |long| {
      RevokedInPrefix(short, long[..|long| - 1], id);
    } else {
      assert short == long;
    }
  }

  /** A revocation on file is the one in force. */
  lemma SameDateOnFile(st: State, id: string)
    requires RevokedIn(OnFile(st), id).Some?
    ensures RevokedIn(InForce(st), id) == RevokedIn(OnFile(st), id)
  {
    FileIsPrefix(st.log);
    RevokedInPrefix(OnFile(st), InForce(st), id);
  }

  /** The revocation is in force, and once past the first restart it is on file. */
  predicate Kept(st: State, id: string, date: Time, past: bool) {
    RevokedIn(InForce(st), id) == Some(date) && (past ==> RevokedIn(OnFile(st), id) == Some(date))
  }

  lemma KeptStep(h: Hash, before: seq<Input>, i: Input, id: string, date: Time, past: bool)
    requires Kept(Exec(h, before), id, date, past) && (i.Restart? ==> past)
    ensures Kept(Exec(h, before + [i]), id, date, past)
  {
    ExecNext(h, before, i);
    RevokedStep(h, Exec(h, before), i, id, date);
  }

  /** A revocation that is on file by the first restart stays through all that follows. */
  lemma {:induction false} RevokedStays(h: Hash, inputs: seq<Input>, later: seq<Input>, id: string, date: Time, q: nat)
    requires RevokedIn(InForce(Exec(h, inputs)), id) == Some(date)
    requires OnFileInTime(h, inputs, later, id) && q <= |later|
    ensures Kept(Exec(h, inputs + later[..q]), id, date, FirstRestart(later) <= q && FirstRestart(later) < |later|)
  {
    var n := FirstRestart(later);
    if q == 0 {
      assert inputs + later[..0] == inputs;
    } else {
      RevokedStays(h, inputs, later, id, date, q - 1);
      var before := inputs + later[..q - 1];
      assert inputs + later[..q] == before + [later[q - 1]];
      KeptStep(h, before, later[q - 1], id, date, n <= q - 1 && n < |later|);
    }
    if q == n < |later| { SameDateOnFile(Exec(h, inputs + later[..q]), id); }
  }

  /** The store holds the revocation, with its date, at every moment of the later run. */
  predicate HoldsThroughout(h: Hash, inputs: seq<Input>, later: seq<Input>, id: string, date: Time) {
    forall q :: 0 <= q <= |later| ==> RevokedAt(Exec(h, inputs + later[..q]).keys, id, date)
  }

  predicate RevokedAt(keys: Keys, id: string, date: Time) { id in keys && keys[id].revokedAt == Some(date) }

  lemma {:induction false} FreshPrefix(h: Hash, inputs: seq<Input>, n: nat)
    requires Fresh(h, inputs) && n <= |inputs|
    ensures Fresh(h, inputs[..n])
  {
    if n < |inputs| {
      FreshPrefix(h, inputs[..|inputs| - 1], n);
      assert inputs[..|inputs| - 1][..n] == inputs[..n];
    } else {
      assert inputs[..n] == inputs;
    }
  }

  /** What the log says of a revocation the store says too. */
  lemma RevokedByLog(h: Hash, inputs: seq<Input>, id: string, date: Time)
    requires Fresh(h, inputs)
    ensures RevokedAt(Exec(h, inputs).keys, id, date) <==> RevokedIn(InForce(Exec(h, inputs)), id) == Some(date)
  {
    StoreMatchesLog(h, inputs);
    assert Tracks(h, Exec(h, inputs), id);
  }

  lemma HeldAt(h: Hash, inputs: seq<Input>, later: seq<Input>, id: string, date: Time, q: nat)
    requires Fresh(h, inputs + later) && q <= |later|
    ensures RevokedAt(Exec(h, inputs + later[..q]).keys, id, date) <==>
            RevokedIn(InForce(Exec(h, inputs + later[..q])), id) == Some(date)
  {
    assert (inputs + later)[..|inputs| + q] == inputs + later[..q];
    FreshPrefix(h, inputs + later, |inputs| + q);
    RevokedByLog(h, inputs + later[..q], id, date);
  }

  /** A restart falls back to what is on file. */
  lemma FallsBack(h: Hash, inputs: seq<Input>, later: seq<Input>, n: nat)
    requires n < |later| && later[n].Restart?
    ensures InForce(Exec(h, inputs + later[..n + 1])) == OnFile(Exec(h, inputs + later[..n]))
  {
    var before := inputs + later[..n];
    assert inputs + later[..n + 1] == before + [Restart];
    ExecNext(h, before, Restart);
    SurvivingNext(Exec(h, before).log, Restarted);
  }

  lemma LastsUntil(h: Hash, inputs: seq<Input>, later: seq<Input>, id: string, date: Time, q: nat)
    requires Fresh(h, inputs + later) && q <= |later|
    requires RevokedIn(InForce(Exec(h, inputs)), id) == Some(date) && OnFileInTime(h, inputs, later, id)
    ensures RevokedAt(Exec(h, inputs + later[..q]).keys, id, date)
  {
    RevokedStays(h, inputs, later, id, date, q);
    HeldAt(h, inputs, later, id, date, q);
  }

  lemma LostAtRestart(h: Hash, inputs: seq<Input>, later: seq<Input>, id: string, date: Time)
    requires Fresh(h, inputs + later) && !OnFileInTime(h, inputs, later, id)
    ensures !RevokedAt(Exec(h, inputs + later[..FirstRestart(later) + 1]).keys, id, date)
  {
    var n := FirstRestart(later);
    FallsBack(h, inputs, later, n);
    HeldAt(h, inputs, later, id, date, n + 1);
  }

  /** A revocation lasts, with its date, through any later run of calls and restarts exactly when it
      is on file at the first restart, if there is one: no call ever undoes it. */
  lemma RevocationLastsExactlyWhen(h: Hash, inputs: seq<Input>, later: seq<Input>, id: string, date: Time)
    requires Fresh(h, inputs + later)
    requires RevokedIn(InForce(Exec(h, inputs)), id) == Some(date)
    ensures HoldsThroughout(h, inputs, later, id, date) <==> OnFileInTime(h, inputs, later, id)
  {
    if OnFileInTime(h, inputs, later, id) {
      forall q | 0 <= q <= |later| ensures RevokedAt(Exec(h, inputs + later[..q]).keys, id, date) {
        LastsUntil(h, inputs, later, id, date, q);
      }
    } else {
      LostAtRestart(h, inputs, later, id, date);
    }
  }

  /** And while it lasts, authentication and rotation are refused: the id is never back. */
  lemma RevocationIsPermanent(h: Hash, inputs: seq<Input>, later: seq<Input>, id: string, date: Time, token: string, mint: Option<Mint>, env: Env)
    requires Fresh(h, inputs + later)
    requires RevokedIn(InForce(Exec(h, inputs)), id) == Some(date)
    requires OnFileInTime(h, inputs, later, id)
    requires env.getOk
    ensures var keys := Exec(h, inputs + later).keys;
            && id in keys && keys[id].revokedAt == Some(date)
            && (IdOf(token) == Some(id) ==> Step(h, keys, Authenticate(token), env).1 == Failed(Unauthenticated))
            && Step(h, keys, Rotate(id, mint), env).1 == Failed(RotateRevoked)
  {
    RevocationLastsExactlyWhen(h, inputs, later, id, date);
    assert later[..|later|] == later;
    assert RevokedAt(Exec(h, inputs + later[..|later|]).keys, id, date);
    RevokedIsRefused(h, Exec(h, inputs + later).keys, id, token, mint, env);
  }

  /** A restart gives a revocation up exactly when the file does not hold it: it failed in being
      written and nothing has been written since. */
  lemma RestartKeepsExactlyWhatIsOnFile(h: Hash, inputs: seq<Input>, id: string)
    requires Fresh(h, inputs)
    ensures var st := Exec(h, inputs);
            var after := Exec(h, inputs + [Restart]);
            && InForce(after) == OnFile(st)
            && (id in after.keys ==> after.keys[id].revokedAt == RevokedIn(OnFile(st), id))
            && (id !in after.keys ==> LastMint(OnFile(st), id).None?)
  {
    assert (inputs + [Restart])[..|inputs|] == inputs;
    StoreMatchesLog(h, inputs);
    SurvivingNext(Exec(h, inputs).log, Restarted);
    assert Tracks(h, Exec(h, inputs), id);
  }

  /** The id a create or rotate mints for. */
  function Named(op: Op): string
    requires (op.Create? && op.mint.Some?) || op.Rotate?
  {
    if op.Create? then Hex(op.mint.value.id) else op.id
  }

  lemma IssuedIsMinted(h: Hash, keys: Keys, op: Op, env: Env)
    requires (op.Create? && op.mint.Some?) || op.Rotate?
    ensures var out := Step(h, keys, op, env).1;
            var e, id := Event(op, env, out), Named(op);
            out.Issued? ==> (Creates(e, id) || Rotates(e, id)) && out.token == MintedBy(e, id).token
  {
  }

  /** After a mint the token handed out is the last of an id that is not revoked. */
  lemma MintedIsCurrent(h: Hash, st: State, op: Op, env: Env)
    requires (op.Create? && op.mint.Some?) || op.Rotate?
    requires FreshInput(st, Invoke(Call(op, env))) && Tracks(h, st, Named(op)) && GoodIds(st.keys)
    requires Step(h, st.keys, op, env).1.Issued?
    ensures var e := Event(op, env, Step(h, st.keys, op, env).1);
            var now := InForce(st) + [e];
            && IsLastToken(now, Named(op), e.out.token)
            && RevokedIn(now, Named(op)).None?
  {
    var e := Event(op, env, Step(h, st.keys, op, env).1);
    var now := InForce(st) + [e];
    assert now[..|now| - 1] == InForce(st) && now[|now| - 1] == e;
    IssuedIsMinted(h, st.keys, op, env);
  }

  lemma IssuedNamesItsId(h: Hash, keys: Keys, op: Op, env: Env)
    requires (op.Create? && op.mint.Some?) || op.Rotate?
    requires GoodIds(keys) && Step(h, keys, op, env).1.Issued?
    ensures IdOf(Step(h, keys, op, env).1.token) == Some(Named(op))
  {
    MintedToken(Named(op), Hex(op.mint.value.secret));
  }

  /** The token a create or a rotation hands out is good: until its key expires, the next
      authentication with it is accepted. */
  lemma IssuedIsAccepted(h: Hash, inputs: seq<Input>, op: Op, env: Env, later: Env)
    requires InjectivePerSalt(h) && Fresh(h, inputs) && FreshInput(Exec(h, inputs), Invoke(Call(op, env)))
    requires (op.Create? && op.mint.Some?) || op.Rotate?
    requires Step(h, Exec(h, inputs).keys, op, env).1.Issued? && later.getOk && later.put.Stored?
    ensures var next := Exec(h, inputs + [Invoke(Call(op, env))]);
            var token := Step(h, Exec(h, inputs).keys, op, env).1.token;
            Step(h, next.keys, Authenticate(token), later).1.Authenticated? <==> !ExpiredIn(InForce(next), Named(op), later.now)
  {
    var c, st := Call(op, env), Exec(h, inputs);
    var out := Step(h, st.keys, op, env).1;
    StoreMatchesLog(h, inputs);
    assert Tracks(h, st, Named(op));
    IssuedNamesItsId(h, st.keys, op, env);
    MintedIsCurrent(h, st, op, env);
    InForceNext(h, inputs, c);
    FreshNext(h, inputs, Invoke(c));
    AcceptedExactlyWhenCurrent(h, inputs + [Invoke(c)], out.token, later);
  }

  lemma InForceNext(h: Hash, inputs: seq<Input>, c: Call)
    ensures InForce(Exec(h, inputs + [Invoke(c)])) ==
            InForce(Exec(h, inputs)) + [Event(c.op, c.env, Step(h, Exec(h, inputs).keys, c.op, c.env).1)]
  {
    ExecNext(h, inputs, Invoke(c));
    SurvivingNext(Exec(h, inputs).log, Happened(Event(c.op, c.env, Step(h, Exec(h, inputs).keys, c.op, c.env).1)));
  }

  /** A call that fails leaves the store as it was, unless the file could not be written: then the
      store is as if it could. */
  lemma FailureKeepsOrCompletes(h: Hash, keys: Keys, op: Op, env: Env)
    ensures var (keys', out) := Step(h, keys, op, env);
            out.Failed? ==> keys' == if env.put.Unflushed? then Step(h, keys, op, env.(put := Stored)).0 else keys
  {
  }

  /** A rotation that fails in writing the file locks its holder out: the caller gets an error and
      no token, and afterwards every token of the id is refused but the undisclosed one. */
  lemma FailedRotationLocksOut(h: Hash, inputs: seq<Input>, id: string, m: Mint, env: Env, token: string, later: Env)
    requires InjectivePerSalt(h) && Fresh(h, inputs)
    requires id in Exec(h, inputs).keys && !Exec(h, inputs).keys[id].Revoked()
    requires env.getOk && env.put.Unflushed? && later.getOk && later.put.Stored?
    requires IdOf(token) == Some(id) && token != FormatToken(id, Hex(m.secret))
    ensures var c := Call(Rotate(id, Some(m)), env);
            && Step(h, Exec(h, inputs).keys, c.op, env).1 == Failed(StoreFailed)
            && Step(h, Exec(h, inputs + [Invoke(c)]).keys, Authenticate(token), later).1 == Failed(Unauthenticated)
  {
    var c := Call(Rotate(id, Some(m)), env);
    var st := Exec(h, inputs);
    var e := Event(c.op, env, Step(h, st.keys, c.op, env).1);
    ExecNext(h, inputs, Invoke(c));
    FreshNext(h, inputs, Invoke(c));
    SurvivingNext(st.log, Happened(e));
    assert Rotates(e, id);
    assert (InForce(st) + [e])[|InForce(st)|] == e;
    AcceptedExactlyWhenCurrent(h, inputs + [Invoke(c)], token, later);
  }

  /** A revocation whose write failed is reported done when it is asked for again, without being
      written: a restart then brings the key back. */
  lemma RetriedRevocationMayBeLost(h: Hash, inputs: seq<Input>, id: string, failing: Env, retry: Env)
    requires Fresh(h, inputs)
    requires var st := Exec(h, inputs); id in st.keys && !st.keys[id].Revoked() && st.disk == st.keys
    requires failing.getOk && failing.put.Unflushed? && retry.getOk
    ensures var once := inputs + [Invoke(Call(Revoke(id), failing))];
            var twice := once + [Invoke(Call(Revoke(id), retry))];
            var after := Exec(h, twice + [Restart]);
            && Step(h, Exec(h, inputs).keys, Revoke(id), failing).1 == Failed(StoreFailed)
            && Step(h, Exec(h, once).keys, Revoke(id), retry).1 == Done
            && Exec(h, twice).keys[id].Revoked()
            && id in after.keys && !after.keys[id].Revoked()
  {
    var once := inputs + [Invoke(Call(Revoke(id), failing))];
    var twice := once + [Invoke(Call(Revoke(id), retry))];
    ExecNext(h, inputs, Invoke(Call(Revoke(id), failing)));
    ExecNext(h, once, Invoke(Call(Revoke(id), retry)));
    ExecNext(h, twice, Restart);
    StoreMatchesLog(h, inputs);
  }

  /** No call touches the record of an id other than the one it names. */
  lemma OtherKeysUntouched(h: Hash, inputs: seq<Input>, c: Call, id: string)
    requires Fresh(h, inputs)
    requires id in Exec(h, inputs).keys
    requires !Names(c.op, id)
    ensures id in Next(h, Exec(h, inputs), Invoke(c)).keys
    ensures Next(h, Exec(h, inputs), Invoke(c)).keys[id] == Exec(h, inputs).keys[id]
  {
    StoreMatchesLog(h, inputs);
    StepKeepsOthers(h, Exec(h, inputs).keys, c.op, c.env, id);
  }
}
