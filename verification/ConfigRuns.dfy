/** What every run of config updates, checkpoint failures and restarts guarantees. */
module ConfigRuns {
  import opened Prelude
  import opened ConfigFields
  import opened ConfigLive
  import opened RuntimeConfig

  datatype Event =
    | JsonPut(raw: Body, saved: bool)
    | FormPut(form: Form, saved: bool)
    | Reboot(boot: Settings)

  function Step(d: Durations, st: State, e: Event): State {
    match e
    case JsonPut(raw, saved) => Put(d, st, raw, saved).0
    case FormPut(form, saved) => PutForm(d, st, form, saved).0
    case Reboot(next) => Restart(d, next, st.file)
  }

  /** What the first process starts from: its boot values and the file it finds, which anyone may
      have written. */
  datatype Start = Start(boot: Settings, file: Option<Body>)

  /** The machine: a first boot, then the events. */
  function Run(d: Durations, start: Start, events: seq<Event>): State {
    if events == [] then Restart(d, start.boot, start.file)
    else Step(d, Run(d, start, events[..|events| - 1]), events[|events| - 1])
  }

  /** What an operator would write down: the boot values in force, the overrides in force, those of
      the last checkpoint that worked, and the file, which is the one found or that checkpoint. */
  datatype Ledger = Ledger(boot: Settings, current: Overrides, saved: Overrides, file: Option<Body>)

  /** An accepted update adds its overrides; nothing else about it matters. */
  function Book(l: Ledger, ov: Overrides, saved: bool): Ledger {
    if ov == map[] then l
    else
      var current := l.current + ov;
      if saved then Ledger(l.boot, current, current, Some(Saved(current))) else l.(current := current)
  }

  function JsonChange(d: Durations, raw: Body): Overrides { if BodyOk(d, raw) then Decoded(d, raw) else map[] }

  function FormChange(d: Durations, form: Form): Overrides {
    if FormOk(form) then JsonChange(d, FormBody(form)) else map[]
  }

  /** The overrides in a file: those of all its tunable entries, or none if one of them is bad. */
  function FileChange(d: Durations, file: Option<Body>): Overrides {
    if file.None? then map[] else JsonChange(d, Tunables(file.value))
  }

  function BookStep(d: Durations, l: Ledger, e: Event): Ledger {
    match e
    case JsonPut(raw, saved) => Book(l, JsonChange(d, raw), saved)
    case FormPut(form, saved) => Book(l, FormChange(d, form), saved)
    case Reboot(next) => Ledger(next, l.saved, l.saved, l.file)
  }

  function Books(d: Durations, start: Start, events: seq<Event>): Ledger {
    if events == [] then Ledger(start.boot, FileChange(d, start.file), FileChange(d, start.file), start.file)
    else BookStep(d, Books(d, start, events[..|events| - 1]), events[|events| - 1])
  }

  lemma BootStep(d: Durations, l: Ledger, e: Event)
    ensures BookStep(d, l, e).boot == if e.Reboot? then e.boot else l.boot
  {
    match e {
      case JsonPut(raw, saved) => BookKeepsBoot(l, JsonChange(d, raw), saved);
      case FormPut(form, saved) => BookKeepsBoot(l, FormChange(d, form), saved);
      case Reboot(_) =>
    }
  }

  lemma BookKeepsBoot(l: Ledger, ov: Overrides, saved: bool)
    ensures Book(l, ov, saved).boot == l.boot
  {
  }

  /** Boot values a process can start with: see Runnable. */
  predicate Bootable(d: Durations, start: Start, events: seq<Event>) {
    Runnable(d, start.boot) && forall i :: 0 <= i < |events| && events[i].Reboot? ==> Runnable(d, events[i].boot)
  }

  /** The checkpoint file of a set of overrides. */
  function Saved(ov: Overrides): Body { map f | f in ov :: Tunable(f) := Encode(ov[f]) }

  /** The machine agrees with the books. */
  predicate Agrees(d: Durations, st: State, l: Ledger) {
    && Runnable(d, l.boot) && Validated(d, l.current) && Validated(d, l.saved)
    && st.cur == Overlay(l.boot, l.current)
    && st.persisted == l.current.Keys
    && st.live == LiveOf(d, st.cur)
    && st.file == l.file && FileChange(d, l.file) == l.saved
  }

  lemma ChangeIsValidated(d: Durations, raw: Body)
    requires d.Lawful()
    ensures Validated(d, JsonChange(d, raw))
  {
    if BodyOk(d, raw) {
      forall f | f in Decoded(d, raw) ensures FixedPoint(d, f, Decoded(d, raw)[f]) {
        DecodedIsFixedPoint(d, f, raw[Tunable(f)]);
      }
    }
  }

  lemma ValidatedMerge(d: Durations, a: Overrides, b: Overrides)
    requires Validated(d, a) && Validated(d, b)
    ensures Validated(d, a + b)
  {
  }

  lemma FileOfOverlay(boot: Settings, ov: Overrides)
    ensures FileOf(Overlay(boot, ov), ov.Keys) == Saved(ov)
  {
    var c := Overlay(boot, ov);
    assert forall f :: f in ov ==> c[f] == ov[f];
  }

  /** A validated change always commits: no applier can fail on it. */
  lemma CommitAgrees(d: Durations, st: State, l: Ledger, ov: Overrides)
    requires d.Lawful() && Agrees(d, st, l) && Validated(d, ov)
    ensures Commit(d, st, ov).1
    ensures Agrees(d, Commit(d, st, ov).0, l.(current := l.current + ov))
  {
    StaysRunnable(d, l.boot, l.current);
    ValidatedPatchApplies(d, st.cur, ov);
    OverlayOverlay(l.boot, l.current, ov);
    ValidatedMerge(d, l.current, ov);
    assert l.current.Keys + ov.Keys == (l.current + ov).Keys;
  }

  lemma SavedIsTunable(ov: Overrides)
    ensures Tunables(Saved(ov)) == Saved(ov)
  {
  }

  lemma SavedEntries(d: Durations, ov: Overrides)
    requires Validated(d, ov)
    ensures Decodes(d, Saved(ov), ov)
  {
    var raw := Saved(ov);
    forall k | k in raw ensures k.Tunable? && k.field in ov && Decode(d, k.field, raw[k]) == Some(ov[k.field]) {
      assert FixedPoint(d, k.field, ov[k.field]);
    }
  }

  lemma FileOfTunables(d: Durations, raw: Body, ov: Overrides)
    requires Decodes(d, raw, ov) && Tunables(raw) == raw
    ensures FileChange(d, Some(raw)) == ov
  {
    DecodesIsDecoded(d, raw, ov);
  }

  /** Reading a file the machine wrote gives back the overrides that were saved. */
  lemma SavedDecodes(d: Durations, ov: Overrides)
    requires Validated(d, ov)
    ensures FileChange(d, Some(Saved(ov))) == ov
  {
    SavedEntries(d, ov);
    SavedIsTunable(ov);
    FileOfTunables(d, Saved(ov), ov);
  }

  lemma UpdateAgrees(d: Durations, st: State, l: Ledger, raw: Body, saved: bool)
    requires d.Lawful() && Agrees(d, st, l)
    ensures Agrees(d, Update(d, st, raw, saved).0, Book(l, JsonChange(d, raw), saved))
    ensures Update(d, st, raw, saved).1.Accepted? <==> BodyOk(d, raw)
    ensures !BodyOk(d, raw) ==> Update(d, st, raw, saved).0 == st
  {
    var ov := JsonChange(d, raw);
    ChangeIsValidated(d, raw);
    if BodyOk(d, raw) && ov != map[] {
      CommitAgrees(d, st, l, ov);
      FileOfOverlay(l.boot, l.current + ov);
      ValidatedMerge(d, l.current, ov);
      SavedDecodes(d, l.current + ov);
    }
  }

  lemma UnloadedAgrees(d: Durations, boot: Settings, file: Option<Body>)
    requires d.Lawful() && Runnable(d, boot)
    ensures Agrees(d, State(boot, {}, LiveOf(d, boot), file), Ledger(boot, map[], FileChange(d, file), file))
  {
    MergeEmpty(boot);
    if file.Some? { ChangeIsValidated(d, Tunables(file.value)); }
  }

  /** A new process runs its boot values overlaid with the overrides of the file it finds. */
  lemma RestartAgrees(d: Durations, boot: Settings, file: Option<Body>)
    requires d.Lawful() && Runnable(d, boot)
    ensures Agrees(d, Restart(d, boot, file), Ledger(boot, FileChange(d, file), FileChange(d, file), file))
  {
    var st, ov := State(boot, {}, LiveOf(d, boot), file), FileChange(d, file);
    UnloadedAgrees(d, boot, file);
    if ov != map[] {
      CommitAgrees(d, st, Ledger(boot, map[], ov, file), ov);
      MergeEmpty(ov);
    } else if file.Some? && BodyOk(d, Tunables(file.value)) {
      ChangeHasEveryField(d, Tunables(file.value));
    }
  }

  lemma ChangeHasEveryField(d: Durations, raw: Body)
    requires BodyOk(d, raw)
    ensures forall k :: k in raw ==> k.Tunable? && k.field in JsonChange(d, raw)
  {
    assert forall k :: k in raw ==> FieldOk(d, k, raw[k]);
  }

  lemma StepAgrees(d: Durations, st: State, l: Ledger, e: Event)
    requires d.Lawful() && Agrees(d, st, l)
    requires e.Reboot? ==> Runnable(d, e.boot)
    ensures Agrees(d, Step(d, st, e), BookStep(d, l, e))
  {
    match e {
      case JsonPut(raw, saved) => PutAgrees(d, st, l, raw, saved);
      case FormPut(form, saved) => PutFormAgrees(d, st, l, form, saved);
      case Reboot(next) => RestartAgrees(d, next, st.file);
    }
  }

  lemma PutAgrees(d: Durations, st: State, l: Ledger, raw: Body, saved: bool)
    requires d.Lawful() && Agrees(d, st, l)
    ensures Agrees(d, Put(d, st, raw, saved).0, Book(l, JsonChange(d, raw), saved))
    ensures Put(d, st, raw, saved).1.Accepted? <==> BodyOk(d, raw)
    ensures !BodyOk(d, raw) ==> Put(d, st, raw, saved).0 == st
  {
    ForeignKeysNeverDecode(d, raw);
    if BodyOk(d, raw) {
      assert Put(d, st, raw, saved) == Update(d, st, raw, saved);
      UpdateAgrees(d, st, l, raw, saved);
    } else {
      assert Put(d, st, raw, saved) == (st, BadRequest);
    }
  }

  lemma PutFormAgrees(d: Durations, st: State, l: Ledger, form: Form, saved: bool)
    requires d.Lawful() && Agrees(d, st, l)
    ensures Agrees(d, PutForm(d, st, form, saved).0, Book(l, FormChange(d, form), saved))
    ensures PutForm(d, st, form, saved).1.Accepted? <==> FormOk(form) && BodyOk(d, FormBody(form))
    ensures !PutForm(d, st, form, saved).1.Accepted? ==> PutForm(d, st, form, saved).0 == st
  {
    if FormOk(form) {
      assert PutForm(d, st, form, saved) == Update(d, st, FormBody(form), saved);
      UpdateAgrees(d, st, l, FormBody(form), saved);
    }
  }

  /** The refinement: after every run, the settings are the boot values overlaid with the
      overrides in the books, the persisted set is their keys, the subsystems run exactly the
      settings, and the file holds exactly the last saved overrides. */
  lemma {:induction false} MachineAgreesWithBooks(d: Durations, start: Start, events: seq<Event>)
    requires d.Lawful() && Bootable(d, start, events)
    ensures Agrees(d, Run(d, start, events), Books(d, start, events))
  {
    if events == [] {
      RestartAgrees(d, start.boot, start.file);
    } else {
      var before := events[..|events| - 1];
      MachineAgreesWithBooks(d, start, before);
      StepAgrees(d, Run(d, start, before), Books(d, start, before), events[|events| - 1]);
    }
  }

  lemma ForeignKeysNeverDecode(d: Durations, raw: Body)
    ensures (exists k :: k in raw && !k.Tunable?) ==> !BodyOk(d, raw)
  {
    if k :| k in raw && !k.Tunable? {
      assert !FieldOk(d, k, raw[k]);
    }
  }

  lemma RestartFromFile(d: Durations, st: State, l: Ledger, next: Settings)
    requires d.Lawful() && Agrees(d, st, l) && Runnable(d, next)
    ensures var st' := Restart(d, next, st.file);
            && st'.persisted == l.saved.Keys
            && (forall f :: st'.cur[f] == if f in l.saved then l.saved[f] else next[f])
            && st'.file == st.file
  {
    RestartAgrees(d, next, st.file);
  }

  // ----- the theorems in the operator's words -----

  /** After a restart with any boot values, each setting is the last value successfully
      checkpointed for it, or the new boot value, and the persisted keys are the saved ones. */
  lemma RestartRestoresCheckpoint(d: Durations, start: Start, events: seq<Event>, next: Settings)
    requires d.Lawful() && Bootable(d, start, events) && Runnable(d, next)
    ensures var saved := Books(d, start, events).saved;
            var st := Run(d, start, events + [Reboot(next)]);
            && st.persisted == saved.Keys
            && (forall f :: st.cur[f] == if f in saved then saved[f] else next[f])
            && st.file == Run(d, start, events).file
  {
    assert (events + [Reboot(next)])[..|events|] == events;
    MachineAgreesWithBooks(d, start, events);
    RestartFromFile(d, Run(d, start, events), Books(d, start, events), next);
  }

  /** A change as a whole or not at all: either nothing moved, or exactly the fields present
      in the patch took their decoded values and the subsystems run the result. */
  predicate WholeOrNothing(d: Durations, before: State, after: State, reply: Reply, ov: Overrides) {
    if reply.Accepted? then
      && (forall f :: after.cur[f] == if f in ov then ov[f] else before.cur[f])
      && after.persisted == before.persisted + ov.Keys
      && after.live == LiveOf(d, after.cur)
    else after == before
  }

  /** Every update through either front end, in every reachable state, is whole or nothing,
      and is accepted exactly when every present field is acceptable. */
  lemma UpdatesAreAtomic(d: Durations, start: Start, events: seq<Event>, raw: Body, form: Form, saved: bool)
    requires d.Lawful() && Bootable(d, start, events)
    ensures var st := Run(d, start, events);
            var (st1, r1) := Put(d, st, raw, saved);
            var (st2, r2) := PutForm(d, st, form, saved);
            && (r1.Accepted? <==> BodyOk(d, raw))
            && WholeOrNothing(d, st, st1, r1, JsonChange(d, raw))
            && (r2.Accepted? <==> FormOk(form) && BodyOk(d, FormBody(form)))
            && WholeOrNothing(d, st, st2, r2, FormChange(d, form))
  {
    MachineAgreesWithBooks(d, start, events);
    var st, l := Run(d, start, events), Books(d, start, events);
    PutAgrees(d, st, l, raw, saved);
    PutFormAgrees(d, st, l, form, saved);
    BookedIsWhole(d, st, Put(d, st, raw, saved).0, l, JsonChange(d, raw), saved);
    BookedIsWhole(d, st, PutForm(d, st, form, saved).0, l, FormChange(d, form), saved);
  }

  lemma BookedIsWhole(d: Durations, before: State, after: State, l: Ledger, ov: Overrides, saved: bool)
    requires Agrees(d, before, l) && Agrees(d, after, Book(l, ov, saved))
    ensures WholeOrNothing(d, before, after, Accepted, ov)
  {
    MergeEmpty(l.current);
    assert Book(l, ov, saved).current == l.current + ov;
    OverlayOverlay(l.boot, l.current, ov);
    assert after.cur == Overlay(before.cur, ov);
  }

  /** A file anyone may have edited is applied whole or not at all, to settings, persisted keys and
      subsystems alike: one bad entry drops every override, not only its own, and foreign keys drop
      none. */
  lemma LoadIsAllOrNothing(d: Durations, boot: Settings, file: Body)
    requires d.Lawful() && Runnable(d, boot)
    ensures var ov := if BodyOk(d, Tunables(file)) then Decoded(d, Tunables(file)) else map[];
            Restart(d, boot, Some(file)) == State(Overlay(boot, ov), ov.Keys, LiveOf(d, Overlay(boot, ov)), Some(file))
  {
    RestartAgrees(d, boot, Some(file));
  }
}
