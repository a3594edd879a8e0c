/** The runtime-config holder: the PUT transaction, the console form, the override checkpoint
    and its reload (internal/httpapi/admin_config.go, admin_config_checkpoint.go,
    webui_settings.go). */
module RuntimeConfig {
  import opened Prelude
  import opened Ordering
  import opened Text
  import opened Decimal
  import opened ConfigFields
  import opened ConfigLive

  /** A decoded request body or checkpoint file. */
  type Body = map<Key, Json>

  /** The holder, the subsystems it drives, and the checkpoint file. */
  datatype State = State(cur: Settings, persisted: set<Field>, live: Live, file: Option<Body>)

  datatype Reply = Accepted | BadRequest

  // ----- a patch, on values -----

  predicate FieldOk(d: Durations, key: Key, m: Json) { key.Tunable? && Decode(d, key.field, m).Some? }

  predicate BodyOk(d: Durations, raw: Body) { forall k :: k in raw ==> FieldOk(d, k, raw[k]) }

  /** The overrides an acceptable body stands for. */
  function Decoded(d: Durations, raw: Body): (ov: Overrides)
    requires BodyOk(d, raw)
    ensures forall f :: f in ov <==> Tunable(f) in raw
    ensures forall f :: f in ov ==> Decode(d, f, raw[Tunable(f)]) == Some(ov[f])
  {
    assert forall f :: Tunable(f) in raw ==> FieldOk(d, Tunable(f), raw[Tunable(f)]);
    map f: Field | Tunable(f) in raw :: Decode(d, f, raw[Tunable(f)]).value
  }

  /** applyConfigPatch: validates the present fields in key order into a copy of the current
      settings, and stops at the first that does not pass. */
  method ApplyConfigPatch(d: Durations, cur: Settings, raw: Body) returns (r: Result<(Settings, set<Field>), Key>)
    ensures r.Ok? <==> BodyOk(d, raw)
    ensures r.Ok? ==> r.value == (Overlay(cur, Decoded(d, raw)), Decoded(d, raw).Keys)
    ensures r.Err? ==> r.error in raw && !FieldOk(d, r.error, raw[r.error])
    ensures r.Err? ==> forall k :: k in raw && !FieldOk(d, k, raw[k]) ==> !Less(KeyText(k), KeyText(r.error))
  {
    var dst, changed, left := cur, {}, raw.Keys;
    ghost var ov: Overrides := map[];
    while left != {}
      invariant left <= raw.Keys
      invariant Decodes(d, raw - left, ov)
      invariant dst == Overlay(cur, ov) && changed == ov.Keys
    {
      var key := Least(KeyText, left);
      OffendersAreLeft(d, raw, left, ov);
      if !key.Tunable? { return Err(key); }
      var v := Decode(d, key.field, raw[key]);
      if v.None? { return Err(key); }
      DecodesExtend(d, raw - left, ov, key, raw[key], v.value);
      RemoveLess(raw, left, key);
      OverlaySet(cur, ov, key.field, v.value);
      dst, changed, left := dst[key.field := v.value], changed + {key.field}, left - {key};
      ov := ov[key.field := v.value];
    }
    assert raw - {} == raw;
    DecodesIsDecoded(d, raw, ov);
    return Ok((dst, changed));
  }

  lemma OffendersAreLeft(d: Durations, raw: Body, left: set<Key>, ov: Overrides)
    requires left <= raw.Keys && Decodes(d, raw - left, ov)
    ensures forall k :: k in raw && !FieldOk(d, k, raw[k]) ==> k in left
  {
    forall k | k in raw && k !in left ensures FieldOk(d, k, raw[k]) {
      assert k in raw - left && (raw - left)[k] == raw[k];
    }
  }

  /** ov holds exactly the decoded entries of raw, all of which decode. */
  predicate Decodes(d: Durations, raw: Body, ov: Overrides) {
    && (forall k :: k in raw ==> k.Tunable? && k.field in ov && Decode(d, k.field, raw[k]) == Some(ov[k.field]))
    && (forall f :: f in ov ==> Tunable(f) in raw)
  }

  lemma DecodesExtend(d: Durations, raw: Body, ov: Overrides, key: Key, m: Json, v: Value)
    requires Decodes(d, raw, ov) && key !in raw
    requires key.Tunable? && Decode(d, key.field, m) == Some(v)
    ensures Decodes(d, raw[key := m], ov[key.field := v])
  {
  }

  lemma DecodesIsDecoded(d: Durations, raw: Body, ov: Overrides)
    requires Decodes(d, raw, ov)
    ensures BodyOk(d, raw) && Decoded(d, raw) == ov
  {
  }

  // ----- the transaction, on values -----

  /** apply: push the change live and, only if every applier worked, commit it. */
  function Commit(d: Durations, st: State, ov: Overrides): (State, bool) {
    var next := Overlay(st.cur, ov);
    var (live, ok) := ApplyLive(d, st.live, next, ov.Keys);
    if ok then (State(next, st.persisted + ov.Keys, live, st.file), true)
    else (st.(live := live), false)
  }

  /** The override file: the current value of every field ever changed. */
  function FileOf(c: Settings, persisted: set<Field>): Body {
    map f | f in persisted :: Tunable(f) := Encode(c[f])
  }

  /** A checkpoint that fails leaves the old file; one that works replaces it whole. */
  function Checkpoint(st: State, saved: bool): State {
    if saved then st.(file := Some(FileOf(st.cur, st.persisted))) else st
  }

  /** The validate, apply, commit, checkpoint pipeline that both front ends share. */
  function Update(d: Durations, st: State, raw: Body, saved: bool): (State, Reply) {
    if !BodyOk(d, raw) then (st, BadRequest)
    else
      var ov := Decoded(d, raw);
      if ov == map[] then (st, Accepted)
      else
        var (next, ok) := Commit(d, st, ov);
        if ok then (Checkpoint(next, saved), Accepted) else (next, BadRequest)
  }

  /** PUT /v1/admin/config. A read-only key is refused like an unknown one. */
  function Put(d: Durations, st: State, raw: Body, saved: bool): (State, Reply) {
    if exists k :: k in raw && !k.Tunable? then (st, BadRequest)
    else Update(d, st, raw, saved)
  }

  // ----- the console form -----

  type Form = map<Key, string>

  /** A form entry that fails the form itself. */
  predicate FormBad(key: Key, val: string) {
    || key.ReadOnlyKey?
    || (key.Tunable? && Numeric(key.field) && Trim(val) != "" && !AllDigits(Trim(val)))
  }

  /** A form entry that becomes part of the patch: a blank one means leave unchanged, and a
      key that names no setting (the CSRF token, a tab marker) is ignored. */
  predicate FormUsed(key: Key, val: string) { key.Tunable? && Trim(val) != "" }

  function FormJson(key: Key, val: string): Json {
    if key.Tunable? && Numeric(key.field) then JNumber(Trim(val)) else JString(Trim(val))
  }

  predicate FormOk(form: Form) { forall k :: k in form ==> !FormBad(k, form[k]) }

  function FormBody(form: Form): Body {
    Collect(form, FormUsed, FormJson)
  }

  /** settingsFormToPatch ranges over the form in no particular order; the outcome does not
      depend on it. */
  method SettingsFormToPatch(form: Form) returns (r: Option<Body>)
    ensures r == if FormOk(form) then Some(FormBody(form)) else None
  {
    var raw: Body, left := map[], form.Keys;
    assert form - left == map[];
    while left != {}
      invariant left <= form.Keys
      invariant FormOk(form - left) && raw == FormBody(form - left)
    {
      var key :| key in left;
      FormExtend(form - left, key, form[key]);
      RemoveLess(form, left, key);
      left := left - {key};
      if key.ReadOnlyKey? {
        assert FormBad(key, form[key]);
        return None;
      }
      var val := Trim(form[key]);
      if !key.Tunable? || val == "" { continue; }
      if Numeric(key.field) {
        if !AllDigits(val) {
          assert FormBad(key, form[key]);
          return None;
        }
        raw := raw[key := JNumber(val)];
      } else {
        raw := raw[key := JString(val)];
      }
    }
    assert form - {} == form;
    r := Some(raw);
  }

  lemma FormExtend(seen: Form, key: Key, val: string)
    requires FormOk(seen) && key !in seen
    ensures FormOk(seen[key := val]) <==> !FormBad(key, val)
    ensures FormBody(seen[key := val]) ==
            if FormUsed(key, val) then FormBody(seen)[key := FormJson(key, val)] else FormBody(seen)
  {
    assert seen[key := val][key] == val;
    CollectUpdate(seen, FormUsed, FormJson, key, val);
  }

  /** PUT /admin/config from the console. */
  function PutForm(d: Durations, st: State, form: Form, saved: bool): (State, Reply) {
    if FormOk(form) then Update(d, st, FormBody(form), saved) else (st, BadRequest)
  }

  // ----- reload -----

  /** The entries a reload looks at. */
  function Tunables(file: Body): Body { map k | k in file && k.Tunable? :: file[k] }

  /** LoadConfigCheckpoint: drop foreign keys, then apply everything or nothing. */
  function Load(d: Durations, st: State): State {
    match st.file
    case None => st
    case Some(file) =>
      var raw := Tunables(file);
      if raw == map[] || !BodyOk(d, raw) then st
      else Commit(d, st, Decoded(d, raw)).0
  }

  /** A new process: the subsystems are built from the boot values, then the file is loaded. */
  function Restart(d: Durations, boot: Settings, file: Option<Body>): State {
    Load(d, State(boot, {}, LiveOf(d, boot), file))
  }

  // ----- the holder object -----

  class Holder {
    const d: Durations
    var cur: Settings
    var persisted: set<Field>
    var live: Live
    var file: Option<Body>

    ghost function Now(): State
      reads this
    {
      State(cur, persisted, live, file)
    }

    constructor (d: Durations, initial: Settings, file: Option<Body>)
      ensures this.d == d && Now() == State(initial, {}, LiveOf(d, initial), file)
    {
      this.d, this.file := d, file;
      cur, persisted, live := initial, {}, LiveOf(d, initial);
    }

    /** Calls the appliers; each one checks its value before it changes anything. */
    method PushLive(next: Settings, changed: set<Field>) returns (ok: bool)
      modifies this`live
      ensures (live, ok) == ApplyLive(d, old(live), next, changed)
    {
      if LogLevel in changed {
        var (level, levelOk) := ParseLevel(StrOf(next, LogLevel));
        if !levelOk { return false; }
        live := live.(level := level);
      }
      assert live == ApplyLevel(old(live), next, changed);
      PushQuota(next, changed);
      if SessionTTL in changed {
        live := live.(sessionTTL := Positive(DurationOf(d, next, SessionTTL), live.sessionTTL));
      }
      assert live == ApplyTTL(d, ApplyQuota(ApplyLevel(old(live), next, changed), next, changed), next, changed);
      if Touches(changed, SESSION_CAPS) {
        var (_, policyOk) := ParsePolicy(StrOf(next, SessionOverflowPolicy));
        if !policyOk { return false; }
        live := live.(caps := CapsOf(next), maxPerKey := PerKeyOf(next));
      }
      PushTimeouts(next, changed);
      ok := true;
    }

    method PushQuota(next: Settings, changed: set<Field>)
      modifies this`live
      ensures live == ApplyQuota(old(live), next, changed)
    {
      if Touches(changed, QUOTA_DEFAULTS) {
        live := live.(defaults := QuotaOf(next));
      }
      if Touches(changed, QUOTA_GLOBAL) {
        live := live.(globalRPM := NumOf(next, QuotaGlobalRPM), globalTPM := NumOf(next, QuotaGlobalTPM));
      }
    }

    method PushTimeouts(next: Settings, changed: set<Field>)
      modifies this`live
      ensures live == ApplyTimeouts(d, old(live), next, changed)
    {
      if ModelWarmMax in changed {
        live := live.(modelWarmMax := Positive(DurationOf(d, next, ModelWarmMax), live.modelWarmMax));
      }
      if HeartbeatTimeout in changed {
        live := live.(heartbeatTimeout := Positive(DurationOf(d, next, HeartbeatTimeout), live.heartbeatTimeout));
      }
    }

    method Apply(next: Settings, changed: set<Field>) returns (ok: bool)
      modifies this
      ensures var (live', ok') := ApplyLive(d, old(live), next, changed);
              && ok == ok'
              && Now() == if ok then State(next, old(persisted) + changed, live', old(file))
                          else old(Now()).(live := live')
    {
      ok := PushLive(next, changed);
      if ok {
        cur := next;
        persisted := persisted + changed;
      }
    }

    method WriteCheckpoint(saved: bool)
      modifies this
      ensures Now() == Checkpoint(old(Now()), saved)
    {
      var overrides: Body, left := map[], persisted;
      while left != {}
        invariant left <= persisted
        invariant overrides == FileOf(cur, persisted - left)
      {
        var f :| f in left;
        assert persisted - (left - {f}) == persisted - left + {f};
        overrides, left := overrides[Tunable(f) := Encode(cur[f])], left - {f};
      }
      assert persisted - {} == persisted;
      if saved { file := Some(overrides); }
    }

    method UpdateConfig(raw: Body, saved: bool) returns (reply: Reply)
      modifies this
      ensures (Now(), reply) == Update(d, old(Now()), raw, saved)
    {
      var patch := ApplyConfigPatch(d, cur, raw);
      if patch.Err? { return BadRequest; }
      var (pending, changed) := patch.value;
      if changed == {} {
        assert Decoded(d, raw) == map[];
        return Accepted;
      }
      var ok := Apply(pending, changed);
      if !ok { return BadRequest; }
      WriteCheckpoint(saved);
      return Accepted;
    }

    method PutConfig(raw: Body, saved: bool) returns (reply: Reply)
      modifies this
      ensures (Now(), reply) == Put(d, old(Now()), raw, saved)
    {
      if exists k :: k in raw && !k.Tunable? { return BadRequest; }
      reply := UpdateConfig(raw, saved);
    }

    method PutConfigForm(form: Form, saved: bool) returns (reply: Reply)
      modifies this
      ensures (Now(), reply) == PutForm(d, old(Now()), form, saved)
    {
      var raw := SettingsFormToPatch(form);
      if raw.None? { return BadRequest; }
      reply := UpdateConfig(raw.value, saved);
    }

    method LoadConfigCheckpoint()
      modifies this
      ensures Now() == Load(d, old(Now()))
    {
      if file.None? { return; }
      var raw, left := file.value, file.value.Keys;
      while left != {}
        invariant left <= file.value.Keys
        invariant raw == map k | k in file.value && (k in left || k.Tunable?) :: file.value[k]
      {
        var key :| key in left;
        left := left - {key};
        if !key.Tunable? { raw := raw - {key}; }
      }
      assert raw == Tunables(file.value);
      if raw == map[] { return; }
      var patch := ApplyConfigPatch(d, cur, raw);
      if patch.Err? { return; }
      var ok := Apply(patch.value.0, patch.value.1);
    }
  }
}
