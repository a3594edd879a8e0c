/** Which setting each live figure comes from, and which JSON value each setting takes
    (internal/httpapi/admin_config.go, cmd/agentgpu/config_wiring.go). */
module ConfigFigures {
  import opened Prelude
  import opened Text
  import opened Decimal
  import opened ConfigFields
  import opened ConfigLive
  import opened RuntimeConfig
  import opened ConfigRuns

  // ----- live figures -----

  /** A figure is the number its setting holds. */
  predicate IsNumber(v: Value, n: int) { v.Num? ==> n == v.n }

  /** A figure is the duration its setting spells, in nanoseconds. */
  predicate IsDurationOf(d: Durations, v: Value, n: int) { v.Str? ==> d.parse(v.s) == Some(n) && n > 0 }

  predicate QuotaFigures(c: Settings, live: Live) {
    && IsNumber(c[QuotaDefaultRPM], live.defaults.rpm)
    && IsNumber(c[QuotaDefaultTPM], live.defaults.tpm)
    && IsNumber(c[QuotaDefaultDailyTokens], live.defaults.daily)
    && IsNumber(c[QuotaDefaultMonthlyTokens], live.defaults.monthly)
    && IsNumber(c[QuotaGlobalRPM], live.globalRPM)
    && IsNumber(c[QuotaGlobalTPM], live.globalTPM)
  }

  predicate CapFigures(c: Settings, live: Live) {
    && IsNumber(c[SessionMaxTurns], live.caps.maxTurns)
    && IsNumber(c[SessionMaxBytes], live.caps.maxBytes)
    && IsNumber(c[SessionMaxContextTokens], live.caps.maxTokens)
    && (c[SessionMaxSessionsPerKey].Num? ==>
        live.maxPerKey == if c[SessionMaxSessionsPerKey].n < 0 then 0 else c[SessionMaxSessionsPerKey].n)
    && (c[SessionOverflowPolicy].Str? ==> (live.caps.policy == Reject <==> Normal(c[SessionOverflowPolicy].s) == "reject"))
  }

  predicate DurationFigures(d: Durations, c: Settings, live: Live) {
    && IsDurationOf(d, c[SessionTTL], live.sessionTTL)
    && IsDurationOf(d, c[ModelWarmMax], live.modelWarmMax)
    && IsDurationOf(d, c[HeartbeatTimeout], live.heartbeatTimeout)
  }

  /** The level a name stands for; info is what any other name falls back to. */
  predicate LevelFigure(v: Value, level: Level) {
    v.Str? ==>
      && (level == Debug <==> Normal(v.s) == "debug")
      && (level == Warn <==> Normal(v.s) == "warn" || Normal(v.s) == "warning")
      && (level == Error <==> Normal(v.s) == "error")
  }

  lemma LiveQuotas(d: Durations, c: Settings)
    ensures QuotaFigures(c, LiveOf(d, c)) && CapFigures(c, LiveOf(d, c))
  {
    if c[SessionOverflowPolicy].Str? { PolicyFigure(c[SessionOverflowPolicy].s); }
  }

  lemma PolicyFigure(name: string)
    ensures ParsePolicy(name).0 == Reject <==> Normal(name) == "reject"
  {
    NamedPolicies(Normal(name));
  }

  lemma NamedPolicies(n: string)
    ensures NamedPolicy(n).0 == Reject <==> n == "reject"
  {
    assert |"trim"| == 4 && |"reject"| == 6;
  }

  lemma LevelOfName(v: Value)
    requires v.Str?
    ensures LevelFigure(v, ParseLevel(v.s).0)
  {
    NamedLevels(Normal(v.s));
  }

  lemma NamedLevels(n: string)
    ensures NamedLevel(n).0 == Debug <==> n == "debug"
    ensures NamedLevel(n).0 == Warn <==> n == "warn" || n == "warning"
    ensures NamedLevel(n).0 == Error <==> n == "error"
  {
    assert "debug"[0] == 'd' && "info"[0] == 'i' && "warn"[0] == 'w' && "warning"[0] == 'w' && "error"[0] == 'e';
  }

  lemma LiveDurations(d: Durations, c: Settings)
    requires Runnable(d, c)
    ensures DurationFigures(d, c, LiveOf(d, c))
  {
  }

  /** Over every run, each live figure is the value of the setting of its own name. */
  lemma FiguresFollowSettings(d: Durations, start: Start, events: seq<Event>)
    requires d.Lawful() && Bootable(d, start, events)
    ensures var st := Run(d, start, events);
            && QuotaFigures(st.cur, st.live) && CapFigures(st.cur, st.live)
            && DurationFigures(d, st.cur, st.live) && LevelFigure(st.cur[LogLevel], st.live.level)
  {
    MachineAgreesWithBooks(d, start, events);
    var st, l := Run(d, start, events), Books(d, start, events);
    StaysRunnable(d, l.boot, l.current);
    LiveQuotas(d, st.cur);
    LiveDurations(d, st.cur);
    if st.cur[LogLevel].Str? { LevelOfName(st.cur[LogLevel]); }
  }

  // ----- settings keep their type -----

  /** The counts and limits hold numbers, the other settings texts, as in the source's struct. */
  predicate WellTyped(c: Settings) { forall f :: TypedAt(c, f) }

  predicate TypedAt(c: Settings, f: Field) { c[f].Num? <==> Numeric(f) }

  lemma OverlayKeepsTypes(d: Durations, c: Settings, ov: Overrides)
    requires WellTyped(c) && Validated(d, ov)
    ensures WellTyped(Overlay(c, ov))
  {
    forall f ensures TypedAt(Overlay(c, ov), f) {
      assert TypedAt(c, f);
      if f in ov { assert FixedPoint(d, f, ov[f]); }
    }
  }

  lemma {:induction false} BootIsTyped(d: Durations, start: Start, events: seq<Event>)
    requires WellTyped(start.boot) && forall i :: 0 <= i < |events| && events[i].Reboot? ==> WellTyped(events[i].boot)
    ensures WellTyped(Books(d, start, events).boot)
  {
    if events != [] {
      var before := events[..|events| - 1];
      BootIsTyped(d, start, before);
      BootStep(d, Books(d, start, before), events[|events| - 1]);
    }
  }

  /** So every figure above does come from a setting of its type. */
  lemma SettingsStayTyped(d: Durations, start: Start, events: seq<Event>)
    requires d.Lawful() && Bootable(d, start, events)
    requires WellTyped(start.boot) && forall i :: 0 <= i < |events| && events[i].Reboot? ==> WellTyped(events[i].boot)
    ensures WellTyped(Run(d, start, events).cur)
  {
    MachineAgreesWithBooks(d, start, events);
    BootIsTyped(d, start, events);
    OverlayKeepsTypes(d, Books(d, start, events).boot, Books(d, start, events).current);
  }

  // ----- a patch moves its own figures only -----

  datatype Figure = Amount(n: int) | AtLevel(level: Level) | Under(policy: Policy)

  function FigureOf(live: Live, f: Field): Figure {
    match f
    case LogLevel => AtLevel(live.level)
    case QuotaDefaultRPM => Amount(live.defaults.rpm)
    case QuotaDefaultTPM => Amount(live.defaults.tpm)
    case QuotaDefaultDailyTokens => Amount(live.defaults.daily)
    case QuotaDefaultMonthlyTokens => Amount(live.defaults.monthly)
    case QuotaGlobalRPM => Amount(live.globalRPM)
    case QuotaGlobalTPM => Amount(live.globalTPM)
    case SessionTTL => Amount(live.sessionTTL)
    case SessionMaxTurns => Amount(live.caps.maxTurns)
    case SessionMaxBytes => Amount(live.caps.maxBytes)
    case SessionMaxContextTokens => Amount(live.caps.maxTokens)
    case SessionMaxSessionsPerKey => Amount(live.maxPerKey)
    case SessionOverflowPolicy => Under(live.caps.policy)
    case ModelWarmMax => Amount(live.modelWarmMax)
    case HeartbeatTimeout => Amount(live.heartbeatTimeout)
  }

  lemma FigureOfOwnSetting(d: Durations, a: Settings, b: Settings, f: Field)
    requires a[f] == b[f]
    ensures FigureOf(LiveOf(d, a), f) == FigureOf(LiveOf(d, b), f)
  {
  }

  lemma KeptSettingKeepsFigure(d: Durations, st: State, after: State, ov: Overrides, f: Field)
    requires WholeOrNothing(d, st, after, Accepted, ov) && st.live == LiveOf(d, st.cur) && f !in ov
    ensures FigureOf(after.live, f) == FigureOf(st.live, f) && after.cur[f] == st.cur[f]
  {
    FigureOfOwnSetting(d, after.cur, st.cur, f);
  }

  /** In every reachable state a PUT leaves the live figure of every field it does not name alone. */
  lemma OtherFiguresStay(d: Durations, start: Start, events: seq<Event>, raw: Body, saved: bool, f: Field)
    requires d.Lawful() && Bootable(d, start, events) && Tunable(f) !in raw
    ensures var st := Run(d, start, events);
            var after := Put(d, st, raw, saved).0;
            FigureOf(after.live, f) == FigureOf(st.live, f) && after.cur[f] == st.cur[f]
  {
    var st, l := Run(d, start, events), Books(d, start, events);
    MachineAgreesWithBooks(d, start, events);
    PutAgrees(d, st, l, raw, saved);
    var after := Put(d, st, raw, saved).0;
    BookedIsWhole(d, st, after, l, JsonChange(d, raw), saved);
    KeptSettingKeepsFigure(d, st, after, JsonChange(d, raw), f);
  }

  // ----- which values a field takes -----

  /** An int setting takes those of its own, and the literal -0. */
  lemma NonNegIntTakenExactly(lit: string, n: int)
    ensures DecodeNonNegInt(JNumber(lit)) == Some(n) <==> 0 <= n < TWO_63 && (lit == Itoa(n) || (lit == "-0" && n == 0))
  {
    if 0 <= n < TWO_63 && lit == Itoa(n) { JsonLiteralOfDigits(n); }
    if lit == "-0" { MinusZero(lit); }
    if DecodeNonNegInt(JNumber(lit)) == Some(n) {
      IntLiterals(lit);
    }
  }

  predicate UintField(f: Field) {
    || f.QuotaDefaultRPM? || f.QuotaDefaultTPM? || f.QuotaDefaultDailyTokens? || f.QuotaDefaultMonthlyTokens?
    || f.QuotaGlobalRPM? || f.QuotaGlobalTPM?
  }

  predicate IntField(f: Field) {
    f.SessionMaxTurns? || f.SessionMaxBytes? || f.SessionMaxContextTokens? || f.SessionMaxSessionsPerKey?
  }

  /** The JSON values a number field takes: the quotas are uint64s, the session limits ints; null is
      zero. */
  lemma NumbersTakenExactlyWhen(d: Durations, f: Field, m: Json, n: int)
    requires UintField(f) || IntField(f)
    ensures Decode(d, f, m) == Some(Num(n)) <==>
      || (m == JNull && n == 0)
      || (m.JNumber? && 0 <= n < (if UintField(f) then TWO_64 else TWO_63) && m.lit == Itoa(n))
      || (m == JNumber("-0") && n == 0 && IntField(f))
    ensures Decode(d, f, m).Some? ==> Decode(d, f, m).value.Num?
  {
    if m.JNumber? {
      UintTakenExactly(m.lit, n);
      NonNegIntTakenExactly(m.lit, n);
    }
  }

  /** The text a JSON value gives a field that wants one; null gives the empty text. */
  function TextOf(m: Json): string { if m.JString? then m.s else "" }

  predicate Textual(m: Json) { m.JString? || m.JNull? }

  lemma NameTaken(m: Json, names: set<string>, s: string)
    ensures EnumValue(m, names) == Some(Str(s)) <==> Textual(m) && s == Normal(TextOf(m)) && s in names
  {
  }

  predicate IsLevel(s: string) { s == "debug" || s == "info" || s == "warn" || s == "warning" || s == "error" }

  predicate IsPolicy(s: string) { s == "trim" || s == "reject" }

  lemma LevelNames(s: string)
    ensures s in LEVELS <==> IsLevel(s)
  {
  }

  lemma PolicyNames(s: string)
    ensures s in POLICIES <==> IsPolicy(s)
  {
  }

  /** The texts the other fields take: a level or a policy by its normalised name, a duration if it is
      positive, as it is printed. No empty text, null or number is taken. */
  lemma TextsTakenExactlyWhen(d: Durations, f: Field, m: Json, s: string)
    requires !UintField(f) && !IntField(f)
    ensures Decode(d, f, m) == Some(Str(s)) <==> Textual(m) && TakenAs(d, f, TextOf(m), s)
  {
    LevelNames(s);
    PolicyNames(s);
    NameTaken(m, LEVELS, s);
    NameTaken(m, POLICIES, s);
  }

  predicate TakenAs(d: Durations, f: Field, text: string, s: string) {
    if f.LogLevel? then s == Normal(text) && IsLevel(s)
    else if f.SessionOverflowPolicy? then s == Normal(text) && IsPolicy(s)
    else
      var n := d.parse(Trim(text));
      n.Some? && n.value > 0 && s == d.render(n.value)
  }

  // ----- from a key of the API to the figure it moves -----

  /** The number is in force as the live figure that the key names. */
  predicate FigureNamed(key: string, live: Live, n: int) {
    && (key == "quota_default_rpm" ==> live.defaults.rpm == n)
    && (key == "quota_default_tpm" ==> live.defaults.tpm == n)
    && (key == "quota_default_daily_tokens" ==> live.defaults.daily == n)
    && (key == "quota_default_monthly_tokens" ==> live.defaults.monthly == n)
    && (key == "quota_global_rpm" ==> live.globalRPM == n)
    && (key == "quota_global_tpm" ==> live.globalTPM == n)
    && (key == "session_max_turns" ==> live.caps.maxTurns == n)
    && (key == "session_max_bytes" ==> live.caps.maxBytes == n)
    && (key == "session_max_context_tokens" ==> live.caps.maxTokens == n)
    && (key == "session_max_sessions_per_key" ==> live.maxPerKey == n)
  }

  lemma SameName(f: Field, g: Field)
    ensures Name(f) == Name(g) ==> f == g
  {
    if Name(f) == Name(g) { NameInjective(f, g); }
  }

  lemma QuotaFiguresByName(c: Settings, live: Live, f: Field, n: int)
    requires QuotaFigures(c, live) && CapFigures(c, live) && c[f] == Num(n) && n >= 0
    ensures FigureNamed(Name(f), live, n)
  {
    SameName(f, QuotaDefaultRPM);
    SameName(f, QuotaDefaultTPM);
    SameName(f, QuotaDefaultDailyTokens);
    SameName(f, QuotaDefaultMonthlyTokens);
    SameName(f, QuotaGlobalRPM);
    SameName(f, QuotaGlobalTPM);
    SameName(f, SessionMaxTurns);
    SameName(f, SessionMaxBytes);
    SameName(f, SessionMaxContextTokens);
    SameName(f, SessionMaxSessionsPerKey);
  }

  lemma OneNumber(d: Durations, f: Field, n: int)
    requires (UintField(f) && 0 <= n < TWO_64) || (IntField(f) && 0 <= n < TWO_63)
    ensures JsonChange(d, map[Tunable(f) := JNumber(Itoa(n))]) == map[f := Num(n)]
    ensures BodyOk(d, map[Tunable(f) := JNumber(Itoa(n))])
  {
    var raw := map[Tunable(f) := JNumber(Itoa(n))];
    NumbersTakenExactlyWhen(d, f, JNumber(Itoa(n)), n);
    assert Decodes(d, raw, map[f := Num(n)]);
    DecodesIsDecoded(d, raw, map[f := Num(n)]);
  }

  /** In every reachable state, putting a number under the key of a quota or a session limit is accepted
      and makes it the live figure of that name. */
  lemma NumberReachesItsFigure(d: Durations, start: Start, events: seq<Event>, f: Field, n: int, saved: bool)
    requires d.Lawful() && Bootable(d, start, events)
    requires (UintField(f) && 0 <= n < TWO_64) || (IntField(f) && 0 <= n < TWO_63)
    ensures var raw := map[Classify(Name(f)) := JNumber(Itoa(n))];
            var (after, reply) := Put(d, Run(d, start, events), raw, saved);
            reply.Accepted? && FigureNamed(Name(f), after.live, n)
  {
    ClassifyName(f);
    var raw := map[Tunable(f) := JNumber(Itoa(n))];
    OneNumber(d, f, n);
    MachineAgreesWithBooks(d, start, events);
    var st, l := Run(d, start, events), Books(d, start, events);
    PutAgrees(d, st, l, raw, saved);
    PutSets(d, st, l, raw, f, n, saved);
  }

  lemma PutSets(d: Durations, st: State, l: Ledger, raw: Body, f: Field, n: int, saved: bool)
    requires Agrees(d, st, l) && Agrees(d, Put(d, st, raw, saved).0, Book(l, JsonChange(d, raw), saved))
    requires JsonChange(d, raw) == map[f := Num(n)] && n >= 0
    ensures FigureNamed(Name(f), Put(d, st, raw, saved).0.live, n)
  {
    var after := Put(d, st, raw, saved).0;
    BookedIsWhole(d, st, after, l, map[f := Num(n)], saved);
    LiveQuotas(d, after.cur);
    QuotaFiguresByName(after.cur, after.live, f, n);
  }

  // ----- the console form against the API -----

  /** What the form sends for an entry: numbers as number literals, the rest as strings. */
  predicate SameEntry(k: Key, text: string, m: Json) {
    k.Tunable? && m == if UintField(k.field) || IntField(k.field) then JNumber(Trim(text)) else JString(Trim(text))
  }

  predicate SameValues(form: Form, raw: Body) {
    && form.Keys == raw.Keys
    && (forall k :: k in form ==> SameEntry(k, form[k], raw[k]) && Trim(form[k]) != "")
    && (forall k :: k in form && raw[k].JNumber? ==> AllDigits(Trim(form[k])))
  }

  lemma EntryIsUsed(form: Form, raw: Body, k: Key)
    requires SameValues(form, raw) && k in form
    ensures !FormBad(k, form[k]) && FormUsed(k, form[k]) && FormJson(k, form[k]) == raw[k] && k.Tunable?
  {
    assert SameEntry(k, form[k], raw[k]);
  }

  lemma BodyOfForm(form: Form, raw: Body)
    requires SameValues(form, raw)
    ensures FormOk(form) && FormBody(form) == raw && forall k :: k in raw ==> k.Tunable?
  {
    forall k | k in form
      ensures !FormBad(k, form[k]) && FormUsed(k, form[k]) && FormJson(k, form[k]) == raw[k] && k.Tunable?
    {
      EntryIsUsed(form, raw, k);
    }
  }

  /** A form of filled-in settings does what the API does with the same values. */
  lemma FormIsTheSamePut(d: Durations, st: State, form: Form, raw: Body, saved: bool)
    requires SameValues(form, raw)
    ensures PutForm(d, st, form, saved) == Put(d, st, raw, saved)
  {
    BodyOfForm(form, raw);
  }

  /** An entry that is blank, or that names no setting at all, is as if it were not there. */
  lemma IgnoredEntry(d: Durations, st: State, form: Form, k: Key, text: string, saved: bool)
    requires k !in form && (k.UnknownKey? || (k.Tunable? && Trim(text) == ""))
    ensures PutForm(d, st, form[k := text], saved) == PutForm(d, st, form, saved)
  {
    assert form[k := text][k] == text;
    assert forall j :: j in form ==> j in form[k := text] && form[k := text][j] == form[j];
    assert FormOk(form[k := text]) <==> FormOk(form);
    CollectUpdate(form, FormUsed, FormJson, k, text);
  }

  /** A read-only key, or a number that is not all digits, refuses the form whole. */
  lemma RefusedEntry(d: Durations, st: State, form: Form, k: Key, saved: bool)
    requires k in form
    requires k.ReadOnlyKey? || (k.Tunable? && (UintField(k.field) || IntField(k.field)) && Trim(form[k]) != "" && !AllDigits(Trim(form[k])))
    ensures PutForm(d, st, form, saved) == (st, BadRequest)
  {
    assert FormBad(k, form[k]);
  }
}
