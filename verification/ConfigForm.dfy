/** The settings screen sent back untouched: what pressing Apply does to the settings, the
    subsystems and the persisted keys (internal/httpapi/webui_settings_data.go,
    internal/httpapi/webui/settings.templ, internal/httpapi/webui_settings.go). */
module ConfigForm {
  import opened Prelude
  import opened Arithmetic
  import opened Text
  import opened Decimal
  import opened ConfigFields
  import opened ConfigLive
  import opened RuntimeConfig
  import opened ConfigRuns

  // ----- what the screen holds -----

  const LEVEL_OPTIONS := ["debug", "info", "warn", "error"]

  const POLICY_OPTIONS := ["trim", "reject"]

  /** A select sends the option equal to the value, and its first one when there is none. */
  function Chosen(options: seq<string>, value: string): string
    requires options != []
  {
    if value in options then value else options[0]
  }

  /** The session limits are ints; the screen prints them as uint64. */
  predicate IsInt(f: Field) {
    f.SessionMaxTurns? || f.SessionMaxBytes? || f.SessionMaxContextTokens? || f.SessionMaxSessionsPerKey?
  }

  function Shown(c: Settings, f: Field): string {
    if f.LogLevel? then Chosen(LEVEL_OPTIONS, StrOf(c, f))
    else if f.SessionOverflowPolicy? then Chosen(POLICY_OPTIONS, StrOf(c, f))
    else if Numeric(f) then Itoa(NumOf(c, f) % TWO_64)
    else StrOf(c, f)
  }

  /** The form as the browser sends it: every tunable field as shown, besides entries that name
      no setting. */
  ghost predicate Displays(c: Settings, form: Form) {
    && (forall f :: Tunable(f) in form && form[Tunable(f)] == Shown(c, f))
    && (forall k :: k in form ==> !k.ReadOnlyKey?)
  }

  // ----- what one field comes back as -----

  /** A blank text is left out of the patch; only a duration can be blank. */
  predicate Sent(c: Settings, f: Field) { Trim(Shown(c, f)) != "" }

  /** The value a shown field is decoded to, or None when it is refused. */
  function Resent(d: Durations, c: Settings, f: Field): Option<Value> {
    if f.LogLevel? || f.SessionOverflowPolicy? then Some(Str(Shown(c, f)))
    else if Numeric(f) then
      var n := NumOf(c, f) % TWO_64;
      if IsInt(f) && n >= TWO_63 then None else Some(Num(n))
    else
      match d.parse(Trim(StrOf(c, f)))
      case None => None
      case Some(n) => if n <= 0 then None else Some(Str(d.render(n)))
  }

  lemma DigitsAreTrimmed(n: nat)
    ensures Trim(Digits(n)) == Digits(n)
  {
    var s := Digits(n);
    assert s[0] in s && s[|s| - 1] in s;
    TrimFixed(s);
  }

  predicate IsWord(s: string) { s != "" && forall c :: c in s ==> 'a' <= c <= 'z' }

  lemma OptionIsWord(options: seq<string>, names: set<string>, value: string)
    requires (options == LEVEL_OPTIONS && names == LEVELS) || (options == POLICY_OPTIONS && names == POLICIES)
    ensures var s := Chosen(options, value); IsWord(s) && s in options && s in names
  {
  }

  /** A lower-case name is its own normal form. */
  lemma WordIsKept(s: string, names: set<string>)
    requires IsWord(s) && s in names
    ensures Trim(s) == s != "" && EnumValue(JString(s), names) == Some(Str(s))
  {
    assert s[0] in s && s[|s| - 1] in s;
    TrimFixed(s);
    NormalOfLowerCase(s);
  }

  lemma OptionIsKept(options: seq<string>, names: set<string>, value: string)
    requires (options == LEVEL_OPTIONS && names == LEVELS) || (options == POLICY_OPTIONS && names == POLICIES)
    ensures var s := Chosen(options, value);
            Trim(s) == s != "" && EnumValue(JString(s), names) == Some(Str(s))
  {
    OptionIsWord(options, names, value);
    WordIsKept(Chosen(options, value), names);
  }

  lemma NumberIsKept(n: int)
    requires 0 <= n < TWO_64
    ensures Trim(Itoa(n)) == Itoa(n) != "" && AllDigits(Itoa(n))
    ensures DecodeUint(JNumber(Itoa(n))) == Some(n)
    ensures DecodeNonNegInt(JNumber(Itoa(n))) == if n < TWO_63 then Some(n) else None
  {
    DigitsAreTrimmed(n);
    NumberIsFixedPoint(n);
    if n >= TWO_63 {
      ValueOfDigits(n);
      assert Digits(n)[0] in Digits(n);
    }
  }

  /** What the form makes of a shown field. */
  ghost predicate Comes(d: Durations, c: Settings, f: Field) {
    && !FormBad(Tunable(f), Shown(c, f))
    && (Sent(c, f) ==> Decode(d, f, FormJson(Tunable(f), Shown(c, f))) == Resent(d, c, f))
  }

  predicate IsDuration(f: Field) { f.SessionTTL? || f.ModelWarmMax? || f.HeartbeatTimeout? }

  lemma EnumDecode(d: Durations, f: Field, m: Json)
    requires !Numeric(f) && !IsDuration(f)
    ensures Decode(d, f, m) == EnumValue(m, if f.LogLevel? then LEVELS else POLICIES)
  {
  }

  lemma OptionComes(d: Durations, c: Settings, f: Field, names: set<string>)
    requires !Numeric(f) && !IsDuration(f)
    requires names == if f.LogLevel? then LEVELS else POLICIES
    requires Trim(Shown(c, f)) == Shown(c, f) != ""
    requires EnumValue(JString(Shown(c, f)), names) == Some(Str(Shown(c, f)))
    ensures Comes(d, c, f) && Sent(c, f)
  {
    var s := Shown(c, f);
    EnumDecode(d, f, JString(s));
    assert FormJson(Tunable(f), s) == JString(s) && !FormBad(Tunable(f), s);
    assert Resent(d, c, f) == Some(Str(s));
  }

  lemma NumericDecode(d: Durations, f: Field, m: Json)
    requires Numeric(f)
    ensures var n := if IsInt(f) then DecodeNonNegInt(m) else DecodeUint(m);
            Decode(d, f, m) == if n.Some? then Some(Num(n.value)) else None
  {
  }

  lemma NumberComes(d: Durations, c: Settings, f: Field)
    requires Numeric(f)
    ensures Comes(d, c, f) && Sent(c, f)
  {
    var n := NumOf(c, f) % TWO_64;
    NumberIsKept(n);
    NumericDecode(d, f, JNumber(Itoa(n)));
  }

  lemma DurationDecode(d: Durations, f: Field, s: string)
    requires IsDuration(f)
    ensures var n := d.parse(Trim(s));
            Decode(d, f, JString(s)) == if n.Some? && n.value > 0 then Some(Str(d.render(n.value))) else None
  {
  }

  lemma DurationComes(d: Durations, c: Settings, f: Field)
    requires IsDuration(f)
    ensures Comes(d, c, f)
  {
    var s := Trim(StrOf(c, f));
    TrimFixed(s);
    DurationDecode(d, f, s);
    assert !Numeric(f) && FormJson(Tunable(f), Shown(c, f)) == JString(s);
  }

  lemma ShownComes(d: Durations, c: Settings, f: Field)
    ensures Comes(d, c, f)
    ensures !Sent(c, f) ==> IsDuration(f)
  {
    if f.LogLevel? {
      OptionIsKept(LEVEL_OPTIONS, LEVELS, StrOf(c, f));
      OptionComes(d, c, f, LEVELS);
    } else if f.SessionOverflowPolicy? {
      OptionIsKept(POLICY_OPTIONS, POLICIES, StrOf(c, f));
      OptionComes(d, c, f, POLICIES);
    } else if Numeric(f) {
      NumberComes(d, c, f);
    } else {
      DurationComes(d, c, f);
    }
  }

  // ----- what the whole form comes back as -----

  lemma DisplayedBody(d: Durations, c: Settings, form: Form)
    requires Displays(c, form)
    ensures FormOk(form)
    ensures forall f :: Tunable(f) in FormBody(form) <==> Sent(c, f)
    ensures forall f :: Sent(c, f) ==> Decode(d, f, FormBody(form)[Tunable(f)]) == Resent(d, c, f)
    ensures forall k :: k in FormBody(form) ==> k.Tunable?
  {
    forall f ensures Comes(d, c, f) && FormUsed(Tunable(f), Shown(c, f)) == Sent(c, f) { ShownComes(d, c, f); }
    forall k | k in form ensures !FormBad(k, form[k]) {
      if k.Tunable? { assert Comes(d, c, k.field); }
    }
  }

  /** No shown value is refused. */
  ghost predicate Acceptable(d: Durations, c: Settings) { forall f :: Sent(c, f) ==> Resent(d, c, f).Some? }

  lemma DisplayedChange(d: Durations, c: Settings, form: Form)
    requires Displays(c, form)
    ensures FormOk(form) && (BodyOk(d, FormBody(form)) <==> Acceptable(d, c))
    ensures Acceptable(d, c) ==> forall f ::
      && (f in FormChange(d, form) <==> Sent(c, f))
      && (Sent(c, f) ==> FormChange(d, form)[f] == Resent(d, c, f).value)
  {
    DisplayedBody(d, c, form);
    var body := FormBody(form);
    if BodyOk(d, body) {
      forall f | Sent(c, f) ensures Resent(d, c, f).Some? { assert FieldOk(d, Tunable(f), body[Tunable(f)]); }
    }
  }

  /** What an accepted form does: every field it sends is set to what it showed and marked
      persisted. */
  ghost predicate Resets(d: Durations, st: State, after: State)
    requires Acceptable(d, st.cur)
  {
    && (forall f :: after.cur[f] == if Sent(st.cur, f) then Resent(d, st.cur, f).value else st.cur[f])
    && (forall f :: f in after.persisted <==> f in st.persisted || Sent(st.cur, f))
    && after.live == LiveOf(d, after.cur)
  }

  /** Pressing Apply on the untouched screen: it is refused as a whole when a shown value is, and
      otherwise sets every field it sends to what it showed, marking all of them persisted. */
  lemma ResubmittedForm(d: Durations, start: Start, events: seq<Event>, form: Form, saved: bool)
    requires d.Lawful() && Bootable(d, start, events)
    requires Displays(Run(d, start, events).cur, form)
    ensures var st := Run(d, start, events);
            var (after, reply) := PutForm(d, st, form, saved);
            && (reply.Accepted? <==> Acceptable(d, st.cur))
            && (!reply.Accepted? ==> after == st)
            && (reply.Accepted? ==> Resets(d, st, after))
  {
    MachineAgreesWithBooks(d, start, events);
    var st, l := Run(d, start, events), Books(d, start, events);
    DisplayedChange(d, st.cur, form);
    PutFormAgrees(d, st, l, form, saved);
    if Acceptable(d, st.cur) {
      BookedIsWhole(d, st, PutForm(d, st, form, saved).0, l, FormChange(d, form), saved);
    }
  }

  // ----- when nothing changes -----

  /** The select has an option for the value in force. */
  predicate Listed(options: seq<string>, v: Value) { v.Str? && v.s in options }

  /** A shown field comes back as the value it shows. */
  predicate Kept(d: Durations, c: Settings, f: Field) {
    if f.LogLevel? then Listed(LEVEL_OPTIONS, c[f])
    else if f.SessionOverflowPolicy? then Listed(POLICY_OPTIONS, c[f])
    else Sent(c, f) ==> FixedPoint(d, f, c[f])
  }

  lemma DecodedRange(m: Json)
    ensures DecodeUint(m).Some? ==> 0 <= DecodeUint(m).value < TWO_64
    ensures DecodeNonNegInt(m).Some? ==> 0 <= DecodeNonNegInt(m).value < TWO_63
  {
  }

  /** The numbers validation keeps are those in the range of the field's type. */
  lemma FixedNumber(d: Durations, f: Field, n: int)
    requires Numeric(f)
    ensures FixedPoint(d, f, Num(n)) <==> 0 <= n < if IsInt(f) then TWO_63 else TWO_64
  {
    NumericDecode(d, f, Encode(Num(n)));
    DecodedRange(Encode(Num(n)));
    NumberIsFixedPoint(n);
  }

  lemma FixedIsNumber(d: Durations, f: Field, v: Value)
    requires Numeric(f) && FixedPoint(d, f, v)
    ensures v.Num?
  {
  }

  lemma KeptNumber(d: Durations, c: Settings, f: Field)
    requires Numeric(f) && Resent(d, c, f).Some?
    ensures Resent(d, c, f).value == c[f] <==> FixedPoint(d, f, c[f])
  {
    var n := NumOf(c, f);
    if c[f].Num? {
      FixedNumber(d, f, n);
      if 0 <= n < TWO_64 { ModSmall(n, TWO_64); }
    } else if FixedPoint(d, f, c[f]) {
      FixedIsNumber(d, f, c[f]);
    }
  }

  lemma KeptDuration(d: Durations, c: Settings, f: Field)
    requires IsDuration(f) && Sent(c, f) && Resent(d, c, f).Some?
    ensures Resent(d, c, f).value == c[f] <==> FixedPoint(d, f, c[f])
  {
  }

  lemma KeptExactlyWhen(d: Durations, c: Settings, f: Field)
    requires Sent(c, f) ==> Resent(d, c, f).Some?
    ensures Kept(d, c, f) <==> (Sent(c, f) ==> Resent(d, c, f).value == c[f])
  {
    ShownComes(d, c, f);
    if f.LogLevel? {
      OptionIsWord(LEVEL_OPTIONS, LEVELS, StrOf(c, f));
    } else if f.SessionOverflowPolicy? {
      OptionIsWord(POLICY_OPTIONS, POLICIES, StrOf(c, f));
    } else if Numeric(f) {
      KeptNumber(d, c, f);
    } else if Sent(c, f) {
      KeptDuration(d, c, f);
    }
  }

  /** A committed value comes back as it is, unless it is a log level. */
  lemma CommittedIsKept(d: Durations, c: Settings, f: Field)
    requires FixedPoint(d, f, c[f]) && !f.LogLevel?
    ensures Kept(d, c, f)
  {
    if f.SessionOverflowPolicy? { assert c[f].s in POLICIES; }
  }

  lemma SettingsKept(d: Durations, st: State, after: State)
    requires Acceptable(d, st.cur) && Resets(d, st, after)
    requires forall f: Field :: f in st.persisted ==> FixedPoint(d, f, st.cur[f])
    ensures after.cur == st.cur <==>
      && Listed(LEVEL_OPTIONS, st.cur[LogLevel])
      && forall f: Field :: f !in st.persisted && !f.LogLevel? ==> Kept(d, st.cur, f)
  {
    forall f ensures Kept(d, st.cur, f) <==> after.cur[f] == st.cur[f] { KeptExactlyWhen(d, st.cur, f); }
    forall f: Field | f in st.persisted && !f.LogLevel? ensures Kept(d, st.cur, f) { CommittedIsKept(d, st.cur, f); }
    assert Kept(d, st.cur, LogLevel) <==> Listed(LEVEL_OPTIONS, st.cur[LogLevel]);
    SameSettings(after.cur, st.cur);
  }

  lemma SameSettings(a: Settings, b: Settings)
    ensures a == b <==> forall f :: a[f] == b[f]
  {
  }

  lemma PersistedIsFixed(d: Durations, st: State, l: Ledger)
    requires Agrees(d, st, l)
    ensures st.live == LiveOf(d, st.cur)
    ensures forall f: Field :: f in st.persisted ==> FixedPoint(d, f, st.cur[f])
  {
    forall f: Field | f in st.persisted ensures FixedPoint(d, f, st.cur[f]) { assert st.cur[f] == l.current[f]; }
  }

  /** So an accepted form changes no setting exactly when the log level in force is one of the
      four options and every value still from boot is one validation would keep; and it persists
      nothing new exactly when every field it sends was changed before. */
  lemma ResubmittingChangesNothingExactlyWhen(d: Durations, start: Start, events: seq<Event>, form: Form, saved: bool)
    requires d.Lawful() && Bootable(d, start, events)
    requires Displays(Run(d, start, events).cur, form) && Acceptable(d, Run(d, start, events).cur)
    ensures var st := Run(d, start, events);
            var after := PutForm(d, st, form, saved).0;
            && (after.cur == st.cur <==>
                && Listed(LEVEL_OPTIONS, st.cur[LogLevel])
                && forall f: Field :: f !in st.persisted && !f.LogLevel? ==> Kept(d, st.cur, f))
            && (after.cur == st.cur ==> after.live == st.live)
            && (after.persisted == st.persisted <==> forall f :: Sent(st.cur, f) ==> f in st.persisted)
  {
    ResubmittedForm(d, start, events, form, saved);
    MachineAgreesWithBooks(d, start, events);
    var st := Run(d, start, events);
    PersistedIsFixed(d, st, Books(d, start, events));
    SettingsKept(d, st, PutForm(d, st, form, saved).0);
  }

  // ----- as the server is wired -----

  /** Boot values as the wiring makes them: everything but the log level, which is taken as the
      operator spelled it, is a value validation would keep. */
  ghost predicate Wired(d: Durations, boot: Settings) { forall f :: WiredAt(d, boot, f) }

  predicate WiredAt(d: Durations, c: Settings, f: Field) { !f.LogLevel? ==> FixedPoint(d, f, c[f]) }

  ghost predicate WiredRun(d: Durations, start: Start, events: seq<Event>) {
    Wired(d, start.boot) && forall i :: 0 <= i < |events| && events[i].Reboot? ==> Wired(d, events[i].boot)
  }

  lemma WiredIsRunnable(d: Durations, boot: Settings)
    requires d.Lawful() && Wired(d, boot)
    ensures Runnable(d, boot)
  {
    assert WiredAt(d, boot, SessionOverflowPolicy) && WiredAt(d, boot, SessionTTL);
    assert WiredAt(d, boot, ModelWarmMax) && WiredAt(d, boot, HeartbeatTimeout);
    ValidatedPolicy(d, boot[SessionOverflowPolicy]);
    ValidatedDuration(d, SessionTTL, boot[SessionTTL]);
    ValidatedDuration(d, ModelWarmMax, boot[ModelWarmMax]);
    ValidatedDuration(d, HeartbeatTimeout, boot[HeartbeatTimeout]);
  }

  function WiredValue(f: Field, duration: string): Value {
    if Numeric(f) then Num(0) else if IsDuration(f) then Str(duration) else Str(POLICY_OPTIONS[0])
  }

  lemma WiredValueIsFixed(d: Durations, f: Field, s: string, duration: string)
    requires d.Lawful() && d.parse(s).Some? && d.parse(s).value > 0 && duration == d.render(d.parse(s).value)
    ensures !f.LogLevel? ==> FixedPoint(d, f, WiredValue(f, duration))
  {
    if Numeric(f) {
      FixedNumber(d, f, 0);
    } else if IsDuration(f) {
      DurationDecode(d, f, duration);
    } else if f.SessionOverflowPolicy? {
      OptionIsKept(POLICY_OPTIONS, POLICIES, POLICY_OPTIONS[0]);
    }
  }

  /** There are such values, given a positive duration that parses. */
  lemma WiredValuesExist(d: Durations, s: string)
    requires d.Lawful() && d.parse(s).Some? && d.parse(s).value > 0
    ensures exists boot :: Wired(d, boot)
  {
    var duration := d.render(d.parse(s).value);
    var boot: Settings := map f: Field | true :: WiredValue(f, duration);
    forall f ensures WiredAt(d, boot, f) { WiredValueIsFixed(d, f, s, duration); }
    assert Wired(d, boot);
  }

  lemma WiredRunIsBootable(d: Durations, start: Start, events: seq<Event>)
    requires d.Lawful() && WiredRun(d, start, events)
    ensures Bootable(d, start, events)
  {
    WiredIsRunnable(d, start.boot);
    forall i | 0 <= i < |events| && events[i].Reboot? ensures Runnable(d, events[i].boot) {
      WiredIsRunnable(d, events[i].boot);
    }
  }

  lemma {:induction false} WiredBooks(d: Durations, start: Start, events: seq<Event>)
    requires WiredRun(d, start, events)
    ensures Wired(d, Books(d, start, events).boot)
  {
    if events != [] {
      var before := events[..|events| - 1];
      WiredBooks(d, start, before);
      BootStep(d, Books(d, start, before), events[|events| - 1]);
    }
  }

  lemma WiredSettings(d: Durations, start: Start, events: seq<Event>)
    requires d.Lawful() && WiredRun(d, start, events)
    ensures Wired(d, Run(d, start, events).cur)
  {
    WiredRunIsBootable(d, start, events);
    MachineAgreesWithBooks(d, start, events);
    WiredBooks(d, start, events);
    var c, l := Run(d, start, events).cur, Books(d, start, events);
    forall f ensures WiredAt(d, c, f) {
      assert WiredAt(d, l.boot, f);
      assert c[f] == if f in l.current then l.current[f] else l.boot[f];
    }
  }

  lemma FixedIsAcceptable(d: Durations, c: Settings, f: Field)
    requires FixedPoint(d, f, c[f]) && !f.LogLevel? && Sent(c, f)
    ensures Resent(d, c, f).Some?
  {
    if Numeric(f) { ModSmall(c[f].n, TWO_64); }
  }

  lemma OnlyLevelMoves(d: Durations, c: Settings, v: Value)
    requires v.Str?
    ensures LiveOf(d, c[LogLevel := v]) == LiveOf(d, c).(level := ParseLevel(v.s).0)
  {
  }

  lemma DebugIsDebug()
    ensures ParseLevel(LEVEL_OPTIONS[0]).0 == Debug
  {
    NormalOfLowerCase(LEVEL_OPTIONS[0]);
  }

  /** On a wired server the untouched form is always accepted; it changes the settings exactly when
      the log level is not spelled as one of the options, and the subsystems exactly when that
      level, besides, does not mean debug. */
  lemma ResubmittedOnWiredServer(d: Durations, start: Start, events: seq<Event>, form: Form, saved: bool)
    requires d.Lawful() && WiredRun(d, start, events)
    requires Displays(Run(d, start, events).cur, form)
    ensures var st := Run(d, start, events);
            var (after, reply) := PutForm(d, st, form, saved);
            var listed := Listed(LEVEL_OPTIONS, st.cur[LogLevel]);
            && reply.Accepted?
            && (after.cur == st.cur <==> listed)
            && (after.live == st.live <==> listed || st.live.level == Debug)
            && (!listed ==> after.cur == st.cur[LogLevel := Str("debug")] && after.live.level == Debug)
  {
    var st := Run(d, start, events);
    WiredRunIsBootable(d, start, events);
    WiredSettings(d, start, events);
    WiredIsAcceptable(d, st.cur);
    ResubmittedForm(d, start, events, form, saved);
    MachineAgreesWithBooks(d, start, events);
    PersistedIsFixed(d, st, Books(d, start, events));
    WiredReset(d, st, PutForm(d, st, form, saved).0);
  }

  lemma WiredIsAcceptable(d: Durations, c: Settings)
    requires Wired(d, c)
    ensures Acceptable(d, c)
  {
    forall f | Sent(c, f) ensures Resent(d, c, f).Some? {
      assert WiredAt(d, c, f);
      if !f.LogLevel? { FixedIsAcceptable(d, c, f); }
    }
  }

  lemma WiredField(d: Durations, c: Settings, f: Field)
    requires WiredAt(d, c, f)
    requires Sent(c, f) ==> Resent(d, c, f).Some?
    ensures (if Sent(c, f) then Resent(d, c, f).value else c[f]) == if f.LogLevel? then Str(Shown(c, f)) else c[f]
  {
    if f.LogLevel? {
      ShownComes(d, c, f);
    } else {
      KeptExactlyWhen(d, c, f);
      CommittedIsKept(d, c, f);
    }
  }

  lemma OnlyLevelResets(d: Durations, st: State, after: State)
    requires Wired(d, st.cur)
    requires Acceptable(d, st.cur) && Resets(d, st, after)
    ensures after.cur == st.cur[LogLevel := Str(Shown(st.cur, LogLevel))]
  {
    forall f: Field ensures after.cur[f] == if f.LogLevel? then Str(Shown(st.cur, f)) else st.cur[f] {
      assert WiredAt(d, st.cur, f);
      WiredField(d, st.cur, f);
    }
    LevelOnly(after.cur, st.cur, Shown(st.cur, LogLevel));
  }

  lemma LevelOnly(a: Settings, c: Settings, shown: string)
    requires forall f: Field :: a[f] == if f.LogLevel? then Str(shown) else c[f]
    ensures a == c[LogLevel := Str(shown)]
  {
  }

  lemma WiredReset(d: Durations, st: State, after: State)
    requires Wired(d, st.cur) && st.live == LiveOf(d, st.cur)
    requires Acceptable(d, st.cur) && Resets(d, st, after)
    ensures var listed := Listed(LEVEL_OPTIONS, st.cur[LogLevel]);
            && (after.cur == st.cur <==> listed)
            && (after.live == st.live <==> listed || st.live.level == Debug)
            && (!listed ==> after.cur == st.cur[LogLevel := Str("debug")] && after.live.level == Debug)
  {
    OnlyLevelResets(d, st, after);
    LevelEffect(d, st.cur, Shown(st.cur, LogLevel));
    LevelShown(st.cur);
  }

  lemma LevelEffect(d: Durations, c: Settings, shown: string)
    ensures c[LogLevel := Str(shown)] == c <==> c[LogLevel] == Str(shown)
    ensures var live := LiveOf(d, c[LogLevel := Str(shown)]);
            live.level == ParseLevel(shown).0 && (live == LiveOf(d, c) <==> ParseLevel(shown).0 == LiveOf(d, c).level)
  {
    SameSettings(c[LogLevel := Str(shown)], c);
    OnlyLevelMoves(d, c, Str(shown));
  }

  /** The level select shows the value in force or its first option, which is debug. */
  lemma LevelShown(c: Settings)
    ensures var shown := Shown(c, LogLevel);
            if Listed(LEVEL_OPTIONS, c[LogLevel]) then c[LogLevel] == Str(shown)
            else shown == "debug" && ParseLevel(shown).0 == Debug && c[LogLevel] != Str(shown)
  {
    OptionIsWord(LEVEL_OPTIONS, LEVELS, StrOf(c, LogLevel));
    if !Listed(LEVEL_OPTIONS, c[LogLevel]) { DebugIsDebug(); }
  }

  // ----- the two surprises -----

  function LevelPut(name: string): Event { JsonPut(map[Tunable(LogLevel) := JString(name)], true) }

  /** A level the API takes as it is, for which the select has no option. */
  ghost predicate Unlisted(name: string) {
    EnumValue(JString(name), LEVELS) == Some(Str(name)) && name !in LEVEL_OPTIONS
  }

  /** There is one: warning. */
  lemma WarningIsUnlisted(name: string)
    requires name == "warning"
    ensures Unlisted(name)
  {
    assert IsWord(name) && name in LEVELS;
    assert forall o :: o in LEVEL_OPTIONS ==> |o| < 7;
    WordIsKept(name, LEVELS);
  }

  lemma WarningMeansWarn(name: string)
    requires name == "warning"
    ensures ParseLevel(name) == (Warn, true)
  {
    NormalOfLowerCase(name);
    assert |name| == 7;
  }

  lemma LevelPutChange(d: Durations, name: string)
    requires EnumValue(JString(name), LEVELS) == Some(Str(name))
    ensures JsonChange(d, LevelPut(name).raw) == map[LogLevel := Str(name)]
  {
    assert Decodes(d, LevelPut(name).raw, map[LogLevel := Str(name)]);
    DecodesIsDecoded(d, LevelPut(name).raw, map[LogLevel := Str(name)]);
  }

  lemma LevelPutTakes(d: Durations, start: Start, events: seq<Event>, name: string)
    requires d.Lawful() && Bootable(d, start, events)
    requires EnumValue(JString(name), LEVELS) == Some(Str(name))
    ensures Run(d, start, events + [LevelPut(name)]).cur[LogLevel] == Str(name)
  {
    var e := LevelPut(name);
    assert (events + [e])[..|events|] == events;
    LevelPutChange(d, name);
    MachineAgreesWithBooks(d, start, events);
    var st, l := Run(d, start, events), Books(d, start, events);
    PutAgrees(d, st, l, e.raw, true);
    assert Run(d, start, events + [e]) == Put(d, st, e.raw, true).0;
    assert Book(l, map[LogLevel := Str(name)], true).current[LogLevel] == Str(name);
  }

  /** After any run, once such a level was set through the API, pressing Apply on the untouched
      screen is accepted and turns the log to debug. */
  lemma UnlistedLevelComesBackAsDebug(d: Durations, start: Start, events: seq<Event>, name: string, form: Form, saved: bool)
    requires d.Lawful() && WiredRun(d, start, events) && Unlisted(name)
    requires Displays(Run(d, start, events + [LevelPut(name)]).cur, form)
    ensures var st := Run(d, start, events + [LevelPut(name)]);
            var (after, reply) := PutForm(d, st, form, saved);
            && st.cur[LogLevel] == Str(name) && st.live.level == ParseLevel(name).0
            && reply.Accepted? && after.cur[LogLevel] == Str("debug") && after.live.level == Debug
  {
    var all := events + [LevelPut(name)];
    WiredRunIsBootable(d, start, events);
    LevelPutTakes(d, start, events, name);
    assert WiredRun(d, start, all);
    WiredRunIsBootable(d, start, all);
    ResubmittedOnWiredServer(d, start, all, form, saved);
    MachineAgreesWithBooks(d, start, all);
  }

  /** For instance warning: a log at warn level is at debug level afterwards. */
  lemma WarningComesBackAsDebug(d: Durations, start: Start, events: seq<Event>, name: string, form: Form, saved: bool)
    requires d.Lawful() && WiredRun(d, start, events) && name == "warning"
    requires Displays(Run(d, start, events + [LevelPut(name)]).cur, form)
    ensures var st := Run(d, start, events + [LevelPut(name)]);
            var (after, reply) := PutForm(d, st, form, saved);
            st.live.level == Warn && reply.Accepted? && after.live.level == Debug
  {
    WarningIsUnlisted(name);
    WarningMeansWarn(name);
    UnlistedLevelComesBackAsDebug(d, start, events, name, form, saved);
  }

  /** Nothing accepted and saved is given up by a restart. */
  lemma SavedSurvives(d: Durations, start: Start, events: seq<Event>, next: Settings)
    requires d.Lawful() && Bootable(d, start, events) && Runnable(d, next)
    requires Books(d, start, events).saved == Books(d, start, events).current
    ensures var st := Run(d, start, events);
            forall f :: f in st.persisted ==> Run(d, start, events + [Reboot(next)]).cur[f] == st.cur[f]
  {
    MachineAgreesWithBooks(d, start, events);
    RestartRestoresCheckpoint(d, start, events, next);
  }

  lemma FormIsSaved(d: Durations, start: Start, events: seq<Event>, form: Form)
    requires FormChange(d, form) != map[]
    ensures var l := Books(d, start, events + [FormPut(form, true)]); l.saved == l.current
  {
    assert (events + [FormPut(form, true)])[..|events|] == events;
  }

  /** What was only shown becomes an override: once the untouched screen was sent and saved, a
      restart with other boot values keeps every value it sent. */
  lemma ResubmittingPinsBootValues(d: Durations, start: Start, events: seq<Event>, form: Form, next: Settings)
    requires d.Lawful() && Bootable(d, start, events) && Runnable(d, next)
    requires Displays(Run(d, start, events).cur, form) && Acceptable(d, Run(d, start, events).cur)
    ensures var before := Run(d, start, events).cur;
            var sent := events + [FormPut(form, true)];
            forall f :: Sent(before, f) ==>
              Run(d, start, sent + [Reboot(next)]).cur[f] == Run(d, start, sent).cur[f] == Resent(d, before, f).value
  {
    FormPersists(d, start, events, form);
    FormChangesSomething(d, Run(d, start, events).cur, form);
    FormIsSaved(d, start, events, form);
    SavedSurvives(d, start, events + [FormPut(form, true)], next);
  }

  lemma FormPersists(d: Durations, start: Start, events: seq<Event>, form: Form)
    requires d.Lawful() && Bootable(d, start, events)
    requires Displays(Run(d, start, events).cur, form) && Acceptable(d, Run(d, start, events).cur)
    ensures var before, after := Run(d, start, events), Run(d, start, events + [FormPut(form, true)]);
            forall f :: Sent(before.cur, f) ==> f in after.persisted && after.cur[f] == Resent(d, before.cur, f).value
  {
    RunNext(d, start, events, FormPut(form, true));
    ResubmittedForm(d, start, events, form, true);
  }

  lemma RunNext(d: Durations, start: Start, events: seq<Event>, e: Event)
    ensures Run(d, start, events + [e]) == Step(d, Run(d, start, events), e)
  {
    assert (events + [e])[..|events|] == events;
  }

  lemma FormChangesSomething(d: Durations, c: Settings, form: Form)
    requires Displays(c, form) && Acceptable(d, c)
    ensures FormChange(d, form) != map[]
  {
    DisplayedChange(d, c, form);
    ShownComes(d, c, LogLevel);
    assert LogLevel in FormChange(d, form);
  }
}
