/** The live subsystems behind the settings, and the appliers that push a change into them
    (internal/httpapi/admin_config.go apply, cmd/agentgpu/config_wiring.go). */
module ConfigLive {
  import opened Text
  import opened ConfigFields

  datatype Level = Debug | Info | Warn | Error

  /** An unknown name falls back to info and is reported as such. */
  function ParseLevel(name: string): (Level, bool) { NamedLevel(Normal(name)) }

  function NamedLevel(n: string): (Level, bool) {
    if n == "debug" then (Debug, true)
    else if n == "info" || n == "" then (Info, true)
    else if n == "warn" || n == "warning" then (Warn, true)
    else if n == "error" then (Error, true)
    else (Info, false)
  }

  datatype Policy = TrimOldest | Reject

  function ParsePolicy(name: string): (Policy, bool) { NamedPolicy(Normal(name)) }

  function NamedPolicy(n: string): (Policy, bool) {
    if n == "" || n == "trim" then (TrimOldest, true)
    else if n == "reject" then (Reject, true)
    else (TrimOldest, false)
  }

  datatype Quota = Quota(rpm: int, tpm: int, daily: int, monthly: int)

  datatype Caps = Caps(maxTurns: int, maxBytes: int, maxTokens: int, policy: Policy)

  /** What the running subsystems use. */
  datatype Live = Live(
    level: Level, defaults: Quota, globalRPM: int, globalTPM: int,
    sessionTTL: int, caps: Caps, maxPerKey: int, modelWarmMax: int, heartbeatTimeout: int)

  /** time.ParseDuration with its error dropped: an unparseable text is zero. */
  function DurationOf(d: Durations, c: Settings, f: Field): int {
    match d.parse(StrOf(c, f))
    case Some(n) => n
    case None => 0
  }

  function QuotaOf(c: Settings): Quota {
    Quota(NumOf(c, QuotaDefaultRPM), NumOf(c, QuotaDefaultTPM),
          NumOf(c, QuotaDefaultDailyTokens), NumOf(c, QuotaDefaultMonthlyTokens))
  }

  function CapsOf(c: Settings): Caps {
    Caps(NumOf(c, SessionMaxTurns), NumOf(c, SessionMaxBytes), NumOf(c, SessionMaxContextTokens),
         ParsePolicy(StrOf(c, SessionOverflowPolicy)).0)
  }

  function PerKeyOf(c: Settings): int {
    var n := NumOf(c, SessionMaxSessionsPerKey);
    if n < 0 then 0 else n
  }

  /** The subsystems running exactly the given settings. */
  function LiveOf(d: Durations, c: Settings): Live {
    Live(ParseLevel(StrOf(c, LogLevel)).0, QuotaOf(c), NumOf(c, QuotaGlobalRPM), NumOf(c, QuotaGlobalTPM),
         DurationOf(d, c, SessionTTL), CapsOf(c), PerKeyOf(c),
         DurationOf(d, c, ModelWarmMax), DurationOf(d, c, HeartbeatTimeout))
  }

  const QUOTA_DEFAULTS := {QuotaDefaultRPM, QuotaDefaultTPM, QuotaDefaultDailyTokens, QuotaDefaultMonthlyTokens}
  const QUOTA_GLOBAL := {QuotaGlobalRPM, QuotaGlobalTPM}
  const SESSION_CAPS := {SessionMaxTurns, SessionMaxBytes, SessionMaxContextTokens, SessionMaxSessionsPerKey, SessionOverflowPolicy}

  predicate Touches(changed: set<Field>, group: set<Field>) { exists f :: f in changed && f in group }

  /** A setter that ignores a non-positive duration. */
  function Positive(d: int, kept: int): int { if d <= 0 then kept else d }

  function ApplyLevel(live: Live, next: Settings, changed: set<Field>): Live {
    if LogLevel in changed then live.(level := ParseLevel(StrOf(next, LogLevel)).0) else live
  }

  function ApplyQuota(live: Live, next: Settings, changed: set<Field>): Live {
    var l := if Touches(changed, QUOTA_DEFAULTS) then live.(defaults := QuotaOf(next)) else live;
    if Touches(changed, QUOTA_GLOBAL)
    then l.(globalRPM := NumOf(next, QuotaGlobalRPM), globalTPM := NumOf(next, QuotaGlobalTPM)) else l
  }

  function ApplyTTL(d: Durations, live: Live, next: Settings, changed: set<Field>): Live {
    if SessionTTL in changed
    then live.(sessionTTL := Positive(DurationOf(d, next, SessionTTL), live.sessionTTL)) else live
  }

  function ApplyCaps(live: Live, next: Settings, changed: set<Field>): Live {
    if Touches(changed, SESSION_CAPS) then live.(caps := CapsOf(next), maxPerKey := PerKeyOf(next)) else live
  }

  function ApplyTimeouts(d: Durations, live: Live, next: Settings, changed: set<Field>): Live {
    var l := if ModelWarmMax in changed
             then live.(modelWarmMax := Positive(DurationOf(d, next, ModelWarmMax), live.modelWarmMax)) else live;
    if HeartbeatTimeout in changed
    then l.(heartbeatTimeout := Positive(DurationOf(d, next, HeartbeatTimeout), l.heartbeatTimeout)) else l
  }

  predicate LevelRefused(next: Settings, changed: set<Field>) {
    LogLevel in changed && !ParseLevel(StrOf(next, LogLevel)).1
  }

  predicate CapsRefused(next: Settings, changed: set<Field>) {
    Touches(changed, SESSION_CAPS) && !ParsePolicy(StrOf(next, SessionOverflowPolicy)).1
  }

  /** The appliers in the order apply calls them. The second component is false when one of
      them fails; what ran before it has taken effect. */
  function ApplyLive(d: Durations, live: Live, next: Settings, changed: set<Field>): (Live, bool) {
    if LevelRefused(next, changed) then (live, false)
    else
      var l := ApplyTTL(d, ApplyQuota(ApplyLevel(live, next, changed), next, changed), next, changed);
      if CapsRefused(next, changed) then (l, false)
      else (ApplyTimeouts(d, ApplyCaps(l, next, changed), next, changed), true)
  }

  // ----- settings the appliers accept -----

  /** Values that came out of validation. */
  predicate Validated(d: Durations, ov: Overrides) { forall f :: f in ov ==> FixedPoint(d, f, ov[f]) }

  /** The overflow policy is one the applier parses, and the durations are ones the setters take. */
  predicate Runnable(d: Durations, c: Settings) {
    && ParsePolicy(StrOf(c, SessionOverflowPolicy)).1
    && DurationOf(d, c, SessionTTL) > 0 && DurationOf(d, c, ModelWarmMax) > 0 && DurationOf(d, c, HeartbeatTimeout) > 0
  }

  lemma LevelsAreNamed(n: string)
    requires n in LEVELS
    ensures NamedLevel(n).1
  {
  }

  lemma ValidatedLevel(d: Durations, v: Value)
    requires FixedPoint(d, LogLevel, v)
    ensures v.Str? && ParseLevel(v.s).1
  {
    LevelsAreNamed(v.s);
    assert v.s == Normal(v.s);
  }

  lemma ValidatedPolicy(d: Durations, v: Value)
    requires FixedPoint(d, SessionOverflowPolicy, v)
    ensures v.Str? && ParsePolicy(v.s).1
  {
    assert v.s in POLICIES;
    assert v.s == Normal(v.s);
  }

  lemma ValidatedDuration(d: Durations, f: Field, v: Value)
    requires d.Lawful()
    requires f.SessionTTL? || f.ModelWarmMax? || f.HeartbeatTimeout?
    requires FixedPoint(d, f, v)
    ensures v.Str? && d.parse(v.s).Some? && d.parse(v.s).value > 0
  {
    var n := d.parse(Trim(v.s));
    assert d.parse(d.render(n.value)) == n;
  }

  lemma StaysRunnable(d: Durations, cur: Settings, ov: Overrides)
    requires d.Lawful() && Runnable(d, cur) && Validated(d, ov)
    ensures Runnable(d, Overlay(cur, ov))
  {
    if SessionOverflowPolicy in ov { ValidatedPolicy(d, ov[SessionOverflowPolicy]); }
    if SessionTTL in ov { ValidatedDuration(d, SessionTTL, ov[SessionTTL]); }
    if ModelWarmMax in ov { ValidatedDuration(d, ModelWarmMax, ov[ModelWarmMax]); }
    if HeartbeatTimeout in ov { ValidatedDuration(d, HeartbeatTimeout, ov[HeartbeatTimeout]); }
  }

  /** No applier fails on a validated patch while the policy in force parses, and the
      subsystems then run exactly the new settings: groups are pushed as a unit, and nothing
      outside the patch moves. */
  lemma ValidatedPatchApplies(d: Durations, cur: Settings, ov: Overrides)
    requires d.Lawful() && Runnable(d, cur) && Validated(d, ov)
    ensures ApplyLive(d, LiveOf(d, cur), Overlay(cur, ov), ov.Keys) == (LiveOf(d, Overlay(cur, ov)), true)
  {
    var next := Overlay(cur, ov);
    StaysRunnable(d, cur, ov);
    if LogLevel in ov { ValidatedLevel(d, ov[LogLevel]); }
    UntouchedGroups(cur, ov);
  }

  lemma UntouchedGroups(cur: Settings, ov: Overrides)
    ensures !Touches(ov.Keys, QUOTA_DEFAULTS) ==> QuotaOf(Overlay(cur, ov)) == QuotaOf(cur)
    ensures !Touches(ov.Keys, QUOTA_GLOBAL) ==>
      forall f :: f in QUOTA_GLOBAL ==> NumOf(Overlay(cur, ov), f) == NumOf(cur, f)
    ensures !Touches(ov.Keys, SESSION_CAPS) ==>
      CapsOf(Overlay(cur, ov)) == CapsOf(cur) && PerKeyOf(Overlay(cur, ov)) == PerKeyOf(cur)
  {
    assert forall f :: f !in ov ==> Overlay(cur, ov)[f] == cur[f];
  }

  /** Whatever policy is in force, a validated patch fails exactly when it touches the session
      caps and the policy it would leave in force does not parse. */
  lemma ApplyFailsExactlyWhen(d: Durations, live: Live, cur: Settings, ov: Overrides)
    requires d.Lawful() && Validated(d, ov)
    ensures !ApplyLive(d, live, Overlay(cur, ov), ov.Keys).1 <==>
            Touches(ov.Keys, SESSION_CAPS) && SessionOverflowPolicy !in ov && !ParsePolicy(StrOf(cur, SessionOverflowPolicy)).1
  {
    if LogLevel in ov { ValidatedLevel(d, ov[LogLevel]); }
    if SessionOverflowPolicy in ov { ValidatedPolicy(d, ov[SessionOverflowPolicy]); }
  }

  /** The subsystems that run before the caps applier do what two settings ask for alike. */
  predicate SameUpToCaps(a: Live, b: Live) {
    a.level == b.level && a.defaults == b.defaults && a.globalRPM == b.globalRPM && a.globalTPM == b.globalTPM && a.sessionTTL == b.sessionTTL
  }

  /** What a refused patch leaves live: the new level, quotas and session lifetime, and nothing else
      of it. So it is committed in part exactly when it changes one of those. */
  lemma RefusedPatchIsLiveInPart(d: Durations, cur: Settings, ov: Overrides)
    requires d.Lawful() && Validated(d, ov) && !ApplyLive(d, LiveOf(d, cur), Overlay(cur, ov), ov.Keys).1
    ensures var before, asked := LiveOf(d, cur), LiveOf(d, Overlay(cur, ov));
            var left := ApplyLive(d, before, Overlay(cur, ov), ov.Keys).0;
            && SameUpToCaps(left, asked)
            && left.caps == before.caps && left.maxPerKey == before.maxPerKey
            && left.modelWarmMax == before.modelWarmMax && left.heartbeatTimeout == before.heartbeatTimeout
            && (left == before <==> SameUpToCaps(asked, before))
  {
    var next := Overlay(cur, ov);
    if LogLevel in ov { ValidatedLevel(d, ov[LogLevel]); }
    if SessionTTL in ov { ValidatedDuration(d, SessionTTL, ov[SessionTTL]); }
    UntouchedGroups(cur, ov);
    assert !LevelRefused(next, ov.Keys);
  }

  lemma RefusedCapsKeepLevel(d: Durations, live: Live, next: Settings, changed: set<Field>)
    requires LogLevel in changed && !LevelRefused(next, changed) && CapsRefused(next, changed)
    ensures ApplyLive(d, live, next, changed).0.level == ParseLevel(StrOf(next, LogLevel)).0
    ensures !ApplyLive(d, live, next, changed).1
  {
  }

  /** A patch of the log level and a session cap is refused with its log level live. */
  predicate CommitsPartially(d: Durations, cur: Settings, name: string, turns: int) {
    var ov := map[LogLevel := Str(name), SessionMaxTurns := Num(turns)];
    var (live, ok) := ApplyLive(d, LiveOf(d, cur), Overlay(cur, ov), ov.Keys);
    !ok && live.level == ParseLevel(name).0 != LiveOf(d, cur).level
  }

  lemma BadPolicyCommitsPartially(d: Durations, cur: Settings, name: string, turns: int)
    requires !ParsePolicy(StrOf(cur, SessionOverflowPolicy)).1
    requires ParseLevel(name).1 && ParseLevel(name).0 != ParseLevel(StrOf(cur, LogLevel)).0
    ensures CommitsPartially(d, cur, name, turns)
  {
    var ov := map[LogLevel := Str(name), SessionMaxTurns := Num(turns)];
    var next := Overlay(cur, ov);
    assert SessionMaxTurns in ov.Keys && SessionMaxTurns in SESSION_CAPS;
    assert next[LogLevel] == Str(name) && next[SessionOverflowPolicy] == cur[SessionOverflowPolicy];
    RefusedCapsKeepLevel(d, LiveOf(d, cur), next, ov.Keys);
  }

  lemma BogusPolicyDoesNotParse(policy: string)
    requires policy == "bogus"
    ensures !ParsePolicy(policy).1
  {
    NormalOfLowerCase(policy);
  }

  function WithPolicy(cur: Settings, policy: string): Settings { cur[SessionOverflowPolicy := Str(policy)] }

  lemma OnlyPolicyMoves(cur: Settings, policy: string)
    ensures StrOf(WithPolicy(cur, policy), SessionOverflowPolicy) == policy
    ensures StrOf(WithPolicy(cur, policy), LogLevel) == StrOf(cur, LogLevel)
  {
  }

  lemma UnderPolicy(d: Durations, cur: Settings, policy: string, name: string, turns: int)
    requires !ParsePolicy(policy).1
    requires ParseLevel(name).1 && ParseLevel(name).0 != ParseLevel(StrOf(cur, LogLevel)).0
    ensures CommitsPartially(d, WithPolicy(cur, policy), name, turns)
  {
    OnlyPolicyMoves(cur, policy);
    BadPolicyCommitsPartially(d, WithPolicy(cur, policy), name, turns);
  }

  /** It can happen from any settings: there is a policy, bogus for one, that would make it so. */
  lemma SomePolicyCommitsPartially(d: Durations, cur: Settings, name: string, turns: int)
    requires ParseLevel(name).1 && ParseLevel(name).0 != ParseLevel(StrOf(cur, LogLevel)).0
    ensures exists policy: string :: CommitsPartially(d, WithPolicy(cur, policy), name, turns)
  {
    var policy := "bogus";
    BogusPolicyDoesNotParse(policy);
    UnderPolicy(d, cur, policy, name, turns);
  }
}
