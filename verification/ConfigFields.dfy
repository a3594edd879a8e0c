/** The runtime-tunable settings: field keys, values, JSON decoding and validation
    (internal/httpapi/admin_config.go). */
module ConfigFields {
  import opened Prelude
  import opened Text
  import opened Decimal

  datatype Field =
    | LogLevel
    | QuotaDefaultRPM | QuotaDefaultTPM | QuotaDefaultDailyTokens | QuotaDefaultMonthlyTokens
    | QuotaGlobalRPM | QuotaGlobalTPM
    | SessionTTL | SessionMaxTurns | SessionMaxBytes | SessionMaxContextTokens | SessionMaxSessionsPerKey
    | SessionOverflowPolicy | ModelWarmMax
    | HeartbeatTimeout

  const ALL_FIELDS := [
    LogLevel, QuotaDefaultRPM, QuotaDefaultTPM, QuotaDefaultDailyTokens, QuotaDefaultMonthlyTokens,
    QuotaGlobalRPM, QuotaGlobalTPM, SessionTTL, SessionMaxTurns, SessionMaxBytes, SessionMaxContextTokens,
    SessionMaxSessionsPerKey, SessionOverflowPolicy, ModelWarmMax, HeartbeatTimeout]

  /** The key a field has in a request body and in the checkpoint file. */
  function Name(f: Field): string {
    match f
    case LogLevel => "log_level"
    case QuotaDefaultRPM => "quota_default_rpm"
    case QuotaDefaultTPM => "quota_default_tpm"
    case QuotaDefaultDailyTokens => "quota_default_daily_tokens"
    case QuotaDefaultMonthlyTokens => "quota_default_monthly_tokens"
    case QuotaGlobalRPM => "quota_global_rpm"
    case QuotaGlobalTPM => "quota_global_tpm"
    case SessionTTL => "session_ttl"
    case SessionMaxTurns => "session_max_turns"
    case SessionMaxBytes => "session_max_bytes"
    case SessionMaxContextTokens => "session_max_context_tokens"
    case SessionMaxSessionsPerKey => "session_max_sessions_per_key"
    case SessionOverflowPolicy => "session_overflow_policy"
    case ModelWarmMax => "model_warm_max"
    case HeartbeatTimeout => "heartbeat_timeout"
  }

  const READ_ONLY := [
    "log_format", "log_output", "quota_path", "server_http_listen", "server_listen",
    "server_metrics_listen", "session_path"]

  predicate IsReadOnly(key: string) { key in READ_ONLY }

  function FindField(fs: seq<Field>, key: string): (r: Option<Field>)
    ensures r.Some? ==> r.value in fs && Name(r.value) == key
    ensures r.None? ==> forall f :: f in fs ==> Name(f) != key
  {
    if fs == [] then None
    else if Name(fs[0]) == key then Some(fs[0])
    else FindField(fs[1..], key)
  }

  /** The tunable field a key names, if any. */
  function FieldOf(key: string): Option<Field> { FindField(ALL_FIELDS, key) }

  lemma EveryFieldListed(f: Field)
    ensures f in ALL_FIELDS
  {
    var i :=
      match f
      case LogLevel => 0 case QuotaDefaultRPM => 1 case QuotaDefaultTPM => 2 case QuotaDefaultDailyTokens => 3
      case QuotaDefaultMonthlyTokens => 4 case QuotaGlobalRPM => 5 case QuotaGlobalTPM => 6 case SessionTTL => 7
      case SessionMaxTurns => 8 case SessionMaxBytes => 9 case SessionMaxContextTokens => 10
      case SessionMaxSessionsPerKey => 11 case SessionOverflowPolicy => 12 case ModelWarmMax => 13
      case HeartbeatTimeout => 14;
    assert ALL_FIELDS[i] == f;
  }

  /** Where two keys of the same length first differ; this is what makes the keys distinct. */
  lemma NameInjective(f: Field, g: Field)
    requires Name(f) == Name(g)
    ensures f == g
  {
    var n := Name(f);
    assert |n| == 17 ==> n[8] == Name(g)[8] && n[12] == Name(g)[12];
    assert n[|n| - 3] == Name(g)[|n| - 3];
  }

  lemma FieldOfName(f: Field)
    ensures FieldOf(Name(f)) == Some(f)
  {
    EveryFieldListed(f);
    NameInjective(FieldOf(Name(f)).value, f);
  }

  /** A key of a request body, a form or the checkpoint file, as isReadOnlyField and
      isTunableField classify it. */
  datatype Key = Tunable(field: Field) | ReadOnlyKey(name: string) | UnknownKey(name: string)

  function Classify(key: string): Key {
    if IsReadOnly(key) then ReadOnlyKey(key)
    else
      match FieldOf(key)
      case Some(f) => Tunable(f)
      case None => UnknownKey(key)
  }

  /** The text of a key. */
  function KeyText(k: Key): string {
    match k
    case Tunable(f) => Name(f)
    case ReadOnlyKey(name) => name
    case UnknownKey(name) => name
  }

  lemma ClassifyName(f: Field)
    ensures Classify(Name(f)) == Tunable(f)
  {
    FieldOfName(f);
    NamesAreNotReadOnly(f);
  }

  lemma NamesAreNotReadOnly(f: Field)
    ensures !IsReadOnly(Name(f))
  {
  }

  /** The seven keys that can only be set at boot, and no other, are refused as such. */
  lemma ReadOnlyKeys(key: string)
    ensures Classify(key).ReadOnlyKey? <==>
      || key == "log_format" || key == "log_output" || key == "quota_path" || key == "server_http_listen"
      || key == "server_listen" || key == "server_metrics_listen" || key == "session_path"
    ensures Classify(key).ReadOnlyKey? ==> Classify(key).name == key
  {
    assert READ_ONLY[0] == "log_format" && READ_ONLY[1] == "log_output" && READ_ONLY[2] == "quota_path";
    assert READ_ONLY[3] == "server_http_listen" && READ_ONLY[4] == "server_listen";
    assert READ_ONLY[5] == "server_metrics_listen" && READ_ONLY[6] == "session_path";
  }

  // ----- values -----

  datatype Value = Str(s: string) | Num(n: int)

  /** The counts and limits are numbers; durations and names are strings. */
  predicate Numeric(f: Field) {
    !f.LogLevel? && !f.SessionTTL? && !f.SessionOverflowPolicy? && !f.ModelWarmMax? && !f.HeartbeatTimeout?
  }

  /** Values for some of the fields. */
  type Overrides = map<Field, Value>

  /** A value for every field: the source's ConfigSettings struct. */
  type Settings = c: Overrides | forall f :: f in c
    witness map f: Field | true :: if Numeric(f) then Num(0) else Str("")

  function StrOf(c: Settings, f: Field): string { if c[f].Str? then c[f].s else "" }

  function NumOf(c: Settings, f: Field): int { if c[f].Num? then c[f].n else 0 }

  /** c with the overridden fields replaced. */
  function Overlay(c: Settings, ov: Overrides): Settings { c + ov }

  lemma OverlaySet(c: Settings, ov: Overrides, f: Field, v: Value)
    ensures Overlay(c, ov[f := v]) == Overlay(c, ov)[f := v]
  {
    MergeUpdate(c, ov, f, v);
  }

  /** A later overlay wins field by field. */
  lemma OverlayOverlay(c: Settings, a: Overrides, b: Overrides)
    ensures Overlay(Overlay(c, a), b) == Overlay(c, a + b)
  {
    MergeAssociative(c, a, b);
  }

  // ----- decoding and validating one field -----

  /** A raw JSON value. JNumber keeps the literal; JOther is a bool, array or object. */
  datatype Json = JNull | JString(s: string) | JNumber(lit: string) | JOther

  /** Go's time.ParseDuration and Duration.String, on nanoseconds. */
  datatype Durations = Durations(parse: string -> Option<int>, render: int -> string)
  {
    /** Every positive duration that parsing can yield is printed so that it parses back. */
    ghost predicate Lawful() {
      forall s :: var n := parse(s);
        n.Some? && n.value > 0 ==> parse(render(n.value)) == n && Trim(render(n.value)) == render(n.value)
    }
  }

  /** Unmarshalling into a string: null leaves the zero value. */
  function DecodeString(m: Json): Option<string> {
    match m
    case JNull => Some("")
    case JString(s) => Some(s)
    case _ => None
  }

  function DecodeUint(m: Json): Option<int> {
    match m
    case JNull => Some(0)
    case JNumber(lit) => JsonUint(lit)
    case _ => None
  }

  function DecodeNonNegInt(m: Json): Option<int> {
    match m
    case JNull => Some(0)
    case JNumber(lit) =>
      var v := JsonInt(lit);
      if v.Some? && v.value < 0 then None else v
    case _ => None
  }

  function DecodeDuration(d: Durations, m: Json): Option<int> {
    match DecodeString(m)
    case None => None
    case Some(s) => d.parse(Trim(s))
  }

  const LEVELS := {"debug", "info", "warn", "warning", "error"}

  const POLICIES := {"trim", "reject"}

  function EnumValue(m: Json, names: set<string>): Option<Value> {
    match DecodeString(m)
    case None => None
    case Some(s) => if Normal(s) in names then Some(Str(Normal(s))) else None
  }

  /** The value applyConfigPatch stores for a present field, or None when it rejects it. */
  function Decode(d: Durations, f: Field, m: Json): (r: Option<Value>)
    ensures r.Some? ==> r.value.Num? == Numeric(f)
  {
    match f
    case LogLevel => EnumValue(m, LEVELS)
    case SessionOverflowPolicy => EnumValue(m, POLICIES)
    case SessionTTL | ModelWarmMax | HeartbeatTimeout =>
      (match DecodeDuration(d, m)
       case None => None
       case Some(n) => if n <= 0 then None else Some(Str(d.render(n))))
    case SessionMaxTurns | SessionMaxBytes | SessionMaxContextTokens | SessionMaxSessionsPerKey =>
      (match DecodeNonNegInt(m) case None => None case Some(n) => Some(Num(n)))
    case _ =>
      (match DecodeUint(m) case None => None case Some(n) => Some(Num(n)))
  }

  /** What the checkpoint file holds for a value. */
  function Encode(v: Value): Json {
    match v
    case Str(s) => JString(s)
    case Num(n) => JNumber(Itoa(n))
  }

  /** A value that has been through decoding is a fixed point of saving and decoding again. */
  predicate FixedPoint(d: Durations, f: Field, v: Value) { Decode(d, f, Encode(v)) == Some(v) }

  lemma DecodedIsFixedPoint(d: Durations, f: Field, m: Json)
    requires d.Lawful()
    ensures var v := Decode(d, f, m); v.Some? ==> FixedPoint(d, f, v.value)
  {
    var v := Decode(d, f, m);
    if v.Some? {
      if Numeric(f) {
        NumberIsFixedPoint(v.value.n);
      } else if f.LogLevel? {
        EnumIsFixedPoint(m, LEVELS);
      } else if f.SessionOverflowPolicy? {
        EnumIsFixedPoint(m, POLICIES);
      } else {
        DurationIsFixedPoint(d, m);
      }
    }
  }

  lemma NumberIsFixedPoint(n: int)
    ensures 0 <= n < TWO_64 ==> DecodeUint(Encode(Num(n))) == Some(n)
    ensures 0 <= n < TWO_63 ==> DecodeNonNegInt(Encode(Num(n))) == Some(n)
  {
    if 0 <= n { JsonLiteralOfDigits(n); }
  }

  lemma EnumIsFixedPoint(m: Json, names: set<string>)
    ensures var v := EnumValue(m, names); v.Some? ==> EnumValue(Encode(v.value), names) == v
  {
    var s := DecodeString(m);
    if s.Some? { NormalIdempotent(s.value); }
  }

  lemma DurationIsFixedPoint(d: Durations, m: Json)
    requires d.Lawful()
    ensures var n := DecodeDuration(d, m);
            n.Some? && n.value > 0 ==> DecodeDuration(d, Encode(Str(d.render(n.value)))) == n
  {
    var s := DecodeString(m);
    if s.Some? { assert d.parse(Trim(s.value)) == DecodeDuration(d, m); }
  }

  /** Such printers and parsers exist, for instance plain decimal nanoseconds. */
  lemma LawfulDurationsExist()
    ensures exists d: Durations :: d.Lawful()
  {
    var d := Durations(Atoi, Itoa);
    forall s ensures
      var n := d.parse(s);
      n.Some? && n.value > 0 ==> d.parse(d.render(n.value)) == n && Trim(d.render(n.value)) == d.render(n.value)
    {
      var n := d.parse(s);
      if n.Some? && n.value > 0 {
        AtoiItoa(n.value);
        var t := Itoa(n.value);
        assert t[0] in t && t[|t| - 1] in t;
        TrimFixed(t);
      }
    }
    assert d.Lawful();
  }
}
