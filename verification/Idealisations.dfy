/** The hypotheses about hashing and JSON that the theorems make can be met: here are a hash and
    a codec that meet them. */
module Idealisations {
  import opened Prelude
  import opened Text
  import opened Tokens
  import KeyRuns
  import KeyService
  import opened SseStream
  import opened ChatStream

  predicate AllHex(s: string) { forall c :: c in s ==> '0' <= c <= '9' || 'a' <= c <= 'f' }

  /** The number as that many hexadecimal digits, the lowest last. */
  function HexNumber(n: nat, digits: nat): (s: string)
    ensures |s| == digits && AllHex(s)
  {
    if digits == 0 then [] else HexNumber(n / 16, digits - 1) + [HexDigit(n % 16)]
  }

  function Power16(k: nat): nat { if k == 0 then 1 else 16 * Power16(k - 1) }

  lemma {:induction false} HexNumberInjective(m: nat, n: nat, digits: nat)
    requires m < Power16(digits) && n < Power16(digits)
    requires HexNumber(m, digits) == HexNumber(n, digits)
    ensures m == n
  {
    if digits > 0 {
      var k := digits - 1;
      assert HexNumber(m, digits)[k] == HexDigit(m % 16) && HexNumber(n, digits)[k] == HexDigit(n % 16);
      assert HexNumber(m, digits)[..k] == HexNumber(m / 16, k) && HexNumber(n, digits)[..k] == HexNumber(n / 16, k);
      HexNumberInjective(m / 16, n / 16, k);
    }
  }

  /** A character as six hexadecimal digits. */
  function HexChar(c: char): (s: string)
    ensures |s| == 6 && AllHex(s)
  {
    HexNumber(c as int, 6)
  }

  lemma HexCharInjective(c: char, d: char)
    requires HexChar(c) == HexChar(d)
    ensures c == d
  {
    assert Power16(6) == 16 * 16 * Power16(4) == 16 * 16 * 16 * 16 * Power16(2) == 0x1000000;
    HexNumberInjective(c as int, d as int, 6);
  }

  function HexText(s: string): (r: string)
    ensures |r| == 6 * |s| && AllHex(r)
  {
    if s == [] then [] else HexChar(s[0]) + HexText(s[1..])
  }

  lemma {:induction false} HexTextInjective(s: string, t: string)
    requires HexText(s) == HexText(t)
    ensures s == t
  {
    assert |s| == |t|;
    if s != [] {
      assert HexText(s)[..6] == HexChar(s[0]) && HexText(s)[6..] == HexText(s[1..]);
      assert HexText(t)[..6] == HexChar(t[0]) && HexText(t)[6..] == HexText(t[1..]);
      HexCharInjective(s[0], t[0]);
      HexTextInjective(s[1..], t[1..]);
    }
  }

  // ----- a hash -----

  function HexBytes(s: string): (b: Bytes)
    requires AllHex(s)
    ensures |b| == |s| && forall i :: 0 <= i < |s| ==> b[i] as int == s[i] as int
  {
    seq(|s|, i requires 0 <= i < |s| => assert s[i] in s; s[i] as int as Byte)
  }

  function Digest(salt: Bytes, s: string): Bytes { HexBytes(HexText(s)) }

  lemma DigestInjective(salt: Bytes, s: string, t: string)
    requires Digest(salt, s) == Digest(salt, t)
    ensures s == t
  {
    var x, y := HexText(s), HexText(t);
    assert forall i :: 0 <= i < |x| ==> HexBytes(x)[i] as int == x[i] as int;
    assert x == y;
    HexTextInjective(s, t);
  }

  lemma IdealHashExists()
    ensures exists h: KeyService.Hash :: KeyRuns.InjectivePerSalt(h)
  {
    forall salt, s, t | Digest(salt, s) == Digest(salt, t) ensures s == t { DigestInjective(salt, s, t); }
    assert KeyRuns.InjectivePerSalt(Digest);
  }

  // ----- a codec -----

  function EnvelopeText(env: Envelope): string {
    Join([HexText(env.message), HexText(env.code), HexText(env.kind)], '-')
  }

  lemma EnvelopeTextInjective(a: Envelope, b: Envelope)
    requires EnvelopeText(a) == EnvelopeText(b)
    ensures a == b
  {
    var x, y := [HexText(a.message), HexText(a.code), HexText(a.kind)], [HexText(b.message), HexText(b.code), HexText(b.kind)];
    SplitJoin(x, '-', 3);
    SplitJoin(y, '-', 3);
    assert x == y;
    assert x[0] == y[0] && x[1] == y[1] && x[2] == y[2];
    HexTextInjective(a.message, b.message);
    HexTextInjective(a.code, b.code);
    HexTextInjective(a.kind, b.kind);
  }

  function FrameText(f: Frame): string {
    match f
    case Delta(_, content, _, _) => "D" + HexText(content)
    case Failure(env) => "E" + EnvelopeText(env)
  }

  lemma EnvelopeTextIsOneLine(env: Envelope)
    ensures Free(EnvelopeText(env), '\n') && Free(EnvelopeText(env), '\r')
  {
    var m, c, k := HexText(env.message), HexText(env.code), HexText(env.kind);
    JoinCons(m, [c, k], '-');
    JoinCons(c, [k], '-');
    assert [m] + [c, k] == [m, c, k] && [c] + [k] == [c, k];
  }

  lemma FrameTextIsOneLine(f: Frame)
    ensures var text := FrameText(f);
            Free(text, '\n') && text != DONE && text != "" && text[|text| - 1] != '\r'
  {
    var text := FrameText(f);
    if f.Failure? { EnvelopeTextIsOneLine(f.env); }
    assert text[0] != DONE[0];
    assert text[|text| - 1] in text;
  }

  ghost function ErrorIn(text: string): Option<Envelope> {
    if exists env :: text == FrameText(Failure(env)) then
      var env :| text == FrameText(Failure(env)); Some(env)
    else None
  }

  ghost function ContentIn(text: string): Option<seq<string>> {
    if exists s :: text == "D" + HexText(s) then
      var s :| text == "D" + HexText(s); Some([s])
    else None
  }

  ghost function HexCodec(): Codec { Codec(FrameText, ErrorIn, ContentIn) }

  lemma FaithfulCodecExists()
    ensures HexCodec().Faithful()
  {
    var codec := HexCodec();
    forall f: Frame ensures codec.FrameFaithful(f) {
      var text := FrameText(f);
      FrameTextIsOneLine(f);
      match f {
        case Failure(env) =>
          var env' :| ErrorIn(text) == Some(env') && text == FrameText(Failure(env'));
          assert text[1..] == EnvelopeText(env) == EnvelopeText(env');
          EnvelopeTextInjective(env, env');
        case Delta(_, content, _, _) =>
          assert text[0] == 'D';
          assert forall env :: FrameText(Failure(env))[0] == 'E';
          var s :| ContentIn(text) == Some([s]) && text == "D" + HexText(s);
          assert text[1..] == HexText(content) == HexText(s);
          HexTextInjective(content, s);
      }
    }
    assert codec.Faithful();
  }

  /** A delta of a megabyte does not fit the client's line buffer: the parse breaks off there. */
  lemma LongDeltaBreaksOff(chunk: JobChunk)
    requires chunk.err.None? && |chunk.delta| >= MAX_LINE
    ensures !AllFit(HexCodec(), Frames([chunk]))
    ensures Parse(HexCodec(), Wire(HexCodec(), Frames([chunk]))).ending == LineTooLong
  {
    var c, f := HexCodec(), DeltaFrame(chunk, true);
    FaithfulCodecExists();
    assert FirstError([chunk]) == 1;
    CleanStream([chunk]);
    PrefixStep([chunk], 0);
    assert [chunk][..0] == [] && [chunk][..1] == [chunk];
    assert Frames([chunk]) == [f] && f in Frames([chunk]);
    ByteLenBound(DATA + c.encode(f));
    assert |DATA + c.encode(f)| > MAX_LINE;
    ClientSeesTheStream(c, [chunk]);
  }
}
