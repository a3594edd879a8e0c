/** The wire token agpu_<keyid>_<secret> (internal/auth/auth.go). */
module Tokens {
  import opened Prelude
  import opened Text

  newtype Byte = x: int | 0 <= x < 256

  type Bytes = seq<Byte>

  const PREFIX := "agpu"

  function HexDigit(n: int): (c: char)
    requires 0 <= n < 16
    ensures c != '_'
  {
    if n < 10 then '0' + n as char else 'a' + (n - 10) as char
  }

  /** hex.EncodeToString. */
  function Hex(b: Bytes): (s: string)
    ensures |s| == 2 * |b| && Free(s, '_')
  {
    if b == [] then [] else [HexDigit(b[0] as int / 16), HexDigit(b[0] as int % 16)] + Hex(b[1..])
  }

  datatype Credential = Credential(id: string, secret: string)

  function FormatToken(id: string, secret: string): string {
    PREFIX + "_" + id + "_" + secret
  }

  function ParseToken(token: string): Option<Credential> {
    var parts := SplitN(token, '_', 3);
    if |parts| != 3 then None
    else if parts[0] != PREFIX || parts[1] == "" || parts[2] == "" then None
    else Some(Credential(parts[1], parts[2]))
  }

  /** parseToken undoes formatToken and accepts nothing else: only an underscore-free
      non-empty id and a non-empty secret, and only the token formatToken makes of them. */
  lemma ParseInvertsFormat(token: string, id: string, secret: string)
    ensures ParseToken(token) == Some(Credential(id, secret))
       <==> token == FormatToken(id, secret) && id != "" && Free(id, '_') && secret != ""
  {
    if token == FormatToken(id, secret) && id != "" && Free(id, '_') && secret != "" {
      var rest := id + ['_'] + secret;
      assert token == PREFIX + ['_'] + rest;
      IndexOfUnique(PREFIX, '_', rest);
      IndexOfUnique(id, '_', secret);
      assert token[5..] == rest && token[..4] == PREFIX;
      assert rest[..|id|] == id && rest[|id| + 1..] == secret;
    }
    if ParseToken(token) == Some(Credential(id, secret)) {
      JoinSplit(token, '_', 3);
      assert SplitN(token, '_', 3) == [PREFIX, id, secret];
      assert Join([PREFIX, id, secret], '_') == PREFIX + ['_'] + Join([id, secret], '_');
      assert Join([id, secret], '_') == id + ['_'] + Join([secret], '_');
      var i := IndexOf(token, '_');
      var rest := token[i + 1..];
      assert SplitN(rest, '_', 2) == [id, secret];
    }
  }

  /** The key id a token names, if it is a token at all. */
  function IdOf(token: string): Option<string> {
    match ParseToken(token)
    case Some(c) => Some(c.id)
    case None => None
  }
}
