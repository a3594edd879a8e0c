/** The parts of Go's strings package that the modelled code calls. A string is the sequence of
    Unicode code points of a UTF-8 text. */
module Text {

  /** The bytes of a code point in UTF-8. */
  function Width(c: char): nat {
    var n := c as int;
    if n < 0x80 then 1 else if n < 0x800 then 2 else if n < 0x10000 then 3 else 4
  }

  /** len(s): Go counts bytes. */
  function ByteLen(s: string): nat {
    if s == [] then 0 else ByteLen(s[..|s| - 1]) + Width(s[|s| - 1])
  }

  lemma {:induction false} ByteLenBound(s: string)
    ensures |s| <= ByteLen(s) <= 4 * |s|
  {
    if s != [] { ByteLenBound(s[..|s| - 1]); }
  }

  // ----- TrimSpace and ToLower -----

  /** Go's unicode.IsSpace. */
  predicate IsSpace(c: char) {
    var n := c as int;
    || 9 <= n <= 13
    || n in {0x20, 0x85, 0xA0, 0x1680, 0x2028, 0x2029, 0x202F, 0x205F, 0x3000}
    || 0x2000 <= n <= 0x200A
  }

  /** Of the ASCII characters, tab, line feed, vertical tab, form feed, carriage return and blank. */
  lemma AsciiSpaces(c: char)
    requires c as int < 0x80
    ensures IsSpace(c) <==> c == '\t' || c == '\n' || c as int == 11 || c as int == 12 || c == '\r' || c == ' '
  {
  }

  function TrimLeft(s: string): (r: string)
    ensures r == [] || !IsSpace(r[0])
  {
    if s != [] && IsSpace(s[0]) then TrimLeft(s[1..]) else s
  }

  function TrimRight(s: string): (r: string)
    ensures r == [] || !IsSpace(r[|r| - 1])
    ensures r <= s
  {
    if s != [] && IsSpace(s[|s| - 1]) then TrimRight(s[..|s| - 1]) else s
  }

  /** strings.TrimSpace. */
  function Trim(s: string): (r: string)
    ensures r == [] || (!IsSpace(r[0]) && !IsSpace(r[|r| - 1]))
  {
    TrimRight(TrimLeft(s))
  }

  predicate Blank(s: string) { forall c :: c in s ==> IsSpace(c) }

  lemma {:induction false} TrimLeftPadding(a: string, s: string)
    requires Blank(a) && (s == [] || !IsSpace(s[0]))
    ensures TrimLeft(a + s) == s
  {
    if a == [] {
      assert a + s == s;
    } else {
      assert a[0] in a && forall c :: c in a[1..] ==> c in a;
      assert (a + s)[1..] == a[1..] + s;
      TrimLeftPadding(a[1..], s);
    }
  }

  lemma {:induction false} TrimRightPadding(s: string, b: string)
    requires Blank(b) && (s == [] || !IsSpace(s[|s| - 1]))
    ensures TrimRight(s + b) == s
  {
    if b == [] {
      assert s + b == s;
    } else {
      var n := |b| - 1;
      assert b[n] in b && forall c :: c in b[..n] ==> c in b;
      assert (s + b)[..|s| + n] == s + b[..n];
      TrimRightPadding(s, b[..n]);
    }
  }

  /** Trim takes away exactly the white space around a text. */
  lemma TrimPadding(a: string, s: string, b: string)
    requires Blank(a) && Blank(b) && (s == [] || (!IsSpace(s[0]) && !IsSpace(s[|s| - 1])))
    ensures Trim(a + s + b) == s
  {
    if s == [] {
      assert a + s + b == a + b + s;
      TrimLeftPadding(a + b, s);
    } else {
      assert a + s + b == a + (s + b);
      TrimLeftPadding(a, s + b);
      TrimRightPadding(s, b);
    }
  }

  /** A string without white space at either end is left alone. */
  lemma TrimFixed(s: string)
    requires s == [] || (!IsSpace(s[0]) && !IsSpace(s[|s| - 1]))
    ensures Trim(s) == s
  {
  }

  function LowerChar(c: char): char {
    if 'A' <= c <= 'Z' then c - 'A' + 'a' else c
  }

  /** strings.ToLower, on ASCII letters. */
  function Lower(s: string): (r: string)
    ensures |r| == |s|
    ensures forall i :: 0 <= i < |s| ==> r[i] == LowerChar(s[i])
  {
    if s == [] then [] else [LowerChar(s[0])] + Lower(s[1..])
  }

  lemma LowerKeepsNonSpace(c: char)
    requires !IsSpace(c)
    ensures !IsSpace(LowerChar(c))
  {
  }

  lemma LowerIdempotent(s: string)
    ensures Lower(Lower(s)) == Lower(s)
  {
  }

  function Normal(s: string): string { Lower(Trim(s)) }

  /** Normalising twice is normalising once: committed names are fixed points. */
  lemma NormalIdempotent(s: string)
    ensures Normal(Normal(s)) == Normal(s)
  {
    var t := Trim(s);
    var n := Lower(t);
    if n != [] {
      LowerKeepsNonSpace(t[0]);
      LowerKeepsNonSpace(t[|t| - 1]);
    }
    TrimFixed(n);
    LowerIdempotent(t);
  }

  lemma NormalOfLowerCase(s: string)
    requires forall c :: c in s ==> 'a' <= c <= 'z'
    ensures Normal(s) == s
  {
    if s != [] {
      assert s[0] in s && s[|s| - 1] in s;
    }
    TrimFixed(s);
    assert forall i :: 0 <= i < |s| ==> s[i] in s;
  }

  // ----- Index, SplitN, Join -----

  predicate Free(s: string, c: char) { c !in s }

  /** The position of the first c in s, or |s| when there is none. */
  function IndexOf(s: string, c: char): (i: nat)
    ensures i <= |s|
    ensures Free(s[..i], c)
    ensures i < |s| ==> s[i] == c
  {
    if s == [] || s[0] == c then 0
    else
      var i := IndexOf(s[1..], c) + 1;
      assert s[..i] == [s[0]] + s[1..][..i - 1];
      i
  }

  lemma {:induction false} IndexOfUnique(a: string, c: char, b: string)
    requires Free(a, c)
    ensures IndexOf(a + [c] + b, c) == |a|
  {
    if a != [] {
      assert (a + [c] + b)[1..] == a[1..] + [c] + b;
      IndexOfUnique(a[1..], c, b);
    }
  }

  lemma IndexOfNone(s: string, c: char)
    requires Free(s, c)
    ensures IndexOf(s, c) == |s|
  {
  }

  /** strings.SplitN with a one-character separator; limit is at least one. */
  function SplitN(s: string, sep: char, limit: nat): (parts: seq<string>)
    requires limit >= 1
    ensures 1 <= |parts| <= limit
    decreases limit
  {
    var i := IndexOf(s, sep);
    if limit == 1 || i == |s| then [s] else [s[..i]] + SplitN(s[i + 1..], sep, limit - 1)
  }

  /** strings.Split: no limit is reached, since a string of n characters has at most n separators. */
  function Split(s: string, sep: char): seq<string> { SplitN(s, sep, |s| + 1) }

  function Join(parts: seq<string>, sep: char): string {
    if parts == [] then []
    else if |parts| == 1 then parts[0]
    else parts[0] + [sep] + Join(parts[1..], sep)
  }

  lemma CutAt(s: string, i: nat)
    requires i < |s|
    ensures s == s[..i] + [s[i]] + s[i + 1..]
  {
  }

  lemma JoinCons(head: string, rest: seq<string>, sep: char)
    requires rest != []
    ensures Join([head] + rest, sep) == head + [sep] + Join(rest, sep)
  {
    assert ([head] + rest)[1..] == rest;
  }

  lemma SplitCut(s: string, sep: char, limit: nat)
    requires limit >= 2 && IndexOf(s, sep) < |s|
    ensures var i := IndexOf(s, sep);
            && SplitN(s, sep, limit) == [s[..i]] + SplitN(s[i + 1..], sep, limit - 1)
            && s == s[..i] + [sep] + s[i + 1..]
  {
    CutAt(s, IndexOf(s, sep));
  }

  /** Joining what was split gives the original text back. */
  lemma {:induction false} JoinSplit(s: string, sep: char, limit: nat)
    requires limit >= 1
    ensures Join(SplitN(s, sep, limit), sep) == s
    decreases limit
  {
    if limit > 1 && IndexOf(s, sep) < |s| {
      var i := IndexOf(s, sep);
      var head, tail := s[..i], s[i + 1..];
      SplitCut(s, sep, limit);
      JoinSplit(tail, sep, limit - 1);
      JoinCons(head, SplitN(tail, sep, limit - 1), sep);
    } else {
      assert SplitN(s, sep, limit) == [s];
    }
  }

  lemma SplitFirst(head: string, sep: char, rest: string, limit: nat)
    requires Free(head, sep) && limit >= 2
    ensures SplitN(head + [sep] + rest, sep, limit) == [head] + SplitN(rest, sep, limit - 1)
  {
    IndexOfUnique(head, sep, rest);
    var s := head + [sep] + rest;
    assert s[..|head|] == head && s[|head| + 1..] == rest;
  }

  /** Splitting what was joined gives the parts back, when no part holds the separator. */
  lemma {:induction false} SplitJoin(parts: seq<string>, sep: char, limit: nat)
    requires 1 <= |parts| <= limit
    requires forall p :: p in parts ==> Free(p, sep)
    ensures SplitN(Join(parts, sep), sep, limit) == parts
    decreases limit
  {
    assert parts[0] in parts;
    if |parts| == 1 {
      IndexOfNone(parts[0], sep);
    } else {
      SplitFirst(parts[0], sep, Join(parts[1..], sep), limit);
      SplitJoin(parts[1..], sep, limit - 1);
      assert parts == [parts[0]] + parts[1..];
    }
  }

  /** A joined text has room for its separators. */
  lemma {:induction false} JoinLength(parts: seq<string>, sep: char)
    requires parts != []
    ensures |parts| <= |Join(parts, sep)| + 1
  {
    if |parts| > 1 {
      JoinLength(parts[1..], sep);
    }
  }
}
