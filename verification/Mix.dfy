/** The load generator's weighted endpoint mix (internal/loadtest/mix.go). */
module Mix {
  import opened Prelude
  import opened Arithmetic
  import opened Text
  import opened Decimal
  import opened Ordering

  const VALID := {"chat", "completions", "models"}

  datatype Entry = Entry(endpoint: string, weight: int)

  datatype Mix = Mix(entries: seq<Entry>, total: int)

  datatype Error = EmptySpec | NotPair | UnknownEndpoint | Duplicate | NotInteger | NotPositive

  /** int64 arithmetic wraps around. */
  function Wrap(n: int): int { (n + TWO_63) % TWO_64 - TWO_63 }

  function Endpoint(e: Entry): string { e.endpoint }

  function Weight(e: Entry): int { e.weight }

  function Sum(entries: seq<Entry>): int {
    Total(Weight, entries)
  }

  // ----- parsing -----

  predicate Seen(entries: seq<Entry>, ep: string) { exists e :: e in entries && e.endpoint == ep }

  /** One element of the comma-separated spec, given the entries before it; None for a blank. */
  function ParsePart(text: string, before: seq<Entry>): Result<Option<Entry>, Error> {
    var part := Trim(text);
    if part == "" then Ok(None)
    else
      var i := IndexOf(part, '=');
      if i == |part| then Err(NotPair)
      else
        var ep := Trim(part[..i]);
        var weight := Atoi(Trim(part[i + 1..]));
        if ep !in VALID then Err(UnknownEndpoint)
        else if Seen(before, ep) then Err(Duplicate)
        else if weight.None? then Err(NotInteger)
        else if weight.value <= 0 then Err(NotPositive)
        else Ok(Some(Entry(ep, weight.value)))
  }

  function ParseParts(parts: seq<string>, before: seq<Entry>): Result<seq<Entry>, Error>
    decreases parts
  {
    if parts == [] then Ok(before)
    else
      match ParsePart(parts[0], before)
      case Err(e) => Err(e)
      case Ok(None) => ParseParts(parts[1..], before)
      case Ok(Some(entry)) => ParseParts(parts[1..], before + [entry])
  }

  function Parse(spec: string): Result<Mix, Error> {
    var text := Trim(spec);
    if text == "" then Err(EmptySpec)
    else
      match ParseParts(Split(text, ','), [])
      case Err(e) => Err(e)
      case Ok(entries) =>
        if entries == [] then Err(EmptySpec) else Ok(Mix(SortBy(Endpoint, entries), Wrap(Sum(entries))))
  }

  method ParseMix(spec: string) returns (r: Result<Mix, Error>)
    ensures r == Parse(spec)
  {
    var text := Trim(spec);
    if text == "" { return Err(EmptySpec); }
    var parts := Split(text, ',');
    var entries, total := [], 0;
    for i := 0 to |parts|
      invariant ParseParts(parts, []) == ParseParts(parts[i..], entries)
      invariant total == Wrap(Sum(entries))
    {
      assert parts[i..][1..] == parts[i + 1..];
      var one := ParsePart(parts[i], entries);
      if one.Err? { return Err(one.error); }
      if one.value.None? { continue; }
      var e := one.value.value;
      TotalAdd(entries, total, e);
      entries, total := entries + [e], Wrap(total + e.weight);
    }
    assert parts[|parts|..] == [];
    if entries == [] { return Err(EmptySpec); }
    return Ok(Mix(SortBy(Endpoint, entries), total));
  }

  lemma TotalAdd(entries: seq<Entry>, total: int, e: Entry)
    requires total == Wrap(Sum(entries))
    ensures Wrap(total + e.weight) == Wrap(Sum(entries + [e]))
  {
    assert (entries + [e])[..|entries|] == entries;
    WrapAdd(Sum(entries), e.weight);
  }

  lemma WrapAdd(a: int, b: int)
    ensures Wrap(Wrap(a) + b) == Wrap(a + b)
  {
    ModAdd(a + TWO_63, b, TWO_64);
  }

  // ----- what parsing guarantees -----

  predicate GoodEntry(e: Entry) { e.endpoint in VALID && 0 < e.weight < TWO_63 }

  ghost predicate GoodEntries(entries: seq<Entry>) {
    (forall e :: e in entries ==> GoodEntry(e)) && DistinctKeys(Endpoint, entries)
  }

  /** A mix as ParseMix makes them. */
  ghost predicate WellFormed(m: Mix) {
    m.entries != [] && GoodEntries(m.entries) && StrictlySorted(Endpoint, m.entries) && m.total == Wrap(Sum(m.entries))
  }

  lemma {:induction false} ParsePartsGood(parts: seq<string>, before: seq<Entry>)
    requires GoodEntries(before)
    ensures var r := ParseParts(parts, before); r.Ok? ==> GoodEntries(r.value)
    decreases parts
  {
    if parts != [] {
      var one := ParsePart(parts[0], before);
      if one.Ok? && one.value.Some? {
        var e := one.value.value;
        forall i | 0 <= i < |before| ensures before[i].endpoint != e.endpoint { assert before[i] in before; }
        ParsePartsGood(parts[1..], before + [e]);
      } else if one.Ok? {
        ParsePartsGood(parts[1..], before);
      }
    }
  }

  /** Whatever ParseMix accepts is a non-empty list of known, distinct endpoints in order, with
      positive weights and their int64 total. */
  lemma ParsedIsWellFormed(spec: string)
    ensures var r := Parse(spec); r.Ok? ==> WellFormed(r.value)
  {
    var r := ParseParts(Split(Trim(spec), ','), []);
    ParsePartsGood(Split(Trim(spec), ','), []);
    if r.Ok? && r.value != [] {
      var sorted := SortBy(Endpoint, r.value);
      SortBySorted(Endpoint, r.value);
      forall e | e in sorted ensures GoodEntry(e) { assert e in multiset(sorted); }
      SortedKeysDistinct(Endpoint, sorted);
      SumPermutes(r.value, sorted);
      assert |sorted| == |multiset(sorted)| == |r.value|;
    }
  }

  lemma SumPermutes(a: seq<Entry>, b: seq<Entry>)
    requires multiset(a) == multiset(b)
    ensures Sum(a) == Sum(b)
  {
    TotalPermutes(Weight, a, b);
  }

  // ----- printing -----

  function Part(e: Entry): string { e.endpoint + ['='] + Itoa(e.weight) }

  function Parts(entries: seq<Entry>): (r: seq<string>)
    ensures |r| == |entries|
    ensures forall i :: 0 <= i < |r| ==> r[i] == Part(entries[i])
  {
    if entries == [] then [] else Parts(entries[..|entries| - 1]) + [Part(entries[|entries| - 1])]
  }

  function String(m: Mix): string { Join(Parts(m.entries), ',') }

  /** Endpoint names are lower-case words. */
  lemma ValidName(ep: string)
    requires ep in VALID
    ensures Free(ep, '=') && Free(ep, ',') && SolidText(ep)
  {
  }

  lemma DigitsText(n: int)
    requires n >= 0
    ensures Free(Itoa(n), ',') && SolidText(Itoa(n))
  {
    var t := Itoa(n);
    assert t[0] in t && t[|t| - 1] in t;
  }

  lemma ParsePartOfPart(e: Entry, before: seq<Entry>)
    requires GoodEntry(e) && !Seen(before, e.endpoint)
    ensures ParsePart(Part(e), before) == Ok(Some(e))
    ensures Free(Part(e), ',') && SolidText(Part(e))
  {
    var t, p := Itoa(e.weight), Part(e);
    ValidName(e.endpoint);
    DigitsText(e.weight);
    assert p[0] == e.endpoint[0] && p[|p| - 1] == t[|t| - 1];
    TrimFixed(p);
    IndexOfUnique(e.endpoint, '=', t);
    assert p[..|e.endpoint|] == e.endpoint && p[|e.endpoint| + 1..] == t;
    TrimFixed(e.endpoint);
    TrimFixed(t);
    AtoiItoa(e.weight);
  }

  lemma NotSeenBefore(before: seq<Entry>, e: Entry, rest: seq<Entry>)
    requires DistinctKeys(Endpoint, before + [e] + rest)
    ensures !Seen(before, e.endpoint)
  {
    var all := before + [e] + rest;
    forall b | b in before ensures b.endpoint != e.endpoint {
      var k :| 0 <= k < |before| && before[k] == b;
      assert all[k] == b && all[|before|] == e;
      assert Endpoint(all[k]) != Endpoint(all[|before|]);
    }
  }

  lemma {:induction false} ParsePartsOfParts(entries: seq<Entry>, before: seq<Entry>)
    requires GoodEntries(before + entries)
    ensures ParseParts(Parts(entries), before) == Ok(before + entries)
    decreases entries
  {
    if entries == [] {
      assert before + entries == before;
    } else {
      var e, rest := entries[0], entries[1..];
      assert before + [e] + rest == before + entries;
      assert (before + entries)[|before|] == e;
      NotSeenBefore(before, e, rest);
      ParsePartOfPart(e, before);
      assert Parts(entries)[1..] == Parts(rest);
      ParsePartsOfParts(rest, before + [e]);
    }
  }

  /** Printing a mix and parsing the text gives the mix back. */
  lemma ParseInvertsString(m: Mix)
    requires WellFormed(m)
    ensures Parse(String(m)) == Ok(m)
  {
    SplitOfString(m.entries);
    assert [] + m.entries == m.entries;
    ParsePartsOfParts(m.entries, []);
    SortByOfSorted(Endpoint, m.entries);
  }

  lemma PartsAreSolid(entries: seq<Entry>)
    requires GoodEntries(entries)
    ensures forall i :: 0 <= i < |entries| ==> Free(Parts(entries)[i], ',') && SolidText(Parts(entries)[i])
  {
    forall i | 0 <= i < |entries| ensures Free(Parts(entries)[i], ',') && SolidText(Parts(entries)[i]) {
      assert entries[i] in entries;
      ParsePartOfPart(entries[i], []);
    }
  }

  lemma SplitOfJoined(parts: seq<string>)
    requires parts != [] && forall i :: 0 <= i < |parts| ==> Free(parts[i], ',') && SolidText(parts[i])
    ensures var s := Join(parts, ',');
            s != "" && Trim(s) == s && Split(s, ',') == parts
  {
    var s := Join(parts, ',');
    JoinEnds(parts, ',');
    TrimFixed(s);
    JoinLength(parts, ',');
    SplitJoin(parts, ',', |s| + 1);
  }

  lemma SplitOfString(entries: seq<Entry>)
    requires entries != [] && GoodEntries(entries)
    ensures var s := Join(Parts(entries), ',');
            s != "" && Trim(s) == s && Split(s, ',') == Parts(entries)
  {
    PartsAreSolid(entries);
    SplitOfJoined(Parts(entries));
  }

  /** Not empty, and no white space at either end. */
  predicate SolidText(s: string) { s != "" && !IsSpace(s[0]) && !IsSpace(s[|s| - 1]) }

  /** A joined text starts with its first part and ends with its last. */
  lemma {:induction false} JoinEnds(parts: seq<string>, sep: char)
    requires parts != [] && forall i :: 0 <= i < |parts| ==> parts[i] != ""
    ensures var s, last := Join(parts, sep), parts[|parts| - 1];
            s != "" && s[0] == parts[0][0] && s[|s| - 1] == last[|last| - 1]
  {
    if |parts| > 1 { JoinEnds(parts[1..], sep); }
  }

  // ----- texts that were not printed -----

  lemma NoEqualsInBlanks(a: string, b: string)
    requires Blank(a) && Free(b, '=')
    ensures Free(a + b, '=') && Free(b + a, '=')
  {
  }

  /** The two sides of a part, trimmed. */
  lemma SidesOfPart(ep: string, b: string, c: string, num: string)
    requires Blank(b) && Blank(c) && SolidText(ep) && Free(ep, '=') && SolidText(num)
    ensures var part := ep + b + ['='] + c + num;
            var i := IndexOf(part, '=');
            && SolidText(part) && i < |part| && Trim(part[..i]) == ep && Trim(part[i + 1..]) == num
  {
    var part, left, right := ep + b + ['='] + c + num, ep + b, c + num;
    assert part[0] == ep[0] && part[|part| - 1] == num[|num| - 1];
    NoEqualsInBlanks(b, ep);
    assert part == left + ['='] + right;
    IndexOfUnique(left, '=', right);
    assert part[..|left|] == left && part[|left| + 1..] == right;
    assert [] + ep + b == left && c + num + [] == right;
    TrimPadding([], ep, b);
    TrimPadding(c, num, []);
  }

  lemma PartOfSides(text: string, part: string, ep: string, n: int, before: seq<Entry>)
    requires Trim(text) == part && part != ""
    requires var i := IndexOf(part, '='); i < |part| && Trim(part[..i]) == ep && Atoi(Trim(part[i + 1..])) == Some(n)
    ensures ParsePart(text, before) ==
      if ep !in VALID then Err(UnknownEndpoint)
      else if Seen(before, ep) then Err(Duplicate)
      else if n <= 0 then Err(NotPositive)
      else Ok(Some(Entry(ep, n)))
  {
  }

  /** A name, an equals sign and a number, with white space around any of them, mean what they say:
      the name must be known and new, the number positive, and the first of these that fails is the
      error. */
  lemma PaddedPart(a: string, ep: string, b: string, c: string, n: int, e: string, before: seq<Entry>)
    requires Blank(a) && Blank(b) && Blank(c) && Blank(e) && SolidText(ep) && Free(ep, '=') && -TWO_63 <= n < TWO_63
    ensures ParsePart(a + (ep + b + ['='] + c + Itoa(n)) + e, before) ==
      if ep !in VALID then Err(UnknownEndpoint)
      else if Seen(before, ep) then Err(Duplicate)
      else if n <= 0 then Err(NotPositive)
      else Ok(Some(Entry(ep, n)))
  {
    var part := ep + b + ['='] + c + Itoa(n);
    NumberIsSolid(n);
    SidesOfPart(ep, b, c, Itoa(n));
    TrimPadding(a, part, e);
    AtoiItoa(n);
    PartOfSides(a + part + e, part, ep, n, before);
  }

  lemma NumberIsSolid(n: int)
    ensures SolidText(Itoa(n))
  {
    var t := Itoa(n);
    var d := Digits(if n < 0 then -n else n);
    assert d[0] in d && d[|d| - 1] in d;
    assert t[|t| - 1] == d[|d| - 1];
  }

  /** A blank part is passed over; one without an equals sign is an error. */
  lemma PartWithoutEquals(text: string, before: seq<Entry>)
    ensures Blank(text) ==> ParsePart(text, before) == Ok(None)
    ensures Trim(text) != "" && Free(Trim(text), '=') ==> ParsePart(text, before) == Err(NotPair)
  {
    if Blank(text) {
      assert text + [] + [] == text;
      TrimPadding(text, [], []);
    }
    if Free(Trim(text), '=') { IndexOfNone(Trim(text), '='); }
  }

  /** What stands for the number of a known and new endpoint must be one. */
  lemma PartWithoutNumber(ep: string, weight: string, before: seq<Entry>)
    requires ep in VALID && !Seen(before, ep) && (weight == "" || !IsSpace(weight[|weight| - 1]))
    requires Atoi(Trim(weight)).None?
    ensures ParsePart(ep + ['='] + weight, before) == Err(NotInteger)
  {
    var part := ep + ['='] + weight;
    ValidName(ep);
    assert part[0] == ep[0] && part[|part| - 1] == if weight == "" then '=' else weight[|weight| - 1];
    TrimFixed(part);
    IndexOfUnique(ep, '=', weight);
    assert part[..|ep|] == ep && part[|ep| + 1..] == weight;
    TrimFixed(ep);
  }
}
