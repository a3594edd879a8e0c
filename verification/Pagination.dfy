/** Cursor pagination: the opaque cursor, the page arithmetic, and the client loop that follows
    cursors (internal/httpapi/pagination.go, internal/apiclient/client.go). */
module Pagination {
  import opened Prelude
  import opened Text
  import opened Decimal

  // ----- unpadded base64url (section 5 of RFC 4648) -----

  predicate IsBytes(s: seq<int>) { forall i :: 0 <= i < |s| ==> 0 <= s[i] < 256 }

  /** The bytes of a text; the texts here are ASCII. */
  function Codes(s: string): (b: seq<int>)
    ensures |b| == |s| && forall i :: 0 <= i < |s| ==> b[i] == s[i] as int
  {
    if s == "" then [] else [s[0] as int] + Codes(s[1..])
  }

  function Chars(b: seq<int>): (s: string)
    ensures |s| == |b| && forall i :: 0 <= i < |b| && 0 <= b[i] < 256 ==> s[i] == b[i] as char
  {
    if b == [] then "" else [if 0 <= b[0] < 256 then b[0] as char else '?'] + Chars(b[1..])
  }

  /** The symbol of a six-bit digit. */
  function Symbol(n: int): (c: char)
    ensures c != '\r' && c != '\n'
  {
    if 0 <= n < 26 then 'A' + n as char
    else if 26 <= n < 52 then 'a' + (n - 26) as char
    else if 52 <= n < 62 then '0' + (n - 52) as char
    else if n == 62 then '-'
    else '_'
  }

  function Digit(c: char): Option<int> {
    if 'A' <= c <= 'Z' then Some((c - 'A') as int)
    else if 'a' <= c <= 'z' then Some((c - 'a') as int + 26)
    else if '0' <= c <= '9' then Some((c - '0') as int + 52)
    else if c == '-' then Some(62)
    else if c == '_' then Some(63)
    else None
  }

  /** The alphabet of table 2 of RFC 4648: upper case, lower case, digits, minus, underscore. */
  lemma SymbolsInOrder(n: int)
    requires 0 <= n < 64
    ensures Symbol(0) == 'A' && Symbol(25) == 'Z' && Symbol(26) == 'a' && Symbol(51) == 'z'
    ensures Symbol(52) == '0' && Symbol(61) == '9' && Symbol(62) == '-' && Symbol(63) == '_'
    ensures n < 61 && n != 25 && n != 51 ==> Symbol(n + 1) == Symbol(n) + 1 as char
  {
  }

  lemma DigitOfSymbol(n: int)
    requires 0 <= n < 64
    ensures Digit(Symbol(n)) == Some(n)
  {
  }

  // The four six-bit digits of three bytes, and the three bytes of four digits.
  function D0(a: int): int { a / 4 }
  function D1(a: int, b: int): int { a % 4 * 16 + b / 16 }
  function D2(b: int, c: int): int { b % 16 * 4 + c / 64 }
  function D3(c: int): int { c % 64 }
  function B0(p: int, q: int): int { p * 4 + q / 16 }
  function B1(q: int, r: int): int { q % 16 * 16 + r / 4 }
  function B2(r: int, t: int): int { r % 4 * 64 + t }

  lemma Regroup(a: int, b: int, c: int)
    requires 0 <= a < 256 && 0 <= b < 256 && 0 <= c < 256
    ensures 0 <= D0(a) < 64 && 0 <= D1(a, b) < 64 && 0 <= D2(b, c) < 64 && 0 <= D3(c) < 64
    ensures B0(D0(a), D1(a, b)) == a && B1(D1(a, b), D2(b, c)) == b && B2(D2(b, c), D3(c)) == c
  {
  }

  /** Six bits at a time; spare low bits of the last digit are zero. */
  function Sextets(s: seq<int>): seq<int> {
    if s == [] then []
    else if |s| == 1 then [D0(s[0]), D1(s[0], 0)]
    else if |s| == 2 then [D0(s[0]), D1(s[0], s[1]), D2(s[1], 0)]
    else [D0(s[0]), D1(s[0], s[1]), D2(s[1], s[2]), D3(s[2])] + Sextets(s[3..])
  }

  /** Eight bits at a time; spare low bits are ignored, and a lone digit is an error. */
  function Octets(ds: seq<int>): Option<seq<int>> {
    if ds == [] then Some([])
    else if |ds| == 1 then None
    else if |ds| == 2 then Some([B0(ds[0], ds[1])])
    else if |ds| == 3 then Some([B0(ds[0], ds[1]), B1(ds[1], ds[2])])
    else
      match Octets(ds[4..])
      case None => None
      case Some(rest) => Some([B0(ds[0], ds[1]), B1(ds[1], ds[2]), B2(ds[2], ds[3])] + rest)
  }

  function Symbols(ds: seq<int>): (s: string)
    ensures Free(s, '\r') && Free(s, '\n')
    ensures |s| == |ds|
  {
    if ds == [] then "" else [Symbol(ds[0])] + Symbols(ds[1..])
  }

  function Digits64(s: string): Option<seq<int>> {
    if s == "" then Some([])
    else
      match (Digit(s[0]), Digits64(s[1..]))
      case (Some(d), Some(rest)) => Some([d] + rest)
      case _ => None
  }

  /** RawURLEncoding.EncodeToString. */
  function Base64(s: seq<int>): string { Symbols(Sextets(s)) }

  function StripNewlines(s: string): string { Filter(c => c != '\r' && c != '\n', s) }

  /** RawURLEncoding.DecodeString, which skips line breaks. */
  function Unbase64(s: string): Option<seq<int>> {
    match Digits64(StripNewlines(s))
    case None => None
    case Some(ds) => Octets(ds)
  }

  lemma {:induction false} StripNothing(s: string)
    requires Free(s, '\r') && Free(s, '\n')
    ensures StripNewlines(s) == s
  {
    if s != [] {
      StripNothing(s[1..]);
      assert s == [s[0]] + s[1..];
    }
  }

  lemma {:induction false} DigitsOfSymbols(ds: seq<int>)
    requires InRange(ds)
    ensures Digits64(Symbols(ds)) == Some(ds)
  {
    if ds != [] {
      DigitOfSymbol(ds[0]);
      DigitsOfSymbols(ds[1..]);
      assert ds == [ds[0]] + ds[1..];
      assert Symbols(ds)[1..] == Symbols(ds[1..]);
    }
  }

  predicate InRange(ds: seq<int>) { forall i :: 0 <= i < |ds| ==> 0 <= ds[i] < 64 }

  lemma GroupInRange(p: int, q: int, r: int, t: int, rest: seq<int>)
    requires 0 <= p < 64 && 0 <= q < 64 && 0 <= r < 64 && 0 <= t < 64 && InRange(rest)
    ensures InRange([p, q]) && InRange([p, q, r]) && InRange([p, q, r, t] + rest)
  {
  }

  lemma {:induction false} SextetsInRange(s: seq<int>)
    requires IsBytes(s)
    ensures InRange(Sextets(s))
  {
    if s != [] {
      var a, b, c := s[0], if |s| > 1 then s[1] else 0, if |s| > 2 then s[2] else 0;
      var rest := if |s| > 2 then Sextets(s[3..]) else [];
      if |s| > 2 { SextetsInRange(s[3..]); }
      Regroup(a, b, c);
      GroupInRange(D0(a), D1(a, b), D2(b, c), D3(c), rest);
    }
  }

  lemma {:induction false} OctetsOfSextets(s: seq<int>)
    requires IsBytes(s)
    ensures Octets(Sextets(s)) == Some(s)
  {
    if |s| == 1 {
      assert s == [s[0]];
      Regroup(s[0], 0, 0);
    } else if |s| == 2 {
      assert s == [s[0], s[1]];
      Regroup(s[0], s[1], 0);
    } else if |s| > 2 {
      OctetsOfSextets(s[3..]);
      assert Sextets(s)[4..] == Sextets(s[3..]);
      assert s == [s[0], s[1], s[2]] + s[3..];
      Regroup(s[0], s[1], s[2]);
    }
  }

  lemma Unbase64Base64(s: seq<int>)
    requires IsBytes(s)
    ensures Unbase64(Base64(s)) == Some(s)
  {
    StripNothing(Base64(s));
    SextetsInRange(s);
    DigitsOfSymbols(Sextets(s));
    OctetsOfSextets(s);
  }

  // ----- the cursor -----

  lemma DigitsAreBytes(n: nat)
    ensures IsBytes(Codes(Itoa(n))) && Chars(Codes(Itoa(n))) == Itoa(n)
  {
    var s := Itoa(n);
    assert forall i :: 0 <= i < |s| ==> s[i] in s;
  }

  function EncodeCursor(offset: nat): string {
    DigitsAreBytes(offset);
    Base64(Codes(Itoa(offset)))
  }

  /** Total: a bad token restarts at the first page instead of failing the request. */
  function DecodeCursor(cursor: string): (offset: nat)
    ensures offset < TWO_63
  {
    if cursor == "" then 0
    else
      match Unbase64(cursor)
      case None => 0
      case Some(raw) =>
        var n := Atoi(Chars(raw));
        if n.None? || n.value < 0 then 0 else n.value
  }

  lemma CursorRoundTrip(n: nat)
    requires n < TWO_63
    ensures DecodeCursor(EncodeCursor(n)) == n
  {
    DigitsAreBytes(n);
    Unbase64Base64(Codes(Itoa(n)));
    AtoiItoa(n);
  }

  // ----- pages -----

  const DEFAULT_PAGE := 50
  const MAX_PAGE := 200

  /** parsePageParams: the page size from the limit text. */
  function PageSize(limit: string): (n: nat)
    ensures 1 <= n <= MAX_PAGE
  {
    var asked := Atoi(limit);
    var n := if asked.Some? && asked.value > 0 then asked.value else DEFAULT_PAGE;
    if n > MAX_PAGE then MAX_PAGE else n
  }

  /** A limit between 1 and 200 is the page size; a larger one is cut to 200, and any other text gives
      50. A cursor that does not decode to the text of an offset starts from the first item. */
  lemma PageParams(limit: string, n: int, cursor: string)
    requires -TWO_63 <= n < TWO_63
    ensures limit == Itoa(n) ==> PageSize(limit) == if n <= 0 then 50 else if n > 200 then 200 else n
    ensures Atoi(limit).None? ==> PageSize(limit) == 50
    ensures DecodeCursor(cursor) != 0 ==> Unbase64(cursor).Some? && Atoi(Chars(Unbase64(cursor).value)) == Some(DecodeCursor(cursor))
  {
    AtoiItoa(n);
  }

  datatype Page<T> = Page(data: seq<T>, next: Option<string>)

  function Paginate<T>(items: seq<T>, limit: nat, offset: nat): Page<T> {
    if offset >= |items| then Page([], None)
    else
      var end := if offset + limit > |items| then |items| else offset + limit;
      Page(items[offset..end], if end < |items| then Some(EncodeCursor(end)) else None)
  }

  function Serve<T>(items: seq<T>, limit: string, cursor: string): Page<T> {
    Paginate(items, PageSize(limit), DecodeCursor(cursor))
  }

  /** Pages that cut a list up: all full but the last, and no page empty. */
  predicate CutsUp<T>(pages: seq<seq<T>>, size: nat) {
    forall i :: 0 <= i < |pages| ==> 0 < |pages[i]| <= size && (i < |pages| - 1 ==> |pages[i]| == size)
  }

  /** A page starts where its cursor says, is full unless it is the last, and its next cursor
      points right behind it. */
  lemma PageAt<T>(items: seq<T>, size: nat, offset: nat)
    requires 1 <= size && offset <= |items| < TWO_63
    ensures var page := Paginate(items, size, offset);
            var end := offset + |page.data|;
            && end <= |items| && page.data == items[offset..end] && items[..offset] + page.data == items[..end]
            && |page.data| <= size && (offset < |items| ==> |page.data| > 0)
            && (page.next.Some? ==> |page.data| == size && end < |items| && DecodeCursor(page.next.value) == end)
            && (page.next.None? ==> end == |items| && items[..end] == items)
  {
    var end := offset + |Paginate(items, size, offset).data|;
    if end < |items| { CursorRoundTrip(end); }
  }

  // ----- the client loop -----

  /** versions[n] is the list when request n is served; a request beyond them fails. */
  predicate Addressable<T>(versions: seq<seq<T>>) { forall n :: 0 <= n < |versions| ==> |versions[n]| < TWO_63 }

  /** n pages of the given size. */
  function Offset(size: nat, n: nat): nat { if n == 0 then 0 else Offset(size, n - 1) + size }

  /** Request n asks for the n-th stretch of size items, whatever the list is by then. */
  function Stretch<T>(versions: seq<seq<T>>, size: nat, n: nat): seq<T>
    requires n < |versions|
  {
    Paginate(versions[n], size, Offset(size, n)).data
  }

  /** There is more to come after request n. */
  predicate More<T>(versions: seq<seq<T>>, size: nat, n: nat)
    requires n < |versions|
  {
    Offset(size, n + 1) < |versions[n]|
  }

  /** The answers to the first requests, after each of which but the last there was more to come. */
  predicate Reads<T(==)>(versions: seq<seq<T>>, size: nat, pages: seq<seq<T>>) {
    && |pages| <= |versions|
    && (forall n :: 0 <= n < |pages| ==> pages[n] == Stretch(versions, size, n))
    && (forall n :: 0 <= n < |pages| - 1 ==> More(versions, size, n))
  }

  /** The list has ended with the last answer. */
  predicate Ends<T>(versions: seq<seq<T>>, size: nat, pages: seq<seq<T>>) {
    0 < |pages| <= |versions| && !More(versions, size, |pages| - 1)
  }

  lemma NextStretch<T>(items: seq<T>, size: nat, n: nat)
    requires 1 <= size && |items| < TWO_63
    ensures var page := Paginate(items, size, Offset(size, n));
            && (page.next.Some? <==> Offset(size, n + 1) < |items|)
            && (page.next.Some? ==> DecodeCursor(page.next.value) == Offset(size, n + 1))
  {
    if Offset(size, n + 1) < |items| { CursorRoundTrip(Offset(size, n + 1)); }
  }

  /** The answers so far, the cursor that came with the last one, and more to come. */
  ghost predicate Reading<T>(versions: seq<seq<T>>, size: nat, cursor: string, pages: seq<seq<T>>) {
    && Reads(versions, size, pages) && (pages != [] ==> More(versions, size, |pages| - 1))
    && DecodeCursor(cursor) == Offset(size, |pages|)
  }

  lemma ReadsNext<T>(versions: seq<seq<T>>, size: nat, pages: seq<seq<T>>, more: seq<seq<T>>)
    requires Reads(versions, size, pages) && (pages != [] ==> More(versions, size, |pages| - 1))
    requires |pages| < |versions| && more == pages + [Stretch(versions, size, |pages|)]
    ensures Reads(versions, size, more)
  {
  }

  lemma ReadingNext<T>(versions: seq<seq<T>>, size: nat, cursor: string, pages: seq<seq<T>>)
    requires 1 <= size && Addressable(versions) && Reading(versions, size, cursor, pages) && |pages| < |versions|
    ensures var page := Paginate(versions[|pages|], size, DecodeCursor(cursor));
            var more := pages + [page.data];
            && Reads(versions, size, more)
            && (page.next.None? ==> Ends(versions, size, more))
            && (page.next.Some? ==> Reading(versions, size, page.next.value, more))
  {
    var n := |pages|;
    var more := pages + [Stretch(versions, size, n)];
    NextStretch(versions[n], size, n);
    ReadsNext(versions, size, pages, more);
    assert |more| == n + 1;
  }

  /** The list methods of the client: ask for the first page, then follow the cursors until there
      is none, or until a request fails. */
  method ListAll<T(==)>(versions: seq<seq<T>>, limit: string) returns (r: Option<seq<T>>, pages: seq<seq<T>>)
    requires Addressable(versions)
    ensures Reads(versions, PageSize(limit), pages)
    ensures r.Some? ==> r.value == Flatten(pages) && Ends(versions, PageSize(limit), pages)
    ensures r.None? ==> |pages| == |versions| && (pages != [] ==> More(versions, PageSize(limit), |pages| - 1))
  {
    var all: seq<T> := [];
    pages := [];
    var cursor := "";
    ghost var size := PageSize(limit);
    FirstCursor();
    while |pages| < |versions|
      invariant |pages| <= |versions| && Reading(versions, size, cursor, pages)
      invariant all == Flatten(pages)
    {
      var page := Serve(versions[|pages|], limit, cursor);
      ReadingNext(versions, size, cursor, pages);
      FlattenNext(pages, page.data);
      all, pages := all + page.data, pages + [page.data];
      if page.next.None? { return Some(all), pages; }
      cursor := page.next.value;
    }
    r := None;
  }

  lemma FirstCursor()
    ensures DecodeCursor("") == 0
  {
  }

  /** The first k items, or all of them. */
  function Taken<T>(s: seq<T>, k: nat): seq<T> { if k <= |s| then s[..k] else s }

  // ----- a list that stays the same -----

  predicate AllSame<T(==)>(versions: seq<seq<T>>, items: seq<T>) { forall n :: 0 <= n < |versions| ==> versions[n] == items }

  lemma TakenAll<T>(s: seq<T>, k: nat)
    requires k >= |s|
    ensures Taken(s, k) == s
  {
    if k == |s| { assert s[..k] == s; }
  }

  /** What the n-th stretch adds to the ones before it. */
  lemma FixedStretch<T>(items: seq<T>, size: nat, n: nat)
    requires 1 <= size && |items| < TWO_63 && Offset(size, n) <= |items|
    ensures var data := Paginate(items, size, Offset(size, n)).data;
            && Taken(items, Offset(size, n)) + data == Taken(items, Offset(size, n + 1))
            && |data| <= size && (Offset(size, n + 1) < |items| ==> |data| == size) && (Offset(size, n) < |items| ==> data != [])
  {
    PageAt(items, size, Offset(size, n));
    NextStretch(items, size, n);
    if Offset(size, n + 1) >= |items| { TakenAll(items, Offset(size, n + 1)); }
  }

  predicate FullButLast<T>(pages: seq<seq<T>>, size: nat) {
    forall n :: 0 <= n < |pages| ==> |pages[n]| <= size && (n < |pages| - 1 ==> |pages[n]| == size)
  }

  lemma StretchLength<T>(items: seq<T>, size: nat, n: nat)
    requires 1 <= size
    ensures |Paginate(items, size, Offset(size, n)).data| <= size
    ensures Offset(size, n + 1) < |items| ==> |Paginate(items, size, Offset(size, n)).data| == size
  {
  }

  lemma PagesAreFull<T>(versions: seq<seq<T>>, size: nat, pages: seq<seq<T>>)
    requires 1 <= size && Reads(versions, size, pages)
    ensures FullButLast(pages, size)
  {
    forall n | 0 <= n < |pages| ensures |pages[n]| <= size && (n < |pages| - 1 ==> |pages[n]| == size) {
      StretchLength(versions[n], size, n);
      assert n < |pages| - 1 ==> More(versions, size, n);
    }
  }

  /** Request n was made with n stretches read and, unless it is the first, not all of the list. */
  lemma ReachedBy<T>(items: seq<T>, versions: seq<seq<T>>, size: nat, pages: seq<seq<T>>)
    requires AllSame(versions, items) && Reads(versions, size, pages) && |pages| > 1
    ensures Offset(size, |pages| - 1) < |items|
  {
    assert More(versions, size, |pages| - 2);
  }

  lemma {:induction false} ReadSoFar<T>(items: seq<T>, versions: seq<seq<T>>, size: nat, pages: seq<seq<T>>)
    requires 1 <= size && |items| < TWO_63 && AllSame(versions, items) && Reads(versions, size, pages)
    ensures Flatten(pages) == Taken(items, Offset(size, |pages|))
  {
    if pages != [] {
      var init := pages[..|pages| - 1];
      ReadSoFar(items, versions, size, init);
      if |pages| > 1 { ReachedBy(items, versions, size, pages); }
      FixedStretch(items, size, |init|);
      assert pages[|init|] == Stretch(versions, size, |init|);
    }
  }

  /** A list that does not change is read exactly, in pages that are all full but the last; and the
      loop ends, since it takes no more requests than the list has stretches. */
  lemma FixedListIsRead<T>(items: seq<T>, versions: seq<seq<T>>, size: nat, pages: seq<seq<T>>)
    requires 1 <= size && |items| < TWO_63 && AllSame(versions, items) && Reads(versions, size, pages)
    ensures Ends(versions, size, pages) ==> Flatten(pages) == items && (CutsUp(pages, size) || (items == [] && pages == [[]]))
    ensures |pages| > 1 ==> Offset(size, |pages| - 1) < |items|
  {
    ReadSoFar(items, versions, size, pages);
    PagesAreFull(versions, size, pages);
    if |pages| > 1 { ReachedBy(items, versions, size, pages); }
    if pages != [] {
      FixedStretch(items, size, |pages| - 1);
      if Ends(versions, size, pages) { TakenAll(items, Offset(size, |pages|)); }
    }
  }

  predicate Distinct<T(==)>(s: seq<T>) { forall i, j :: 0 <= i < j < |s| ==> s[i] != s[j] }

  lemma {:induction false} CountDistinct<T>(s: seq<T>, x: T)
    requires Distinct(s)
    ensures multiset(s)[x] == if x in s then 1 else 0
  {
    if s != [] {
      var init, last := s[..|s| - 1], s[|s| - 1];
      assert s == init + [last];
      CountDistinct(init, x);
    }
  }

  // ----- a list that changes between any two pages -----

  /** Whether the item lies before an offset, as a number. */
  function Before<T(==)>(items: seq<T>, offset: nat, x: T): nat { if x in Taken(items, offset) then 1 else 0 }

  /** How often, up to request n, the item was before the cursor and then no longer. */
  function PulledBack<T(==)>(versions: seq<seq<T>>, size: nat, n: nat, x: T): nat
    requires n < |versions|
  {
    if n == 0 then 0
    else
      var was, now := Before(versions[n - 1], Offset(size, n), x), Before(versions[n], Offset(size, n), x);
      PulledBack(versions, size, n - 1, x) + (if was > now then 1 else 0)
  }

  /** How often it was not, and then was. */
  function PushedOn<T(==)>(versions: seq<seq<T>>, size: nat, n: nat, x: T): nat
    requires n < |versions|
  {
    if n == 0 then 0
    else
      var was, now := Before(versions[n - 1], Offset(size, n), x), Before(versions[n], Offset(size, n), x);
      PushedOn(versions, size, n - 1, x) + (if was < now then 1 else 0)
  }

  /** Every list that was read has the item. */
  predicate Stayed<T(==)>(versions: seq<seq<T>>, pages: seq<seq<T>>, x: T)
    requires |pages| <= |versions|
  {
    forall n :: 0 <= n < |pages| ==> x in versions[n]
  }

  predicate AllDistinct<T(==)>(versions: seq<seq<T>>) { forall n :: 0 <= n < |versions| ==> Distinct(versions[n]) }

  lemma TakenAndStretch<T>(items: seq<T>, size: nat, offset: nat)
    ensures Taken(items, offset + size) == Taken(items, offset) + Paginate(items, size, offset).data
  {
  }

  /** One page brings what its stretch adds to what lies before the cursor. */
  lemma StretchBrings<T>(items: seq<T>, size: nat, offset: nat, x: T)
    requires Distinct(items)
    ensures multiset(Paginate(items, size, offset).data)[x] + Before(items, offset, x) == Before(items, offset + size, x)
  {
    TakenAndStretch(items, size, offset);
    CountDistinct(Taken(items, offset), x);
    CountDistinct(Taken(items, offset + size), x);
  }

  lemma Crosses<T>(versions: seq<seq<T>>, size: nat, n: nat, x: T)
    requires 0 < n < |versions|
    ensures PulledBack(versions, size, n, x) + PushedOn(versions, size, n - 1, x) + Before(versions[n], Offset(size, n), x)
         == PulledBack(versions, size, n - 1, x) + PushedOn(versions, size, n, x) + Before(versions[n - 1], Offset(size, n), x)
  {
  }

  lemma PageBrings<T>(versions: seq<seq<T>>, size: nat, pages: seq<seq<T>>, n: nat, x: T)
    requires AllDistinct(versions) && Reads(versions, size, pages) && n == |pages| - 1
    ensures multiset(Flatten(pages))[x] + Before(versions[n], Offset(size, n), x)
         == multiset(Flatten(pages[..n]))[x] + Before(versions[n], Offset(size, n + 1), x)
  {
    StretchBrings(versions[n], size, Offset(size, n), x);
    assert pages[n] == Stretch(versions, size, n);
    assert Flatten(pages) == Flatten(pages[..n]) + pages[n];
  }

  lemma ReadsPrefix<T>(versions: seq<seq<T>>, size: nat, pages: seq<seq<T>>, n: nat)
    requires Reads(versions, size, pages) && n <= |pages|
    ensures Reads(versions, size, pages[..n])
  {
  }

  lemma {:induction false} DeliveredSoFar<T>(versions: seq<seq<T>>, size: nat, pages: seq<seq<T>>, n: nat, x: T)
    requires AllDistinct(versions) && Reads(versions, size, pages) && n == |pages| - 1
    ensures multiset(Flatten(pages))[x] + PushedOn(versions, size, n, x)
         == PulledBack(versions, size, n, x) + Before(versions[n], Offset(size, n + 1), x)
    decreases n
  {
    PageBrings(versions, size, pages, n, x);
    if n > 0 {
      ReadsPrefix(versions, size, pages, n);
      DeliveredSoFar(versions, size, pages[..n], n - 1, x);
      Crosses(versions, size, n, x);
    } else {
      assert Taken(versions[0], 0) == [] && pages[..0] == [];
    }
  }

  lemma EndIsReached<T>(versions: seq<seq<T>>, size: nat, pages: seq<seq<T>>, x: T)
    requires Ends(versions, size, pages) && Stayed(versions, pages, x)
    ensures var n := |pages| - 1; Before(versions[n], Offset(size, n + 1), x) == 1
  {
    var n := |pages| - 1;
    TakenAll(versions[n], Offset(size, n + 1));
  }

  /** However the list changes between pages, an item that stays in it is delivered once, and once
      more for each time it falls back behind the cursor, and once less for each time it gets
      before it unread. */
  lemma DeliveredAcrossVersions<T>(versions: seq<seq<T>>, size: nat, pages: seq<seq<T>>, x: T)
    requires AllDistinct(versions) && Reads(versions, size, pages) && Ends(versions, size, pages) && Stayed(versions, pages, x)
    ensures multiset(Flatten(pages))[x] + PushedOn(versions, size, |pages| - 1, x) == 1 + PulledBack(versions, size, |pages| - 1, x)
  {
    DeliveredSoFar(versions, size, pages, |pages| - 1, x);
    EndIsReached(versions, size, pages, x);
  }

  /** So nothing that stays is skipped or repeated exactly when every such item crosses the cursor
      as often in one direction as in the other. */
  lemma EveryItemOnceExactlyWhen<T(!new)>(versions: seq<seq<T>>, size: nat, pages: seq<seq<T>>)
    requires AllDistinct(versions) && Reads(versions, size, pages) && Ends(versions, size, pages)
    ensures (forall x :: Stayed(versions, pages, x) ==> multiset(Flatten(pages))[x] == 1) <==>
            (forall x :: Stayed(versions, pages, x) ==> PushedOn(versions, size, |pages| - 1, x) == PulledBack(versions, size, |pages| - 1, x))
  {
    forall x | Stayed(versions, pages, x)
      ensures multiset(Flatten(pages))[x] + PushedOn(versions, size, |pages| - 1, x) == 1 + PulledBack(versions, size, |pages| - 1, x)
    {
      DeliveredAcrossVersions(versions, size, pages, x);
    }
  }

  // ----- a list that changes once while it is read -----

  /** What following the cursors brings from an offset on. */
  function Follow<T>(items: seq<T>, size: nat, offset: nat): seq<T>
    requires 1 <= size && |items| < TWO_63
    decreases |items| - offset
  {
    var page := Paginate(items, size, offset);
    if page.next.None? then page.data
    else
      PageAt(items, size, offset);
      page.data + Follow(items, size, DecodeCursor(page.next.value))
  }

  lemma {:induction false} FollowIsRest<T>(items: seq<T>, size: nat, offset: nat)
    requires 1 <= size && |items| < TWO_63
    ensures Follow(items, size, offset) == if offset <= |items| then items[offset..] else []
    decreases |items| - offset
  {
    if offset < |items| {
      PageAt(items, size, offset);
      var page := Paginate(items, size, offset);
      var end := offset + |page.data|;
      if page.next.Some? {
        FollowIsRest(items, size, end);
        Cut(items, offset, end);
      }
    }
  }

  lemma Cut<T>(s: seq<T>, i: nat, j: nat)
    requires i <= j <= |s|
    ensures s[i..j] + s[j..] == s[i..]
  {
  }

  /** What a client ends up with that read before up to offset k when the list changed to after. */
  function ReadAcross<T>(before: seq<T>, after: seq<T>, size: nat, k: nat): seq<T>
    requires 1 <= size && k <= |before| && k < TWO_63 && |after| < TWO_63
  {
    before[..k] + Follow(after, size, DecodeCursor(EncodeCursor(k)))
  }

  /** What comes after them. */
  function Beyond<T>(s: seq<T>, k: nat): seq<T> { if k <= |s| then s[k..] else [] }

  lemma ReadIs<T>(before: seq<T>, after: seq<T>, size: nat, k: nat)
    requires 1 <= size && k <= |before| && k < TWO_63 && |after| < TWO_63
    ensures ReadAcross(before, after, size, k) == before[..k] + Beyond(after, k)
  {
    CursorRoundTrip(k);
    FollowIsRest(after, size, k);
  }

  /** How often a surviving item is delivered: once for being before the cursor when that part was
      read, once for not being before it when the rest was. */
  lemma DeliveredTimes<T>(before: seq<T>, after: seq<T>, size: nat, k: nat, x: T)
    requires 1 <= size && k <= |before| && k < TWO_63 && |after| < TWO_63
    requires Distinct(before) && Distinct(after) && x in before && x in after
    ensures multiset(ReadAcross(before, after, size, k))[x] ==
      (if x in before[..k] then 1 else 0) + (if x in Taken(after, k) then 0 else 1)
  {
    ReadIs(before, after, size, k);
    CountDistinct(before[..k], x);
    CountDistinct(Beyond(after, k), x);
    SplitsOnce(after, k, x);
  }

  lemma SplitsOnce<T>(s: seq<T>, k: nat, x: T)
    requires Distinct(s) && x in s
    ensures x in Beyond(s, k) <==> x !in Taken(s, k)
  {
    var i :| 0 <= i < |s| && s[i] == x;
    if k <= i {
      assert s[k..][i - k] == x;
    } else {
      assert Taken(s, k)[i] == x;
    }
  }

  /** Nothing that stayed is skipped or repeated exactly when the same surviving items lie before
      the cursor in the old list and in the new one. */
  lemma NoSkipNoRepeatExactlyWhen<T(!new)>(before: seq<T>, after: seq<T>, size: nat, k: nat)
    requires 1 <= size && k <= |before| && k < TWO_63 && |after| < TWO_63
    requires Distinct(before) && Distinct(after)
    ensures (forall x :: x in before && x in after ==> multiset(ReadAcross(before, after, size, k))[x] == 1) <==>
            (forall x :: x in before && x in after ==> (x in before[..k] <==> x in Taken(after, k)))
  {
    forall x | x in before && x in after
      ensures multiset(ReadAcross(before, after, size, k))[x] ==
        (if x in before[..k] then 1 else 0) + (if x in Taken(after, k) then 0 else 1)
    {
      DeliveredTimes(before, after, size, k, x);
    }
  }

  /** The client ends up with the new list itself exactly when nothing before the cursor changed. */
  lemma StableExactlyWhenPrefixUnchanged<T>(before: seq<T>, after: seq<T>, size: nat, k: nat)
    requires 1 <= size && k <= |before| && k < TWO_63 && |after| < TWO_63
    ensures ReadAcross(before, after, size, k) == after <==> before[..k] <= after
  {
    ReadIs(before, after, size, k);
    PrefixAndRest(before[..k], after);
  }

  lemma PrefixAndRest<T>(a: seq<T>, s: seq<T>)
    ensures a + Beyond(s, |a|) == s <==> a <= s
  {
    if a <= s {
      assert s == s[..|a|] + s[|a|..];
    }
  }

  /** Deleting an item already read makes the client miss the one at the cursor, whatever the list
      and the page size. */
  lemma DeletionSkips<T>(items: seq<T>, size: nat)
    requires 1 <= size < |items| < TWO_63
    ensures var first := Paginate(items, size, 0);
            && first.next == Some(EncodeCursor(size)) && first.data == items[..size]
            && ReadAcross(items, items[1..], size, size) == items[..size] + items[size + 1..]
  {
    ReadIs(items, items[1..], size, size);
  }
}
