/** Go's string order, sort.Strings / sort.Slice on distinct keys, and why their result is unique. */
module Ordering {

  /** The order Go's < gives two strings. */
  predicate Less(a: string, b: string) {
    b != [] && (a == [] || a[0] < b[0] || (a[0] == b[0] && Less(a[1..], b[1..])))
  }

  lemma {:induction false} LessIrreflexive(a: string)
    ensures !Less(a, a)
  {
    if a != [] { LessIrreflexive(a[1..]); }
  }

  lemma {:induction false} LessTransitive(a: string, b: string, c: string)
    requires Less(a, b) && Less(b, c)
    ensures Less(a, c)
  {
    if a != [] && a[0] == b[0] && b[0] == c[0] { LessTransitive(a[1..], b[1..], c[1..]); }
  }

  lemma {:induction false} LessTotal(a: string, b: string)
    requires a != b
    ensures Less(a, b) || Less(b, a)
  {
    if a != [] && b != [] && a[0] == b[0] {
      assert a == [a[0]] + a[1..] && b == [b[0]] + b[1..];
      LessTotal(a[1..], b[1..]);
    }
  }

  /** An element whose key no other one precedes. */
  method Least<T(==)>(key: T -> string, s: set<T>) returns (least: T)
    requires s != {}
    ensures least in s && forall x :: x in s ==> !Less(key(x), key(least))
  {
    least :| least in s;
    var left := s - {least};
    LessIrreflexive(key(least));
    while left != {}
      invariant left < s && least in s - left
      invariant forall x :: x in s - left ==> !Less(key(x), key(least))
    {
      var y :| y in left;
      left := left - {y};
      if Less(key(y), key(least)) {
        forall x | x in s - left ensures !Less(key(x), key(y)) {
          if Less(key(x), key(y)) {
            if x == y { LessIrreflexive(key(y)); } else { LessTransitive(key(x), key(y), key(least)); }
          }
        }
        least := y;
      }
    }
  }

  predicate StrictlySorted<T(!new)>(key: T -> string, s: seq<T>) {
    forall i, j :: 0 <= i < j < |s| ==> Less(key(s[i]), key(s[j]))
  }

  predicate DistinctKeys<T(!new)>(key: T -> string, s: seq<T>) {
    forall i, j :: 0 <= i < j < |s| ==> key(s[i]) != key(s[j])
  }

  function Insert<T(!new)>(key: T -> string, x: T, s: seq<T>): (r: seq<T>)
    ensures multiset(r) == multiset{x} + multiset(s)
  {
    if s == [] then [x]
    else if Less(key(x), key(s[0])) then [x] + s
    else
      assert s == [s[0]] + s[1..];
      [s[0]] + Insert(key, x, s[1..])
  }

  /** sort.Slice ordering by key; it is only ever called on distinct keys. */
  function SortBy<T(!new)>(key: T -> string, s: seq<T>): (r: seq<T>)
    ensures multiset(r) == multiset(s)
  {
    if s == [] then []
    else
      assert s == [s[0]] + s[1..];
      Insert(key, s[0], SortBy(key, s[1..]))
  }

  lemma {:induction false} InsertSorted<T(!new)>(key: T -> string, x: T, s: seq<T>)
    requires StrictlySorted(key, s)
    requires forall y :: y in s ==> key(y) != key(x)
    ensures StrictlySorted(key, Insert(key, x, s))
  {
    if s == [] {
    } else if Less(key(x), key(s[0])) {
      forall j | 0 < j < |s| ensures Less(key(x), key(s[j])) {
        LessTransitive(key(x), key(s[0]), key(s[j]));
      }
    } else {
      LessTotal(key(x), key(s[0]));
      var r := Insert(key, x, s[1..]);
      InsertSorted(key, x, s[1..]);
      forall j | 0 <= j < |r| ensures Less(key(s[0]), key(r[j])) {
        assert r[j] in multiset(r);
        if r[j] != x {
          assert r[j] in s[1..];
        }
      }
    }
  }

  lemma {:induction false} SortBySorted<T(!new)>(key: T -> string, s: seq<T>)
    requires DistinctKeys(key, s)
    ensures StrictlySorted(key, SortBy(key, s))
  {
    if s != [] {
      var r := SortBy(key, s[1..]);
      SortBySorted(key, s[1..]);
      forall y | y in r ensures key(y) != key(s[0]) {
        assert y in multiset(r);
        assert y in s[1..];
      }
      InsertSorted(key, s[0], r);
    }
  }

  /** Two strictly sorted sequences with the same elements are the same sequence. */
  lemma {:induction false} StrictlySortedUnique<T(!new)>(key: T -> string, a: seq<T>, b: seq<T>)
    requires StrictlySorted(key, a) && StrictlySorted(key, b)
    requires forall x :: x in a <==> x in b
    ensures a == b
  {
    assert |a| > 0 ==> a[0] in b;
    assert |b| > 0 ==> b[0] in a;
    if a != [] {
      HeadIsLeast(key, a, b[0]);
      HeadIsLeast(key, b, a[0]);
      LessAsymmetric(key(a[0]), key(b[0]));
      assert a[0] == b[0];
      forall x ensures x in a[1..] <==> x in b[1..] {
        TailMembers(key, a, x);
        TailMembers(key, b, x);
      }
      StrictlySortedUnique(key, a[1..], b[1..]);
      assert a == [a[0]] + a[1..] && b == [b[0]] + b[1..];
    }
  }

  lemma HeadIsLeast<T(!new)>(key: T -> string, s: seq<T>, x: T)
    requires StrictlySorted(key, s) && x in s
    ensures x == s[0] || Less(key(s[0]), key(x))
  {
  }

  lemma LessAsymmetric(a: string, b: string)
    ensures !(Less(a, b) && Less(b, a))
  {
    if Less(a, b) && Less(b, a) {
      LessTransitive(a, b, a);
      LessIrreflexive(a);
    }
  }

  lemma TailMembers<T(!new)>(key: T -> string, s: seq<T>, x: T)
    requires StrictlySorted(key, s) && s != []
    ensures x in s[1..] <==> x in s && x != s[0]
  {
    if s[0] in s[1..] {
      LessIrreflexive(key(s[0]));
    }
    assert s == [s[0]] + s[1..];
  }

  lemma SortedKeysDistinct<T(!new)>(key: T -> string, s: seq<T>)
    requires StrictlySorted(key, s)
    ensures DistinctKeys(key, s)
  {
    forall i, j | 0 <= i < j < |s| ensures key(s[i]) != key(s[j]) { LessIrreflexive(key(s[i])); }
  }

  /** Sorting what is sorted changes nothing. */
  lemma SortByOfSorted<T(!new)>(key: T -> string, s: seq<T>)
    requires StrictlySorted(key, s)
    ensures SortBy(key, s) == s
  {
    SortedKeysDistinct(key, s);
    SortBySorted(key, s);
    var r := SortBy(key, s);
    forall x ensures x in r <==> x in s {
      assert x in r <==> x in multiset(r);
    }
    StrictlySortedUnique(key, r, s);
  }

  /** Taking out the element at k takes one copy of it out of the multiset. */
  lemma RemoveAt<T>(s: seq<T>, k: nat)
    requires k < |s|
    ensures multiset(s) == multiset(s[..k] + s[k + 1..]) + multiset{s[k]}
  {
    assert s == s[..k] + [s[k]] + s[k + 1..];
  }

  /** The sum of v over a sequence. */
  function Total<T>(v: T -> int, s: seq<T>): int {
    if s == [] then 0 else Total(v, s[..|s| - 1]) + v(s[|s| - 1])
  }

  lemma TotalSnoc<T>(v: T -> int, s: seq<T>, x: T)
    ensures Total(v, s + [x]) == Total(v, s) + v(x)
  {
    assert (s + [x])[..|s|] == s;
  }

  lemma {:induction false} TotalUpdate<T>(v: T -> int, s: seq<T>, k: nat, x: T)
    requires k < |s|
    ensures Total(v, s[k := x]) == Total(v, s) - v(s[k]) + v(x)
  {
    var n := |s| - 1;
    if k == n {
      assert s[k := x][..n] == s[..n];
    } else {
      assert s[k := x][..n] == s[..n][k := x];
      TotalUpdate(v, s[..n], k, x);
    }
  }

  lemma {:induction false} TotalZero<T>(v: T -> int, s: seq<T>)
    requires forall x :: x in s ==> v(x) == 0
    ensures Total(v, s) == 0
  {
    if s != [] {
      assert s[|s| - 1] in s;
      TotalZero(v, s[..|s| - 1]);
    }
  }

  lemma {:induction false} TotalRemove<T>(v: T -> int, s: seq<T>, k: nat)
    requires k < |s|
    ensures Total(v, s) == Total(v, s[..k] + s[k + 1..]) + v(s[k])
  {
    var n := |s| - 1;
    if k == n {
      assert s[..k] + s[k + 1..] == s[..n];
    } else {
      TotalRemove(v, s[..n], k);
      var rest := s[..k] + s[k + 1..];
      assert rest[..|rest| - 1] == s[..n][..k] + s[..n][k + 1..];
    }
  }

  /** A sum does not depend on the order. */
  lemma {:induction false} TotalPermutes<T>(v: T -> int, a: seq<T>, b: seq<T>)
    requires multiset(a) == multiset(b)
    ensures Total(v, a) == Total(v, b)
  {
    if a == [] {
      assert |multiset(b)| == 0;
    } else {
      var x, init := a[|a| - 1], a[..|a| - 1];
      RemoveAt(a, |a| - 1);
      assert a[..|a| - 1] + a[|a| - 1 + 1..] == init;
      assert x in multiset(b);
      var k :| 0 <= k < |b| && b[k] == x;
      var rest := b[..k] + b[k + 1..];
      RemoveAt(b, k);
      assert multiset(init) == multiset(a) - multiset{x} == multiset(rest);
      TotalPermutes(v, init, rest);
      TotalRemove(v, b, k);
    }
  }
}
