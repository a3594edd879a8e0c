/** Small vocabulary shared by every component of the model. */
module Prelude {

  datatype Option<+T> = None | Some(value: T)

  datatype Result<+T, +E> = Ok(value: T) | Err(error: E)

  /** The number of values of Go's uint64; its arithmetic is modulo this. */
  const TWO_64 := 0x1_0000_0000_0000_0000

  /** Go's int64 range is -TWO_63 .. TWO_63 - 1. */
  const TWO_63 := 0x8000_0000_0000_0000

  /** The last n elements of s, or all of s when it has no more than n. */
  function Suffix<T>(s: seq<T>, n: nat): seq<T> {
    if |s| <= n then s else s[|s| - n..]
  }

  function Filter<T>(p: T -> bool, s: seq<T>): seq<T> {
    if s == [] then []
    else if p(s[0]) then [s[0]] + Filter(p, s[1..])
    else Filter(p, s[1..])
  }

  lemma {:induction false} FilterAppend<T>(p: T -> bool, a: seq<T>, b: seq<T>)
    ensures Filter(p, a + b) == Filter(p, a) + Filter(p, b)
  {
    if a == [] {
      assert a + b == b;
    } else {
      assert (a + b)[1..] == a[1..] + b;
      FilterAppend(p, a[1..], b);
    }
  }

  function Flatten<T>(ss: seq<seq<T>>): seq<T> {
    if ss == [] then [] else Flatten(ss[..|ss| - 1]) + ss[|ss| - 1]
  }

  lemma FlattenNext<T>(ss: seq<seq<T>>, s: seq<T>)
    ensures Flatten(ss + [s]) == Flatten(ss) + s
  {
    assert (ss + [s])[..|ss|] == ss;
  }

  lemma {:induction false} SubsetSize<T>(a: set<T>, b: set<T>)
    requires a <= b
    ensures |a| <= |b|
  {
    if a != {} {
      var x :| x in a;
      SubsetSize(a - {x}, b - {x});
    }
  }

  lemma MergeUpdate<K, V>(a: map<K, V>, b: map<K, V>, k: K, v: V)
    ensures a + b[k := v] == (a + b)[k := v]
  {
  }

  lemma MergeEmpty<K, V>(m: map<K, V>)
    ensures m + map[] == m && map[] + m == m
  {
  }

  lemma MergeAssociative<K, V>(a: map<K, V>, b: map<K, V>, c: map<K, V>)
    ensures a + b + c == a + (b + c)
  {
  }

  /** Taking one key less away puts its entry back. */
  lemma RemoveLess<K, V>(m: map<K, V>, left: set<K>, k: K)
    requires k in left && left <= m.Keys
    ensures m - (left - {k}) == (m - left)[k := m[k]]
  {
  }

  /** The entries of m that satisfy p, with their values replaced. */
  function Collect<K, V, W>(m: map<K, V>, p: (K, V) -> bool, g: (K, V) -> W): map<K, W> {
    map k | k in m && p(k, m[k]) :: g(k, m[k])
  }

  lemma CollectUpdate<K, V, W>(m: map<K, V>, p: (K, V) -> bool, g: (K, V) -> W, k: K, v: V)
    requires k !in m
    ensures Collect(m[k := v], p, g) == if p(k, v) then Collect(m, p, g)[k := g(k, v)] else Collect(m, p, g)
  {
    assert m[k := v][k] == v;
  }
}
