/** Decimal text of integers: strconv.Itoa, strconv.Atoi and JSON integer literals. */
module Decimal {
  import opened Prelude

  predicate IsDigit(c: char) { '0' <= c <= '9' }

  predicate AllDigits(s: string) { forall c :: c in s ==> IsDigit(c) }

  function Digits(n: nat): (s: string)
    ensures s != [] && AllDigits(s)
    ensures n > 0 ==> s[0] != '0'
    ensures n == 0 ==> s == "0"
  {
    if n < 10 then ['0' + n as char] else Digits(n / 10) + ['0' + (n % 10) as char]
  }

  function Value(s: string): nat
    requires AllDigits(s)
  {
    if s == [] then 0 else
      assert s[|s| - 1] in s;
      10 * Value(s[..|s| - 1]) + (s[|s| - 1] - '0') as nat
  }

  lemma {:induction false} ValueOfDigits(n: nat)
    ensures Value(Digits(n)) == n
  {
    if n < 10 {
      assert Digits(n)[..0] == [];
    } else {
      var s := Digits(n);
      assert s[..|s| - 1] == Digits(n / 10);
      ValueOfDigits(n / 10);
    }
  }

  function Itoa(n: int): string { if n < 0 then "-" + Digits(-n) else Digits(n) }

  /** strconv.Atoi: an optional sign, at least one digit, and a value in int64. */
  function Atoi(s: string): (r: Option<int>)
    ensures r.Some? ==> -TWO_63 <= r.value < TWO_63
  {
    var neg := s != [] && s[0] == '-';
    var body := if s != [] && s[0] in "+-" then s[1..] else s;
    if body == [] || !AllDigits(body) then None
    else
      var v := if neg then 0 - Value(body) else Value(body);
      if -TWO_63 <= v < TWO_63 then Some(v) else None
  }

  lemma AtoiOfDigits(s: string)
    requires s != [] && AllDigits(s)
    ensures Value(s) < TWO_63 ==> Atoi(s) == Some(Value(s))
    ensures Value(s) <= TWO_63 ==> Atoi("-" + s) == Some(0 - Value(s) as int)
  {
    assert s[0] in s;
    assert ("-" + s)[1..] == s;
  }

  lemma AtoiItoa(n: int)
    requires -TWO_63 <= n < TWO_63
    ensures Atoi(Itoa(n)) == Some(n)
  {
    var m := if n < 0 then -n else n;
    ValueOfDigits(m);
    AtoiOfDigits(Digits(m));
  }

  /** A JSON integer literal: an optional minus and digits without a leading zero. */
  predicate JsonInteger(lit: string) {
    var body := if lit != [] && lit[0] == '-' then lit[1..] else lit;
    body != [] && AllDigits(body) && (|body| > 1 ==> body[0] != '0')
  }

  /** encoding/json into a uint64: a minus sign is rejected, even on zero. */
  function JsonUint(lit: string): (r: Option<int>)
    ensures r.Some? ==> 0 <= r.value < TWO_64
  {
    if !JsonInteger(lit) || lit[0] == '-' || Value(lit) >= TWO_64 then None else Some(Value(lit))
  }

  /** encoding/json into an int. */
  function JsonInt(lit: string): Option<int> {
    if JsonInteger(lit) then Atoi(lit) else None
  }

  lemma JsonLiteralOfDigits(n: nat)
    ensures n < TWO_64 ==> JsonUint(Digits(n)) == Some(n)
    ensures n < TWO_63 ==> JsonInt(Digits(n)) == Some(n)
  {
    ValueOfDigits(n);
    assert Digits(n)[0] in Digits(n);
    if n < TWO_63 {
      AtoiItoa(n);
    }
  }

  /** The literal 0, or digits that do not begin with it: JSON has one text for each number. */
  lemma {:induction false} DigitsOfValue(s: string)
    requires s != [] && AllDigits(s) && (|s| > 1 ==> s[0] != '0')
    ensures Digits(Value(s)) == s
  {
    var n := |s| - 1;
    var init, last := s[..n], s[n];
    assert last in s;
    if n == 0 {
      assert init == [] && s == [last];
    } else {
      assert forall c :: c in init ==> c in s;
      assert init[0] == s[0];
      DigitsOfValue(init);
      ValueIsPositive(init);
      var v, r := Value(init), (last - '0') as int;
      assert Value(s) == 10 * v + r && 0 <= r < 10;
      assert Value(s) / 10 == v && Value(s) % 10 == r;
      assert '0' + r as char == last;
      assert s == init + [last];
    }
  }

  lemma {:induction false} ValueIsPositive(s: string)
    requires s != [] && AllDigits(s) && s[0] != '0'
    ensures Value(s) > 0
  {
    var n := |s| - 1;
    assert s[n] in s;
    if n > 0 {
      assert forall c :: c in s[..n] ==> c in s;
      ValueIsPositive(s[..n]);
    }
  }

  /** A uint64 has exactly one literal for each number of its range. */
  lemma UintTakenExactly(lit: string, n: int)
    ensures JsonUint(lit) == Some(n) <==> 0 <= n < TWO_64 && lit == Itoa(n)
  {
    if 0 <= n < TWO_64 && lit == Itoa(n) { JsonLiteralOfDigits(n); }
    if JsonUint(lit) == Some(n) { DigitsOfValue(lit); }
  }

  lemma MinusZero(lit: string)
    requires lit == "-0"
    ensures JsonInt(lit) == Some(0)
  {
    var body := lit[1..];
    assert body == "0" && body[..0] == [];
    assert Value(body) == 0;
  }

  lemma OnlyMinusZero(lit: string)
    requires JsonInteger(lit) && lit[0] == '-' && JsonInt(lit).Some? && JsonInt(lit).value >= 0
    ensures lit == "-0"
  {
    var body := lit[1..];
    DigitsOfValue(body);
    assert lit == [lit[0]] + body;
  }

  /** The literals of the integers that are not negative. */
  lemma IntLiterals(lit: string)
    requires JsonInt(lit).Some? && JsonInt(lit).value >= 0
    ensures lit == Itoa(JsonInt(lit).value) || lit == "-0"
    ensures lit == "-0" ==> JsonInt(lit).value == 0
  {
    if lit[0] == '-' {
      OnlyMinusZero(lit);
      MinusZero(lit);
    } else {
      DigitsOfValue(lit);
      assert lit[0] in lit;
    }
  }

  /** Atoi takes digits alone or after one sign, if the number fits an int64, and nothing else. */
  lemma AtoiTakesExactly(s: string, d: string)
    requires d != [] && AllDigits(d)
    ensures Atoi("+" + d) == Atoi(d) == if Value(d) < TWO_63 then Some(Value(d)) else None
    ensures Atoi("-" + d) == if Value(d) <= TWO_63 then Some(0 - Value(d) as int) else None
    ensures Atoi(s).Some? ==> s != [] && ((AllDigits(s)) || (|s| > 1 && s[0] in "+-" && AllDigits(s[1..])))
  {
    assert d[0] in d;
    assert ("-" + d)[1..] == d && ("+" + d)[1..] == d;
  }
}
