/** Decimal numerals, and Python's string order. */
module Decimal {

  predicate IsDigit(c: char) {
    '0' <= c <= '9'
  }

  ghost predicate AllDigits(s: string) {
    forall i :: 0 <= i < |s| ==> IsDigit(s[i])
  }

  function Digit(d: nat): char
    requires d < 10
  {
    '0' + d as char
  }

  function DigitValue(c: char): nat
    requires IsDigit(c)
  {
    c as int - '0' as int
  }

  function ToDecimal(n: nat): (s: string)
    ensures s != [] && AllDigits(s)
  {
    if n < 10 then [Digit(n)] else ToDecimal(n / 10) + [Digit(n % 10)]
  }

  function Value(s: string): nat
    requires AllDigits(s)
  {
    if s == [] then 0 else 10 * Value(s[..|s| - 1]) + DigitValue(s[|s| - 1])
  }

  lemma {:induction false} ValueOfDecimal(n: nat)
    ensures Value(ToDecimal(n)) == n
  {
    if n >= 10 {
      ValueOfDecimal(n / 10);
      assert ToDecimal(n)[..|ToDecimal(n)| - 1] == ToDecimal(n / 10);
    } else {
      assert [Digit(n)][..0] == [];
    }
  }

  lemma {:induction false} LeadingZero(s: string)
    requires AllDigits(s)
    ensures AllDigits("0" + s) && Value("0" + s) == Value(s)
  {
    if s == [] {
      assert "0" + s == "0" && "0"[..0] == [];
    } else {
      LeadingZero(s[..|s| - 1]);
      assert ("0" + s)[..|s|] == "0" + s[..|s| - 1];
    }
  }

  // ---------------------------------------------------------------- leading zeros

  function Strip(s: string): (r: string)
    ensures r == [] || r[0] != '0'
  {
    if s != [] && s[0] == '0' then Strip(s[1..]) else s
  }

  lemma {:induction false} StripValue(s: string)
    requires AllDigits(s)
    ensures AllDigits(Strip(s)) && Value(Strip(s)) == Value(s)
  {
    if s != [] && s[0] == '0' {
      LeadingZero(s[1..]);
      assert s == "0" + s[1..];
      StripValue(s[1..]);
    }
  }

  lemma DigitOfValue(c: char)
    requires IsDigit(c)
    ensures Digit(DigitValue(c)) == c
  {
  }

  lemma ValueSnoc(init: string, c: char)
    requires AllDigits(init) && IsDigit(c)
    ensures AllDigits(init + [c]) && Value(init + [c]) == 10 * Value(init) + DigitValue(c)
  {
    assert (init + [c])[..|init|] == init;
  }

  lemma NumeralSnoc(n: nat, d: nat)
    requires n > 0 && d < 10
    ensures ToDecimal(10 * n + d) == ToDecimal(n) + [Digit(d)]
  {
    assert (10 * n + d) / 10 == n && (10 * n + d) % 10 == d;
  }

  // Without a leading zero the digits are the numeral of their value.
  lemma {:induction false} CanonicalNumeral(s: string)
    requires AllDigits(s) && s != [] && s[0] != '0'
    ensures Value(s) > 0 && ToDecimal(Value(s)) == s
  {
    var init, c := s[..|s| - 1], s[|s| - 1];
    assert s == init + [c];
    DigitOfValue(c);
    ValueSnoc(init, c);
    if init == [] {
      EmptyValue();
      SmallNumeral(DigitValue(c));
      hide Value, ToDecimal, Digit, DigitValue;
    } else {
      hide Value, ToDecimal, Digit, DigitValue;
      CanonicalNumeral(init);
      NumeralSnoc(Value(init), DigitValue(c));
    }
  }

  lemma EmptyValue()
    ensures Value([]) == 0
  {
  }

  lemma SmallNumeral(d: nat)
    requires d < 10
    ensures ToDecimal(d) == [Digit(d)]
  {
  }

  /** Two digit strings have the same value exactly when they agree after their leading zeros. */
  lemma SameValueIff(s: string, t: string)
    requires AllDigits(s) && AllDigits(t)
    ensures Value(s) == Value(t) <==> Strip(s) == Strip(t)
  {
    StripValue(s);
    StripValue(t);
    if Strip(s) != [] {
      CanonicalNumeral(Strip(s));
    }
    if Strip(t) != [] {
      CanonicalNumeral(Strip(t));
    }
  }

  // ---------------------------------------------------------------- string order

  predicate Less(a: string, b: string) {
    if b == [] then false
    else if a == [] then true
    else if a[0] != b[0] then a[0] < b[0]
    else Less(a[1..], b[1..])
  }

  lemma {:induction false} LessIrreflexive(a: string)
    ensures !Less(a, a)
  {
    if a != [] { LessIrreflexive(a[1..]); }
  }

  lemma {:induction false} LessTrans(a: string, b: string, c: string)
    requires Less(a, b) && Less(b, c)
    ensures Less(a, c)
  {
    if a != [] && b != [] && c != [] && a[0] == b[0] && b[0] == c[0] {
      LessTrans(a[1..], b[1..], c[1..]);
    }
  }

  lemma {:induction false} SamePrefix(p: string, a: string, b: string)
    ensures Less(p + a, p + b) == Less(a, b)
  {
    if p == [] {
      assert p + a == a && p + b == b;
    } else {
      assert (p + a)[1..] == p[1..] + a && (p + b)[1..] == p[1..] + b;
      SamePrefix(p[1..], a, b);
    }
  }

  ghost predicate Sorted(ks: seq<string>) {
    forall i, j :: 0 <= i < j < |ks| ==> Less(ks[i], ks[j])
  }

  // A strictly sorted list is determined by its elements.
  lemma {:induction false} SortedUnique(s: seq<string>, t: seq<string>)
    requires Sorted(s) && Sorted(t) && forall k :: k in s <==> k in t
    ensures s == t
  {
    if s == [] || t == [] {
      if s != [] { HasElement(s); }
      if t != [] { HasElement(t); }
    } else {
      FirstIsLeast(s, t);
      FirstIsLeast(t, s);
      if s[0] != t[0] {
        LessTrans(s[0], t[0], s[0]);
        LessIrreflexive(s[0]);
      }
      TailElements(s);
      TailElements(t);
      SortedUnique(s[1..], t[1..]);
      assert s == [s[0]] + s[1..] && t == [t[0]] + t[1..];
    }
  }

  lemma HasElement(s: seq<string>)
    requires s != []
    ensures exists k :: k in s
  {
    assert s[0] in s;
  }

  lemma FirstIsLeast(s: seq<string>, t: seq<string>)
    requires s != [] && t != [] && Sorted(s) && t[0] in s
    ensures t[0] == s[0] || Less(s[0], t[0])
  {
  }

  lemma TailElements(s: seq<string>)
    requires s != [] && Sorted(s)
    ensures forall k :: k in s[1..] <==> k in s && k != s[0]
  {
    forall k | k in s[1..]
      ensures k != s[0]
    {
      LessIrreflexive(k);
    }
  }
}
