/** The few facts about integer division the index arithmetic of the other modules needs. */
module DivMod {

  lemma MulAtLeast(d: int, k: int)
    requires d > 0 && k >= 1
    ensures d * k >= d
  {
  }

  lemma SmallMultiple(d: int, k: int, x: int)
    requires d > 0 && d * k == x && -d < x < d
    ensures k == 0
  {
  }

  lemma DivModUnique(n: int, d: int, q: int, r: int)
    requires d > 0 && n == d * q + r && 0 <= r < d
    ensures n / d == q && n % d == r
  {
    var q', r' := n / d, n % d;
    assert n == d * q' + r';
    assert d * (q - q') == d * q - d * q';
    SmallMultiple(d, q - q', r' - r);
  }

  lemma DivStep(n: int, d: int)
    requires d > 0
    ensures n / d == (n - d) / d + 1
  {
    var q, r := (n - d) / d, (n - d) % d;
    assert d * (q + 1) == d * q + d;
    DivModUnique(n, d, q + 1, r);
  }

  // Two counts less than a modulus apart have the same remainder only if they are equal.
  lemma SameRemainder(a: nat, b: nat, m: nat)
    requires m > 0 && a <= b < a + m && a % m == b % m
    ensures a == b
  {
    var q, r, q', r' := a / m, a % m, b / m, b % m;
    assert a == m * q + r && b == m * q' + r';
    assert m * (q' - q) == m * q' - m * q;
    SmallMultiple(m, q' - q, b - a);
  }

  // Adding the modulus changes nothing: the full test compares exactly the distance `cap`.
  lemma FullTest(stale: nat, w: nat, cap: nat)
    requires cap > 0 && stale <= w < stale + cap
    ensures (w + 1) % cap == stale % cap <==> w + 1 == stale + cap
  {
    if w + 1 == stale + cap {
      var q, r := stale / cap, stale % cap;
      assert stale == cap * q + r;
      assert cap * (q + 1) == cap * q + cap;
      DivModUnique(w + 1, cap, q + 1, r);
    } else if (w + 1) % cap == stale % cap {
      SameRemainder(stale, w + 1, cap);
      assert false;
    }
  }
}
