/** Bitwise operations on unsigned words, bit by bit, and the power-of-two round-up of
    `LatencyRecorder::create`. */
module Bits {
  import opened Common
  import opened DivMod

  function Pow2(k: nat): (p: nat)
    ensures p >= 1
  {
    if k == 0 then 1 else 2 * Pow2(k - 1)
  }

  ghost predicate IsPow2(n: nat) {
    exists k: nat :: n == Pow2(k)
  }

  function Bit(v: nat, j: nat): bool {
    if j == 0 then v % 2 == 1 else Bit(v / 2, j - 1)
  }

  function BitOr(a: nat, b: nat): nat {
    if a == 0 then b else if b == 0 then a else 2 * BitOr(a / 2, b / 2) + (if a % 2 == 1 || b % 2 == 1 then 1 else 0)
  }

  function BitAnd(a: nat, b: nat): nat {
    if a == 0 || b == 0 then 0 else 2 * BitAnd(a / 2, b / 2) + (if a % 2 == 1 && b % 2 == 1 then 1 else 0)
  }

  function Shr(v: nat, k: nat): nat {
    if k == 0 then v else Shr(v / 2, k - 1)
  }

  // ---------------------------------------------------------------- single bits

  lemma {:induction false} ZeroBits(j: nat)
    ensures !Bit(0, j)
  {
    if j > 0 { ZeroBits(j - 1); }
  }

  lemma {:induction false} BitOfOr(a: nat, b: nat, j: nat)
    ensures Bit(BitOr(a, b), j) <==> Bit(a, j) || Bit(b, j)
  {
    ZeroBits(j);
    if a > 0 && b > 0 && j > 0 {
      BitOfOr(a / 2, b / 2, j - 1);
    }
  }

  lemma {:induction false} BitOfShr(v: nat, k: nat, j: nat)
    ensures Bit(Shr(v, k), j) <==> Bit(v, j + k)
  {
    if k > 0 { BitOfShr(v / 2, k - 1, j); }
  }

  ghost predicate HasBitFrom(v: nat, j: nat) {
    exists i: nat :: i >= j && Bit(v, i)
  }

  // Exactly the numbers from 2^j up have bit j or a higher one.
  lemma {:induction false} HighBits(v: nat, j: nat)
    ensures HasBitFrom(v, j) <==> v >= Pow2(j)
    decreases j
  {
    if j == 0 {
      if v > 0 {
        SomeBit(v);
      } else {
        forall i: nat ensures !Bit(v, i) { ZeroBits(i); }
      }
    } else {
      HighBits(v / 2, j - 1);
      HalfHasBit(v, j);
    }
  }

  lemma HalfHasBit(v: nat, j: nat)
    requires j > 0
    ensures HasBitFrom(v, j) <==> HasBitFrom(v / 2, j - 1)
  {
    if HasBitFrom(v, j) {
      var i: nat :| i >= j && Bit(v, i);
      assert Bit(v / 2, i - 1);
    }
    if HasBitFrom(v / 2, j - 1) {
      var i: nat :| i >= j - 1 && Bit(v / 2, i);
      assert Bit(v, i + 1);
    }
  }

  lemma TopBit(v: nat, i: nat)
    requires Bit(v, i)
    ensures v >= Pow2(i)
  {
  }

  lemma {:induction false} SomeBit(v: nat)
    requires v > 0
    ensures exists i: nat :: Bit(v, i)
  {
    if v % 2 == 1 {
      assert Bit(v, 0);
    } else {
      SomeBit(v / 2);
      var i: nat :| Bit(v / 2, i);
      assert Bit(v, i + 1);
    }
  }

  // A word whose set bits are exactly those below k is 2^k - 1.
  lemma {:induction false} AllOnes(x: nat, k: nat)
    requires forall j: nat :: Bit(x, j) <==> j < k
    ensures x == Pow2(k) - 1
  {
    if k == 0 {
      if x > 0 { SomeBit(x); }
    } else {
      assert Bit(x, 0);
      forall j: nat
        ensures Bit(x / 2, j) <==> j < k - 1
      {
        assert Bit(x, j + 1) <==> j + 1 < k;
      }
      AllOnes(x / 2, k - 1);
    }
  }

  lemma {:induction false} OnesBits(k: nat, j: nat)
    ensures Bit(Pow2(k) - 1, j) <==> j < k
  {
    if k == 0 {
      ZeroBits(j);
    } else if j > 0 {
      assert (Pow2(k) - 1) / 2 == Pow2(k - 1) - 1;
      OnesBits(k - 1, j - 1);
    }
  }

  lemma {:induction false} Pow2Mono(a: nat, b: nat)
    requires a < b
    ensures Pow2(a) < Pow2(b)
  {
    if a + 1 < b { Pow2Mono(a, b - 1); }
  }

  // Some power of two lies just above v.
  lemma {:induction false} BitLength(v: nat) returns (k: nat)
    ensures v < Pow2(k) && (k > 0 ==> Pow2(k - 1) <= v)
  {
    if v == 0 {
      k := 0;
    } else {
      k := BitLength(v / 2);
      k := k + 1;
    }
  }

  // ---------------------------------------------------------------- masks

  /** Masking with capacity - 1 is the remainder by the capacity. */
  lemma {:induction false} MaskIsMod(x: nat, k: nat)
    ensures BitAnd(x, Pow2(k) - 1) == x % Pow2(k)
  {
    if k == 0 {
      assert Pow2(k) == 1;
    } else if x == 0 {
      DivModUnique(x, Pow2(k), 0, 0);
    } else {
      var m := Pow2(k - 1);
      assert Pow2(k) == 2 * m;
      MaskIsMod(x / 2, k - 1);
      hide Pow2, BitAnd;
      MaskStep(x, m);
      ModByHalves(x, m);
    }
  }

  lemma MaskStep(x: nat, m: nat)
    requires m > 0 && x > 0
    ensures BitAnd(x, 2 * m - 1) == 2 * BitAnd(x / 2, m - 1) + x % 2
  {
  }

  lemma ModByHalves(x: nat, m: nat)
    requires m > 0
    ensures x % (2 * m) == 2 * ((x / 2) % m) + x % 2
  {
    var q, r := (x / 2) / m, (x / 2) % m;
    assert x / 2 == m * q + r;
    assert 2 * (m * q) == (2 * m) * q;
    DivModUnique(x, 2 * m, q, 2 * r + x % 2);
  }

  lemma ModOfMod(n: nat, m: nat, c: nat)
    requires m > 0 && c > 0
    ensures c * m > 0 && (n % (c * m)) % m == n % m
  {
    MulAtLeast(m, c);
    assert c * m == m * c;
    var q, r := n / (c * m), n % (c * m);
    var a, b := r / m, r % m;
    assert n == (c * m) * q + r && r == m * a + b;
    assert (c * m) * q == m * (c * q) by { MulAssoc(m, c, q); }
    assert n == m * (c * q + a) + b by { assert m * (c * q + a) == m * (c * q) + m * a; }
    DivModUnique(n, m, c * q + a, b);
  }

  lemma MulAssoc(m: nat, c: nat, q: nat)
    ensures (c * m) * q == m * (c * q)
  {
  }

  lemma {:induction false} Pow2Add(a: nat, b: nat)
    ensures Pow2(a + b) == Pow2(b) * Pow2(a)
  {
    if b > 0 {
      Pow2Add(a, b - 1);
      assert 2 * (Pow2(b - 1) * Pow2(a)) == (2 * Pow2(b - 1)) * Pow2(a);
    }
  }

  lemma Pow2Is32()
    ensures Pow2(32) == 0x1_0000_0000
  {
    assert Pow2(4) == 16;
    hide Pow2;
    Pow2Add(4, 4);
    Pow2Add(8, 8);
    Pow2Add(16, 16);
  }

  lemma WordIsPow2()
    ensures WORD == Pow2(64)
  {
    Pow2Is32();
    hide Pow2;
    Pow2Add(32, 32);
  }

  /** The mask agrees with the remainder even after the index has wrapped around. */
  lemma MaskSurvivesWrap(n: nat, k: nat)
    requires k <= 64
    ensures BitAnd(n % WORD, Pow2(k) - 1) == n % Pow2(k)
  {
    WordIsPow2();
    Pow2Add(k, 64 - k);
    ModOfMod(n, Pow2(k), Pow2(64 - k));
    MaskIsMod(n % WORD, k);
  }

  // ---------------------------------------------------------------- create(): round-up

  // x has bit j exactly when v has one of the w bits from j upwards.
  ghost predicate Smeared(v: nat, w: nat, x: nat) {
    forall j: nat :: Bit(x, j) <==> BitWithin(v, j, w)
  }

  ghost predicate BitWithin(v: nat, j: nat, w: nat) {
    exists i: nat :: j <= i < j + w && Bit(v, i)
  }

  lemma SmearStart(v: nat)
    ensures Smeared(v, 1, v)
  {
  }

  // `v |= v >> w` doubles the window.
  lemma SmearDouble(v: nat, w: nat, x: nat)
    requires Smeared(v, w, x)
    ensures Smeared(v, 2 * w, BitOr(x, Shr(x, w)))
  {
    forall j: nat
      ensures Bit(BitOr(x, Shr(x, w)), j) <==> BitWithin(v, j, 2 * w)
    {
      BitOfOr(x, Shr(x, w), j);
      BitOfShr(x, w, j);
      assert Bit(x, j) <==> BitWithin(v, j, w);
      assert Bit(x, j + w) <==> BitWithin(v, j + w, w);
    }
  }

  // BitAnd(s, s - 1) clears the lowest set bit: zero only for powers of two.
  lemma {:induction false} ClearLowest(s: nat)
    requires s >= 1
    ensures BitAnd(s, s - 1) == 0 <==> IsPow2(s)
  {
    OddPow2(s);
    if s % 2 == 1 {
      assert (s - 1) / 2 == s / 2;
      AndSelf(s / 2);
      assert s > 1 ==> BitAnd(s, s - 1) == 2 * (s / 2);
    } else {
      assert (s - 1) / 2 == s / 2 - 1;
      ClearLowest(s / 2);
      assert BitAnd(s, s - 1) == 2 * BitAnd(s / 2, s / 2 - 1);
    }
  }

  lemma OddPow2(s: nat)
    requires s >= 1
    ensures s % 2 == 1 ==> (IsPow2(s) <==> s == 1)
    ensures s % 2 == 0 ==> (IsPow2(s) <==> IsPow2(s / 2))
  {
    assert Pow2(0) == 1;
    if IsPow2(s) {
      var k: nat :| s == Pow2(k);
      assert k > 0 ==> s / 2 == Pow2(k - 1);
    }
    if IsPow2(s / 2) && s % 2 == 0 {
      var k: nat :| s / 2 == Pow2(k);
      assert s == Pow2(k + 1);
    }
  }

  lemma {:induction false} AndSelf(s: nat)
    ensures BitAnd(s, s) == s
  {
    if s > 0 { AndSelf(s / 2); }
  }

  ghost predicate LeastPow2From(n: nat, p: nat) {
    IsPow2(p) && n <= p && forall q: nat :: IsPow2(q) && n <= q ==> p <= q
  }

  function Wanted(size: nat): nat {
    if size < 64 then 64 else size
  }

  // No 32 consecutive zero bits below the highest set bit: all that five shifts can bridge.
  ghost predicate NoWideGap(v: nat) {
    forall j: nat :: v >= Pow2(j) ==> BitWithin(v, j, 32)
  }

  // The requests five smearing shifts round up rightly.
  ghost predicate RoundsRightly(requested: nat) {
    IsPow2(Wanted(requested)) || (NoWideGap(Wanted(requested) - 1) && requested <= WORD / 2)
  }

  /** The capacity `create` arrives at, for any 64-bit request. */
  method RoundUp(requested: nat) returns (size: nat)
    requires requested < WORD
    ensures size < WORD
    ensures LeastPow2From(Wanted(requested), size) <==> RoundsRightly(requested)
    ensures requested <= 0x1_0000_0000 ==> LeastPow2From(Wanted(requested), size)
  {
    size := requested;
    if size < 64 {
      size := 64;
    }
    ClearLowest(size);
    Pow2Reaches64();
    hide NoWideGap, LeastPow2From, IsPow2, Pow2, BitAnd;
    if BitAnd(size, size - 1) != 0 {
      var v := SmearDown(size - 1);
      SmearResult(size - 1, v);
      if requested <= 0x1_0000_0000 {
        SmallHasNoGap(size - 1);
      }
      size := (v + 1) % WORD;
    } else {
      SelfIsLeast(size);
    }
  }

  // The five shift-and-or lines.
  method SmearDown(v0: nat) returns (v: nat)
    ensures Smeared(v0, 32, v)
  {
    hide Smeared, BitOr, Shr;
    v := v0;
    SmearStart(v0);
    SmearDouble(v0, 1, v);
    v := BitOr(v, Shr(v, 1));
    SmearDouble(v0, 2, v);
    v := BitOr(v, Shr(v, 2));
    SmearDouble(v0, 4, v);
    v := BitOr(v, Shr(v, 4));
    SmearDouble(v0, 8, v);
    v := BitOr(v, Shr(v, 8));
    SmearDouble(v0, 16, v);
    v := BitOr(v, Shr(v, 16));
  }

  lemma SelfIsLeast(n: nat)
    requires IsPow2(n)
    ensures LeastPow2From(n, n)
  {
  }

  lemma Pow2Reaches64()
    ensures IsPow2(64)
  {
    assert Pow2(6) == 64;
  }

  lemma SmallHasNoGap(v: nat)
    requires v < 0x1_0000_0000
    ensures NoWideGap(v)
  {
    Pow2Is32();
    forall j: nat | v >= Pow2(j)
      ensures BitWithin(v, j, 32)
    {
      HighBits(v, j);
      var i: nat :| i >= j && Bit(v, i);
      TopBit(v, i);
      if i > 32 { Pow2Mono(32, i); }
      assert i < 32;
    }
  }

  lemma TopIsLeast(v: nat, k: nat)
    requires v < Pow2(k) && (k > 0 ==> Pow2(k - 1) <= v)
    ensures LeastPow2From(v + 1, Pow2(k))
  {
    forall q: nat | IsPow2(q) && v + 1 <= q
      ensures Pow2(k) <= q
    {
      var m: nat :| q == Pow2(m);
      if m < k {
        if m < k - 1 { Pow2Mono(m, k - 1); }
      } else if k < m {
        Pow2Mono(k, m);
      }
    }
  }

  // Smearing never reaches above the highest set bit.
  lemma SmearBelow(v: nat, x: nat, k: nat)
    requires Smeared(v, 32, x) && v < Pow2(k)
    ensures x < Pow2(k)
  {
    HighBits(x, k);
    if HasBitFrom(x, k) {
      var j: nat :| j >= k && Bit(x, j);
      NoBitAbove(v, x, k, j);
    }
  }

  lemma NoBitAbove(v: nat, x: nat, k: nat, j: nat)
    requires Smeared(v, 32, x) && v < Pow2(k) && j >= k
    ensures !Bit(x, j)
  {
    HighBits(v, k);
  }

  lemma GapFreeAllOnes(v: nat, x: nat, k: nat)
    requires Smeared(v, 32, x) && NoWideGap(v) && v < Pow2(k) && k > 0 && Pow2(k - 1) <= v
    ensures x == Pow2(k) - 1
  {
    forall j: nat
      ensures Bit(x, j) <==> j < k
    {
      if j < k {
        if j < k - 1 { Pow2Mono(j, k - 1); }
        assert v >= Pow2(j);
      } else {
        NoBitAbove(v, x, k, j);
      }
    }
    AllOnes(x, k);
  }

  lemma AllOnesGapFree(v: nat, x: nat, k: nat)
    requires Smeared(v, 32, x) && x == Pow2(k) - 1 && v < Pow2(k)
    ensures NoWideGap(v)
  {
    forall j: nat | v >= Pow2(j)
      ensures BitWithin(v, j, 32)
    {
      if j > k { Pow2Mono(k, j); }
      OnesBits(k, j);
    }
  }

  // The smeared word plus one is the least power of two above v exactly when v has no wide gap
  // and the result still fits the word.
  lemma SmearResult(v: nat, x: nat)
    requires 0 < v < WORD - 1 && Smeared(v, 32, x)
    ensures LeastPow2From(v + 1, (x + 1) % WORD) <==> NoWideGap(v) && v + 1 <= WORD / 2
  {
    var k := BitLength(v);
    SmearBelow(v, x, k);
    TopIsLeast(v, k);
    assert k > 0 by { assert Pow2(0) == 1; }
    WordIsPow2();
    assert WORD == 2 * Pow2(63);
    if k > 64 { LongerThanWord(v, k); }
    if k == 64 {
      NoWordAbove(v, (x + 1) % WORD);
    } else {
      ShortResult(v, x, k);
    }
  }

  lemma LongerThanWord(v: nat, k: nat)
    requires k > 64 && Pow2(k - 1) <= v
    ensures v >= WORD
  {
    WordIsPow2();
    if k > 65 { Pow2Mono(64, k - 1); }
  }

  lemma NoWordAbove(v: nat, p: nat)
    requires WORD / 2 <= v && p < WORD
    ensures !LeastPow2From(v + 1, p)
  {
    WordIsPow2();
    assert WORD / 2 == Pow2(63);
    if m: nat :| p == Pow2(m) && v + 1 <= p {
      if m < 63 { Pow2Mono(m, 63); } else if m > 64 { Pow2Mono(64, m); }
    }
  }

  lemma ShortResult(v: nat, x: nat, k: nat)
    requires Smeared(v, 32, x) && 0 < k < 64 && v < Pow2(k) && Pow2(k - 1) <= v && x < Pow2(k)
    ensures LeastPow2From(v + 1, (x + 1) % WORD) <==> NoWideGap(v)
    ensures v + 1 <= WORD / 2
  {
    WordIsPow2();
    assert WORD / 2 == Pow2(63);
    if k < 63 { Pow2Mono(k, 63); }
    assert (x + 1) % WORD == x + 1;
    TopIsLeast(v, k);
    if NoWideGap(v) {
      GapFreeAllOnes(v, x, k);
    }
    if LeastPow2From(v + 1, x + 1) {
      assert x + 1 == Pow2(k);
      AllOnesGapFree(v, x, k);
    }
  }

  /** Past 2^32 the round-up goes wrong at once: a request of 2^k + 1 with k >= 32 is neither a power
      of two itself nor free of wide gaps. */
  lemma WideGapExample(k: nat, v: nat)
    requires k >= 32 && v == Pow2(k)
    ensures !NoWideGap(v) && !IsPow2(v + 1)
  {
    LowBitsClear(k);
    GapAtZero(v);
    assert v == 2 * Pow2(k - 1);
    SuccessorNotPow2(Pow2(k - 1));
  }

  lemma GapAtZero(v: nat)
    requires v >= 1 && !BitWithin(v, 0, 32)
    ensures !NoWideGap(v)
  {
  }

  lemma SuccessorNotPow2(half: nat)
    requires half >= 1
    ensures !IsPow2(2 * half + 1)
  {
  }

  lemma LowBitsClear(k: nat)
    requires k >= 32
    ensures !BitWithin(Pow2(k), 0, 32)
  {
    forall i: nat | 0 <= i < 32
      ensures !Bit(Pow2(k), i)
    {
      OnlyBit(k, i);
    }
  }

  lemma {:induction false} OnlyBit(k: nat, i: nat)
    ensures Bit(Pow2(k), i) <==> i == k
  {
    if k == 0 {
      if i > 0 { ZeroBits(i - 1); }
    } else if i > 0 {
      OnlyBit(k - 1, i - 1);
    }
  }
}
