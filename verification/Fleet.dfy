/** `ObstacleAggregatorNode`: the fleet report, in which every vehicle's obstacle ids are moved into
    that vehicle's own range. `std::hash` is a given function. */
module Fleet {
  import opened Common
  import opened Decimal
  import opened DivMod

  const ID_SPACE: nat := 1_000_000
  const MAX_INDEX: nat := 0x7FFF_FFFF_FFFF_FFFF / ID_SPACE
  const MAX_DIGITS: nat := 18

  newtype Id = x: int | 0 <= x < WORD
  datatype Obstacle<T> = Obstacle(id: Id, body: T)
  datatype Report<T> = Report(unmatched: seq<Obstacle<T>>, matched: seq<Obstacle<T>>)

  // ---------------------------------------------------------------- the index in a namespace

  // The trailing digits of `n` start at `b`.
  ghost predicate DigitsFrom(n: string, b: nat) {
    b <= |n| && AllDigits(n[b..]) && (b > 0 ==> !IsDigit(n[b - 1]))
  }

  function SuffixStart(n: string): (b: nat)
    ensures DigitsFrom(n, b)
  {
    if n == [] || !IsDigit(n[|n| - 1]) then |n|
    else
      var b := SuffixStart(n[..|n| - 1]);
      assert n[b..] == n[..|n| - 1][b..] + [n[|n| - 1]];
      b
  }

  function Suffix(n: string): (s: string)
    ensures AllDigits(s)
  {
    n[SuffixStart(n)..]
  }

  // A namespace splits into a prefix and trailing digits in one way.
  lemma SuffixUnique(n: string, b: nat)
    requires DigitsFrom(n, b)
    ensures Suffix(n) == n[b..]
  {
  }

  ghost predicate EndsInNoDigit(prefix: string) {
    prefix != [] ==> !IsDigit(prefix[|prefix| - 1])
  }

  lemma SuffixAfter(prefix: string, s: string)
    requires EndsInNoDigit(prefix) && AllDigits(s)
    ensures Suffix(prefix + s) == s
  {
    assert (prefix + s)[|prefix|..] == s;
    SuffixUnique(prefix + s, |prefix|);
  }

  predicate Usable(s: string)
    requires AllDigits(s)
  {
    0 < |s| <= MAX_DIGITS && Value(s) < MAX_INDEX
  }

  // The index parsed from a namespace, or -1.
  function ParsedIndex(n: string): int {
    if Usable(Suffix(n)) then Value(Suffix(n)) else -1
  }

  method ParseTrailingIndex(n: string) returns (index: int)
    ensures index == ParsedIndex(n)
  {
    if n == [] {
      return -1;
    }
    var digitBegin := |n|;
    while digitBegin > 0 && IsDigit(n[digitBegin - 1])
      invariant 0 <= digitBegin <= |n|
      invariant forall i :: digitBegin <= i < |n| ==> IsDigit(n[i])
    {
      digitBegin := digitBegin - 1;
    }
    SuffixUnique(n, digitBegin);
    if digitBegin == |n| {
      return -1;
    }
    var digitLen := |n| - digitBegin;
    if digitLen > MAX_DIGITS {
      return -1;
    }
    var value := Value(n[digitBegin..]);  // std::stoll
    index := if value >= MAX_INDEX then -1 else value;
  }

  function Pow10(k: nat): (p: nat)
    ensures p >= 1
  {
    if k == 0 then 1 else 10 * Pow10(k - 1)
  }

  lemma {:induction false} DecimalLength(n: nat, k: nat)
    requires k >= 1
    ensures n < Pow10(k) <==> |ToDecimal(n)| <= k
  {
    if k == 1 {
      assert Pow10(1) == 10 * Pow10(0) == 10;
    } else if n >= 10 {
      DecimalLength(n / 10, k - 1);
    } else {
      assert Pow10(k) == 10 * Pow10(k - 1);
    }
  }

  /** Parsing a prefix followed by the decimal numeral of n gives n, exactly when n is a legal index;
      the prefix must not itself end in a digit, and need not end in "_". */
  lemma ParseRoundTrip(prefix: string, n: nat)
    requires EndsInNoDigit(prefix)
    ensures ParsedIndex(prefix + ToDecimal(n)) == if n < MAX_INDEX then n else -1
  {
    SuffixAfter(prefix, ToDecimal(n));
    ValueOfDecimal(n);
    if n < MAX_INDEX {
      assert Pow10(18) == 1_000_000_000_000_000_000 by { Pow10Of18(); }
      DecimalLength(n, 18);
    }
  }

  lemma Pow10Of18()
    ensures Pow10(18) == 1_000_000_000_000_000_000
  {
    assert Pow10(6) == 1_000_000;
    assert Pow10(12) == 1_000_000 * Pow10(6);
    assert Pow10(18) == 1_000_000 * Pow10(12);
  }

  // ---------------------------------------------------------------- moved ids

  function AgvIndex(hash: string -> nat, n: string): (index: nat)
    ensures index < MAX_INDEX
  {
    if ParsedIndex(n) >= 0 then ParsedIndex(n) else hash(n) % MAX_INDEX
  }

  // The digits that decide a namespace's range: its own, or those of its hash.
  function RangeKey(hash: string -> nat, n: string): string {
    Strip(if Usable(Suffix(n)) then Suffix(n) else ToDecimal(hash(n) % MAX_INDEX))
  }

  /** Two namespaces are given one range exactly when their range keys agree: for parsed ones, when their
      trailing digits agree after leading zeros, whatever the prefixes. */
  lemma SameRangeIff(hash: string -> nat, a: string, b: string)
    ensures AgvIndex(hash, a) == AgvIndex(hash, b) <==> RangeKey(hash, a) == RangeKey(hash, b)
    ensures Usable(Suffix(a)) && Usable(Suffix(b)) ==>
              (AgvIndex(hash, a) == AgvIndex(hash, b) <==> Strip(Suffix(a)) == Strip(Suffix(b)))
    ensures Usable(Suffix(a)) && !Usable(Suffix(b)) ==>
              (AgvIndex(hash, a) == AgvIndex(hash, b) <==> Value(Suffix(a)) == hash(b) % MAX_INDEX)
  {
    ValueOfDecimal(hash(a) % MAX_INDEX);
    ValueOfDecimal(hash(b) % MAX_INDEX);
    SameValueIff(if Usable(Suffix(a)) then Suffix(a) else ToDecimal(hash(a) % MAX_INDEX),
                 if Usable(Suffix(b)) then Suffix(b) else ToDecimal(hash(b) % MAX_INDEX));
  }

  /** So "agv_1" shares its range with "agv_01", and with "lift_1". */
  lemma RangeNotExclusive(hash: string -> nat, p: string, q: string, s: string)
    requires EndsInNoDigit(p) && EndsInNoDigit(q) && AllDigits(s) && Usable(s)
    ensures AgvIndex(hash, p + s) == AgvIndex(hash, q + s)
    ensures |s| < MAX_DIGITS ==> AgvIndex(hash, p + s) == AgvIndex(hash, p + ("0" + s))
  {
    SuffixAfter(p, s);
    SuffixAfter(q, s);
    LeadingZero(s);
    SuffixAfter(p, "0" + s);
  }

  // 64-bit addition.
  function Shifted(id: Id, index: nat): Id {
    ((id as int + index * ID_SPACE) % WORD) as Id
  }

  /** The moved id lies in the vehicle's own range exactly when the local id fits in one range, and
      division then gives back index and local id; nothing overflows. */
  lemma ShiftedDecodes(id: Id, index: nat)
    requires index < MAX_INDEX
    ensures index * ID_SPACE <= Shifted(id, index) as int < (index + 1) * ID_SPACE <==> id as int < ID_SPACE
    ensures id as int < ID_SPACE ==>
              Shifted(id, index) as int / ID_SPACE == index && Shifted(id, index) as int % ID_SPACE == id as int
  {
  }

  /** One local id moved for two vehicles gives two ids exactly when the vehicles' indices differ, however
      large the id is. */
  lemma SameLocalId(id: Id, i: nat, j: nat)
    requires i < MAX_INDEX && j < MAX_INDEX
    ensures Shifted(id, i) == Shifted(id, j) <==> i == j
  {
  }

  lemma {:induction false} SameSum(a: nat, i: nat, b: nat, j: nat)
    ensures a + i * ID_SPACE == b + j * ID_SPACE <==> a / ID_SPACE + i == b / ID_SPACE + j && a % ID_SPACE == b % ID_SPACE
  {
    DivModUnique(a + i * ID_SPACE, ID_SPACE, a / ID_SPACE + i, a % ID_SPACE);
    DivModUnique(b + j * ID_SPACE, ID_SPACE, b / ID_SPACE + j, b % ID_SPACE);
  }

  // In place and remainder, a at index i is b at index j.
  predicate SamePlace(a: nat, i: nat, b: nat, j: nat) {
    a / ID_SPACE + i == b / ID_SPACE + j && a % ID_SPACE == b % ID_SPACE
  }

  // ... directly, or after one of them has wrapped around.
  predicate Clash(a: Id, i: nat, b: Id, j: nat) {
    || SamePlace(a as int, i, b as int, j)
    || SamePlace(a as int, i, b as int + WORD, j)
    || SamePlace(a as int + WORD, i, b as int, j)
  }

  lemma WordRemainder(x: nat, y: nat)
    requires x < 2 * WORD && y < 2 * WORD
    ensures x % WORD == y % WORD <==> x == y || x == y + WORD || y == x + WORD
  {
  }

  /** Two local ids are given one id exactly when they clash, at any two indices and however large. */
  lemma ClashIff(a: Id, i: nat, b: Id, j: nat)
    requires i < MAX_INDEX && j < MAX_INDEX
    ensures Shifted(a, i) == Shifted(b, j) <==> Clash(a, i, b, j)
  {
    OffsetBound(i);
    OffsetBound(j);
    WordRemainder(a as int + i * ID_SPACE, b as int + j * ID_SPACE);
    SameSum(a as int, i, b as int, j);
    SameSum(a as int, i, b as int + WORD, j);
    SameSum(a as int + WORD, i, b as int, j);
  }

  lemma OffsetBound(index: nat)
    requires index < MAX_INDEX
    ensures index * ID_SPACE + ID_SPACE <= 0x7FFF_FFFF_FFFF_FFFF
  {
  }

  const UNTRACKED: Id := 0xFFFF_FFFF_FFFF_FFFF  // what an obstacle is sent with when tracking is off

  /** An untracked obstacle takes the last id of the vehicle one index below, and no other fitting one. */
  lemma UntrackedClash(i: nat, b: Id, j: nat)
    requires i < MAX_INDEX && j < MAX_INDEX && b as int < ID_SPACE
    ensures Shifted(UNTRACKED, i) == Shifted(b, j) <==> i >= 1 && j == i - 1 && b as int == ID_SPACE - 1
  {
    OffsetBound(i);
    OffsetBound(j);
    WordRemainder(UNTRACKED as int + i * ID_SPACE, b as int + j * ID_SPACE);
    if i >= 1 {
      SameSum(ID_SPACE - 1, i - 1, b as int, j);
    }
  }

  // The local id that the move to `index` turns into `id`.
  function Unshifted(id: Id, index: nat): Id {
    ((id as int - index * ID_SPACE) % WORD) as Id
  }

  lemma ShiftedOnto(local: Id, index: nat, id: Id)
    requires index < MAX_INDEX
    ensures Shifted(local, index) == id <==> local == Unshifted(id, index)
  {
    OffsetBound(index);
  }

  // ---------------------------------------------------------------- the combined report

  function MovedTo<T>(os: seq<Obstacle<T>>, index: nat): (r: seq<Obstacle<T>>)
    ensures |r| == |os| && forall k :: 0 <= k < |r| ==> r[k] == os[k].(id := Shifted(os[k].id, index))
  {
    seq(|os|, k requires 0 <= k < |os| => os[k].(id := Shifted(os[k].id, index)))
  }

  // What is sent when the reports are visited in the order `ks`.
  function Combined<T>(hash: string -> nat, reports: map<string, Report<T>>, ks: seq<string>): Report<T>
    requires forall n <- ks :: n in reports
  {
    if ks == [] then Report([], [])
    else
      var n := ks[|ks| - 1];
      var before := Combined(hash, reports, ks[..|ks| - 1]);
      var index := AgvIndex(hash, n);
      Report(before.unmatched + MovedTo(reports[n].unmatched, index),
             before.matched + MovedTo(reports[n].matched, index))
  }

  ghost predicate Distinct<T(!new)>(s: seq<T>) {
    forall i, j :: 0 <= i < j < |s| ==> s[i] != s[j]
  }

  // `c` is the combined report for some order that visits every report once.
  ghost predicate IsCombined<T>(hash: string -> nat, reports: map<string, Report<T>>, c: Report<T>) {
    exists ks: seq<string> :: IsCombinedIn(hash, reports, c, ks)
  }

  ghost predicate IsCombinedIn<T>(hash: string -> nat, reports: map<string, Report<T>>, c: Report<T>, ks: seq<string>) {
    && Distinct(ks) && (forall n <- ks :: n in reports) && (forall n <- reports :: n in ks)
    && c == Combined(hash, reports, ks)
  }

  // Uniqueness may be asked of one list of the report, or of both together.
  datatype Part = Unmatched | Matched | Whole

  function Local<T>(part: Part, r: Report<T>): seq<Obstacle<T>> {
    match part
    case Unmatched => r.unmatched
    case Matched => r.matched
    case Whole => r.unmatched + r.matched
  }

  ghost predicate DistinctIds<T>(os: seq<Obstacle<T>>) {
    forall i, j :: 0 <= i < j < |os| ==> os[i].id != os[j].id
  }

  // Some obstacle of a, at index i, and one of b, at index j, are given one id.
  ghost predicate Clashing<T>(a: seq<Obstacle<T>>, i: nat, b: seq<Obstacle<T>>, j: nat) {
    exists k, l :: 0 <= k < |a| && 0 <= l < |b| && Clash(a[k].id, i, b[l].id, j)
  }

  // No vehicle repeats a local id, and no two vehicles clash.
  ghost predicate Separate<T>(part: Part, hash: string -> nat, reports: map<string, Report<T>>) {
    && (forall n :: n in reports ==> DistinctIds(Local(part, reports[n])))
    && (forall m, n :: m in reports && n in reports && m != n ==>
          !Clashing(Local(part, reports[m]), AgvIndex(hash, m), Local(part, reports[n]), AgvIndex(hash, n)))
  }

  // ---------------------------------------------------------------- counting ids

  ghost function CountId<T>(os: seq<Obstacle<T>>, id: Id): nat {
    if os == [] then 0 else CountId(os[..|os| - 1], id) + if os[|os| - 1].id == id then 1 else 0
  }

  lemma {:induction false} CountParts<T>(a: seq<Obstacle<T>>, b: seq<Obstacle<T>>, id: Id)
    ensures CountId(a + b, id) == CountId(a, id) + CountId(b, id)
  {
    if b == [] {
      assert a + b == a;
    } else {
      assert (a + b)[..|a + b| - 1] == a + b[..|b| - 1];
      CountParts(a, b[..|b| - 1], id);
    }
  }

  lemma {:induction false} CountPositive<T>(os: seq<Obstacle<T>>, id: Id)
    ensures CountId(os, id) > 0 <==> exists i :: 0 <= i < |os| && os[i].id == id
  {
    if os != [] {
      var init := os[..|os| - 1];
      CountPositive(init, id);
      assert forall i :: 0 <= i < |init| ==> init[i] == os[i];
    }
  }

  lemma {:induction false} DistinctThenOnce<T>(os: seq<Obstacle<T>>, id: Id)
    requires DistinctIds(os)
    ensures CountId(os, id) <= 1
  {
    if os != [] {
      var init := os[..|os| - 1];
      DistinctThenOnce(init, id);
      CountPositive(init, id);
    }
  }

  lemma OnceThenDistinct<T>(os: seq<Obstacle<T>>)
    requires forall id :: CountId(os, id) <= 1
    ensures DistinctIds(os)
  {
    hide CountId;
    forall i, j | 0 <= i < j < |os|
      ensures os[i].id != os[j].id
    {
      if os[i].id == os[j].id {
        var id := os[i].id;
        assert os[..j][i].id == id && os[j..][0].id == id && os == os[..j] + os[j..];
        CountParts(os[..j], os[j..], id);
        CountPositive(os[..j], id);
        CountPositive(os[j..], id);
      }
    }
  }

  lemma {:induction false} CountMoved<T>(os: seq<Obstacle<T>>, index: nat, id: Id)
    requires index < MAX_INDEX
    ensures CountId(MovedTo(os, index), id) == CountId(os, Unshifted(id, index))
  {
    hide Shifted, Unshifted;
    if os != [] {
      var init, last := os[..|os| - 1], os[|os| - 1];
      CountMoved(init, index, id);
      assert MovedTo(os, index)[..|os| - 1] == MovedTo(init, index);
      ShiftedOnto(last.id, index, id);
    }
  }

  // How often vehicle n contributes `id`.
  ghost function Share<T>(part: Part, hash: string -> nat, reports: map<string, Report<T>>, n: string, id: Id): nat
    requires n in reports
  {
    CountId(MovedTo(Local(part, reports[n]), AgvIndex(hash, n)), id)
  }

  ghost function SumShares<T>(part: Part, hash: string -> nat, reports: map<string, Report<T>>, ks: seq<string>, id: Id): nat
    requires forall n <- ks :: n in reports
  {
    if ks == [] then 0 else SumShares(part, hash, reports, ks[..|ks| - 1], id) + Share(part, hash, reports, ks[|ks| - 1], id)
  }

  lemma CountAppended<T>(part: Part, a: Report<T>, b: Report<T>, id: Id)
    ensures CountId(Local(part, Report(a.unmatched + b.unmatched, a.matched + b.matched)), id)
            == CountId(Local(part, a), id) + CountId(Local(part, b), id)
  {
    hide CountId;
    CountParts(a.unmatched, b.unmatched, id);
    CountParts(a.matched, b.matched, id);
    CountParts(a.unmatched + b.unmatched, a.matched + b.matched, id);
    CountParts(a.unmatched, a.matched, id);
    CountParts(b.unmatched, b.matched, id);
  }

  function MovedReport<T>(r: Report<T>, index: nat): Report<T> {
    Report(MovedTo(r.unmatched, index), MovedTo(r.matched, index))
  }

  lemma LocalMoved<T>(part: Part, r: Report<T>, index: nat)
    ensures Local(part, MovedReport(r, index)) == MovedTo(Local(part, r), index)
  {
    hide Shifted;
  }

  lemma {:induction false} CombinedCount<T>(part: Part, hash: string -> nat, reports: map<string, Report<T>>, ks: seq<string>, id: Id)
    requires forall n <- ks :: n in reports
    ensures CountId(Local(part, Combined(hash, reports, ks)), id) == SumShares(part, hash, reports, ks, id)
  {
    hide AgvIndex, Shifted, MovedTo, CountId;
    if ks == [] {
      assert CountId<T>([], id) == 0 by { CountPositive<T>([], id); }
      assert Local(part, Combined(hash, reports, ks)) == [];
    } else {
      var n := ks[|ks| - 1];
      CombinedCount(part, hash, reports, ks[..|ks| - 1], id);
      LocalMoved(part, reports[n], AgvIndex(hash, n));
      CountAppended(part, Combined(hash, reports, ks[..|ks| - 1]), MovedReport(reports[n], AgvIndex(hash, n)), id);
      hide Local;
    }
  }

  lemma {:induction false} SumSplit<T>(part: Part, hash: string -> nat, reports: map<string, Report<T>>, ks: seq<string>, k: nat, id: Id)
    requires (forall n <- ks :: n in reports) && k < |ks|
    ensures SumShares(part, hash, reports, ks, id) >= SumShares(part, hash, reports, ks[..k], id) + Share(part, hash, reports, ks[k], id)
    decreases |ks|
  {
    hide Share;
    if k < |ks| - 1 {
      SumSplit(part, hash, reports, ks[..|ks| - 1], k, id);
      assert ks[..|ks| - 1][..k] == ks[..k];
    }
  }

  lemma {:induction false} SumPositive<T>(part: Part, hash: string -> nat, reports: map<string, Report<T>>, ks: seq<string>, id: Id)
    returns (n: string)
    requires (forall n <- ks :: n in reports) && SumShares(part, hash, reports, ks, id) > 0
    ensures n in ks && n in reports && Share(part, hash, reports, n, id) > 0
  {
    hide Share;
    n := ks[|ks| - 1];
    if Share(part, hash, reports, n, id) == 0 {
      n := SumPositive(part, hash, reports, ks[..|ks| - 1], id);
    }
  }

  // Two vehicles that contribute one id clash.
  lemma ShareTwice<T>(part: Part, hash: string -> nat, reports: map<string, Report<T>>, m: string, n: string, id: Id)
    requires m in reports && n in reports
    requires Share(part, hash, reports, m, id) > 0 && Share(part, hash, reports, n, id) > 0
    ensures Clashing(Local(part, reports[m]), AgvIndex(hash, m), Local(part, reports[n]), AgvIndex(hash, n))
  {
    hide Clash, AgvIndex, Shifted, Unshifted;
    var (os, i) := (Local(part, reports[m]), AgvIndex(hash, m));
    var (qs, j) := (Local(part, reports[n]), AgvIndex(hash, n));
    CountMoved(os, i, id);
    CountMoved(qs, j, id);
    CountPositive(os, Unshifted(id, i));
    CountPositive(qs, Unshifted(id, j));
    var k :| 0 <= k < |os| && os[k].id == Unshifted(id, i);
    var l :| 0 <= l < |qs| && qs[l].id == Unshifted(id, j);
    ShiftedOnto(os[k].id, i, id);
    ShiftedOnto(qs[l].id, j, id);
    ClashIff(os[k].id, i, qs[l].id, j);
  }

  lemma ShareAtMostOne<T>(part: Part, hash: string -> nat, reports: map<string, Report<T>>, n: string, id: Id)
    requires n in reports && DistinctIds(Local(part, reports[n]))
    ensures Share(part, hash, reports, n, id) <= 1
  {
    CountMoved(Local(part, reports[n]), AgvIndex(hash, n), id);
    DistinctThenOnce(Local(part, reports[n]), Unshifted(id, AgvIndex(hash, n)));
  }

  lemma {:induction false} SumAtMostOne<T>(part: Part, hash: string -> nat, reports: map<string, Report<T>>, ks: seq<string>, id: Id)
    requires Separate(part, hash, reports) && Distinct(ks) && forall n <- ks :: n in reports
    ensures SumShares(part, hash, reports, ks, id) <= 1
  {
    hide Share, AgvIndex, Clashing;
    if ks != [] {
      var init, n := ks[..|ks| - 1], ks[|ks| - 1];
      SumAtMostOne(part, hash, reports, init, id);
      ShareAtMostOne(part, hash, reports, n, id);
      if SumShares(part, hash, reports, init, id) > 0 && Share(part, hash, reports, n, id) > 0 {
        var m := SumPositive(part, hash, reports, init, id);
        ShareTwice(part, hash, reports, m, n, id);
      }
    }
  }

  // A local id shows up in the vehicle's own share.
  lemma OwnShare<T>(part: Part, hash: string -> nat, reports: map<string, Report<T>>, n: string, local: Id)
    requires n in reports
    ensures Share(part, hash, reports, n, Shifted(local, AgvIndex(hash, n))) == CountId(Local(part, reports[n]), local)
  {
    hide Shifted, Unshifted, AgvIndex;
    var id := Shifted(local, AgvIndex(hash, n));
    ShiftedOnto(local, AgvIndex(hash, n), id);
    CountMoved(Local(part, reports[n]), AgvIndex(hash, n), id);
  }

  ghost predicate SumsAtMostOne<T>(part: Part, hash: string -> nat, reports: map<string, Report<T>>, ks: seq<string>)
    requires forall n <- ks :: n in reports
  {
    forall id :: SumShares(part, hash, reports, ks, id) <= 1
  }

  lemma ShareBelowSum<T>(part: Part, hash: string -> nat, reports: map<string, Report<T>>, ks: seq<string>, n: string, id: Id)
    requires (forall k <- ks :: k in reports) && n in ks
    ensures Share(part, hash, reports, n, id) <= SumShares(part, hash, reports, ks, id)
  {
    hide Share;
    var k :| 0 <= k < |ks| && ks[k] == n;
    SumSplit(part, hash, reports, ks, k, id);
  }

  lemma TwoSharesBelowSum<T>(part: Part, hash: string -> nat, reports: map<string, Report<T>>, ks: seq<string>, m: string, n: string, id: Id)
    requires (forall k <- ks :: k in reports) && m in ks && n in ks && m != n
    ensures Share(part, hash, reports, m, id) + Share(part, hash, reports, n, id) <= SumShares(part, hash, reports, ks, id)
  {
    hide Share;
    var i :| 0 <= i < |ks| && ks[i] == m;
    var j :| 0 <= j < |ks| && ks[j] == n;
    if i < j {
      SumSplit(part, hash, reports, ks, j, id);
      SumSplit(part, hash, reports, ks[..j], i, id);
    } else {
      SumSplit(part, hash, reports, ks, i, id);
      SumSplit(part, hash, reports, ks[..i], j, id);
    }
  }

  lemma DistinctInside<T>(part: Part, hash: string -> nat, reports: map<string, Report<T>>, ks: seq<string>, n: string)
    requires (forall k <- ks :: k in reports) && n in ks && SumsAtMostOne(part, hash, reports, ks)
    ensures DistinctIds(Local(part, reports[n]))
  {
    hide Share, Shifted, AgvIndex;
    forall local
      ensures CountId(Local(part, reports[n]), local) <= 1
    {
      OwnShare(part, hash, reports, n, local);
      ShareBelowSum(part, hash, reports, ks, n, Shifted(local, AgvIndex(hash, n)));
    }
    OnceThenDistinct(Local(part, reports[n]));
  }

  lemma DistinctAcross<T>(part: Part, hash: string -> nat, reports: map<string, Report<T>>, ks: seq<string>, m: string, n: string)
    requires (forall k <- ks :: k in reports) && m in ks && n in ks && SumsAtMostOne(part, hash, reports, ks)
    requires m != n
    ensures !Clashing(Local(part, reports[m]), AgvIndex(hash, m), Local(part, reports[n]), AgvIndex(hash, n))
  {
    hide Share, Shifted, AgvIndex, Clash;
    var (os, i) := (Local(part, reports[m]), AgvIndex(hash, m));
    var (qs, j) := (Local(part, reports[n]), AgvIndex(hash, n));
    if Clashing(os, i, qs, j) {
      var k, l :| 0 <= k < |os| && 0 <= l < |qs| && Clash(os[k].id, i, qs[l].id, j);
      ClashIff(os[k].id, i, qs[l].id, j);
      OwnShare(part, hash, reports, m, os[k].id);
      OwnShare(part, hash, reports, n, qs[l].id);
      CountPositive(os, os[k].id);
      CountPositive(qs, qs[l].id);
      TwoSharesBelowSum(part, hash, reports, ks, m, n, Shifted(os[k].id, i));
    }
  }

  lemma SumsSeparate<T>(part: Part, hash: string -> nat, reports: map<string, Report<T>>, ks: seq<string>)
    requires (forall k <- ks :: k in reports) && (forall n <- reports :: n in ks)
    requires SumsAtMostOne(part, hash, reports, ks)
    ensures Separate(part, hash, reports)
  {
    hide Share, AgvIndex, DistinctIds, Clashing, SumsAtMostOne;
    forall n | n in reports
      ensures DistinctIds(Local(part, reports[n]))
    {
      DistinctInside(part, hash, reports, ks, n);
    }
    forall m, n | m in reports && n in reports && m != n
      ensures !Clashing(Local(part, reports[m]), AgvIndex(hash, m), Local(part, reports[n]), AgvIndex(hash, n))
    {
      DistinctAcross(part, hash, reports, ks, m, n);
    }
  }

  /** The combined report, or one list of it, repeats no id exactly when no vehicle repeats a local id
      there and no two vehicles clash, whatever the ids are. */
  lemma NoIdShared<T>(part: Part, hash: string -> nat, reports: map<string, Report<T>>, c: Report<T>)
    requires IsCombined(hash, reports, c)
    ensures DistinctIds(Local(part, c)) <==> Separate(part, hash, reports)
  {
    hide Separate, DistinctIds, Combined, Distinct;
    hide CountId, SumShares;
    var ks: seq<string> :| IsCombinedIn(hash, reports, c, ks);
    forall id
      ensures CountId(Local(part, c), id) == SumShares(part, hash, reports, ks, id)
    {
      CombinedCount(part, hash, reports, ks, id);
    }
    if Separate(part, hash, reports) {
      forall id
        ensures CountId(Local(part, c), id) <= 1
      {
        SumAtMostOne(part, hash, reports, ks, id);
      }
      OnceThenDistinct(Local(part, c));
    }
    if DistinctIds(Local(part, c)) {
      forall id
        ensures SumShares(part, hash, reports, ks, id) <= 1
      {
        DistinctThenOnce(Local(part, c), id);
      }
      SumsSeparate(part, hash, reports, ks);
    }
  }

  // ---------------------------------------------------------------- the ids that are really sent

  ghost predicate IdsFit<T>(part: Part, reports: map<string, Report<T>>) {
    forall n :: n in reports ==> forall k :: 0 <= k < |Local(part, reports[n])| ==> Local(part, reports[n])[k].id as int < ID_SPACE
  }

  ghost predicate Shares<T>(a: seq<Obstacle<T>>, b: seq<Obstacle<T>>) {
    exists k, l :: 0 <= k < |a| && 0 <= l < |b| && a[k].id == b[l].id
  }

  /** Where all local ids fit in one range, only vehicles with one range key can clash, and they do exactly
      when both report one id. */
  lemma SeparateByKey<T>(part: Part, hash: string -> nat, reports: map<string, Report<T>>)
    requires IdsFit(part, reports)
    ensures Separate(part, hash, reports) <==>
              && (forall n :: n in reports ==> DistinctIds(Local(part, reports[n])))
              && (forall m, n :: m in reports && n in reports && m != n && RangeKey(hash, m) == RangeKey(hash, n) ==>
                    !Shares(Local(part, reports[m]), Local(part, reports[n])))
  {
    hide DistinctIds, AgvIndex, RangeKey, Local, Clash;
    forall m, n | m in reports && n in reports
      ensures Clashing(Local(part, reports[m]), AgvIndex(hash, m), Local(part, reports[n]), AgvIndex(hash, n))
              <==> RangeKey(hash, m) == RangeKey(hash, n) && Shares(Local(part, reports[m]), Local(part, reports[n]))
    {
      SameRangeIff(hash, m, n);
      FittingClash(Local(part, reports[m]), AgvIndex(hash, m), Local(part, reports[n]), AgvIndex(hash, n));
    }
    hide Clashing, Shares;
  }

  lemma FittingClash<T>(a: seq<Obstacle<T>>, i: nat, b: seq<Obstacle<T>>, j: nat)
    requires i < MAX_INDEX && j < MAX_INDEX
    requires forall k :: 0 <= k < |a| ==> a[k].id as int < ID_SPACE
    requires forall l :: 0 <= l < |b| ==> b[l].id as int < ID_SPACE
    ensures Clashing(a, i, b, j) <==> i == j && Shares(a, b)
  {
    hide Clash;
    forall k, l | 0 <= k < |a| && 0 <= l < |b|
      ensures Clash(a[k].id, i, b[l].id, j) <==> i == j && a[k].id == b[l].id
    {
      ClashIff(a[k].id, i, b[l].id, j);
      ShiftedDecodes(a[k].id, i);
      ShiftedDecodes(b[l].id, j);
    }
  }

  /** The report builder numbers the matched obstacles from 0. One vehicle's report then repeats no id exactly
      when the unmatched ids are distinct and all past the matched ones. */
  lemma BuilderIdsDistinctIff<T>(r: Report<T>)
    requires forall k :: 0 <= k < |r.matched| ==> r.matched[k].id as int == k
    ensures DistinctIds(Local(Whole, r)) <==>
              DistinctIds(r.unmatched) && forall k :: 0 <= k < |r.unmatched| ==> r.unmatched[k].id as int >= |r.matched|
  {
    var all, u := Local(Whole, r), |r.unmatched|;
    forall i, j | 0 <= i < j < u && r.unmatched[i].id == r.unmatched[j].id
      ensures !DistinctIds(all)
    {
      assert all[i].id == all[j].id;
    }
    forall k | 0 <= k < u && r.unmatched[k].id as int < |r.matched|
      ensures !DistinctIds(all)
    {
      assert all[k].id == all[u + r.unmatched[k].id as int].id;
    }
  }

  ghost predicate AllUntracked<T>(reports: map<string, Report<T>>) {
    forall n :: n in reports ==> forall k :: 0 <= k < |reports[n].unmatched| ==> reports[n].unmatched[k].id == UNTRACKED
  }

  /** With tracking off, the unmatched obstacles get distinct ids exactly when no vehicle and no range has
      two of them. */
  lemma UntrackedDistinctIff<T>(hash: string -> nat, reports: map<string, Report<T>>, c: Report<T>)
    requires IsCombined(hash, reports, c) && AllUntracked(reports)
    ensures DistinctIds(c.unmatched) <==>
              && (forall n :: n in reports ==> |reports[n].unmatched| <= 1)
              && (forall m, n :: m in reports && n in reports && m != n && RangeKey(hash, m) == RangeKey(hash, n) ==>
                    reports[m].unmatched == [] || reports[n].unmatched == [])
  {
    NoIdShared(Unmatched, hash, reports, c);
    hide AgvIndex, RangeKey, Clash, IsCombined, DistinctIds;
    forall n | n in reports
      ensures DistinctIds(Local(Unmatched, reports[n])) <==> |reports[n].unmatched| <= 1
    {
      UntrackedTwice(reports[n].unmatched);
    }
    forall m, n | m in reports && n in reports
      ensures Clashing(Local(Unmatched, reports[m]), AgvIndex(hash, m), Local(Unmatched, reports[n]), AgvIndex(hash, n))
              <==> RangeKey(hash, m) == RangeKey(hash, n) && reports[m].unmatched != [] && reports[n].unmatched != []
    {
      SameRangeIff(hash, m, n);
      ClashIff(UNTRACKED, AgvIndex(hash, m), UNTRACKED, AgvIndex(hash, n));
      SameLocalId(UNTRACKED, AgvIndex(hash, m), AgvIndex(hash, n));
      UntrackedClashing(reports[m].unmatched, AgvIndex(hash, m), reports[n].unmatched, AgvIndex(hash, n));
    }
    hide Clashing;
  }

  lemma UntrackedTwice<T>(os: seq<Obstacle<T>>)
    requires forall k :: 0 <= k < |os| ==> os[k].id == UNTRACKED
    ensures DistinctIds(os) <==> |os| <= 1
  {
    if |os| > 1 {
      assert os[0].id == os[1].id;
    }
  }

  lemma UntrackedClashing<T>(a: seq<Obstacle<T>>, i: nat, b: seq<Obstacle<T>>, j: nat)
    requires forall k :: 0 <= k < |a| ==> a[k].id == UNTRACKED
    requires forall k :: 0 <= k < |b| ==> b[k].id == UNTRACKED
    ensures Clashing(a, i, b, j) <==> Clash(UNTRACKED, i, UNTRACKED, j) && a != [] && b != []
  {
    hide Clash;
    if Clash(UNTRACKED, i, UNTRACKED, j) && a != [] && b != [] {
      assert Clash(a[0].id, i, b[0].id, j);
    }
  }

  /** Two vehicles with ranges of their own, one obstacle each, and still one id twice: the second is not
      tracked, and its id wraps around to the last one of the first vehicle's range. */
  lemma NeighbourClash<T>(hash: string -> nat, reports: map<string, Report<T>>, x: T, y: T, c: Report<T>)
    requires reports == map["agv_0" := Report([Obstacle(999_999, x)], []), "agv_1" := Report([Obstacle(UNTRACKED, y)], [])]
    requires IsCombined(hash, reports, c)
    ensures RangeKey(hash, "agv_0") != RangeKey(hash, "agv_1")
    ensures !DistinctIds(c.unmatched)
  {
    assert AgvIndex(hash, "agv_0") == 0 by { ParseRoundTrip("agv_", 0); }
    assert AgvIndex(hash, "agv_1") == 1 by { ParseRoundTrip("agv_", 1); }
    SameRangeIff(hash, "agv_0", "agv_1");
    UntrackedClash(1, 999_999, 0);
    ClashIff(999_999, 0, UNTRACKED, 1);
    hide AgvIndex, RangeKey, Clash, IsCombined, DistinctIds;
    var a, b := Local(Unmatched, reports["agv_0"]), Local(Unmatched, reports["agv_1"]);
    assert Clash(a[0].id, 0, b[0].id, 1);
    assert Clashing(a, AgvIndex(hash, "agv_0"), b, AgvIndex(hash, "agv_1"));
    NoIdShared(Unmatched, hash, reports, c);
  }

  // ---------------------------------------------------------------- the node

  lemma StartCombined<T>(hash: string -> nat, reports: map<string, Report<T>>)
    ensures Combined(hash, reports, []) == Report([], [])
  {
  }

  lemma VisitNext<T>(hash: string -> nat, reports: map<string, Report<T>>, ks: seq<string>, n: string)
    requires n in reports && n !in ks && Distinct(ks) && forall m <- ks :: m in reports
    ensures Distinct(ks + [n]) && forall m <- ks + [n] :: m in reports
    ensures var before, index := Combined(hash, reports, ks), AgvIndex(hash, n);
            Combined(hash, reports, ks + [n])
            == Report(before.unmatched + MovedTo(reports[n].unmatched, index), before.matched + MovedTo(reports[n].matched, index))
  {
  }

  class ObstacleAggregatorNode<T> {
    const hash: string -> nat
    var latestReports: map<string, Report<T>>
    var agvIndexCache: map<string, nat>

    // The cache never disagrees with the namespace.
    ghost predicate Valid()
      reads this
    {
      forall n <- agvIndexCache :: agvIndexCache[n] == AgvIndex(hash, n)
    }

    constructor (hash: string -> nat)
      ensures Valid() && this.hash == hash && latestReports == map[]
    {
      this.hash := hash;
      latestReports, agvIndexCache := map[], map[];
    }

    method ReportCallback(n: string, report: Report<T>)
      requires Valid()
      modifies `latestReports
      ensures Valid() && latestReports == old(latestReports)[n := report]
    {
      latestReports := latestReports[n := report];
    }

    method AgvIndexFor(n: string) returns (index: nat)
      requires Valid()
      modifies `agvIndexCache
      ensures Valid() && index == AgvIndex(hash, n)
      ensures agvIndexCache == if n in old(agvIndexCache) then old(agvIndexCache) else old(agvIndexCache)[n := index]
    {
      hide ParsedIndex;
      if n in agvIndexCache {
        return agvIndexCache[n];
      }
      var parsed := ParseTrailingIndex(n);
      index := if parsed < 0 then hash(n) % MAX_INDEX else parsed;
      agvIndexCache := agvIndexCache[n := index];
    }

    method PublishCombined() returns (sent: Option<Report<T>>)
      requires Valid()
      modifies `agvIndexCache
      ensures Valid()
      ensures sent.None? <==> latestReports == map[]
      ensures sent.Some? ==> IsCombined(hash, latestReports, sent.value)
    {
      if latestReports == map[] {
        return None;
      }
      hide Combined, AgvIndex;
      var combined := Report([], []);
      var rest := latestReports.Keys;
      ghost var ks: seq<string> := [];
      StartCombined(hash, latestReports);
      while rest != {}
        invariant Valid()
        invariant rest <= latestReports.Keys
        invariant Distinct(ks) && forall n :: n in ks <==> n in latestReports && n !in rest
        invariant combined == Combined(hash, latestReports, ks)
        decreases rest
      {
        var n :| n in rest;
        var index := AgvIndexFor(n);
        var unmatched := Move(latestReports[n].unmatched, index);
        var matched := Move(latestReports[n].matched, index);
        VisitNext(hash, latestReports, ks, n);
        combined := Report(combined.unmatched + unmatched, combined.matched + matched);
        ks := ks + [n];
        rest := rest - {n};
      }
      sent := Some(combined);
      assert IsCombinedIn(hash, latestReports, combined, ks);
    }

    static method Move(os: seq<Obstacle<T>>, index: nat) returns (r: seq<Obstacle<T>>)
      requires index < MAX_INDEX
      ensures r == MovedTo(os, index)
    {
      var offset := index * ID_SPACE;
      r := [];
      for k := 0 to |os|
        invariant r == MovedTo(os[..k], index)
      {
        r := r + [os[k].(id := ((os[k].id as int + offset) % WORD) as Id)];
      }
      assert os[..|os|] == os;
    }
  }
}
