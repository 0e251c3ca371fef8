/** The arithmetic behind the validation node: what one spawn goes through, and what the running
    statistics say about all spawns. Distances are kept as squares; `sqrt(d2) <= r` is `Within`. */
module ValidationLedger {

  import opened Common
  import opened Regression

  // Times are nanosecond stamps, as rclcpp::Time holds them.
  datatype Spawn = Spawn(
    time: int, x: real, y: real, radius: real,
    detected: bool, eligible: bool, firstDetection: int, matchDist2: real,
    entered: bool, circleEntry: int,
    finalized: bool, latencyMs: real,
    nearest2: Option<real>)  // None: no unmatched detection yet

  datatype Config = Config(tolerance: real, maxAge: real, window: real, radius: real, persistentMin: nat)

  datatype Stats = Stats(
    totalSpawned: nat, eligible: nat, detected: nat,
    samples: nat, sumMs: real, minMs: Option<real>, maxMs: Option<real>)

  function NewSpawn(time: int, x: real, y: real, radius: real): Spawn {
    Spawn(time, x, y, radius, false, false, 0, 0.0, false, 0, false, 0.0, None)
  }

  function Seconds(ns: int): real {
    ns as real / 1000000000.0
  }

  function Dist2(x0: real, y0: real, x1: real, y1: real): real {
    (x0 - x1) * (x0 - x1) + (y0 - y1) * (y0 - y1)
  }

  predicate Within(d2: real, r: real) {
    r >= 0.0 && d2 <= r * r
  }

  // A detection at time t counts for a spawn at `time`: not before it, and inside the window.
  predicate InWindow(cfg: Config, time: int, t: int) {
    0.0 <= Seconds(t - time) <= cfg.window
  }

  /** The squared distance is Pythagoras' sum of its two components, and along an axis the square of the
      difference. */
  lemma Pythagoras(x0: real, y0: real, x1: real, y1: real, d: real)
    ensures Dist2(x0, y0, x1, y1) == Dist2(x0, 0.0, x1, 0.0) + Dist2(0.0, y0, 0.0, y1)
    ensures Dist2(x0, 0.0, x0 + d, 0.0) == d * d && Dist2(0.0, y0, 0.0, y0 + d) == d * d
  {
    assert x0 - (x0 + d) == -d && y0 - (y0 + d) == -d;
  }

  /** Comparing squares is comparing the distance itself. */
  lemma WithinIsDistance(d2: real, r: real, root: real -> real)
    requires IsRoot(root) && d2 >= 0.0
    ensures Within(d2, r) <==> root(d2) <= r
  {
    var d := root(d2);
    assert Mul(d, d) == d2 && d >= 0.0;
    if 0.0 <= r < d {
      SquareLess(r, d);
    } else if 0.0 <= d < r {
      SquareLess(d, r);
    }
  }

  lemma SquareLess(a: real, b: real)
    requires 0.0 <= a < b
    ensures a * a < b * b
  {
    assert Mul(a, a) <= Mul(a, b) && Mul(a, b) < Mul(b, b) by {
      MulComm(a, b);
      MulLess(a, b, b);
      if a > 0.0 { MulLess(a, b, a); }
    }
  }

  /** The window by whole nanoseconds: from the spawn on, for `window` seconds. */
  lemma InWindowIff(cfg: Config, time: int, t: int)
    ensures InWindow(cfg, time, t) <==> time <= t && (t - time) as real <= cfg.window * 1000000000.0
  {
  }

  // ---------------------------------------------------------------- one spawn

  function LatencyMs(s: Spawn): real {
    Seconds(s.firstDetection - s.circleEntry) * 1000.0
  }

  function Finalize(s: Spawn): Spawn {
    if s.finalized || !s.detected || !s.entered then s else s.(finalized := true, latencyMs := LatencyMs(s))
  }

  function Detect(s: Spawn, dist2: real, t: int): Spawn {
    Finalize(s.(eligible := true, detected := true, firstDetection := t, matchDist2 := dist2))
  }

  function Enter(s: Spawn, t: int): Spawn {
    if s.entered then s.(eligible := true) else Finalize(s.(eligible := true, entered := true, circleEntry := t))
  }

  ghost predicate SpawnOk(s: Spawn) {
    && (s.eligible <==> s.detected || s.entered)
    && (s.finalized ==> s.detected && s.entered && s.latencyMs == LatencyMs(s))
  }

  ghost predicate Settled(s: Spawn) {
    s.detected && s.entered ==> s.finalized
  }

  /** The two events may come in either order: the spawn ends up the same, finalised once, with the
      detection stamp minus the entry stamp as its latency. */
  lemma EitherOrder(s: Spawn, dist2: real, t: int, e: int)
    requires SpawnOk(s) && !s.detected && !s.entered
    ensures Enter(Detect(s, dist2, t), e) == Detect(Enter(s, e), dist2, t)
    ensures var r := Enter(Detect(s, dist2, t), e);
            r.finalized && r.latencyMs == Seconds(t - e) * 1000.0
    ensures !Detect(s, dist2, t).finalized && !Enter(s, e).finalized
  {
  }

  /** The latency is detection minus circle entry, in milliseconds: negative for an obstacle seen first. */
  lemma LatencyIsDifference(s: Spawn)
    ensures LatencyMs(s) * 1000000.0 == (s.firstDetection - s.circleEntry) as real
  {
  }

  /** Once finalised, later circle entries change nothing. */
  lemma FinalizedIsFinal(s: Spawn, e: int)
    requires SpawnOk(s) && s.finalized
    ensures Enter(s, e) == s
  {
  }

  // ---------------------------------------------------------------- sums over all spawns

  predicate IsEligible(s: Spawn) { s.eligible }
  predicate IsDetected(s: Spawn) { s.detected }
  predicate IsFinalized(s: Spawn) { s.finalized }

  ghost function Count(ss: seq<Spawn>, p: Spawn -> bool): nat {
    if ss == [] then 0 else Count(ss[..|ss| - 1], p) + if p(ss[|ss| - 1]) then 1 else 0
  }

  ghost function SumMs(ss: seq<Spawn>): real {
    if ss == [] then 0.0 else SumMs(ss[..|ss| - 1]) + if ss[|ss| - 1].finalized then ss[|ss| - 1].latencyMs else 0.0
  }

  function Bit(b: bool): nat {
    if b then 1 else 0
  }

  lemma {:induction false} CountUpdate(ss: seq<Spawn>, p: Spawn -> bool, i: nat, s: Spawn)
    requires i < |ss|
    ensures Count(ss[i := s], p) == Count(ss, p) - Bit(p(ss[i])) + Bit(p(s))
  {
    var init := ss[..|ss| - 1];
    if i == |ss| - 1 {
      assert ss[i := s][..|ss| - 1] == init;
    } else {
      assert ss[i := s][..|ss| - 1] == init[i := s];
      CountUpdate(init, p, i, s);
    }
  }

  lemma {:induction false} SumUpdate(ss: seq<Spawn>, i: nat, s: Spawn)
    requires i < |ss|
    ensures SumMs(ss[i := s]) == SumMs(ss) - (if ss[i].finalized then ss[i].latencyMs else 0.0) + if s.finalized then s.latencyMs else 0.0
  {
    var init := ss[..|ss| - 1];
    if i == |ss| - 1 {
      assert ss[i := s][..|ss| - 1] == init;
    } else {
      assert ss[i := s][..|ss| - 1] == init[i := s];
      SumUpdate(init, i, s);
    }
  }

  // Smallest and largest finalised latency, when there is one.
  ghost predicate ExtremesOk(ss: seq<Spawn>, st: Stats) {
    && (st.samples == 0 ==> st.minMs == None && st.maxMs == None)
    && (st.samples > 0 ==> st.minMs.Some? && st.maxMs.Some? && Attained(ss, st.minMs.value) && Attained(ss, st.maxMs.value))
    && (forall i :: 0 <= i < |ss| && ss[i].finalized ==>
          st.minMs.Some? && st.maxMs.Some? && st.minMs.value <= ss[i].latencyMs <= st.maxMs.value)
  }

  ghost predicate Attained(ss: seq<Spawn>, v: real) {
    exists i :: 0 <= i < |ss| && ss[i].finalized && ss[i].latencyMs == v
  }

  /** The running statistics are what a recount over all spawns would give. */
  ghost predicate StatsOk(ss: seq<Spawn>, st: Stats) {
    && st.totalSpawned == |ss|
    && st.eligible == Count(ss, IsEligible)
    && st.detected == Count(ss, IsDetected)
    && st.samples == Count(ss, IsFinalized)
    && st.sumMs == SumMs(ss)
    && ExtremesOk(ss, st)
    && (forall i :: 0 <= i < |ss| ==> SpawnOk(ss[i]))
  }

  function MinMs(o: Option<real>, v: real): Option<real> {
    if o.Some? && o.value <= v then o else Some(v)
  }

  function MaxMs(o: Option<real>, v: real): Option<real> {
    if o.Some? && o.value >= v then o else Some(v)
  }

  // What happens to the statistics when spawn i changes from ss[i] to s.
  function Recount(st: Stats, before: Spawn, s: Spawn): Stats {
    var st1 := st.(
      eligible := if s.eligible && !before.eligible then st.eligible + 1 else st.eligible,
      detected := if s.detected && !before.detected then st.detected + 1 else st.detected);
    if s.finalized && !before.finalized then
      st1.(samples := st.samples + 1, sumMs := st.sumMs + s.latencyMs, minMs := MinMs(st.minMs, s.latencyMs),
      maxMs := MaxMs(st.maxMs, s.latencyMs))
    else st1
  }

  // The flags of a spawn only ever go up, and a finalised latency stays.
  ghost predicate Advances(before: Spawn, s: Spawn) {
    && (before.eligible ==> s.eligible)
    && (before.detected ==> s.detected)
    && (before.finalized ==> s.finalized && s.latencyMs == before.latencyMs)
  }

  lemma AttainedUpdate(ss: seq<Spawn>, i: nat, s: Spawn, v: real)
    requires i < |ss| && Advances(ss[i], s) && Attained(ss, v)
    ensures Attained(ss[i := s], v)
  {
    var j :| 0 <= j < |ss| && ss[j].finalized && ss[j].latencyMs == v;
    assert ss[i := s][j].finalized && ss[i := s][j].latencyMs == v;
  }

  lemma ExtremesUpdate(ss: seq<Spawn>, st: Stats, i: nat, s: Spawn)
    requires i < |ss| && Advances(ss[i], s) && ExtremesOk(ss, st)
    ensures ExtremesOk(ss[i := s], Recount(st, ss[i], s))
  {
    var ss', st' := ss[i := s], Recount(st, ss[i], s);
    if st.samples > 0 {
      AttainedUpdate(ss, i, s, st.minMs.value);
      AttainedUpdate(ss, i, s, st.maxMs.value);
    }
    if s.finalized && !ss[i].finalized {
      assert ss'[i].finalized && ss'[i].latencyMs == s.latencyMs;
      assert Attained(ss', s.latencyMs);
    }
    forall j | 0 <= j < |ss'| && ss'[j].finalized
      ensures st'.minMs.Some? && st'.maxMs.Some? && st'.minMs.value <= ss'[j].latencyMs <= st'.maxMs.value
    {
      if j != i { assert ss'[j] == ss[j]; }
    }
  }

  /** Changing one spawn and recounting incrementally keeps the statistics exact. */
  lemma RecountOk(ss: seq<Spawn>, st: Stats, i: nat, s: Spawn)
    requires i < |ss| && StatsOk(ss, st) && Advances(ss[i], s) && SpawnOk(s)
    ensures StatsOk(ss[i := s], Recount(st, ss[i], s))
  {
    CountUpdate(ss, IsEligible, i, s);
    CountUpdate(ss, IsDetected, i, s);
    CountUpdate(ss, IsFinalized, i, s);
    SumUpdate(ss, i, s);
    ExtremesUpdate(ss, st, i, s);
  }

  lemma RegisterOk(ss: seq<Spawn>, st: Stats, s: Spawn)
    requires StatsOk(ss, st) && !s.eligible && !s.detected && !s.entered && !s.finalized
    ensures StatsOk(ss + [s], st.(totalSpawned := st.totalSpawned + 1))
  {
  }

  // ---------------------------------------------------------------- published results

  // Segments over all reports, as the node counts them.
  datatype Counters = Counters(matched: nat, intruder: nat, unclaimed: nat, staticMiss: nat)

  // One result message: the totals so far, and the spawn it is about.
  datatype Published = Published(stats: Stats, avgMs: real, missedNear: nat, missedNever: nat, counters: Counters, spawn: Spawn)

  predicate NearMiss(radius: real, s: Spawn) {
    s.eligible && !s.detected && s.nearest2.Some? && Within(s.nearest2.value, radius)
  }

  ghost function CountMissed(ss: seq<Spawn>, radius: real, near: bool): nat {
    if ss == [] then 0
    else
      var s := ss[|ss| - 1];
      CountMissed(ss[..|ss| - 1], radius, near) + Bit(s.eligible && !s.detected && NearMiss(radius, s) == near)
  }

  /** Eligible spawns split into detected, missed nearby and never seen. */
  lemma {:induction false} MissesAddUp(ss: seq<Spawn>, radius: real)
    requires forall i :: 0 <= i < |ss| ==> SpawnOk(ss[i])
    ensures Count(ss, IsDetected) + CountMissed(ss, radius, true) + CountMissed(ss, radius, false) == Count(ss, IsEligible) <= |ss|
  {
    if ss != [] {
      assert SpawnOk(ss[|ss| - 1]);
      MissesAddUp(ss[..|ss| - 1], radius);
    }
  }

  // The indices of the spawns that count as missed, with or without a detection nearby.
  ghost function Missed(ss: seq<Spawn>, radius: real, near: bool): set<nat> {
    set i: nat | i < |ss| && ss[i].eligible && !ss[i].detected
                 && (near <==> ss[i].nearest2.Some? && Within(ss[i].nearest2.value, radius))
  }

  lemma {:induction false} CountMissedIsSize(ss: seq<Spawn>, radius: real, near: bool)
    ensures CountMissed(ss, radius, near) == |Missed(ss, radius, near)|
  {
    if ss == [] {
      assert Missed(ss, radius, near) == {};
    } else {
      CountMissedIsSize(ss[..|ss| - 1], radius, near);
      MissedMore(ss, radius, near);
      hide Missed;
    }
  }

  lemma MissedMore(ss: seq<Spawn>, radius: real, near: bool)
    requires ss != []
    ensures var n, s := |ss| - 1, ss[|ss| - 1];
            var before, after := Missed(ss[..n], radius, near), Missed(ss, radius, near);
            && n !in before
            && after == if s.eligible && !s.detected && NearMiss(radius, s) == near then before + {n} else before
  {
    var n := |ss| - 1;
    assert forall i :: 0 <= i < n ==> ss[..n][i] == ss[i];
    hide Within;
  }

  ghost predicate PublishedOk(p: Published) {
    && p.stats.detected + p.missedNear + p.missedNever == p.stats.eligible <= p.stats.totalSpawned
    && (p.stats.samples > 0 ==> Times(p.avgMs, p.stats.samples) == p.stats.sumMs)
    && (p.stats.samples == 0 ==> p.avgMs == 0.0)
    && (p.stats.samples > 0 ==> p.stats.minMs.Some? && p.stats.maxMs.Some?
                                && p.stats.minMs.value <= p.avgMs <= p.stats.maxMs.value)
  }

  function Times(a: real, n: nat): real {
    a * n as real
  }

  // The sum lies between samples * min and samples * max.
  lemma {:induction false} SumBounds(ss: seq<Spawn>, lo: real, hi: real)
    requires forall i :: 0 <= i < |ss| && ss[i].finalized ==> lo <= ss[i].latencyMs <= hi
    ensures Times(lo, Count(ss, IsFinalized)) <= SumMs(ss) <= Times(hi, Count(ss, IsFinalized))
  {
    var n := Count(ss[..if |ss| > 0 then |ss| - 1 else 0], IsFinalized);
    TimesStep(lo, n);
    TimesStep(hi, n);
    hide Times;
    if ss != [] {
      SumBounds(ss[..|ss| - 1], lo, hi);
    }
  }

  lemma TimesStep(a: real, n: nat)
    ensures Times(a, 0) == 0.0 && Times(a, n + 1) == Times(a, n) + a
  {
  }

  lemma AverageBounds(sum: real, n: nat, lo: real, hi: real)
    requires n > 0 && Times(lo, n) <= sum <= Times(hi, n)
    ensures Times(sum / n as real, n) == sum && lo <= sum / n as real <= hi
  {
  }

  function Average(st: Stats): real {
    if st.samples > 0 then st.sumMs / st.samples as real else 0.0
  }

  // The result message for the present state, about spawn s.
  ghost function Snapshot(ss: seq<Spawn>, st: Stats, radius: real, c: Counters, s: Spawn): Published {
    Published(st, Average(st), CountMissed(ss, radius, true), CountMissed(ss, radius, false), c, s)
  }

  /** A published result splits the eligible spawns exactly, and its average lies between its extremes. */
  lemma PublishedIsOk(ss: seq<Spawn>, st: Stats, radius: real, c: Counters, s: Spawn)
    requires StatsOk(ss, st)
    ensures PublishedOk(Snapshot(ss, st, radius, c, s))
  {
    MissesAddUp(ss, radius);
    CountBound(ss, IsEligible);
    if st.samples > 0 {
      AverageInside(ss, st);
    }
    AverageOfNone(st);
    hide StatsOk, Count, SumMs, ExtremesOk, CountMissed, Average;
  }

  lemma AverageOfNone(st: Stats)
    ensures st.samples == 0 ==> Average(st) == 0.0
  {
  }

  lemma {:induction false} CountBound(ss: seq<Spawn>, p: Spawn -> bool)
    ensures Count(ss, p) <= |ss|
  {
    if ss != [] { CountBound(ss[..|ss| - 1], p); }
  }

  lemma AverageInside(ss: seq<Spawn>, st: Stats)
    requires StatsOk(ss, st) && st.samples > 0
    ensures st.minMs.Some? && st.maxMs.Some?
    ensures Times(Average(st), st.samples) == st.sumMs && st.minMs.value <= Average(st) <= st.maxMs.value
  {
    var lo, hi, n := st.minMs.value, st.maxMs.value, st.samples;
    assert n == Count(ss, IsFinalized) && st.sumMs == SumMs(ss) && Average(st) == st.sumMs / n as real;
    FinalizedInside(ss, st);
    hide *;
    SumBounds(ss, lo, hi);
    AverageBounds(st.sumMs, n, lo, hi);
  }

  lemma FinalizedInside(ss: seq<Spawn>, st: Stats)
    requires ExtremesOk(ss, st) && st.samples > 0
    ensures st.minMs.Some? && st.maxMs.Some?
    ensures forall i :: 0 <= i < |ss| && ss[i].finalized ==> st.minMs.value <= ss[i].latencyMs <= st.maxMs.value
  {
  }

  // ---------------------------------------------------------------- matching

  // Spawn s may be paired with a detection at (x, y), time t.
  predicate Candidate(cfg: Config, s: Spawn, x: real, y: real, t: int) {
    !s.detected && Within(Dist2(x, y, s.x, s.y), cfg.tolerance) && InWindow(cfg, s.time, t)
  }

  // b is the candidate of least latency, the first among equals.
  ghost predicate BestSpawn(cfg: Config, ss: seq<Spawn>, x: real, y: real, t: int, b: nat) {
    && b < |ss| && Candidate(cfg, ss[b], x, y, t)
    && forall j :: 0 <= j < |ss| && Candidate(cfg, ss[j], x, y, t) ==>
                     t - ss[b].time <= t - ss[j].time && (j < b ==> t - ss[b].time < t - ss[j].time)
  }

  datatype Pending = Pending(x: real, y: real, firstSeen: int, lastSeen: int, scans: nat)

  predicate PendingFits(cfg: Config, s: Spawn, pd: Pending) {
    Within(Dist2(pd.x, pd.y, s.x, s.y), cfg.tolerance) && InWindow(cfg, s.time, pd.firstSeen)
  }

  ghost predicate BestPending(cfg: Config, s: Spawn, pds: seq<Pending>, b: nat) {
    && b < |pds| && PendingFits(cfg, s, pds[b])
    && forall j :: 0 <= j < |pds| && PendingFits(cfg, s, pds[j]) ==>
                     pds[b].firstSeen - s.time <= pds[j].firstSeen - s.time
                     && (j < b ==> pds[b].firstSeen - s.time < pds[j].firstSeen - s.time)
  }

  // ---------------------------------------------------------------- pending detections are means

  // One observation of a detection not paired yet.
  datatype Seen = Seen(x: real, y: real, time: int)

  function SumX(ps: seq<Seen>): real {
    if ps == [] then 0.0 else SumX(ps[..|ps| - 1]) + ps[|ps| - 1].x
  }

  function SumY(ps: seq<Seen>): real {
    if ps == [] then 0.0 else SumY(ps[..|ps| - 1]) + ps[|ps| - 1].y
  }

  // `pd` sits at the arithmetic mean of the observations merged into it, and knows the first and the last.
  ghost predicate IsMean(pd: Pending, obs: seq<Seen>) {
    && pd.scans == |obs| > 0
    && pd.firstSeen == obs[0].time && pd.lastSeen == obs[|obs| - 1].time
    && pd.x * pd.scans as real == SumX(obs)
    && pd.y * pd.scans as real == SumY(obs)
  }

  function Merge(pd: Pending, x: real, y: real, t: int): Pending {
    var n := pd.scans as real;
    pd.(x := (pd.x * n + x) / (n + 1.0), y := (pd.y * n + y) / (n + 1.0), lastSeen := t, scans := pd.scans + 1)
  }

  lemma MergeKeepsMean(pd: Pending, obs: seq<Seen>, x: real, y: real, t: int)
    requires IsMean(pd, obs)
    ensures IsMean(Merge(pd, x, y, t), obs + [Seen(x, y, t)])
  {
  }

  // ---------------------------------------------------------------- persistent unmatched ids

  newtype TrackerId = x: int | 0 <= x < 0x1_0000_0000_0000_0000
  const NO_ID: TrackerId := 0xffff_ffff_ffff_ffff
  type SeenMap = map<TrackerId, nat>

  ghost function Persistent(seen: SeenMap, k: nat): set<TrackerId> {
    set id | id in seen && seen[id] >= k
  }

  ghost function SumSeen(seen: SeenMap, ids: set<TrackerId>): nat
    requires ids <= seen.Keys
    decreases |ids|
  {
    if ids == {} then 0 else
      var id :| id in ids;
      seen[id] + SumSeen(seen, ids - {id})
  }

  lemma {:induction false} SumSeenRemove(seen: SeenMap, ids: set<TrackerId>, id: TrackerId)
    requires ids <= seen.Keys && id in ids
    ensures SumSeen(seen, ids) == seen[id] + SumSeen(seen, ids - {id})
    decreases |ids|
  {
    var x :| x in ids && SumSeen(seen, ids) == seen[x] + SumSeen(seen, ids - {x});
    if x != id {
      SumSeenRemove(seen, ids - {x}, id);
      SumSeenRemove(seen, ids - {id}, x);
      assert ids - {x} - {id} == ids - {id} - {x};
    }
  }

  lemma {:induction false} SumSeenSame(seen: SeenMap, seen': SeenMap, ids: set<TrackerId>)
    requires ids <= seen.Keys && ids <= seen'.Keys && forall id :: id in ids ==> seen[id] == seen'[id]
    ensures SumSeen(seen, ids) == SumSeen(seen', ids)
    decreases |ids|
  {
    if ids != {} {
      var id :| id in ids;
      SumSeenRemove(seen, ids, id);
      SumSeenRemove(seen', ids, id);
      SumSeenSame(seen, seen', ids - {id});
    }
  }

  /** The static-miss total: all sightings of every id seen at least k times. */
  ghost function StaticMisses(seen: SeenMap, k: nat): nat {
    SumSeen(seen, Persistent(seen, k))
  }

  function Credit(seen: nat, k: nat): nat {
    if seen == k then k else if seen > k then 1 else 0
  }

  /** One more sighting: the credit of the code is exactly what the total gains. */
  lemma SightingCredited(seen: SeenMap, id: TrackerId, k: nat)
    requires k >= 1
    ensures var n := (if id in seen then seen[id] else 0) + 1;
            StaticMisses(seen[id := n], k) == StaticMisses(seen, k) + Credit(n, k)
  {
    var was := if id in seen then seen[id] else 0;
    var seen' := seen[id := was + 1];
    var rest := Persistent(seen, k) - {id};
    assert Persistent(seen', k) - {id} == rest;
    SumSeenSame(seen, seen', rest);
    if was >= k {
      SumSeenRemove(seen, Persistent(seen, k), id);
    } else {
      assert Persistent(seen, k) == rest;
    }
    if was + 1 >= k {
      SumSeenRemove(seen', Persistent(seen', k), id);
    } else {
      assert Persistent(seen', k) == rest;
    }
  }

  ghost function Pruned(seen: SeenMap, k: nat): SeenMap {
    map id | id in seen && seen[id] >= k :: seen[id]
  }

  /** Pruning the ids below the threshold loses nothing of the total. */
  lemma PruningKeepsTotal(seen: SeenMap, k: nat)
    ensures StaticMisses(Pruned(seen, k), k) == StaticMisses(seen, k)
  {
    assert Persistent(Pruned(seen, k), k) == Persistent(seen, k);
    SumSeenSame(seen, Pruned(seen, k), Persistent(seen, k));
  }

  // `seen` counts no id oftener than it was sighted; pruning may have made it forget.
  ghost predicate Undercounts(seen: SeenMap, all: SeenMap) {
    forall id :: id in seen ==> id in all && seen[id] <= all[id]
  }

  lemma {:induction false} SumBelow(seen: SeenMap, all: SeenMap, ids: set<TrackerId>, more: set<TrackerId>)
    requires Undercounts(seen, all) && ids <= seen.Keys && ids <= more <= all.Keys
    requires forall id :: id in more ==> all[id] >= 1
    ensures SumSeen(seen, ids) <= SumSeen(all, more)
    ensures SumSeen(seen, ids) == SumSeen(all, more) ==> ids == more && forall id :: id in ids ==> seen[id] == all[id]
    decreases |more|
  {
    if id :| id in more {
      SumSeenRemove(all, more, id);
      if id in ids {
        SumSeenRemove(seen, ids, id);
        SumBelow(seen, all, ids - {id}, more - {id});
        if SumSeen(seen, ids) == SumSeen(all, more) {
          assert seen[id] == all[id] && ids - {id} == more - {id};
          assert ids == (ids - {id}) + {id} && more == (more - {id}) + {id};
        }
      } else {
        SumBelow(seen, all, ids, more - {id});
      }
    }
  }

  /** Against all sightings ever, the total is right exactly when no id seen at least k times has had one
      forgotten; otherwise it is too low. */
  lemma TotalRightIff(seen: SeenMap, all: SeenMap, k: nat)
    requires Undercounts(seen, all) && k >= 1
    ensures StaticMisses(seen, k) <= StaticMisses(all, k)
    ensures StaticMisses(seen, k) == StaticMisses(all, k) <==>
            forall id :: id in all && all[id] >= k ==> id in seen && seen[id] == all[id]
  {
    var ids, more := Persistent(seen, k), Persistent(all, k);
    SumBelow(seen, all, ids, more);
    hide SumSeen;
    if SumSeen(seen, ids) == SumSeen(all, more) {
      forall id | id in all && all[id] >= k
        ensures id in seen && seen[id] == all[id]
      {
        assert id in more;
      }
    }
    if forall id :: id in all && all[id] >= k ==> id in seen && seen[id] == all[id] {
      assert ids == more;
      SumSeenSame(seen, all, ids);
    }
  }
}
