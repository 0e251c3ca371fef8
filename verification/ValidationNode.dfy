/** `ValidationNode`: spawn, detection and pose events against the running statistics.

    All callbacks run under one mutex, so each public method is one event; `Valid` is what holds
    between any two of them, in any order. */
module ValidationNode {
  import opened Common
  import opened ValidationLedger
  import opened ValidationTrace

  // One pairing of a spawn with a detection, in the order they were reported.
  datatype Match = Match(spawn: nat, dist2: real, stamp: int)

  // Every pairing was inside the tolerance and the window, and names a spawn detected by it alone.
  ghost predicate MatchOk(cfg: Config, ss: seq<Spawn>, m: Match) {
    && m.spawn < |ss|
    && ss[m.spawn].detected && ss[m.spawn].firstDetection == m.stamp && ss[m.spawn].matchDist2 == m.dist2
    && Within(m.dist2, cfg.tolerance) && InWindow(cfg, ss[m.spawn].time, m.stamp)
  }

  ghost predicate MatchesOk(cfg: Config, ss: seq<Spawn>, ms: seq<Match>) {
    && (forall k :: 0 <= k < |ms| ==> MatchOk(cfg, ss, ms[k]))
    && (forall k, l :: 0 <= k < l < |ms| ==> ms[k].spawn != ms[l].spawn)
    && |ms| == Count(ss, IsDetected)
  }

  ghost predicate PendingOk(pds: seq<Pending>, merged: seq<seq<Seen>>) {
    |pds| == |merged| && forall k :: 0 <= k < |pds| ==> IsMean(pds[k], merged[k])
  }

  ghost predicate AllSettled(ss: seq<Spawn>) {
    forall i :: 0 <= i < |ss| ==> Settled(ss[i])
  }

  // Changing one spawn without touching its pairing keeps all pairings.
  lemma MatchesKept(cfg: Config, ss: seq<Spawn>, ms: seq<Match>, i: nat, s: Spawn)
    requires i < |ss| && MatchesOk(cfg, ss, ms)
    requires s.detected == ss[i].detected && s.firstDetection == ss[i].firstDetection
    requires s.matchDist2 == ss[i].matchDist2 && s.time == ss[i].time
    ensures MatchesOk(cfg, ss[i := s], ms)
  {
    CountUpdate(ss, IsDetected, i, s);
    forall k | 0 <= k < |ms|
      ensures MatchOk(cfg, ss[i := s], ms[k])
    {
      assert MatchOk(cfg, ss, ms[k]);
    }
  }

  lemma MatchAdded(cfg: Config, ss: seq<Spawn>, ms: seq<Match>, i: nat, s: Spawn, m: Match)
    requires i < |ss| && MatchesOk(cfg, ss, ms) && !ss[i].detected
    requires m.spawn == i && s.time == ss[i].time && MatchOk(cfg, ss[i := s], m)
    ensures MatchesOk(cfg, ss[i := s], ms + [m])
  {
    CountUpdate(ss, IsDetected, i, s);
    forall k | 0 <= k < |ms|
      ensures MatchOk(cfg, ss[i := s], ms[k]) && ms[k].spawn != i
    {
      assert MatchOk(cfg, ss, ms[k]);
    }
  }

  lemma MatchesSnoc(cfg: Config, ss: seq<Spawn>, ms: seq<Match>, s: Spawn)
    requires MatchesOk(cfg, ss, ms) && !s.detected
    ensures MatchesOk(cfg, ss + [s], ms)
  {
  }

  lemma PendingWithout(pds: seq<Pending>, merged: seq<seq<Seen>>, b: nat)
    requires PendingOk(pds, merged) && b < |pds|
    ensures b < |merged| && PendingOk(pds[..b] + pds[b + 1..], merged[..b] + merged[b + 1..])
  {
  }

  lemma TrackKeeps(cfg: Config, ss: seq<Spawn>, st: Stats, ms: seq<Match>, i: nat, x: real, y: real)
    requires i < |ss| && StatsOk(ss, st) && MatchesOk(cfg, ss, ms) && AllSettled(ss)
    ensures var ss' := ss[i := Track(ss[i], x, y)];
            StatsOk(ss', st) && MatchesOk(cfg, ss', ms) && AllSettled(ss')
  {
    RecountOk(ss, st, i, Track(ss[i], x, y));
    MatchesKept(cfg, ss, ms, i, Track(ss[i], x, y));
  }

  // The spawn and detection state, and with it the counters.
  datatype Detections = Detections(spawned: seq<Spawn>, pending: seq<Pending>, matches: seq<Match>, stats: Stats, published: seq<Published>)
  datatype Ledger = Ledger(d: Detections, seen: SeenMap, counters: Counters)

  // One detection: it takes the best open spawn, or else goes to the pending buffer.
  ghost predicate Paired(cfg: Config, a: Detections, b: Detections, c: Counters, x: real, y: real, stamp: int) {
    if exists j :: 0 <= j < |a.spawned| && Candidate(cfg, a.spawned[j], x, y, stamp)
    then exists i :: Takes(cfg, a, b, c, x, y, stamp, i)
    else b == a.(pending := b.pending) && Buffered(cfg, a.pending, b.pending, x, y, stamp)
  }

  ghost predicate Takes(cfg: Config, a: Detections, b: Detections, c: Counters, x: real, y: real, stamp: int, i: nat) {
    && BestSpawn(cfg, a.spawned, x, y, stamp, i)
    && var dist2 := Dist2(x, y, a.spawned[i].x, a.spawned[i].y);
       && b.spawned == a.spawned[i := Detect(a.spawned[i], dist2, stamp)]
       && b.pending == a.pending && b.matches == a.matches + [Match(i, dist2, stamp)]
       && b.published == a.published + [Snapshot(b.spawned, b.stats, cfg.radius, c, b.spawned[i])]
  }

  lemma PairedBy(cfg: Config, a: Detections, b: Detections, c: Counters, x: real, y: real, stamp: int, i: nat)
    requires Takes(cfg, a, b, c, x, y, stamp, i)
    ensures Paired(cfg, a, b, c, x, y, stamp) && a.spawned != b.spawned
  {
  }

  // Spawn s may take a detection at (x, y), `stamp`: never paired, within the tolerance, inside the window.
  ghost predicate Open(cfg: Config, s: Spawn, x: real, y: real, stamp: int) {
    && !s.detected && cfg.tolerance >= 0.0
    && (x - s.x) * (x - s.x) + (y - s.y) * (y - s.y) <= cfg.tolerance * cfg.tolerance
    && s.time <= stamp && (stamp - s.time) as real <= cfg.window * 1000000000.0
  }

  // The latest of the open spawns, the first among those of one time.
  ghost predicate LatestOpen(cfg: Config, ss: seq<Spawn>, x: real, y: real, stamp: int, i: nat) {
    && i < |ss| && Open(cfg, ss[i], x, y, stamp)
    && forall j :: 0 <= j < |ss| && Open(cfg, ss[j], x, y, stamp) ==> ss[j].time <= ss[i].time && (j < i ==> ss[j].time < ss[i].time)
  }

  // All observations waiting in the buffer.
  function Waiting(pds: seq<Pending>): nat {
    if pds == [] then 0 else Waiting(pds[..|pds| - 1]) + pds[|pds| - 1].scans
  }

  lemma OpenIff(cfg: Config, s: Spawn, x: real, y: real, stamp: int)
    ensures Candidate(cfg, s, x, y, stamp) <==> Open(cfg, s, x, y, stamp)
  {
    InWindowIff(cfg, s.time, stamp);
    hide InWindow;
  }

  lemma LatestIff(cfg: Config, ss: seq<Spawn>, x: real, y: real, stamp: int, i: nat)
    ensures BestSpawn(cfg, ss, x, y, stamp, i) <==> LatestOpen(cfg, ss, x, y, stamp, i)
  {
    forall j | 0 <= j < |ss|
      ensures Candidate(cfg, ss[j], x, y, stamp) <==> Open(cfg, ss[j], x, y, stamp)
    {
      OpenIff(cfg, ss[j], x, y, stamp);
    }
    hide Candidate, Open;
  }

  /** A detection goes to exactly one place: the latest open spawn, which is then detected at that stamp and
      announced in one result, or, when no spawn is open, the buffer, which then holds one observation more. */
  lemma PairedMeans(cfg: Config, a: Detections, b: Detections, c: Counters, x: real, y: real, stamp: int)
    requires Paired(cfg, a, b, c, x, y, stamp)
    ensures if exists j :: 0 <= j < |a.spawned| && Open(cfg, a.spawned[j], x, y, stamp)
            then exists i :: LatestOpen(cfg, a.spawned, x, y, stamp, i) && TakenBy(a, b, i, stamp)
            else b.spawned == a.spawned && b.matches == a.matches && b.published == a.published
                 && Waiting(b.pending) == Waiting(a.pending) + 1
  {
    forall j | 0 <= j < |a.spawned|
      ensures Candidate(cfg, a.spawned[j], x, y, stamp) <==> Open(cfg, a.spawned[j], x, y, stamp)
    {
      OpenIff(cfg, a.spawned[j], x, y, stamp);
    }
    hide Candidate, Open;
    if exists j :: 0 <= j < |a.spawned| && Candidate(cfg, a.spawned[j], x, y, stamp) {
      var i :| Takes(cfg, a, b, c, x, y, stamp, i);
      LatestIff(cfg, a.spawned, x, y, stamp, i);
      hide BestSpawn, LatestOpen;
      assert TakenBy(a, b, i, stamp);
    } else {
      BufferedMeans(cfg, a.pending, b.pending, x, y, stamp);
      hide Buffered;
    }
  }

  // Spawn i alone has changed, is detected at `stamp`, and one more result about it has gone out.
  ghost predicate TakenBy(a: Detections, b: Detections, i: nat, stamp: int) {
    && i < |a.spawned| == |b.spawned| && (forall j :: 0 <= j < |a.spawned| && j != i ==> b.spawned[j] == a.spawned[j])
    && b.spawned[i].detected && b.spawned[i].firstDetection == stamp
    && b.pending == a.pending && |b.matches| == |a.matches| + 1
    && |b.published| == |a.published| + 1 && b.published[|a.published|].spawn == b.spawned[i]
  }

  lemma {:induction false} WaitingUpdate(pds: seq<Pending>, i: nat, pd: Pending)
    requires i < |pds|
    ensures Waiting(pds[i := pd]) == Waiting(pds) - pds[i].scans + pd.scans
    ensures Waiting(pds[..i] + pds[i + 1..]) == Waiting(pds) - pds[i].scans
  {
    var n := |pds| - 1;
    if i == n {
      assert pds[i := pd][..n] == pds[..n] && pds[..i] + pds[i + 1..] == pds[..n];
    } else {
      WaitingUpdate(pds[..n], i, pd);
      assert pds[i := pd][..n] == pds[..n][i := pd];
      var less := pds[..i] + pds[i + 1..];
      assert less[..|less| - 1] == pds[..n][..i] + pds[..n][i + 1..] && less[|less| - 1] == pds[n];
    }
  }

  lemma BufferedMeans(cfg: Config, pds: seq<Pending>, pds': seq<Pending>, x: real, y: real, stamp: int)
    requires Buffered(cfg, pds, pds', x, y, stamp)
    ensures Waiting(pds') == Waiting(pds) + 1
  {
    if exists j :: 0 <= j < |pds| && Near(cfg, pds[j], x, y) {
      var j :| 0 <= j < |pds| && Near(cfg, pds[j], x, y) && pds' == pds[j := Merge(pds[j], x, y, stamp)];
      WaitingUpdate(pds, j, Merge(pds[j], x, y, stamp));
    } else {
      assert pds'[..|pds|] == pds;
    }
  }

  // Pending detection pd may be taken by the new spawn s.
  ghost predicate Fitting(cfg: Config, s: Spawn, pd: Pending) {
    && cfg.tolerance >= 0.0
    && (pd.x - s.x) * (pd.x - s.x) + (pd.y - s.y) * (pd.y - s.y) <= cfg.tolerance * cfg.tolerance
    && s.time <= pd.firstSeen && (pd.firstSeen - s.time) as real <= cfg.window * 1000000000.0
  }

  // The first seen of the fitting ones, the first in the buffer among those of one time.
  ghost predicate EarliestFitting(cfg: Config, s: Spawn, pds: seq<Pending>, i: nat) {
    && i < |pds| && Fitting(cfg, s, pds[i])
    && forall j :: 0 <= j < |pds| && Fitting(cfg, s, pds[j]) ==>
                     pds[i].firstSeen <= pds[j].firstSeen && (j < i ==> pds[i].firstSeen < pds[j].firstSeen)
  }

  lemma FittingIff(cfg: Config, s: Spawn, pd: Pending)
    ensures PendingFits(cfg, s, pd) <==> Fitting(cfg, s, pd)
  {
    InWindowIff(cfg, s.time, pd.firstSeen);
    hide InWindow;
  }

  // The last spawn is detected since `pd` was first seen, which has left the buffer, and has been announced.
  ghost predicate TookPending(a: Detections, b: Detections, i: nat) {
    && i < |a.pending| && b.pending == a.pending[..i] + a.pending[i + 1..]
    && |b.spawned| == |a.spawned| + 1 && b.spawned[..|a.spawned|] == a.spawned
    && b.spawned[|a.spawned|].detected && b.spawned[|a.spawned|].firstDetection == a.pending[i].firstSeen
    && |b.matches| == |a.matches| + 1
    && |b.published| == |a.published| + 1 && b.published[|a.published|].spawn == b.spawned[|a.spawned|]
  }

  /** A new spawn takes the earliest fitting pending detection out of the buffer and is announced, or, when none
      fits, is added undetected and nothing else changes. */
  lemma RegisteredMeans(cfg: Config, a: Detections, b: Detections, c: Counters, s: Spawn)
    requires Registered(cfg, a, b, c, s)
    ensures if exists j :: 0 <= j < |a.pending| && Fitting(cfg, s, a.pending[j])
            then exists i :: EarliestFitting(cfg, s, a.pending, i) && TookPending(a, b, i)
            else b.spawned == a.spawned + [s] && b.pending == a.pending && b.matches == a.matches && b.published == a.published
  {
    forall j | 0 <= j < |a.pending|
      ensures PendingFits(cfg, s, a.pending[j]) <==> Fitting(cfg, s, a.pending[j])
    {
      FittingIff(cfg, s, a.pending[j]);
    }
    hide PendingFits, Fitting;
    if exists j :: 0 <= j < |a.pending| && PendingFits(cfg, s, a.pending[j]) {
      var i :| RetroPaired(cfg, a, b, c, s, i);
      assert EarliestFitting(cfg, s, a.pending, i);
      hide BestPending, EarliestFitting;
      assert TookPending(a, b, i);
    }
  }

  predicate IsAt(s: Spawn, time: int, x: real, y: real, radius: real) {
    s.time == time && s.x == x && s.y == y && s.radius == radius
  }

  lemma RegisteredAt(cfg: Config, a: Detections, b: Detections, c: Counters, time: int, x: real, y: real, radius: real)
    requires Registered(cfg, a, b, c, NewSpawn(time, x, y, radius))
    ensures |b.spawned| == |a.spawned| + 1 && IsAt(b.spawned[|a.spawned|], time, x, y, radius)
  {
    hide BestPending, PendingFits, Snapshot;
  }

  // One unmatched segment: classified, tracked and counted, then tried for a match.
  ghost predicate SegmentStep(cfg: Config, a: Ledger, b: Ledger, o: Observation, stamp: int) {
    var near := NearSpawn(cfg, a.d.spawned, o.x, o.y);
    && Paired(cfg, a.d.(spawned := TrackAll(a.d.spawned, o.x, o.y)), b.d, b.counters, o.x, o.y, stamp)
    && b.seen == Sighted(a.seen, o, near)
    && b.counters == Counted(a.counters, a.seen, cfg.persistentMin, o, near)
  }

  // `ls` are the states between the segments.
  ghost predicate SegmentsRun(cfg: Config, ls: seq<Ledger>, os: seq<Observation>, stamp: int) {
    |ls| == |os| + 1 && forall k :: 0 <= k < |os| ==> SegmentStep(cfg, ls[k], ls[k + 1], os[k], stamp)
  }

  function CountMatched(a: Ledger, n: nat): Ledger {
    a.(counters := a.counters.(matched := a.counters.matched + n))
  }

  // A whole report from a to b.
  ghost predicate Reported(cfg: Config, a: Ledger, b: Ledger, os: seq<Observation>, stamp: int) {
    if os == [] then b == a else exists ls :: ReportedVia(cfg, a, b, os, stamp, ls)
  }

  ghost predicate ReportedVia(cfg: Config, a: Ledger, b: Ledger, os: seq<Observation>, stamp: int, ls: seq<Ledger>) {
    SegmentsRun(cfg, ls, os, stamp) && ls[0] == a && b == PruneBoth(cfg, ls[|os|], stamp)
  }

  lemma ReportNone(cfg: Config, a: Ledger, stamp: int)
    ensures Reported(cfg, a, a, [], stamp)
  {
  }

  lemma ReportDone(cfg: Config, ls: seq<Ledger>, b: Ledger, os: seq<Observation>, stamp: int)
    requires os != [] && SegmentsRun(cfg, ls, os, stamp) && b == PruneBoth(cfg, ls[|os|], stamp)
    ensures Reported(cfg, ls[0], b, os, stamp)
  {
    assert ReportedVia(cfg, ls[0], b, os, stamp, ls);
  }

  ghost function PruneBoth(cfg: Config, l: Ledger, now: int): Ledger {
    l.(d := l.d.(pending := Fresh(cfg, l.d.pending, now)),
       seen := if |l.seen| <= ID_SEEN_SOFT_CAP then l.seen else Pruned(l.seen, cfg.persistentMin))
  }

  predicate Near(cfg: Config, pd: Pending, x: real, y: real) {
    Within(Dist2(x, y, pd.x, pd.y), cfg.tolerance)
  }

  // An unpaired detection: merged into the first near pending one, or appended.
  ghost predicate Buffered(cfg: Config, pds: seq<Pending>, pds': seq<Pending>, x: real, y: real, stamp: int) {
    if exists j :: 0 <= j < |pds| && Near(cfg, pds[j], x, y)
    then exists j :: 0 <= j < |pds| && Near(cfg, pds[j], x, y) && (forall l :: 0 <= l < j ==> !Near(cfg, pds[l], x, y))
                     && pds' == pds[j := Merge(pds[j], x, y, stamp)]
    else pds' == pds + [Pending(x, y, stamp, stamp, 1)]
  }

  function Fresh(cfg: Config, pds: seq<Pending>, now: int): seq<Pending> {
    if pds == [] then []
    else Fresh(cfg, pds[..|pds| - 1], now) + if Seconds(now - pds[|pds| - 1].lastSeen) > cfg.maxAge then [] else [pds[|pds| - 1]]
  }

  /** Exactly the pending detections last seen at most `maxAge` seconds ago stay, in order. */
  lemma {:induction false} FreshInOrder(cfg: Config, pds: seq<Pending>, now: int) returns (at: seq<nat>)
    ensures |at| == |Fresh(cfg, pds, now)|
    ensures forall k :: 0 <= k < |at| ==> at[k] < |pds| && Fresh(cfg, pds, now)[k] == pds[at[k]]
    ensures forall k, l :: 0 <= k < l < |at| ==> at[k] < at[l]
    ensures forall i: nat :: i in at <==> i < |pds| && (now - pds[i].lastSeen) as real <= cfg.maxAge * 1000000000.0
  {
    if pds == [] {
      at := [];
    } else {
      var n := |pds| - 1;
      at := FreshInOrder(cfg, pds[..n], now);
      TooOldIff(cfg, pds[n], now);
      if !(Seconds(now - pds[n].lastSeen) > cfg.maxAge) {
        at := at + [n];
      }
      hide Seconds;
    }
  }

  lemma TooOldIff(cfg: Config, pd: Pending, now: int)
    ensures Seconds(now - pd.lastSeen) > cfg.maxAge <==> !((now - pd.lastSeen) as real <= cfg.maxAge * 1000000000.0)
  {
  }

  // The new spawn s takes pending detection b, which leaves the buffer.
  ghost predicate Retroactive(cfg: Config, a: Detections, b: Detections, c: Counters, s: Spawn, i: nat) {
    && i < |a.pending|
    && var pd := a.pending[i];
       var dist2 := Dist2(pd.x, pd.y, s.x, s.y);
       && b.spawned == a.spawned + [Detect(s, dist2, pd.firstSeen)]
       && b.pending == a.pending[..i] + a.pending[i + 1..]
       && b.matches == a.matches + [Match(|a.spawned|, dist2, pd.firstSeen)]
       && b.published == a.published + [Snapshot(b.spawned, b.stats, cfg.radius, c, b.spawned[|a.spawned|])]
  }

  // A new spawn: it takes the best pending detection that fits, or waits.
  ghost predicate Registered(cfg: Config, a: Detections, b: Detections, c: Counters, s: Spawn) {
    if exists j :: 0 <= j < |a.pending| && PendingFits(cfg, s, a.pending[j])
    then exists i :: RetroPaired(cfg, a, b, c, s, i)
    else b == a.(spawned := a.spawned + [s], stats := b.stats)
  }

  ghost predicate RetroPaired(cfg: Config, a: Detections, b: Detections, c: Counters, s: Spawn, i: nat) {
    BestPending(cfg, s, a.pending, i) && Retroactive(cfg, a, b, c, s, i)
  }

  lemma RetroFound(cfg: Config, a: Detections, b: Detections, c: Counters, s: Spawn, i: nat)
    requires BestPending(cfg, s, a.pending, i) && Retroactive(cfg, a, b, c, s, i)
    ensures Registered(cfg, a, b, c, s)
  {
    assert RetroPaired(cfg, a, b, c, s, i);
  }

  lemma DetectSettles(ss: seq<Spawn>, i: nat, dist2: real, t: int)
    requires i < |ss| && AllSettled(ss)
    ensures AllSettled(ss[i := Detect(ss[i], dist2, t)])
  {
  }

  lemma AllFresh(cfg: Config, pds: seq<Pending>, now: int)
    ensures forall pd <- Fresh(cfg, pds, now) :: (now - pd.lastSeen) as real <= cfg.maxAge * 1000000000.0
  {
    var at := FreshInOrder(cfg, pds, now);
    hide Fresh;
    forall k | 0 <= k < |Fresh(cfg, pds, now)|
      ensures (now - Fresh(cfg, pds, now)[k].lastSeen) as real <= cfg.maxAge * 1000000000.0
    {
      assert at[k] in at;
    }
  }

  lemma AllPersistent(seen: SeenMap, k: nat)
    ensures forall id <- Pruned(seen, k) :: Pruned(seen, k)[id] >= k
  {
  }

  lemma ReplaceLast(ss: seq<Spawn>, s: Spawn)
    requires ss != []
    ensures ss[|ss| - 1 := s] == ss[..|ss| - 1] + [s]
  {
  }

  lemma BornBefore(cfg: Config, ss: seq<Spawn>, tr: Trace)
    requires Traced(cfg, ss, tr)
    ensures |tr.born| == |ss| && forall i :: 0 <= i < |ss| ==> tr.born[i].0 <= |tr.unmatched|
  {
    assert forall i :: 0 <= i < |ss| ==> Remembers(cfg, ss[i], tr, tr.born[i]);
  }

  lemma AllSpawnsOk(ss: seq<Spawn>, st: Stats)
    requires StatsOk(ss, st)
    ensures forall i :: 0 <= i < |ss| ==> SpawnOk(ss[i])
  {
  }

  lemma SettledSnoc(ss: seq<Spawn>, s: Spawn)
    requires AllSettled(ss) && !s.detected
    ensures AllSettled(ss + [s])
  {
  }

  lemma SingleMean(x: real, y: real, stamp: int)
    ensures IsMean(Pending(x, y, stamp, stamp, 1), [Seen(x, y, stamp)])
  {
  }

  // ---------------------------------------------------------------- the node

  class ValidationNode {
    const cfg: Config

    var spawned: seq<Spawn>
    var pending: seq<Pending>
    var stats: Stats
    var seen: SeenMap
    var counters: Counters
    var published: seq<Published>

    ghost var matches: seq<Match>
    ghost var merged: seq<seq<Seen>>
    ghost var unmatchedReported: nat
    ghost var allSeen: SeenMap  // every sighting ever, pruned or not
    ghost var trace: Trace

    ghost function Pairs(): Detections
      reads this
    {
      Detections(spawned, pending, matches, stats, published)
    }

    ghost function View(): Ledger
      reads this
    {
      Ledger(Pairs(), seen, counters)
    }

    ghost predicate Core()
      reads this
    {
      && StatsOk(spawned, stats)
      && MatchesOk(cfg, spawned, matches)
      && (forall k :: 0 <= k < |published| ==> PublishedOk(published[k]))
    }

    ghost predicate Segments()
      reads this
    {
      && counters.intruder + counters.unclaimed == unmatchedReported
      && counters.staticMiss == StaticMisses(seen, cfg.persistentMin)
      && Undercounts(seen, allSeen)
    }

    ghost predicate Sound()
      reads this
    {
      && Core() && AllSettled(spawned) && Announced(spawned, published) && PendingOk(pending, merged) && Segments()
      && cfg.persistentMin >= 1
    }

    // Also while a segment is classified and not yet counted.
    ghost predicate Tracked()
      reads this
    {
      Sound() && Traced(cfg, spawned, trace)
    }

    ghost predicate Valid()
      reads this
    {
      Tracked() && Tallied(cfg, spawned, trace, counters.intruder, counters.unclaimed, allSeen)
    }

    // persistent_min_reports below 1 is clamped.
    constructor (requested: Config, persistentMinReports: int)
      ensures Valid() && spawned == [] && pending == [] && published == [] && seen == allSeen == map[]
      ensures cfg == requested.(persistentMin := if persistentMinReports < 1 then 1 else persistentMinReports)
    {
      cfg := requested.(persistentMin := if persistentMinReports < 1 then 1 else persistentMinReports);
      spawned, pending, seen, allSeen, published := [], [], map[], map[], [];
      stats := Stats(0, 0, 0, 0, 0.0, None, None);
      counters := Counters(0, 0, 0, 0);
      matches, merged, unmatchedReported, trace := [], [], 0, Trace([], [], []);
      new;
      assert Persistent(seen, cfg.persistentMin) == {};
      NothingYet(cfg);
    }

    // ---------------------------------------------------------------- helpers, mutex held

    method FinalizeLatencyIfReady(i: nat) returns (done: bool)
      requires i < |spawned| && StatsOk(spawned, stats)
      requires MatchesOk(cfg, spawned, matches)
      modifies this`spawned, this`stats
      ensures spawned == old(spawned)[i := Finalize(old(spawned)[i])]
      ensures StatsOk(spawned, stats) && MatchesOk(cfg, spawned, matches)
      ensures done <==> !old(spawned)[i].finalized && spawned[i].finalized
      ensures stats.samples == old(stats).samples + if done then 1 else 0
    {
      var s := spawned[i];
      RecountOk(spawned, stats, i, Finalize(s));
      MatchesKept(cfg, spawned, matches, i, Finalize(s));
      hide StatsOk, MatchesOk;
      if s.finalized || !s.detected || !s.entered {
        assert spawned[i := s] == spawned;
        return false;
      }
      var latency := Seconds(s.firstDetection - s.circleEntry) * 1000.0;
      spawned := spawned[i := s.(latencyMs := latency, finalized := true)];
      stats := stats.(
        sumMs := stats.sumMs + latency,
        minMs := if stats.minMs.Some? && stats.minMs.value <= latency then stats.minMs else Some(latency),
        maxMs := if stats.maxMs.Some? && stats.maxMs.value >= latency then stats.maxMs else Some(latency),
        samples := stats.samples + 1);
      return true;
    }

    method PublishResult(i: nat)
      requires Core() && i < |spawned|
      modifies this`published
      ensures Core()
      ensures published == old(published) + [Snapshot(spawned, stats, cfg.radius, counters, spawned[i])]
    {
      hide StatsOk, MatchesOk, PublishedOk, Average, CountMissed;
      var near, never := CountMisses();
      PublishedIsOk(spawned, stats, cfg.radius, counters, spawned[i]);
      published := published + [Published(stats, Average(stats), near, never, counters, spawned[i])];
    }

    method CountMisses() returns (near: nat, never: nat)
      ensures near == CountMissed(spawned, cfg.radius, true)
      ensures never == CountMissed(spawned, cfg.radius, false)
    {
      near, never := 0, 0;
      for k := 0 to |spawned|
        invariant near == CountMissed(spawned[..k], cfg.radius, true)
        invariant never == CountMissed(spawned[..k], cfg.radius, false)
      {
        assert spawned[..k + 1][..k] == spawned[..k];
        var s := spawned[k];
        if s.eligible && !s.detected {
          if s.nearest2.Some? && Within(s.nearest2.value, cfg.radius) {
            near := near + 1;
          } else {
            never := never + 1;
          }
        }
      }
      assert spawned[..|spawned|] == spawned;
    }

    method ReportMatch(i: nat, dist2: real, stamp: int)
      requires Core() && i < |spawned| && !spawned[i].detected
      requires Within(dist2, cfg.tolerance) && InWindow(cfg, spawned[i].time, stamp)
      modifies this`spawned, this`stats, this`published, this`matches
      ensures Core()
      ensures spawned == old(spawned)[i := Detect(old(spawned)[i], dist2, stamp)]
      ensures matches == old(matches) + [Match(i, dist2, stamp)]
      ensures published == old(published) + [Snapshot(spawned, stats, cfg.radius, counters, spawned[i])]
    {
      var s := spawned[i];
      var marked := s.(eligible := true, detected := true, firstDetection := stamp, matchDist2 := dist2);
      RecountOk(spawned, stats, i, marked);
      MatchAdded(cfg, spawned, matches, i, marked, Match(i, dist2, stamp));
      hide StatsOk, MatchesOk, MatchOk, PublishedOk;
      if !s.eligible {
        stats := stats.(eligible := stats.eligible + 1);
      }
      spawned := spawned[i := marked];
      stats := stats.(detected := stats.detected + 1);
      matches := matches + [Match(i, dist2, stamp)];
      var done := FinalizeLatencyIfReady(i);
      PublishResult(i);
    }

    method RecordCircleEntry(i: nat, stamp: int)
      requires Core() && i < |spawned|
      modifies this`spawned, this`stats, this`published
      ensures Core()
      ensures spawned == old(spawned)[i := Enter(old(spawned)[i], stamp)]
      ensures published == if spawned[i].finalized && !old(spawned)[i].finalized
                           then old(published) + [Snapshot(spawned, stats, cfg.radius, counters, spawned[i])]
                           else old(published)
      ensures |published| - |old(published)| == stats.samples - old(stats).samples
    {
      var s := spawned[i];
      var marked := if s.entered then s.(eligible := true) else s.(eligible := true, entered := true, circleEntry := stamp);
      RecountOk(spawned, stats, i, marked);
      MatchesKept(cfg, spawned, matches, i, marked);
      hide StatsOk, MatchesOk, PublishedOk;
      if !s.eligible {
        stats := stats.(eligible := stats.eligible + 1);
      }
      spawned := spawned[i := marked];
      if s.entered {
        return;
      }
      var done := FinalizeLatencyIfReady(i);
      if done {
        PublishResult(i);
      }
    }

    // ---------------------------------------------------------------- detections

    // The spawn this detection pairs with, if any.
    method FindSpawn(x: real, y: real, stamp: int) returns (best: Option<nat>)
      ensures best.Some? ==> BestSpawn(cfg, spawned, x, y, stamp, best.value)
      ensures best.None? ==> forall j :: 0 <= j < |spawned| ==> !Candidate(cfg, spawned[j], x, y, stamp)
    {
      best := None;
      for k := 0 to |spawned|
        invariant best.Some? ==> best.value < k && BestSpawn(cfg, spawned[..k], x, y, stamp, best.value)
        invariant best.None? ==> forall j :: 0 <= j < k ==> !Candidate(cfg, spawned[j], x, y, stamp)
      {
        var s := spawned[k];
        if s.detected || !Within(Dist2(x, y, s.x, s.y), cfg.tolerance) || !InWindow(cfg, s.time, stamp) {
          continue;
        }
        if best.None? || stamp - s.time < stamp - spawned[best.value].time {
          best := Some(k);
        }
      }
      assert spawned[..|spawned|] == spawned;
    }

    // The first pending detection within the tolerance.
    method FindPending(x: real, y: real) returns (at: Option<nat>)
      ensures at.Some? ==> at.value < |pending| && Near(cfg, pending[at.value], x, y)
                           && forall j :: 0 <= j < at.value ==> !Near(cfg, pending[j], x, y)
      ensures at.None? ==> forall j :: 0 <= j < |pending| ==> !Near(cfg, pending[j], x, y)
    {
      for k := 0 to |pending|
        invariant forall j :: 0 <= j < k ==> !Near(cfg, pending[j], x, y)
      {
        if Within(Dist2(x, y, pending[k].x, pending[k].y), cfg.tolerance) {
          return Some(k);
        }
      }
      return None;
    }

    /** Pairs the detection with the best undetected spawn; failing that, buffers it. */
    method TryMatchDetection(x: real, y: real, stamp: int) returns (matched: bool)
      requires Valid()
      modifies this`spawned, this`stats, this`published, this`matches, this`pending, this`merged
      ensures Valid()
      ensures Paired(cfg, old(Pairs()), Pairs(), counters, x, y, stamp)
      ensures matched <==> spawned != old(spawned)
    {
      var best := FindSpawn(x, y, stamp);
      hide Valid, BestSpawn;
      if best.Some? {
        TakeSpawn(best.value, x, y, stamp);
        PairedBy(cfg, old(Pairs()), Pairs(), counters, x, y, stamp, best.value);
        hide *;
        return true;
      }
      BufferUnpaired(x, y, stamp);
      return false;
    }

    method BufferUnpaired(x: real, y: real, stamp: int)
      requires Valid()
      modifies this`pending, this`merged
      ensures Valid() && Buffered(cfg, old(pending), pending, x, y, stamp)
    {
      hide StatsOk, MatchesOk, PublishedOk, PendingOk, AllSettled, Traced, Tallied, Announced, StaticMisses, Undercounts, Buffered;
      BufferDetection(x, y, stamp);
    }

    // A pairing, with everything the node remembers of its spawns.
    method MatchSpawn(i: nat, dist2: real, stamp: int)
      requires Valid() && i < |spawned| && !spawned[i].detected
      requires Within(dist2, cfg.tolerance) && InWindow(cfg, spawned[i].time, stamp)
      modifies this`spawned, this`stats, this`published, this`matches
      ensures Valid()
      ensures spawned == old(spawned)[i := Detect(old(spawned)[i], dist2, stamp)]
      ensures matches == old(matches) + [Match(i, dist2, stamp)]
      ensures published == old(published) + [Snapshot(spawned, stats, cfg.radius, counters, spawned[i])]
    {
      TracedKept(cfg, spawned, trace, i, dist2, stamp);
      DetectedPlaces(spawned, i, dist2, stamp);
      hide Sound, Traced, Tallied, SamePlaces, Detect, Snapshot, Within, InWindow;
      ghost var ss := spawned;
      MatchAnnounced(i, dist2, stamp);
      TalliedSame(cfg, ss, spawned, trace, trace, counters.intruder, counters.unclaimed, allSeen);
    }

    method MatchAnnounced(i: nat, dist2: real, stamp: int)
      requires Sound() && i < |spawned| && !spawned[i].detected
      requires Within(dist2, cfg.tolerance) && InWindow(cfg, spawned[i].time, stamp)
      modifies this`spawned, this`stats, this`published, this`matches
      ensures Sound()
      ensures spawned == old(spawned)[i := Detect(old(spawned)[i], dist2, stamp)]
      ensures matches == old(matches) + [Match(i, dist2, stamp)]
      ensures published == old(published) + [Snapshot(spawned, stats, cfg.radius, counters, spawned[i])]
    {
      AllSpawnsOk(spawned, stats);
      DetectSettles(spawned, i, dist2, stamp);
      hide StatsOk, MatchesOk, PublishedOk, PendingOk, Announced, AllSettled, SpawnOk, StaticMisses, Undercounts, Detect, Within, InWindow;
      ghost var ss, ps := spawned, published;
      ReportMatch(i, dist2, stamp);
      DetectAnnounces(ss, ps, i, dist2, stamp, published[|ps|]);
    }

    // Spawn i takes the detection.
    method TakeSpawn(i: nat, x: real, y: real, stamp: int)
      requires Valid() && BestSpawn(cfg, spawned, x, y, stamp, i)
      modifies this`spawned, this`stats, this`published, this`matches
      ensures Valid() && Takes(cfg, old(Pairs()), Pairs(), counters, x, y, stamp, i)
    {
      hide StatsOk, MatchesOk, PublishedOk, PendingOk, Traced, Tallied, Announced, AllSettled, StaticMisses, Undercounts, Detect, Snapshot;
      MatchSpawn(i, Dist2(x, y, spawned[i].x, spawned[i].y), stamp);
    }

    // Merged into the first near pending detection, or appended.
    method BufferDetection(x: real, y: real, stamp: int)
      requires PendingOk(pending, merged)
      modifies this`pending, this`merged
      ensures PendingOk(pending, merged) && Buffered(cfg, old(pending), pending, x, y, stamp)
    {
      var at := FindPending(x, y);
      if at.Some? {
        MergeKeepsMean(pending[at.value], merged[at.value], x, y, stamp);
        pending := pending[at.value := Merge(pending[at.value], x, y, stamp)];
        merged := merged[at.value := merged[at.value] + [Seen(x, y, stamp)]];
        return;
      }
      SingleMean(x, y, stamp);
      pending := pending + [Pending(x, y, stamp, stamp, 1)];
      merged := merged + [[Seen(x, y, stamp)]];
    }

    method PrunePendingDetections(now: int)
      requires PendingOk(pending, merged)
      modifies this`pending, this`merged
      ensures PendingOk(pending, merged) && pending == Fresh(cfg, old(pending), now)
    {
      var kept: seq<Pending> := [];
      ghost var keptMerged: seq<seq<Seen>> := [];
      for k := 0 to |pending|
        invariant pending == old(pending) && merged == old(merged)
        invariant kept == Fresh(cfg, pending[..k], now) && PendingOk(kept, keptMerged)
      {
        assert pending[..k + 1][..k] == pending[..k];
        if !(Seconds(now - pending[k].lastSeen) > cfg.maxAge) {
          kept := kept + [pending[k]];
          keptMerged := keptMerged + [merged[k]];
        }
      }
      assert pending[..|pending|] == pending;
      pending, merged := kept, keptMerged;
    }

    // ---------------------------------------------------------------- spawns

    // The pending detection that fits the newest spawn best.
    method FindDetection(s: Spawn) returns (best: Option<nat>)
      ensures best.Some? ==> BestPending(cfg, s, pending, best.value)
      ensures best.None? ==> forall j :: 0 <= j < |pending| ==> !PendingFits(cfg, s, pending[j])
    {
      best := None;
      for k := 0 to |pending|
        invariant best.Some? ==> best.value < k && BestPending(cfg, s, pending[..k], best.value)
        invariant best.None? ==> forall j :: 0 <= j < k ==> !PendingFits(cfg, s, pending[j])
      {
        var pd := pending[k];
        if !Within(Dist2(pd.x, pd.y, s.x, s.y), cfg.tolerance) || !InWindow(cfg, s.time, pd.firstSeen) {
          continue;
        }
        if best.None? || pd.firstSeen - s.time < pending[best.value].firstSeen - s.time {
          best := Some(k);
        }
      }
      assert pending[..|pending|] == pending;
    }

    /** Registers the spawn, and pairs it at once with a detection that came before its message. */
    method RegisterSpawnedObstacle(s: Spawn)
      requires Valid() && s == NewSpawn(s.time, s.x, s.y, s.radius)
      modifies this`spawned, this`stats, this`published, this`matches, this`pending, this`merged, this`trace
      ensures Valid()
      ensures Registered(cfg, old(Pairs()), Pairs(), counters, s)
    {
      AppendSpawn(s);
      hide StatsOk, MatchesOk, PublishedOk, Settled, BestPending, PendingFits, SpawnOk, StaticMisses, Undercounts, Traced, Tallied, Announced;
      var best := FindDetection(s);
      if best.Some? {
        PairPending(best.value);
        RetroFound(cfg, old(Pairs()), Pairs(), counters, s, best.value);
      }
    }

    method AppendSpawn(s: Spawn)
      requires Valid() && !s.eligible && !s.detected && !s.entered && !s.finalized && s.nearest2 == None
      modifies this`spawned, this`stats, this`trace
      ensures Valid() && spawned == old(spawned) + [s] && trace == Born(old(trace))
    {
      hide StatsOk, MatchesOk, PublishedOk, PendingOk, AllSettled, Traced, Tallied, Announced, Born, StaticMisses, Undercounts;
      NewAnnounces(spawned, published, s);
      TalliedSnoc(cfg, spawned, trace, s, counters.intruder, counters.unclaimed, allSeen);
      RegisterOk(spawned, stats, s);
      MatchesSnoc(cfg, spawned, matches, s);
      TracedSnoc(cfg, spawned, trace, s);
      SettledSnoc(spawned, s);
      trace := Born(trace);
      spawned := spawned + [s];
      stats := stats.(totalSpawned := stats.totalSpawned + 1);
    }

    // Pairs the newest spawn with pending detection b and takes that out of the buffer.
    method PairPending(b: nat)
      requires Valid() && spawned != [] && !spawned[|spawned| - 1].detected && b < |pending|
      requires PendingFits(cfg, spawned[|spawned| - 1], pending[b])
      modifies this`spawned, this`stats, this`published, this`matches, this`pending, this`merged
      ensures Valid()
      ensures var n := |old(spawned)| - 1;
              Retroactive(cfg, old(Pairs()).(spawned := old(spawned)[..n]), Pairs(), counters, old(spawned)[n], b)
    {
      var n := |spawned| - 1;
      var s, pd := spawned[n], pending[b];
      ReplaceLast(spawned, Detect(s, Dist2(pd.x, pd.y, s.x, s.y), pd.firstSeen));
      hide Valid, Detect, Snapshot, Within, InWindow, Dist2;
      MatchSpawn(n, Dist2(pd.x, pd.y, s.x, s.y), pd.firstSeen);
      DropPending(b);
    }

    method DropPending(b: nat)
      requires Valid() && b < |pending|
      modifies this`pending, this`merged
      ensures Valid() && pending == old(pending)[..b] + old(pending)[b + 1..]
    {
      hide StatsOk, MatchesOk, PublishedOk, PendingOk, Traced, Tallied, Announced, AllSettled, StaticMisses, Undercounts;
      PendingWithout(pending, merged, b);
      pending := pending[..b] + pending[b + 1..];
      merged := merged[..b] + merged[b + 1..];
    }

    // validateCallback: a validate event for a known position adds nothing.
    method ValidateCallback(time: int, x: real, y: real, radius: real)
      requires Valid()
      modifies this`spawned, this`stats, this`published, this`matches, this`pending, this`merged, this`trace
      ensures Valid()
      ensures if exists j :: 0 <= j < |old(spawned)| && Dist2(x, y, old(spawned)[j].x, old(spawned)[j].y) < 0.01
              then Pairs() == old(Pairs()) else Registered(cfg, old(Pairs()), Pairs(), counters, NewSpawn(time, x, y, radius))
      ensures |spawned| != |old(spawned)| ==> |spawned| == |old(spawned)| + 1 && IsAt(spawned[|old(spawned)|], time, x, y, radius)
    {
      for k := 0 to |spawned|
        invariant forall j :: 0 <= j < k ==> !(Dist2(x, y, spawned[j].x, spawned[j].y) < 0.01)
      {
        if Dist2(x, y, spawned[k].x, spawned[k].y) < 0.01 {
          return;
        }
      }
      hide Valid, Registered;
      RegisterSpawnedObstacle(NewSpawn(time, x, y, radius));
      RegisteredAt(cfg, old(Pairs()), Pairs(), counters, time, x, y, radius);
    }

    // ---------------------------------------------------------------- the robot's pose

    method SampleRobotPose(rx: real, ry: real, stamp: int)
      requires Valid()
      modifies this`spawned, this`stats, this`published, this`trace
      ensures Valid() && |spawned| == |old(spawned)|
      ensures trace == old(trace).(poses := old(trace).poses + [Pose(rx, ry, stamp)])
      ensures forall k :: 0 <= k < |spawned| ==> spawned[k] == Sampled(cfg, old(spawned)[k], rx, ry, stamp)
      ensures |published| - |old(published)| == stats.samples - old(stats).samples  // one result per latency finalised
    {
      hide StatsOk, MatchesOk, PublishedOk, PendingOk, Traced, Remembers, Tallied, Announced, SpawnOk;
      for k := 0 to |spawned|
        invariant Sound() && |spawned| == |old(spawned)|
        invariant trace == old(trace) && |published| - |old(published)| == stats.samples - old(stats).samples
        invariant forall j :: 0 <= j < |spawned| ==>
                                spawned[j] == if j < k then Sampled(cfg, old(spawned)[j], rx, ry, stamp) else old(spawned)[j]
      {
        var s := spawned[k];
        if s.entered {
          continue;
        }
        if Dist2(rx, ry, s.x, s.y) <= cfg.radius * cfg.radius {
          ghost var ss, ps := spawned, published;
          AllSpawnsOk(spawned, stats);
          RecordCircleEntry(k, stamp);
          EnterAnnounces(ss, ps, k, stamp, published);
        }
      }
      SampledTraced(cfg, old(spawned), trace, spawned, Pose(rx, ry, stamp));
      SampledPlaces(cfg, old(spawned), spawned, rx, ry, stamp);
      TalliedSame(cfg, old(spawned), spawned, trace, trace.(poses := trace.poses + [Pose(rx, ry, stamp)]),
                  counters.intruder, counters.unclaimed, allSeen);
      trace := trace.(poses := trace.poses + [Pose(rx, ry, stamp)]);
    }

    // ---------------------------------------------------------------- reports

    // Classifies an unmatched segment and tracks the closest one to each spawn.
    method ClassifyAndTrackUnmatched(o: Observation) returns (nearSpawn: bool)
      requires Tracked()
      modifies this`spawned, this`trace
      ensures Tracked() && spawned == TrackAll(old(spawned), o.x, o.y) && trace == Came(old(trace), o)
      ensures nearSpawn <==> NearSpawn(cfg, old(spawned), o.x, o.y)
    {
      hide PublishedOk, PendingOk, StatsOk, MatchesOk, Traced, Remembers, Announced;
      nearSpawn := false;
      for k := 0 to |spawned|
        invariant Sound() && |spawned| == |old(spawned)| && trace == old(trace)
        invariant forall j :: 0 <= j < |spawned| ==>
                                spawned[j] == if j < k then Track(old(spawned)[j], o.x, o.y) else old(spawned)[j]
        invariant nearSpawn <==> NearSpawn(cfg, old(spawned)[..k], o.x, o.y)
      {
        var s := spawned[k];
        TrackKeeps(cfg, spawned, stats, matches, k, o.x, o.y);
        TrackAnnounces(spawned, published, k, o.x, o.y);
        NearMore(cfg, old(spawned), k, o.x, o.y);
        spawned := spawned[k := Track(s, o.x, o.y)];
        if Dist2(o.x, o.y, s.x, s.y) <= cfg.tolerance * cfg.tolerance {
          nearSpawn := true;
        }
      }
      assert old(spawned)[..|spawned|] == old(spawned);
      TrackedTraced(cfg, old(spawned), trace, o);
      assert spawned == TrackAll(old(spawned), o.x, o.y);
      trace := Came(trace, o);
    }

    /** The counters and announcements of every state, by the history of segments. */
    lemma CountsMean()
      requires Valid()
      ensures counters.intruder == |Intruders(cfg, spawned, trace)| && counters.intruder + counters.unclaimed == |trace.unmatched|
      ensures forall id: TrackerId :: id != NO_ID ==> Sightings(allSeen, id) == |SightingsOf(cfg, spawned, trace, id)|
      ensures forall i :: 0 <= i < |spawned| && spawned[i].detected ==>
                exists k :: 0 <= k < |published| && ShowsDetection(published[k], spawned[i])
      ensures forall i :: 0 <= i < |spawned| && spawned[i].finalized ==>
                exists k :: 0 <= k < |published| && ShowsLatency(published[k], spawned[i])
    {
      assert forall i :: 0 <= i < |spawned| ==> IsAnnounced(spawned[i], published);
      hide StatsOk, MatchesOk, PublishedOk, PendingOk, AllSettled, Traced, StaticMisses, Undercounts, Intruders, SightingsOf,
           ShowsDetection, ShowsLatency;
    }

    // One unmatched segment: the intruder, unclaimed and static-miss counters.
    method CountSegment(o: Observation, nearSpawn: bool)
      requires Segments() && cfg.persistentMin >= 1
      modifies this`counters, this`seen, this`allSeen, this`unmatchedReported
      ensures Segments() && unmatchedReported == old(unmatchedReported) + 1
      ensures seen == Sighted(old(seen), o, nearSpawn) && allSeen == Sighted(old(allSeen), o, nearSpawn)
      ensures counters == Counted(old(counters), old(seen), cfg.persistentMin, o, nearSpawn)
    {
      SegmentCounted(seen, allSeen, counters, cfg.persistentMin, o);
      hide StaticMisses, Undercounts;
      unmatchedReported := unmatchedReported + 1;
      if nearSpawn {
        counters := counters.(intruder := counters.intruder + 1);
        return;
      }
      counters := counters.(unclaimed := counters.unclaimed + 1);
      if o.id != NO_ID {
        CreditSighting(o.id);
      }
    }

    // One more sighting of a tracked segment, with the sightings below the threshold credited at once.
    method CreditSighting(id: TrackerId)
      modifies this`counters, this`seen, this`allSeen
      ensures seen == old(seen)[id := Sightings(old(seen), id) + 1]
      ensures allSeen == old(allSeen)[id := Sightings(old(allSeen), id) + 1]
      ensures counters == old(counters).(staticMiss := old(counters).staticMiss + Credit(Sightings(old(seen), id) + 1, cfg.persistentMin))
    {
      var n := (if id in seen then seen[id] else 0) + 1;
      seen, allSeen := seen[id := n], allSeen[id := Sightings(allSeen, id) + 1];
      if n == cfg.persistentMin {
        counters := counters.(staticMiss := counters.staticMiss + cfg.persistentMin);
      } else if n > cfg.persistentMin {
        counters := counters.(staticMiss := counters.staticMiss + 1);
      }
    }

    method PruneIdSeen()
      requires Segments()
      modifies this`seen
      ensures Segments()
      ensures seen == if |old(seen)| <= ID_SEEN_SOFT_CAP then old(seen) else Pruned(old(seen), cfg.persistentMin)
    {
      if |seen| <= ID_SEEN_SOFT_CAP {
        return;
      }
      PruningKeepsTotal(seen, cfg.persistentMin);
      hide StaticMisses, Undercounts;
      var todo := seen.Keys;
      var kept := seen;
      while todo != {}
        invariant todo <= seen.Keys && seen == old(seen)
        invariant kept == map id | id in seen && (id in todo || seen[id] >= cfg.persistentMin) :: seen[id]
        decreases todo
      {
        var id :| id in todo;
        if seen[id] < cfg.persistentMin {
          kept := kept - {id};
        }
        todo := todo - {id};
      }
      assert kept == Pruned(seen, cfg.persistentMin);
      seen := kept;
    }

    // The published total, against every sighting ever reported.
    lemma StaticMissRightIff()
      requires Valid()
      ensures counters.staticMiss <= StaticMisses(allSeen, cfg.persistentMin)
      ensures counters.staticMiss == StaticMisses(allSeen, cfg.persistentMin) <==>
              forall id :: id in allSeen && allSeen[id] >= cfg.persistentMin ==> id in seen && seen[id] == allSeen[id]
    {
      TotalRightIff(seen, allSeen, cfg.persistentMin);
    }

    // The spawns that a published result counts as missed although something was seen nearby.
    ghost function MissedNearby(): set<nat>
      requires |trace.born| == |spawned|
      reads this
    {
      set i: nat | i < |spawned| && spawned[i].eligible && !spawned[i].detected && CameNear(cfg, spawned[i], trace, trace.born[i].0)
    }

    /** Near misses, by the history: eligible, never paired, and some unmatched segment since the registration
        within the radius. Eligible are those paired or entered. */
    lemma MissesMean()
      requires Valid()
      ensures CountMissed(spawned, cfg.radius, true) == |MissedNearby()|
      ensures forall i :: 0 <= i < |spawned| ==> (spawned[i].eligible <==> spawned[i].detected || spawned[i].entered)
      ensures forall i :: 0 <= i < |spawned| ==>
                (spawned[i].entered <==> exists k :: trace.born[i].1 <= k < |trace.poses| && InCircle(trace.poses[k], spawned[i], cfg.radius))
    {
      CountMissedIsSize(spawned, cfg.radius, true);
      assert forall i :: 0 <= i < |spawned| ==> SpawnOk(spawned[i]);
      hide StatsOk, MatchesOk, PublishedOk, PendingOk, Settled, StaticMisses, Undercounts, CountMissed, CameNear, Within, InCircle;
      forall i: nat | i < |spawned|
        ensures spawned[i].nearest2.Some? && Within(spawned[i].nearest2.value, cfg.radius)
                <==> CameNear(cfg, spawned[i], trace, trace.born[i].0)
        ensures spawned[i].entered <==>
                exists k :: trace.born[i].1 <= k < |trace.poses| && InCircle(trace.poses[k], spawned[i], cfg.radius)
      {
        RemembersIff(cfg, spawned[i], trace, trace.born[i]);
      }
      hide Remembers;
      assert Missed(spawned, cfg.radius, true) == MissedNearby();
    }

    // The loop body of reportCallback.
    method ProcessSegment(o: Observation, stamp: int)
      requires Valid()
      modifies this
      ensures Valid() && unmatchedReported == old(unmatchedReported) + 1
      ensures trace.unmatched == old(trace).unmatched + [o] && counters.matched == old(counters).matched
      ensures SegmentStep(cfg, old(View()), View(), o, stamp)
    {
      hide Valid, Paired, NearSpawn, TrackAll;
      ClassifyAndCount(o);
      var matched := TryMatchDetection(o.x, o.y, stamp);
    }

    method ClassifyAndCount(o: Observation)
      requires Valid()
      modifies this`spawned, this`trace, this`counters, this`seen, this`allSeen, this`unmatchedReported
      ensures Valid() && unmatchedReported == old(unmatchedReported) + 1 && trace == Came(old(trace), o)
      ensures spawned == TrackAll(old(spawned), o.x, o.y)
      ensures var near := NearSpawn(cfg, old(spawned), o.x, o.y);
              seen == Sighted(old(seen), o, near) && counters == Counted(old(counters), old(seen), cfg.persistentMin, o, near)
    {
      hide Sound, NearSpawn, Traced, Tallied, TrackAll, Came, Sighted, Counted;
      ghost var ss, tr := spawned, trace;
      BornBefore(cfg, ss, tr);
      var nearSpawn := ClassifyAndTrackUnmatched(o);
      CountTracked(o, nearSpawn, ss, tr);
    }

    method CountSound(o: Observation, nearSpawn: bool)
      requires Sound()
      modifies this`counters, this`seen, this`allSeen, this`unmatchedReported
      ensures Sound() && unmatchedReported == old(unmatchedReported) + 1
      ensures seen == Sighted(old(seen), o, nearSpawn) && allSeen == Sighted(old(allSeen), o, nearSpawn)
      ensures counters == Counted(old(counters), old(seen), cfg.persistentMin, o, nearSpawn)
    {
      hide StatsOk, MatchesOk, PublishedOk, AllSettled, PendingOk, StaticMisses, Undercounts, Announced, Sighted, Counted;
      CountSegment(o, nearSpawn);
    }

    method CountTracked(o: Observation, nearSpawn: bool, ghost ss: seq<Spawn>, ghost tr: Trace)
      requires Tracked() && Tallied(cfg, ss, tr, counters.intruder, counters.unclaimed, allSeen)
      requires spawned == TrackAll(ss, o.x, o.y) && trace == Came(tr, o) && nearSpawn == NearSpawn(cfg, ss, o.x, o.y)
      requires |tr.born| == |ss| && forall i :: 0 <= i < |ss| ==> tr.born[i].0 <= |tr.unmatched|
      modifies this`counters, this`seen, this`allSeen, this`unmatchedReported
      ensures Valid() && unmatchedReported == old(unmatchedReported) + 1
      ensures seen == Sighted(old(seen), o, nearSpawn) && counters == Counted(old(counters), old(seen), cfg.persistentMin, o, nearSpawn)
    {
      TalliedMore(cfg, ss, tr, o, nearSpawn, counters.intruder, counters.unclaimed, allSeen);
      TrackedPlaces(ss, o.x, o.y);
      hide Sound, NearSpawn, Traced, Tallied, SamePlaces, TrackAll, Came, Sighted;
      assert Counted(counters, seen, cfg.persistentMin, o, nearSpawn).intruder == (if nearSpawn then counters.intruder + 1 else counters.intruder);
      assert Counted(counters, seen, cfg.persistentMin, o, nearSpawn).unclaimed == (if nearSpawn then counters.unclaimed else counters.unclaimed + 1);
      hide Counted;
      CountSound(o, nearSpawn);
      TalliedSame(cfg, ss, spawned, trace, trace, counters.intruder, counters.unclaimed, allSeen);
    }

    /** One obstacle report: all segments in order, each classified, counted and tried for a match, then
        the two prunings. A report without unmatched segments only counts the matched ones. */
    method ReportCallback(matchedCount: nat, unmatched: seq<Observation>, stamp: int)
      requires Valid()
      modifies this
      ensures Valid() && unmatchedReported == old(unmatchedReported) + |unmatched|
      ensures Reported(cfg, CountMatched(old(View()), matchedCount), View(), unmatched, stamp)
      ensures counters.matched == old(counters).matched + matchedCount
      ensures trace.unmatched == old(trace).unmatched + unmatched
      ensures unmatched != [] ==> forall pd <- pending :: (stamp - pd.lastSeen) as real <= cfg.maxAge * 1000000000.0
      ensures unmatched != [] && |seen| > 50000 ==> forall id <- seen :: seen[id] >= cfg.persistentMin
    {
      hide *;
      AddMatched(matchedCount);
      if unmatched == [] {
        ReportNone(cfg, View(), stamp);
        assert trace.unmatched + unmatched == trace.unmatched;
        return;
      }
      ghost var ls := ProcessSegments(unmatched, stamp);
      PruneAll(stamp);
      ReportDone(cfg, ls, View(), unmatched, stamp);
    }

    method AddMatched(n: nat)
      requires Valid()
      modifies this`counters
      ensures Valid() && View() == CountMatched(old(View()), n)
      ensures counters.matched == old(counters).matched + n
    {
      hide StatsOk, MatchesOk, PublishedOk, PendingOk, Settled, StaticMisses, Undercounts;
      counters := counters.(matched := counters.matched + n);
    }

    method ProcessSegments(unmatched: seq<Observation>, stamp: int) returns (ghost ls: seq<Ledger>)
      requires Valid()
      modifies this
      ensures Valid() && unmatchedReported == old(unmatchedReported) + |unmatched|
      ensures SegmentsRun(cfg, ls, unmatched, stamp) && ls[0] == old(View()) && ls[|unmatched|] == View()
      ensures trace.unmatched == old(trace).unmatched + unmatched && counters.matched == old(counters).matched
    {
      hide StatsOk, MatchesOk, PublishedOk, PendingOk, Settled, StaticMisses, Undercounts, SegmentStep, Valid, View;
      ls := [View()];
      for k := 0 to |unmatched|
        invariant Valid() && unmatchedReported == old(unmatchedReported) + k
        invariant |ls| == k + 1 && ls[0] == old(View()) && ls[k] == View()
        invariant trace.unmatched == old(trace).unmatched + unmatched[..k] && counters.matched == old(counters).matched
        invariant forall j :: 0 <= j < k ==> SegmentStep(cfg, ls[j], ls[j + 1], unmatched[j], stamp)
      {
        ProcessSegment(unmatched[k], stamp);
        ls := ls + [View()];
      }
    }

    // prunePendingDetections, then pruneIdSeen.
    method PruneAll(now: int)
      requires Valid()
      modifies this`pending, this`merged, this`seen
      ensures Valid() && View() == PruneBoth(cfg, old(View()), now)
      ensures forall pd <- pending :: (now - pd.lastSeen) as real <= cfg.maxAge * 1000000000.0
      ensures |seen| > 50000 ==> forall id <- seen :: seen[id] >= cfg.persistentMin
    {
      hide StatsOk, MatchesOk, PublishedOk, PendingOk, Settled, StaticMisses, Undercounts, Fresh, Pruned;
      AllFresh(cfg, pending, now);
      AllPersistent(seen, cfg.persistentMin);
      PrunePendingDetections(now);
      PruneIdSeen();
    }
  }
}
