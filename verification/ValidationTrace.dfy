/** What the validation node's spawns and counters remember of the segments and poses that have come in, told by
    their whole history. */
module ValidationTrace {
  import opened Common
  import opened ValidationLedger

  const ID_SEEN_SOFT_CAP := 50000

  datatype Observation = Observation(id: TrackerId, x: real, y: real)

  function Nearer(o: Option<real>, d2: real): Option<real> {
    if o.Some? && o.value <= d2 then o else Some(d2)
  }

  // classifyAndTrackUnmatched, spawn by spawn.
  function Track(s: Spawn, x: real, y: real): Spawn {
    s.(nearest2 := Nearer(s.nearest2, Dist2(x, y, s.x, s.y)))
  }

  function TrackAll(ss: seq<Spawn>, x: real, y: real): (r: seq<Spawn>)
    ensures |r| == |ss| && forall k :: 0 <= k < |r| ==> r[k] == Track(ss[k], x, y)
  {
    seq(|ss|, k requires 0 <= k < |ss| => Track(ss[k], x, y))
  }

  // Near any spawn, detected or not, at any time.
  ghost predicate NearSpawn(cfg: Config, ss: seq<Spawn>, x: real, y: real) {
    exists k :: 0 <= k < |ss| && Dist2(x, y, ss[k].x, ss[k].y) <= cfg.tolerance * cfg.tolerance
  }

  lemma NearMore(cfg: Config, ss: seq<Spawn>, k: nat, x: real, y: real)
    requires k < |ss|
    ensures NearSpawn(cfg, ss[..k + 1], x, y)
            <==> NearSpawn(cfg, ss[..k], x, y) || Dist2(x, y, ss[k].x, ss[k].y) <= cfg.tolerance * cfg.tolerance
  {
  }

  // What one pose sample does to one spawn.
  function Sampled(cfg: Config, s: Spawn, rx: real, ry: real, stamp: int): Spawn {
    if s.entered || !(Dist2(rx, ry, s.x, s.y) <= cfg.radius * cfg.radius) then s else Enter(s, stamp)
  }

  function Sightings(seen: SeenMap, id: TrackerId): nat {
    if id in seen then seen[id] else 0
  }

  function Sighted(seen: SeenMap, o: Observation, near: bool): SeenMap {
    if near || o.id == NO_ID then seen else seen[o.id := Sightings(seen, o.id) + 1]
  }

  function Counted(c: Counters, seen: SeenMap, k: nat, o: Observation, near: bool): Counters {
    if near then c.(intruder := c.intruder + 1)
    else c.(unclaimed := c.unclaimed + 1,
            staticMiss := c.staticMiss + if o.id == NO_ID then 0 else Credit(Sightings(seen, o.id) + 1, k))
  }

  // An unclaimed segment keeps the total and the history.
  lemma SegmentCounted(seen: SeenMap, all: SeenMap, c: Counters, k: nat, o: Observation)
    requires k >= 1 && c.staticMiss == StaticMisses(seen, k) && Undercounts(seen, all)
    ensures Counted(c, seen, k, o, false).staticMiss == StaticMisses(Sighted(seen, o, false), k)
    ensures Undercounts(Sighted(seen, o, false), Sighted(all, o, false))
  {
    SightingCredited(seen, o.id, k);
  }

  // Each of the first n ids sighted once.
  function Once(n: nat): (seen: SeenMap)
    requires n <= NO_ID as nat
    ensures forall id: TrackerId :: (id in seen <==> id as nat < n) && (id in seen ==> seen[id] == 1)
  {
    if n == 0 then map[] else Sighted(Once(n - 1), Observation((n - 1) as TrackerId, 0.0, 0.0), false)
  }

  lemma {:induction false} OnceSize(n: nat)
    requires n <= NO_ID as nat
    ensures |Once(n)| == n
  {
    if n > 0 {
      OnceSize(n - 1);
      assert Once(n) == Once(n - 1)[(n - 1) as TrackerId := 1];
    }
  }

  /** With a threshold of two, 50001 ids are sighted once each and pruned away, and the first comes back:
      both its sightings are missing from the total. */
  lemma PrunedReturns(o: Observation)
    requires o.id == 0
    ensures var seen := Once(ID_SEEN_SOFT_CAP + 1);
            && |seen| > ID_SEEN_SOFT_CAP
            && StaticMisses(Sighted(Pruned(seen, 2), o, false), 2) == 0
            && StaticMisses(Sighted(seen, o, false), 2) == 2
  {
    OnceSize(ID_SEEN_SOFT_CAP + 1);
    SightedAgain(Once(ID_SEEN_SOFT_CAP + 1), o);
    hide *;
  }

  lemma SightedAgain(seen: SeenMap, o: Observation)
    requires o.id != NO_ID && o.id in seen && forall id :: id in seen ==> seen[id] == 1
    ensures StaticMisses(Sighted(Pruned(seen, 2), o, false), 2) == 0
    ensures StaticMisses(Sighted(seen, o, false), 2) == 2
  {
    var left, all := Sighted(Pruned(seen, 2), o, false), Sighted(seen, o, false);
    assert Persistent(left, 2) == {};
    assert Persistent(all, 2) == {o.id};
    SumSeenRemove(all, {o.id}, o.id);
    assert {o.id} - {o.id} == {};
  }

  // ---------------------------------------------------------------- what a spawn's fields remember

  datatype Pose = Pose(x: real, y: real, stamp: int)

  // All unmatched segments and all poses so far, and how many of each had come when a spawn registered.
  datatype Trace = Trace(unmatched: seq<Observation>, poses: seq<Pose>, born: seq<(nat, nat)>)

  // `nearest2` is the least squared distance from the spawn to any of these segments.
  ghost predicate NearestOf(s: Spawn, us: seq<Observation>) {
    if us == [] then s.nearest2 == None
    else
      && s.nearest2.Some?
      && (forall j :: 0 <= j < |us| ==> s.nearest2.value <= Dist2(us[j].x, us[j].y, s.x, s.y))
      && (exists j :: 0 <= j < |us| && s.nearest2.value == Dist2(us[j].x, us[j].y, s.x, s.y))
  }

  predicate InCircle(p: Pose, s: Spawn, radius: real) {
    Dist2(p.x, p.y, s.x, s.y) <= radius * radius
  }

  ghost predicate FirstInside(s: Spawn, radius: real, ps: seq<Pose>, k: int) {
    0 <= k < |ps| && InCircle(ps[k], s, radius) && forall l :: 0 <= l < k ==> !InCircle(ps[l], s, radius)
  }

  // The spawn counts as entered from the first of these poses inside its circle on.
  ghost predicate EntryOf(s: Spawn, radius: real, ps: seq<Pose>) {
    if s.entered then exists k :: FirstInside(s, radius, ps, k) && s.circleEntry == ps[k].stamp
    else forall k :: 0 <= k < |ps| ==> !InCircle(ps[k], s, radius)
  }

  ghost predicate Remembers(cfg: Config, s: Spawn, tr: Trace, born: (nat, nat)) {
    && born.0 <= |tr.unmatched| && born.1 <= |tr.poses|
    && NearestOf(s, tr.unmatched[born.0..]) && EntryOf(s, cfg.radius, tr.poses[born.1..])
  }

  ghost predicate Traced(cfg: Config, ss: seq<Spawn>, tr: Trace) {
    |tr.born| == |ss| && forall i :: 0 <= i < |ss| ==> Remembers(cfg, ss[i], tr, tr.born[i])
  }

  // A pairing touches neither.
  lemma TracedKept(cfg: Config, ss: seq<Spawn>, tr: Trace, i: nat, dist2: real, t: int)
    requires i < |ss| && Traced(cfg, ss, tr)
    ensures Traced(cfg, ss[i := Detect(ss[i], dist2, t)], tr)
  {
    var s := Detect(ss[i], dist2, t);
    assert s.x == ss[i].x && s.y == ss[i].y && s.nearest2 == ss[i].nearest2 && s.entered == ss[i].entered
           && s.circleEntry == ss[i].circleEntry;
    assert Remembers(cfg, ss[i], tr, tr.born[i]);
    hide Detect;
    SameMemory(cfg, ss[i], s, tr, tr.born[i]);
  }

  lemma SameMemory(cfg: Config, s: Spawn, s': Spawn, tr: Trace, born: (nat, nat))
    requires Remembers(cfg, s, tr, born)
    requires s'.x == s.x && s'.y == s.y && s'.nearest2 == s.nearest2 && s'.entered == s.entered && s'.circleEntry == s.circleEntry
    ensures Remembers(cfg, s', tr, born)
  {
    if s.entered {
      var ps := tr.poses[born.1..];
      var k :| FirstInside(s, cfg.radius, ps, k) && s.circleEntry == ps[k].stamp;
      assert FirstInside(s', cfg.radius, ps, k);
    }
  }

  function Born(tr: Trace): Trace {
    tr.(born := tr.born + [(|tr.unmatched|, |tr.poses|)])
  }

  lemma TracedSnoc(cfg: Config, ss: seq<Spawn>, tr: Trace, s: Spawn)
    requires Traced(cfg, ss, tr) && s.nearest2 == None && !s.entered
    ensures Traced(cfg, ss + [s], Born(tr))
  {
    hide NearestOf, EntryOf;
    assert tr.unmatched[|tr.unmatched|..] == [] && tr.poses[|tr.poses|..] == [];
    NoMemory(cfg, s);
    forall i | 0 <= i < |ss|
      ensures Remembers(cfg, ss[i], Born(tr), tr.born[i])
    {
      assert Remembers(cfg, ss[i], tr, tr.born[i]);
    }
  }

  lemma NoMemory(cfg: Config, s: Spawn)
    requires s.nearest2 == None && !s.entered
    ensures NearestOf(s, []) && EntryOf(s, cfg.radius, [])
  {
  }

  lemma NearestMore(s: Spawn, us: seq<Observation>, u: Observation)
    requires NearestOf(s, us)
    ensures NearestOf(Track(s, u.x, u.y), us + [u])
  {
    var s', us' := Track(s, u.x, u.y), us + [u];
    var d := Dist2(u.x, u.y, s.x, s.y);
    assert us'[|us|] == u && forall j :: 0 <= j < |us| ==> us'[j] == us[j];
    hide Dist2;
    if us != [] && s.nearest2.value <= d {
      var j :| 0 <= j < |us| && s.nearest2.value == Dist2(us[j].x, us[j].y, s.x, s.y);
      assert s'.nearest2.value == Dist2(us'[j].x, us'[j].y, s'.x, s'.y);
    } else {
      assert s'.nearest2.value == Dist2(us'[|us|].x, us'[|us|].y, s'.x, s'.y);
    }
  }

  lemma TrackedTraced(cfg: Config, ss: seq<Spawn>, tr: Trace, u: Observation)
    requires Traced(cfg, ss, tr)
    ensures Traced(cfg, TrackAll(ss, u.x, u.y), tr.(unmatched := tr.unmatched + [u]))
  {
    hide Track, NearestOf, EntryOf;
    forall i | 0 <= i < |ss|
      ensures Remembers(cfg, Track(ss[i], u.x, u.y), tr.(unmatched := tr.unmatched + [u]), tr.born[i])
    {
      var b := tr.born[i];
      assert Remembers(cfg, ss[i], tr, b);
      NearestMore(ss[i], tr.unmatched[b.0..], u);
      assert (tr.unmatched + [u])[b.0..] == tr.unmatched[b.0..] + [u];
      TrackKeepsEntry(ss[i], u, cfg.radius, tr.poses[b.1..]);
    }
  }

  lemma TrackKeepsEntry(s: Spawn, u: Observation, radius: real, ps: seq<Pose>)
    requires EntryOf(s, radius, ps)
    ensures EntryOf(Track(s, u.x, u.y), radius, ps)
  {
    var s' := Track(s, u.x, u.y);
    hide Dist2;
    if s.entered {
      var k :| FirstInside(s, radius, ps, k) && s.circleEntry == ps[k].stamp;
      assert FirstInside(s', radius, ps, k);
    }
  }

  lemma EntryMore(cfg: Config, s: Spawn, ps: seq<Pose>, p: Pose)
    requires EntryOf(s, cfg.radius, ps)
    ensures EntryOf(Sampled(cfg, s, p.x, p.y, p.stamp), cfg.radius, ps + [p])
  {
    var s', ps' := Sampled(cfg, s, p.x, p.y, p.stamp), ps + [p];
    assert ps'[|ps|] == p && forall k :: 0 <= k < |ps| ==> ps'[k] == ps[k];
    hide Dist2;
    if s.entered {
      var k :| FirstInside(s, cfg.radius, ps, k) && s.circleEntry == ps[k].stamp;
      assert FirstInside(s', cfg.radius, ps', k);
    } else if InCircle(p, s, cfg.radius) {
      assert FirstInside(s', cfg.radius, ps', |ps|);
    }
  }

  lemma SampledTraced(cfg: Config, ss: seq<Spawn>, tr: Trace, ss': seq<Spawn>, p: Pose)
    requires Traced(cfg, ss, tr) && |ss'| == |ss|
    requires forall k :: 0 <= k < |ss| ==> ss'[k] == Sampled(cfg, ss[k], p.x, p.y, p.stamp)
    ensures Traced(cfg, ss', tr.(poses := tr.poses + [p]))
  {
    hide Sampled, NearestOf, EntryOf;
    forall i | 0 <= i < |ss|
      ensures Remembers(cfg, ss'[i], tr.(poses := tr.poses + [p]), tr.born[i])
    {
      var b := tr.born[i];
      assert Remembers(cfg, ss[i], tr, b);
      EntryMore(cfg, ss[i], tr.poses[b.1..], p);
      assert (tr.poses + [p])[b.1..] == tr.poses[b.1..] + [p];
      SampleKeepsNearest(cfg, ss[i], p, tr.unmatched[b.0..]);
    }
  }

  lemma SampleKeepsNearest(cfg: Config, s: Spawn, p: Pose, us: seq<Observation>)
    requires NearestOf(s, us)
    ensures NearestOf(Sampled(cfg, s, p.x, p.y, p.stamp), us)
  {
    var s' := Sampled(cfg, s, p.x, p.y, p.stamp);
    assert s'.x == s.x && s'.y == s.y && s'.nearest2 == s.nearest2;
  }

  // Some unmatched segment since the spawn registered was within the radius.
  ghost predicate CameNear(cfg: Config, s: Spawn, tr: Trace, born: nat) {
    exists j :: born <= j < |tr.unmatched| && Within(Dist2(tr.unmatched[j].x, tr.unmatched[j].y, s.x, s.y), cfg.radius)
  }

  /** The stored nearest distance is within the radius exactly when some segment since the registration was;
      the spawn is entered exactly when some pose since then was inside the circle, at the time of the first. */
  lemma RemembersIff(cfg: Config, s: Spawn, tr: Trace, born: (nat, nat))
    requires Remembers(cfg, s, tr, born)
    ensures s.nearest2.Some? && Within(s.nearest2.value, cfg.radius) <==> CameNear(cfg, s, tr, born.0)
    ensures s.entered <==> exists k :: born.1 <= k < |tr.poses| && InCircle(tr.poses[k], s, cfg.radius)
    ensures s.entered ==> exists k :: born.1 <= k < |tr.poses| && InCircle(tr.poses[k], s, cfg.radius) && s.circleEntry == tr.poses[k].stamp
                                      && forall l :: born.1 <= l < k ==> !InCircle(tr.poses[l], s, cfg.radius)
  {
    var us, ps := tr.unmatched[born.0..], tr.poses[born.1..];
    assert forall j :: born.0 <= j < |tr.unmatched| ==> tr.unmatched[j] == us[j - born.0];
    assert forall k :: born.1 <= k < |tr.poses| ==> tr.poses[k] == ps[k - born.1];
    hide Dist2;
    if s.nearest2.Some? && Within(s.nearest2.value, cfg.radius) {
      var j :| 0 <= j < |us| && s.nearest2.value == Dist2(us[j].x, us[j].y, s.x, s.y);
      assert tr.unmatched[born.0 + j] == us[j];
    }
    if s.entered {
      var k :| FirstInside(s, cfg.radius, ps, k) && s.circleEntry == ps[k].stamp;
      assert tr.poses[born.1 + k] == ps[k];
    }
  }

  // ---------------------------------------------------------------- the counters, by the history

  // Segment j came near a spawn that had registered before it.
  ghost predicate IsIntruder(cfg: Config, ss: seq<Spawn>, tr: Trace, j: nat)
    requires j < |tr.unmatched| && |tr.born| == |ss|
  {
    exists i :: 0 <= i < |ss| && tr.born[i].0 <= j
                && Dist2(tr.unmatched[j].x, tr.unmatched[j].y, ss[i].x, ss[i].y) <= cfg.tolerance * cfg.tolerance
  }

  ghost function Intruders(cfg: Config, ss: seq<Spawn>, tr: Trace): set<nat>
    requires |tr.born| == |ss|
  {
    set j: nat | j < |tr.unmatched| && IsIntruder(cfg, ss, tr, j)
  }

  // The segments that are none and carry this tracker id.
  ghost function SightingsOf(cfg: Config, ss: seq<Spawn>, tr: Trace, id: TrackerId): set<nat>
    requires |tr.born| == |ss|
  {
    set j: nat | j < |tr.unmatched| && !IsIntruder(cfg, ss, tr, j) && tr.unmatched[j].id == id
  }

  /** The two segment counters and the sightings of every id are what the history says. */
  ghost predicate Tallied(cfg: Config, ss: seq<Spawn>, tr: Trace, intruder: nat, unclaimed: nat, all: SeenMap) {
    && |tr.born| == |ss|
    && intruder == |Intruders(cfg, ss, tr)| && intruder + unclaimed == |tr.unmatched|
    && NO_ID !in all && forall id: TrackerId :: id != NO_ID ==> Sightings(all, id) == |SightingsOf(cfg, ss, tr, id)|
  }

  // Spawns do not move.
  ghost predicate SamePlaces(ss: seq<Spawn>, ss': seq<Spawn>) {
    |ss'| == |ss| && forall i :: 0 <= i < |ss| ==> ss'[i].x == ss[i].x && ss'[i].y == ss[i].y
  }

  lemma TalliedSame(cfg: Config, ss: seq<Spawn>, ss': seq<Spawn>, tr: Trace, tr': Trace, intruder: nat, unclaimed: nat, all: SeenMap)
    requires Tallied(cfg, ss, tr, intruder, unclaimed, all) && SamePlaces(ss, ss')
    requires tr'.unmatched == tr.unmatched && tr'.born == tr.born
    ensures Tallied(cfg, ss', tr', intruder, unclaimed, all)
  {
    forall j: nat | j < |tr.unmatched|
      ensures IsIntruder(cfg, ss', tr', j) <==> IsIntruder(cfg, ss, tr, j)
    {
    }
    hide IsIntruder, Dist2;
    assert Intruders(cfg, ss', tr') == Intruders(cfg, ss, tr);
    forall id: TrackerId
      ensures SightingsOf(cfg, ss', tr', id) == SightingsOf(cfg, ss, tr, id)
    {
    }
  }

  // A new spawn makes no earlier segment an intruder.
  lemma TalliedSnoc(cfg: Config, ss: seq<Spawn>, tr: Trace, s: Spawn, intruder: nat, unclaimed: nat, all: SeenMap)
    requires Tallied(cfg, ss, tr, intruder, unclaimed, all)
    ensures Tallied(cfg, ss + [s], Born(tr), intruder, unclaimed, all)
  {
    forall j: nat | j < |tr.unmatched|
      ensures IsIntruder(cfg, ss + [s], Born(tr), j) <==> IsIntruder(cfg, ss, tr, j)
    {
      hide Dist2;
      if i :| 0 <= i < |ss| && tr.born[i].0 <= j
              && Dist2(tr.unmatched[j].x, tr.unmatched[j].y, ss[i].x, ss[i].y) <= cfg.tolerance * cfg.tolerance {
        assert Born(tr).born[i] == tr.born[i] && (ss + [s])[i] == ss[i];
      }
    }
    hide IsIntruder;
    assert Intruders(cfg, ss + [s], Born(tr)) == Intruders(cfg, ss, tr);
    forall id: TrackerId
      ensures SightingsOf(cfg, ss + [s], Born(tr), id) == SightingsOf(cfg, ss, tr, id)
    {
    }
  }

  function Came(tr: Trace, o: Observation): Trace {
    tr.(unmatched := tr.unmatched + [o])
  }

  lemma IntruderMore(cfg: Config, ss: seq<Spawn>, tr: Trace, o: Observation)
    requires |tr.born| == |ss| && forall i :: 0 <= i < |ss| ==> tr.born[i].0 <= |tr.unmatched|
    ensures forall j: nat :: j < |tr.unmatched| ==> (IsIntruder(cfg, ss, Came(tr, o), j) <==> IsIntruder(cfg, ss, tr, j))
    ensures IsIntruder(cfg, ss, Came(tr, o), |tr.unmatched|) <==> NearSpawn(cfg, ss, o.x, o.y)
  {
    hide Dist2;
  }

  /** One more segment, classified as the node does, keeps both tallies. */
  lemma TalliedMore(cfg: Config, ss: seq<Spawn>, tr: Trace, o: Observation, near: bool, intruder: nat, unclaimed: nat, all: SeenMap)
    requires Tallied(cfg, ss, tr, intruder, unclaimed, all) && near == NearSpawn(cfg, ss, o.x, o.y)
    requires forall i :: 0 <= i < |ss| ==> tr.born[i].0 <= |tr.unmatched|
    ensures Tallied(cfg, ss, Came(tr, o), if near then intruder + 1 else intruder, if near then unclaimed else unclaimed + 1,
                    Sighted(all, o, near))
  {
    IntruderMore(cfg, ss, tr, o);
    IntrudersMore(cfg, ss, tr, o, near);
    hide IsIntruder, NearSpawn, Intruders, SightingsOf;
    forall id: TrackerId | id != NO_ID
      ensures Sightings(Sighted(all, o, near), id) == |SightingsOf(cfg, ss, Came(tr, o), id)|
    {
      SightingsMore(cfg, ss, tr, o, near, id);
    }
  }

  lemma IntrudersMore(cfg: Config, ss: seq<Spawn>, tr: Trace, o: Observation, near: bool)
    requires |tr.born| == |ss|
    requires forall j: nat :: j < |tr.unmatched| ==> (IsIntruder(cfg, ss, Came(tr, o), j) <==> IsIntruder(cfg, ss, tr, j))
    requires IsIntruder(cfg, ss, Came(tr, o), |tr.unmatched|) <==> near
    ensures |Intruders(cfg, ss, Came(tr, o))| == |Intruders(cfg, ss, tr)| + if near then 1 else 0
  {
    hide IsIntruder;
    var n := |tr.unmatched|;
    assert n !in Intruders(cfg, ss, tr);
    assert Intruders(cfg, ss, Came(tr, o)) == if near then Intruders(cfg, ss, tr) + {n} else Intruders(cfg, ss, tr);
  }

  lemma SightingsMore(cfg: Config, ss: seq<Spawn>, tr: Trace, o: Observation, near: bool, id: TrackerId)
    requires |tr.born| == |ss|
    requires forall j: nat :: j < |tr.unmatched| ==> (IsIntruder(cfg, ss, Came(tr, o), j) <==> IsIntruder(cfg, ss, tr, j))
    requires IsIntruder(cfg, ss, Came(tr, o), |tr.unmatched|) <==> near
    ensures |SightingsOf(cfg, ss, Came(tr, o), id)| == |SightingsOf(cfg, ss, tr, id)| + if !near && o.id == id then 1 else 0
  {
    hide IsIntruder;
    var n := |tr.unmatched|;
    assert n !in SightingsOf(cfg, ss, tr, id);
    assert SightingsOf(cfg, ss, Came(tr, o), id)
        == if !near && o.id == id then SightingsOf(cfg, ss, tr, id) + {n} else SightingsOf(cfg, ss, tr, id);
  }

  // ---------------------------------------------------------------- what has been announced

  // The result is about this spawn.
  ghost predicate About(p: Published, s: Spawn) {
    p.spawn.time == s.time && p.spawn.x == s.x && p.spawn.y == s.y && p.spawn.radius == s.radius
  }

  ghost predicate ShowsDetection(p: Published, s: Spawn) {
    About(p, s) && p.spawn.detected && p.spawn.firstDetection == s.firstDetection && p.spawn.matchDist2 == s.matchDist2
  }

  ghost predicate ShowsLatency(p: Published, s: Spawn) {
    About(p, s) && p.spawn.finalized && p.spawn.latencyMs == s.latencyMs
  }

  ghost predicate IsAnnounced(s: Spawn, ps: seq<Published>) {
    && (s.detected ==> exists k :: 0 <= k < |ps| && ShowsDetection(ps[k], s))
    && (s.finalized ==> exists k :: 0 <= k < |ps| && ShowsLatency(ps[k], s))
  }

  /** Every pairing and every finalised latency has gone out in some result about its spawn. */
  ghost predicate Announced(ss: seq<Spawn>, ps: seq<Published>) {
    forall i :: 0 <= i < |ss| ==> IsAnnounced(ss[i], ps)
  }

  lemma StillAnnounced(s: Spawn, s': Spawn, ps: seq<Published>, more: seq<Published>)
    requires IsAnnounced(s, ps)
    requires s'.time == s.time && s'.x == s.x && s'.y == s.y && s'.radius == s.radius
    requires s'.detected ==> s.detected && s'.firstDetection == s.firstDetection && s'.matchDist2 == s.matchDist2
    requires s'.finalized ==> s.finalized && s'.latencyMs == s.latencyMs
    ensures IsAnnounced(s', ps + more)
  {
    if s'.detected {
      var k :| 0 <= k < |ps| && ShowsDetection(ps[k], s);
      assert ShowsDetection((ps + more)[k], s');
    }
    if s'.finalized {
      var k :| 0 <= k < |ps| && ShowsLatency(ps[k], s);
      assert ShowsLatency((ps + more)[k], s');
    }
  }

  lemma OthersAnnounced(ss: seq<Spawn>, ps: seq<Published>, i: nat, s': Spawn, more: seq<Published>)
    requires Announced(ss, ps) && i < |ss| && IsAnnounced(s', ps + more)
    ensures Announced(ss[i := s'], ps + more)
  {
    hide IsAnnounced;
    forall j | 0 <= j < |ss| && j != i
      ensures IsAnnounced(ss[j], ps + more)
    {
      StillAnnounced(ss[j], ss[j], ps, more);
    }
  }

  // A pairing announces itself, and with it the latency if that is complete.
  lemma DetectAnnounces(ss: seq<Spawn>, ps: seq<Published>, i: nat, dist2: real, t: int, p: Published)
    requires Announced(ss, ps) && i < |ss| && SpawnOk(ss[i]) && !ss[i].detected && p.spawn == Detect(ss[i], dist2, t)
    ensures Announced(ss[i := Detect(ss[i], dist2, t)], ps + [p])
  {
    var s' := Detect(ss[i], dist2, t);
    assert (ps + [p])[|ps|] == p && ShowsDetection(p, s') && (s'.finalized ==> ShowsLatency(p, s'));
    OthersAnnounced(ss, ps, i, s', [p]);
  }

  // An entry announces the latency exactly when it completes it.
  lemma EnterAnnounces(ss: seq<Spawn>, ps: seq<Published>, i: nat, t: int, ps': seq<Published>)
    requires Announced(ss, ps) && i < |ss| && SpawnOk(ss[i])
    requires var s' := Enter(ss[i], t);
             if s'.finalized && !ss[i].finalized then |ps'| == |ps| + 1 && ps' == ps + [ps'[|ps|]] && ps'[|ps|].spawn == s' else ps' == ps
    ensures Announced(ss[i := Enter(ss[i], t)], ps')
  {
    var s, s' := ss[i], Enter(ss[i], t);
    if s'.finalized && !s.finalized {
      var p := ps'[|ps|];
      assert ShowsLatency(p, s') && ShowsDetection(p, s');
      OthersAnnounced(ss, ps, i, s', [p]);
    } else {
      assert ps + [] == ps;
      StillAnnounced(s, s', ps, []);
      OthersAnnounced(ss, ps, i, s', []);
    }
  }

  lemma TrackAnnounces(ss: seq<Spawn>, ps: seq<Published>, i: nat, x: real, y: real)
    requires Announced(ss, ps) && i < |ss|
    ensures Announced(ss[i := Track(ss[i], x, y)], ps)
  {
    assert ps + [] == ps;
    StillAnnounced(ss[i], Track(ss[i], x, y), ps, []);
    OthersAnnounced(ss, ps, i, Track(ss[i], x, y), []);
  }

  lemma NewAnnounces(ss: seq<Spawn>, ps: seq<Published>, s: Spawn)
    requires Announced(ss, ps) && !s.detected && !s.finalized
    ensures Announced(ss + [s], ps)
  {
  }

  lemma NothingYet(cfg: Config)
    ensures Traced(cfg, [], Trace([], [], [])) && Tallied(cfg, [], Trace([], [], []), 0, 0, map[]) && Announced([], [])
  {
    assert Intruders(cfg, [], Trace([], [], [])) == {};
    forall id: TrackerId
      ensures SightingsOf(cfg, [], Trace([], [], []), id) == {}
    {
    }
  }

  lemma TrackedPlaces(ss: seq<Spawn>, x: real, y: real)
    ensures SamePlaces(ss, TrackAll(ss, x, y))
  {
  }

  lemma SampledPlaces(cfg: Config, ss: seq<Spawn>, ss': seq<Spawn>, rx: real, ry: real, stamp: int)
    requires |ss'| == |ss| && forall k :: 0 <= k < |ss| ==> ss'[k] == Sampled(cfg, ss[k], rx, ry, stamp)
    ensures SamePlaces(ss, ss')
  {
  }

  lemma DetectedPlaces(ss: seq<Spawn>, i: nat, dist2: real, t: int)
    requires i < |ss|
    ensures SamePlaces(ss, ss[i := Detect(ss[i], dist2, t)])
  {
  }
}
