/** The meaning of an obstacle update list: a running map, id to geometry.

    `MapDataExtractor` is the reference (extract_map_data.py), `Collapse` the translator's
    batch compaction, which drops the DELETEs. */
module RunningMap {
  import opened Common

  // `std::int64_t`, the key of every obstacle map.
  newtype ObstacleId = x: int | -0x8000_0000_0000_0000 <= x < 0x8000_0000_0000_0000

  datatype Operation = Insert | Delete
  datatype Geometry = Geometry(xMin: real, yMin: real, xMax: real, yMax: real)
  datatype Update = Update(operation: Operation, id: ObstacleId, geometry: Geometry)
  type ObstacleMap = map<ObstacleId, Geometry>

  function Apply(m: ObstacleMap, u: Update): ObstacleMap {
    match u.operation
    case Insert => m[u.id := u.geometry]
    case Delete => m - {u.id}
  }

  function Replay(m: ObstacleMap, us: seq<Update>): ObstacleMap {
    if us == [] then m else Apply(Replay(m, us[..|us| - 1]), us[|us| - 1])
  }

  ghost predicate Touches(us: seq<Update>, id: ObstacleId) {
    exists i :: 0 <= i < |us| && us[i].id == id
  }

  // The last operation on `id` is at index i.
  ghost predicate LastAt(us: seq<Update>, id: ObstacleId, i: nat) {
    && i < |us| && us[i].id == id
    && forall j :: i < j < |us| ==> us[j].id != id
  }

  ghost predicate LastIs(us: seq<Update>, id: ObstacleId, op: Operation) {
    exists i: nat :: LastAt(us, id, i) && us[i].operation == op
  }

  lemma {:induction false} ReplayConcat(m: ObstacleMap, a: seq<Update>, b: seq<Update>)
    ensures Replay(m, a + b) == Replay(Replay(m, a), b)
  {
    if b == [] {
      assert a + b == a;
    } else {
      assert (a + b)[..|a + b| - 1] == a + b[..|b| - 1];
      ReplayConcat(m, a, b[..|b| - 1]);
    }
  }

  lemma ReplayOne(m: ObstacleMap, us: seq<Update>, u: Update)
    ensures Replay(m, us + [u]) == Apply(Replay(m, us), u)
  {
  }

  lemma {:induction false} UntouchedKept(m: ObstacleMap, us: seq<Update>, id: ObstacleId)
    requires !Touches(us, id)
    ensures id in Replay(m, us) <==> id in m
    ensures id in m ==> Replay(m, us)[id] == m[id]
  {
    if us != [] {
      var init := us[..|us| - 1];
      assert us[|us| - 1].id != id;
      assert forall i :: 0 <= i < |init| ==> init[i] == us[i];
      UntouchedKept(m, init, id);
    }
  }

  /** Full replay, key by key: only the last operation on an id matters. */
  lemma {:induction false} LastDecides(m: ObstacleMap, us: seq<Update>, id: ObstacleId, i: nat)
    requires LastAt(us, id, i)
    ensures id in Replay(m, us) <==> us[i].operation == Insert
    ensures us[i].operation == Insert ==> Replay(m, us)[id] == us[i].geometry
    decreases |us|
  {
    var init := us[..|us| - 1];
    if i < |us| - 1 {
      assert LastAt(init, id, i);
      LastDecides(m, init, id, i);
    }
  }

  lemma {:induction false} TouchedHasLast(us: seq<Update>, id: ObstacleId) returns (i: nat)
    requires Touches(us, id)
    ensures LastAt(us, id, i)
  {
    if us[|us| - 1].id == id {
      i := |us| - 1;
    } else {
      var init := us[..|us| - 1];
      var j :| 0 <= j < |us| && us[j].id == id;
      assert init[j].id == id;
      i := TouchedHasLast(init, id);
    }
  }

  lemma MapsEqual(a: ObstacleMap, b: ObstacleMap)
    requires forall k: ObstacleId :: k in a <==> k in b
    requires forall k: ObstacleId :: k in a && k in b ==> a[k] == b[k]
    ensures a == b
  {
  }

  ghost function Restrict(m: ObstacleMap, ks: set<ObstacleId>): ObstacleMap {
    map k | k in m && k in ks :: m[k]
  }

  lemma RestrictMore(m: ObstacleMap, ks: set<ObstacleId>, k: ObstacleId)
    requires k in m
    ensures Restrict(m, ks + {k}) == Restrict(m, ks)[k := m[k]]
  {
  }

  lemma RestrictAll(m: ObstacleMap, ks: set<ObstacleId>)
    requires m.Keys <= ks
    ensures Restrict(m, ks) == m
  {
  }

  // ---------------------------------------------------------------- the reference map

  // One entry of the "pallets" list; every field may be missing.
  datatype Pallet = Pallet(id: Option<ObstacleId>, operation: Option<string>, aabb: Option<seq<seq<real>>>)

  function AabbOk(aabb: seq<seq<real>>): bool {
    |aabb| >= 2 && |aabb[0]| >= 2 && |aabb[1]| >= 2
  }

  const NO_GEOMETRY := Geometry(0.0, 0.0, 0.0, 0.0)

  // What one pallet entry does: an update, or nothing.
  function Parse(p: Pallet): seq<Update> {
    var operation := if p.operation.Some? then p.operation.value else "INSERT";
    if p.id.None? then []
    else if operation == "INSERT" && p.aabb.Some? && p.aabb.value != [] then
      var b := p.aabb.value;
      if AabbOk(b) then [Update(Insert, p.id.value, Geometry(b[0][0], b[0][1], b[1][0], b[1][1]))] else []
    else if operation == "DELETE" then [Update(Delete, p.id.value, NO_GEOMETRY)]
    else []
  }

  function ParseAll(ps: seq<Pallet>): seq<Update> {
    if ps == [] then [] else ParseAll(ps[..|ps| - 1]) + Parse(ps[|ps| - 1])
  }

  function Count(us: seq<Update>, op: Operation): nat {
    if us == [] then 0 else Count(us[..|us| - 1], op) + if us[|us| - 1].operation == op then 1 else 0
  }

  // The saved list holds the entries of `done`.
  ghost predicate Saved(out: seq<Pallet>, m: ObstacleMap, done: set<ObstacleId>) {
    Replay(map[], ParseAll(out)) == Restrict(m, done) && |out| == |done|
  }

  lemma SaveNone(m: ObstacleMap)
    ensures Saved([], m, {})
  {
  }

  // One more entry of the saved list.
  lemma SaveOne(m: ObstacleMap, out: seq<Pallet>, done: set<ObstacleId>, k: ObstacleId)
    requires k in m && k !in done && Saved(out, m, done)
    ensures Saved(out + [Pallet(Some(k), Some("INSERT"), Some([[m[k].xMin, m[k].yMin], [m[k].xMax, m[k].yMax]]))], m, done + {k})
  {
    var p := Pallet(Some(k), Some("INSERT"), Some([[m[k].xMin, m[k].yMin], [m[k].xMax, m[k].yMax]]));
    assert Parse(p) == [Update(Insert, k, m[k])];
    ParseStep(map[], ParseAll(out), p);
    assert (out + [p])[..|out|] == out;
    assert ParseAll(out + [p]) == ParseAll(out) + Parse(p);
    RestrictMore(m, done, k);
    hide Parse, ParseAll, Replay, Restrict;
  }

  lemma AllSaved(m: ObstacleMap, out: seq<Pallet>, done: set<ObstacleId>)
    requires Saved(out, m, done) && done == m.Keys
    ensures Replay(map[], ParseAll(out)) == m && |out| == |m|
  {
    RestrictAll(m, done);
    assert |m.Keys| == |m|;
  }

  lemma ParseMore(ps: seq<Pallet>, k: nat)
    requires k < |ps|
    ensures ParseAll(ps[..k + 1]) == ParseAll(ps[..k]) + Parse(ps[k])
  {
    assert ps[..k + 1][..k] == ps[..k];
  }

  lemma ParseStep(m: ObstacleMap, before: seq<Update>, p: Pallet)
    ensures Replay(m, before + Parse(p)) == if Parse(p) == [] then Replay(m, before) else Apply(Replay(m, before), Parse(p)[0])
    ensures forall op :: Count(before + Parse(p), op) == Count(before, op) + if Parse(p) != [] && Parse(p)[0].operation == op then 1 else 0
  {
    if Parse(p) == [] {
      assert before + Parse(p) == before;
    } else {
      assert Parse(p) == [Parse(p)[0]];
      ReplayOne(m, before, Parse(p)[0]);
      assert (before + Parse(p))[..|before|] == before;
    }
  }

  // The entry puts obstacle k on the map with box g.
  ghost predicate Inserts(p: Pallet, k: ObstacleId, g: Geometry) {
    && p.id == Some(k) && (p.operation == None || p.operation == Some("INSERT"))
    && p.aabb.Some? && |p.aabb.value| >= 2 && |p.aabb.value[0]| >= 2 && |p.aabb.value[1]| >= 2
    && var low, high := p.aabb.value[0], p.aabb.value[1];
       g.xMin == low[0] && g.yMin == low[1] && g.xMax == high[0] && g.yMax == high[1]
  }

  // The entry takes it off.
  ghost predicate Deletes(p: Pallet, k: ObstacleId) {
    p.id == Some(k) && p.operation == Some("DELETE")
  }

  ghost predicate Acts(p: Pallet, k: ObstacleId) {
    Deletes(p, k) || exists g :: Inserts(p, k, g)
  }

  // Entry i puts k on the map with box g, and none after it acts on k.
  ghost predicate LastInserts(ps: seq<Pallet>, k: ObstacleId, g: Geometry, i: nat) {
    i < |ps| && Inserts(ps[i], k, g) && forall j :: i < j < |ps| ==> !Acts(ps[j], k)
  }

  lemma ParseMeans(p: Pallet, k: ObstacleId, g: Geometry)
    ensures Inserts(p, k, g) <==> Parse(p) == [Update(Insert, k, g)]
    ensures Deletes(p, k) <==> Parse(p) != [] && Parse(p)[0].operation == Delete && Parse(p)[0].id == k
    ensures Parse(p) != [] && Parse(p)[0].id != k ==> !Acts(p, k)
    ensures Parse(p) == [] ==> !Acts(p, k)
    ensures |Parse(p)| <= 1
  {
  }

  ghost predicate NoneActs(ps: seq<Pallet>, k: ObstacleId) {
    forall j :: 0 <= j < |ps| ==> !Acts(ps[j], k)
  }

  ghost predicate HasBox(m: ObstacleMap, k: ObstacleId, g: Geometry) {
    k in m && m[k] == g
  }

  /** The map after a list of entries, in the terms of the entries: k has box g exactly when the last entry that
      acts on k inserts it with g, or none does and it had g before. */
  lemma {:induction false} EntriesDecide(m: ObstacleMap, ps: seq<Pallet>, k: ObstacleId, g: Geometry)
    ensures HasBox(Replay(m, ParseAll(ps)), k, g) <==>
            (exists i: nat :: LastInserts(ps, k, g, i)) || (NoneActs(ps, k) && HasBox(m, k, g))
  {
    if ps != [] {
      var n := |ps| - 1;
      EntriesDecide(m, ps[..n], k, g);
      ParseMore(ps, n);
      assert ps[..n + 1] == ps;
      ParseStep(m, ParseAll(ps[..n]), ps[n]);
      LastMoves(ps, k, g);
      NoneMoves(ps, k);
      ApplyMeans(Replay(m, ParseAll(ps[..n])), ps[n], k, g);
      hide *;
    }
  }

  lemma NoneMoves(ps: seq<Pallet>, k: ObstacleId)
    requires ps != []
    ensures NoneActs(ps, k) <==> !Acts(ps[|ps| - 1], k) && NoneActs(ps[..|ps| - 1], k)
  {
    assert forall j :: 0 <= j < |ps| - 1 ==> ps[..|ps| - 1][j] == ps[j];
    hide Acts;
  }

  ghost predicate IsDelete(p: Pallet) {
    p.id.Some? && Deletes(p, p.id.value)
  }

  ghost predicate IsInsert(p: Pallet) {
    p.id.Some? && exists g :: Inserts(p, p.id.value, g)
  }

  ghost function Deleting(ps: seq<Pallet>): set<nat> {
    set i: nat | i < |ps| && IsDelete(ps[i])
  }

  ghost function Inserting(ps: seq<Pallet>): set<nat> {
    set i: nat | i < |ps| && IsInsert(ps[i])
  }

  /** The two counters count entries: every DELETE with an id, known or not, and every well-formed INSERT. */
  lemma {:induction false} EntriesCounted(ps: seq<Pallet>)
    ensures Count(ParseAll(ps), Delete) == |Deleting(ps)| && Count(ParseAll(ps), Insert) == |Inserting(ps)|
  {
    if ps == [] {
      assert Deleting(ps) == {} && Inserting(ps) == {};
    } else {
      var n := |ps| - 1;
      EntriesCounted(ps[..n]);
      ParseMore(ps, n);
      assert ps[..n + 1] == ps;
      ParseStep(map[], ParseAll(ps[..n]), ps[n]);
      ParseKind(ps[n]);
      OneMoreEntry(ps);
      hide *;
    }
  }

  lemma ParseKind(p: Pallet)
    ensures Parse(p) != [] && Parse(p)[0].operation == Delete <==> IsDelete(p)
    ensures Parse(p) != [] && Parse(p)[0].operation == Insert <==> IsInsert(p)
  {
    if Parse(p) != [] {
      ParseMeans(p, Parse(p)[0].id, Parse(p)[0].geometry);
    }
    if p.id.Some? {
      if g :| Inserts(p, p.id.value, g) {
        ParseMeans(p, p.id.value, g);
      }
      ParseMeans(p, p.id.value, NO_GEOMETRY);
    }
  }

  lemma OneMoreEntry(ps: seq<Pallet>)
    requires ps != []
    ensures |Deleting(ps)| == |Deleting(ps[..|ps| - 1])| + if IsDelete(ps[|ps| - 1]) then 1 else 0
    ensures |Inserting(ps)| == |Inserting(ps[..|ps| - 1])| + if IsInsert(ps[|ps| - 1]) then 1 else 0
  {
    hide IsDelete, IsInsert;
    OneMoreOf(ps, Deleting(ps), Deleting(ps[..|ps| - 1]), IsDelete(ps[|ps| - 1]));
    OneMoreOf(ps, Inserting(ps), Inserting(ps[..|ps| - 1]), IsInsert(ps[|ps| - 1]));
  }

  // The last index is added exactly when the last entry is of the kind.
  lemma OneMoreOf(ps: seq<Pallet>, all: set<nat>, before: set<nat>, last: bool)
    requires ps != [] && (forall i: nat :: i in before ==> i < |ps| - 1)
    requires forall i: nat :: i in all <==> i in before || (i == |ps| - 1 && last)
    ensures |all| == |before| + if last then 1 else 0
  {
    var n: nat := |ps| - 1;
    assert n !in before;
    if last {
      assert all == before + {n};
    } else {
      assert all == before;
    }
  }

  // What one more entry does to the last insertion.
  lemma LastMoves(ps: seq<Pallet>, k: ObstacleId, g: Geometry)
    requires ps != []
    ensures var n := |ps| - 1;
            (exists i: nat :: LastInserts(ps, k, g, i)) <==>
            Inserts(ps[n], k, g) || (!Acts(ps[n], k) && exists i: nat :: LastInserts(ps[..n], k, g, i))
  {
    var n := |ps| - 1;
    hide Inserts, Acts;
    if Inserts(ps[n], k, g) {
      assert LastInserts(ps, k, g, n);
    } else if !Acts(ps[n], k) {
      if i: nat :| LastInserts(ps[..n], k, g, i) {
        assert LastInserts(ps, k, g, i);
      }
      if i: nat :| LastInserts(ps, k, g, i) {
        assert LastInserts(ps[..n], k, g, i);
      }
    }
  }

  lemma ApplyMeans(m: ObstacleMap, p: Pallet, k: ObstacleId, g: Geometry)
    ensures var m' := if Parse(p) == [] then m else Apply(m, Parse(p)[0]);
            HasBox(m', k, g) <==> Inserts(p, k, g) || (!Acts(p, k) && HasBox(m, k, g))
  {
    ParseMeans(p, k, g);
    if Parse(p) != [] && Parse(p)[0].operation == Insert && Parse(p)[0].id == k {
      ParseMeans(p, k, Parse(p)[0].geometry);
    }
    hide Inserts, Deletes, Parse;
  }

  // ---------------------------------------------------------------- collapsing a batch

  ghost predicate InsertsOnly(us: seq<Update>) {
    forall i :: 0 <= i < |us| ==> us[i].operation == Insert
  }

  ghost predicate DistinctIds(us: seq<Update>) {
    forall i, j :: 0 <= i < j < |us| ==> us[i].id != us[j].id
  }

  // `batch` lists the running map of `us` as INSERTs, in any order.
  ghost predicate IsCollapse(us: seq<Update>, batch: seq<Update>) {
    InsertsOnly(batch) && DistinctIds(batch) && Replay(map[], batch) == Replay(map[], us)
  }

  // The hash map of the flush code: id to the last INSERT, erased by DELETE.
  ghost predicate Holds(m: map<ObstacleId, Update>, target: ObstacleMap) {
    && m.Keys == target.Keys
    && forall k :: k in m ==> m[k] == Update(Insert, k, target[k])
  }

  method Collapse(us: seq<Update>) returns (batch: seq<Update>)
    ensures IsCollapse(us, batch)
    ensures |batch| == |Replay(map[], us)|
  {
    var m: map<ObstacleId, Update> := map[];
    for k := 0 to |us|
      invariant Holds(m, Replay(map[], us[..k]))
    {
      assert us[..k + 1] == us[..k] + [us[k]];
      ReplayOne(map[], us[..k], us[k]);
      var u := us[k];
      if u.operation == Insert {
        m := m[u.id := u];
      } else {
        m := m - {u.id};
      }
    }
    assert us[..|us|] == us;
    batch := Rebuild(m, Replay(map[], us));
  }

  // The entries of `done` are listed.
  ghost predicate Listed(batch: seq<Update>, target: ObstacleMap, done: set<ObstacleId>) {
    && InsertsOnly(batch) && DistinctIds(batch) && |batch| == |done|
    && (forall i :: 0 <= i < |batch| ==> batch[i].id in done)
    && Replay(map[], batch) == Restrict(target, done)
  }

  lemma ListOne(m: map<ObstacleId, Update>, target: ObstacleMap, batch: seq<Update>, done: set<ObstacleId>, k: ObstacleId)
    requires Holds(m, target) && Listed(batch, target, done) && k in m && k !in done
    ensures Listed(batch + [m[k]], target, done + {k})
  {
    ReplayOne(map[], batch, m[k]);
    RestrictMore(target, done, k);
    hide Replay, Restrict;
  }

  lemma ListNone(target: ObstacleMap)
    ensures Listed([], target, {})
  {
  }

  // All surviving entries, in the arbitrary order of a hash map.
  method Rebuild(m: map<ObstacleId, Update>, ghost target: ObstacleMap) returns (batch: seq<Update>)
    requires Holds(m, target)
    ensures InsertsOnly(batch) && DistinctIds(batch) && Replay(map[], batch) == target
    ensures |batch| == |target|
  {
    batch := [];
    var todo := m.Keys;
    ghost var done: set<ObstacleId> := {};
    ListNone(target);
    assert Holds(m, target);
    hide Listed, Holds;
    while todo != {}
      invariant done + todo == m.Keys && done !! todo && Listed(batch, target, done)
      decreases todo
    {
      var k :| k in todo;
      ListOne(m, target, batch, done, k);
      batch, todo, done := batch + [m[k]], todo - {k}, done + {k};
    }
    assert done == m.Keys;
    AllListed(m, target, batch, done);
  }

  lemma AllListed(m: map<ObstacleId, Update>, target: ObstacleMap, batch: seq<Update>, done: set<ObstacleId>)
    requires Holds(m, target) && Listed(batch, target, done) && done == m.Keys
    ensures InsertsOnly(batch) && DistinctIds(batch) && Replay(map[], batch) == target && |batch| == |target|
  {
    RestrictAll(target, done);
    assert |target.Keys| == |target|;
  }

  lemma {:induction false} InsertsOverlay(m: ObstacleMap, batch: seq<Update>)
    requires InsertsOnly(batch)
    ensures Replay(m, batch) == m + Replay(map[], batch)
  {
    if batch != [] {
      InsertsOverlay(m, batch[..|batch| - 1]);
    }
  }

  /** From the empty map a collapsed batch stands for the raw one, whatever follows. */
  lemma CollapsePreservesReplay(us: seq<Update>, batch: seq<Update>, more: seq<Update>)
    requires IsCollapse(us, batch)
    ensures Replay(map[], batch + more) == Replay(map[], us + more)
  {
    ReplayConcat(map[], batch, more);
    ReplayConcat(map[], us, more);
  }

  /** On a map already in use, collapse equals full replay exactly when no key of that map has
      DELETE as its last operation in the batch. */
  lemma CollapseExactOn(m: ObstacleMap, us: seq<Update>, batch: seq<Update>)
    requires IsCollapse(us, batch)
    ensures Replay(m, batch) == Replay(m, us) <==> forall k :: k in m ==> !LastIs(us, k, Delete)
  {
    InsertsOverlay(m, batch);
    var overlaid := m + Replay(map[], us);
    forall k: ObstacleId
      ensures LastIs(us, k, Delete) ==> k !in Replay(m, us) && k !in Replay(map[], us)
      ensures !LastIs(us, k, Delete) ==> (k in Replay(m, us) <==> k in overlaid)
      ensures !LastIs(us, k, Delete) && k in overlaid ==> Replay(m, us)[k] == overlaid[k]
    {
      OneKey(m, us, k);
    }
    if forall k :: k in m ==> !LastIs(us, k, Delete) {
      MapsEqual(Replay(m, us), overlaid);
    } else {
      var k :| k in m && LastIs(us, k, Delete);
      assert k in overlaid && k !in Replay(m, us);
    }
  }

  // Full replay over m, compared with the replay from nothing laid over m.
  lemma OneKey(m: ObstacleMap, us: seq<Update>, k: ObstacleId)
    ensures LastIs(us, k, Delete) ==> k !in Replay(m, us) && k !in Replay(map[], us)
    ensures !LastIs(us, k, Delete) ==> (k in Replay(m, us) <==> k in m + Replay(map[], us))
    ensures !LastIs(us, k, Delete) && k in Replay(m, us) ==> Replay(m, us)[k] == (m + Replay(map[], us))[k]
  {
    if Touches(us, k) {
      var i := TouchedHasLast(us, k);
      LastDecides(m, us, k, i);
      LastDecides(map[], us, k, i);
      assert forall j: nat :: LastAt(us, k, j) ==> j == i;
    } else {
      UntouchedKept(m, us, k);
      UntouchedKept(map[], us, k);
    }
  }

  // ---------------------------------------------------------------- the extractor

  class MapDataExtractor {
    var obstacles: ObstacleMap
    var inserts: nat
    var deletes: nat

    constructor ()
      ensures obstacles == map[] && inserts == 0 && deletes == 0
    {
      obstacles, inserts, deletes := map[], 0, 0;
    }

    method ProcessObstacles(pallets: seq<Pallet>)
      modifies this
      ensures obstacles == Replay(old(obstacles), ParseAll(pallets))
      ensures inserts == old(inserts) + Count(ParseAll(pallets), Insert)
      ensures deletes == old(deletes) + Count(ParseAll(pallets), Delete)
    {
      for k := 0 to |pallets|
        invariant obstacles == Replay(old(obstacles), ParseAll(pallets[..k]))
        invariant inserts == old(inserts) + Count(ParseAll(pallets[..k]), Insert)
        invariant deletes == old(deletes) + Count(ParseAll(pallets[..k]), Delete)
      {
        ParseMore(pallets, k);
        ParseStep(old(obstacles), ParseAll(pallets[..k]), pallets[k]);
        hide Replay, Count, ParseAll, Parse;
        ProcessPallet(pallets[k]);
      }
      assert pallets[..|pallets|] == pallets;
    }

    // The loop body.
    method ProcessPallet(pallet: Pallet)
      modifies this
      ensures obstacles == if Parse(pallet) == [] then old(obstacles) else Apply(old(obstacles), Parse(pallet)[0])
      ensures inserts == old(inserts) + if Parse(pallet) != [] && Parse(pallet)[0].operation == Insert then 1 else 0
      ensures deletes == old(deletes) + if Parse(pallet) != [] && Parse(pallet)[0].operation == Delete then 1 else 0
    {
      if pallet.id.None? {
        return;
      }
      var operation := if pallet.operation.Some? then pallet.operation.value else "INSERT";
      if operation == "INSERT" && pallet.aabb.Some? && pallet.aabb.value != [] {
        var b := pallet.aabb.value;
        if AabbOk(b) {
          obstacles := obstacles[pallet.id.value := Geometry(b[0][0], b[0][1], b[1][0], b[1][1])];
          inserts := inserts + 1;
        }
      } else if operation == "DELETE" {
        if pallet.id.value in obstacles {
          obstacles := obstacles - {pallet.id.value};
        }
        deletes := deletes + 1;
      }
    }

    // Nothing is saved for an empty map; otherwise one INSERT per obstacle.
    method SaveObstacles() returns (pallets: Option<seq<Pallet>>)
      ensures pallets.None? <==> obstacles == map[]
      ensures pallets.Some? ==> Replay(map[], ParseAll(pallets.value)) == obstacles
      ensures pallets.Some? ==> |pallets.value| == |obstacles|
    {
      if obstacles == map[] {
        return None;
      }
      var out: seq<Pallet> := [];
      var todo := obstacles.Keys;
      ghost var done: set<ObstacleId> := {};
      SaveNone(obstacles);
      hide Saved;
      while todo != {}
        invariant done + todo == obstacles.Keys && done !! todo && Saved(out, obstacles, done)
        decreases todo
      {
        var k :| k in todo;
        var o := obstacles[k];
        SaveOne(obstacles, out, done, k);
        out := out + [Pallet(Some(k), Some("INSERT"), Some([[o.xMin, o.yMin], [o.xMax, o.yMax]]))];
        todo, done := todo - {k}, done + {k};
      }
      assert done == obstacles.Keys;
      AllSaved(obstacles, out, done);
      return Some(out);
    }
  }
}
