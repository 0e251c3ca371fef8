/** `SegmentationStrategy::regionGrow`: breadth-first region growing.

    The result is pinned down by the graph alone: regions are the connected components of the
    neighbour relation, those below `min_segment_size` get -1, and the others are numbered in the
    order of their smallest index. */
module RegionGrow {
  import opened NeighbourGraph

  const NO_REGION := -1

  ghost function Component(g: Graph, p: nat): set<nat> {
    set q | q in Points(|g|) && Linked(g, Points(|g|), p, q)
  }

  // The points that get a region id, ahead of point p.
  ghost predicate StartsRegion(g: Graph, minSize: nat, s: nat) {
    && s < |g|
    && |Component(g, s)| >= minSize
    && forall q :: q in Component(g, s) ==> s <= q
  }

  ghost predicate ValidStarts(g: Graph, minSize: nat, starts: seq<nat>, bound: nat) {
    && (forall s: nat :: s in starts <==> s < bound && StartsRegion(g, minSize, s))
    && (forall c, d :: 0 <= c < d < |starts| ==> starts[c] < starts[d])
  }

  ghost predicate LabelOk(g: Graph, minSize: nat, lab: int, starts: seq<nat>, p: nat) {
    if |Component(g, p)| < minSize
    then lab == NO_REGION
    else 0 <= lab < |starts| && p in Component(g, starts[lab])
  }

  ghost predicate IsRegions(g: Graph, minSize: nat, labels: seq<int>, starts: seq<nat>) {
    && |labels| == |g|
    && ValidStarts(g, minSize, starts, |g|)
    && forall p: nat :: p < |g| ==> LabelOk(g, minSize, labels[p], starts, p)
  }

  ghost predicate IsRegionsResult(g: Graph, minSize: nat, labels: seq<int>) {
    exists starts :: IsRegions(g, minSize, labels, starts)
  }

  lemma ComponentHolds(g: Graph, p: nat)
    requires p < |g|
    ensures p in Component(g, p)
  {
    LinkedRefl(g, Points(|g|), p);
  }

  lemma ComponentSame(g: Graph, p: nat, q: nat)
    requires Symmetric(g) && q in Component(g, p)
    ensures Component(g, p) == Component(g, q)
  {
    var all := Points(|g|);
    LinkedSym(g, all, p, q);
    forall x: nat
      ensures x in Component(g, p) <==> x in Component(g, q)
    {
      if Linked(g, all, p, x) { LinkedTrans(g, all, q, p, x); }
      if Linked(g, all, q, x) { LinkedTrans(g, all, p, q, x); }
    }
  }

  ghost predicate Distinct(s: seq<nat>) {
    forall i, j :: 0 <= i < j < |s| ==> s[i] != s[j]
  }

  ghost function Elems(s: seq<nat>): (r: set<nat>)
    ensures forall x :: x in r <==> x in s
  {
    set x | x in s
  }

  lemma {:induction false} DistinctSize(s: seq<nat>)
    requires Distinct(s)
    ensures |Elems(s)| == |s|
  {
    if s != [] {
      var t := s[..|s| - 1];
      DistinctSize(t);
      assert s == t + [s[|s| - 1]];
      assert Elems(s) == Elems(t) + {s[|s| - 1]};
    }
  }

  ghost function Unvisited(visited: seq<bool>): set<nat> {
    set p | p in Points(|visited|) && !visited[p]
  }

  // What is visited is a union of whole components.
  ghost predicate WholeComponents(g: Graph, visited: seq<bool>) {
    && |visited| == |g|
    && forall p: nat, q: nat :: p < |g| && visited[p] && q in g[p] && q < |g| ==> visited[q]
  }

  // While the component of `seed` is explored: `seen` = explored ++ queued, all new and distinct.
  ghost predicate Exploring(g: Graph, base: seq<bool>, visited: seq<bool>, seed: nat, region: seq<nat>, queue: seq<nat>) {
    && |base| == |visited| == |g| && seed < |g|
    && Distinct(region + queue)
    && (forall p: nat :: p < |g| ==> (visited[p] <==> base[p] || p in region + queue))
    && (forall p :: p in region + queue ==> p in Component(g, seed) && !base[p])
    && seed in region + queue
    && (forall p: nat, q: nat :: p in region && p < |g| && q in g[p] && q < |g| ==> visited[q])
  }

  lemma ExploredIsComponent(g: Graph, base: seq<bool>, visited: seq<bool>, seed: nat, region: seq<nat>)
    requires Symmetric(g) && WholeComponents(g, base) && Exploring(g, base, visited, seed, region, [])
    ensures Elems(region) == Component(g, seed) && |region| == |Component(g, seed)|
    ensures WholeComponents(g, visited)
  {
    assert region + [] == region;
    forall q | q in Component(g, seed)
      ensures q in region
    {
      forall x, y | x in Elems(region) && x < |g| && y in g[x] && y < |g|
        ensures y in Elems(region)
      {
        assert visited[y];
        assert x in g[y];
      }
      ClosedContainsLinked(g, Points(|g|), Elems(region), seed, q);
    }
    DistinctSize(region);
  }

  // Visiting the next neighbour of `current`.
  lemma VisitNeighbour(g: Graph, seed: nat, current: nat, n: nat)
    requires current in Component(g, seed) && n in g[current] && n < |g|
    ensures n in Component(g, seed)
  {
    LinkedStep(g, Points(|g|), seed, current, n);
  }

  // The `for (neighbor_idx : neighbors)` loop.
  method VisitNeighbours(g: Graph, current: nat, visited0: seq<bool>, queue0: seq<nat>)
    returns (visited: seq<bool>, queue: seq<nat>, ghost added: seq<nat>)
    requires Symmetric(g) && current < |g| && |visited0| == |g|
    ensures |visited| == |g| && queue == queue0 + added && Distinct(added)
    ensures forall p :: p in added ==> p in g[current] && p < |g| && !visited0[p]
    ensures forall p: nat :: p < |g| ==> (visited[p] <==> visited0[p] || p in g[current])
    ensures forall p: nat :: p < |g| ==> (visited[p] <==> visited0[p] || p in added)
  {
    visited, queue, added := visited0, queue0, [];
    var neighbors := g[current];
    for k := 0 to |neighbors|
      invariant |visited| == |g| && queue == queue0 + added && Distinct(added)
      invariant forall p :: p in added ==> p in g[current] && p < |g| && !visited0[p]
      invariant forall p: nat :: p < |g| ==> (visited[p] <==> visited0[p] || p in neighbors[..k])
      invariant forall p: nat :: p < |g| ==> (visited[p] <==> visited0[p] || p in added)
    {
      var n := neighbors[k];
      if !visited[n] {
        visited, queue, added := visited[n := true], queue + [n], added + [n];
      }
    }
  }

  lemma ExploreStep(g: Graph, base: seq<bool>, visited: seq<bool>, seed: nat, region: seq<nat>, queue: seq<nat>,
                    visited': seq<bool>, added: seq<nat>)
    requires Symmetric(g) && Exploring(g, base, visited, seed, region, queue) && |queue| > 0 && queue[0] < |g|
    requires |visited'| == |g| && Distinct(added)
    requires forall p :: p in added ==> p in g[queue[0]] && p < |g| && !visited[p]
    requires forall p: nat :: p < |g| ==> (visited'[p] <==> visited[p] || p in g[queue[0]])
    requires forall p: nat :: p < |g| ==> (visited'[p] <==> visited[p] || p in added)
    ensures Exploring(g, base, visited', seed, region + [queue[0]], queue[1..] + added)
  {
    var current := queue[0];
    var region', queue' := region + [current], queue[1..] + added;
    var all := region + queue;
    assert region' + queue' == all + added;
    assert current in all;
    forall i, j | 0 <= i < j < |all + added|
      ensures (all + added)[i] != (all + added)[j]
    {
      if i < |all| <= j {
        assert all[i] in all && added[j - |all|] in added;
      }
    }
    forall p | p in added
      ensures p in Component(g, seed)
    {
      VisitNeighbour(g, seed, current, p);
    }
  }

  method ExploreRegion(g: Graph, base: seq<bool>, seed: nat) returns (visited: seq<bool>, region: seq<nat>)
    requires Symmetric(g) && WholeComponents(g, base) && seed < |g| && !base[seed]
    ensures WholeComponents(g, visited) && |visited| == |g| && |region| == |Component(g, seed)|
    ensures forall p :: p in region <==> p in Component(g, seed)
    ensures forall k :: 0 <= k < |region| ==> region[k] < |g|
    ensures forall p: nat :: p < |g| ==> (visited[p] <==> base[p] || p in Component(g, seed))
  {
    var queue := [seed];
    region := [];
    visited := base[seed := true];
    ComponentHolds(g, seed);
    assert region + queue == [seed];
    while queue != []
      invariant Exploring(g, base, visited, seed, region, queue)
      decreases Unvisited(visited), |queue|
    {
      var current := queue[0];
      assert current in region + queue;
      ghost var before, queueBefore := visited, queue;
      ghost var added;
      visited, queue, added := VisitNeighbours(g, current, visited, queue[1..]);
      ExploreStep(g, base, before, seed, region, queueBefore, visited, added);
      region := region + [current];
      if added != [] {
        assert added[0] in added;
        assert added[0] in Unvisited(before) && added[0] !in Unvisited(visited);
      } else {
        assert Unvisited(visited) == Unvisited(before);
      }
    }
    ExploredIsComponent(g, base, visited, seed, region);
    assert region + [] == region;
    assert forall p :: p in region <==> p in Elems(region);
    forall k | 0 <= k < |region|
      ensures region[k] < |g|
    {
      assert region[k] in region;
    }
  }

  // What holds before the outer loop looks at index i.
  ghost predicate Grown(g: Graph, minSize: nat, labels: seq<int>, visited: seq<bool>, starts: seq<nat>, i: nat) {
    && |labels| == |visited| == |g|
    && WholeComponents(g, visited)
    && ValidStarts(g, minSize, starts, i)
    && (forall p: nat :: p < i && p < |g| ==> visited[p])
    && (forall p: nat :: p < |g| && visited[p] ==> SeenBelow(g, p, i) && LabelOk(g, minSize, labels[p], starts, p))
    && (forall p: nat :: p < |g| && !visited[p] ==> labels[p] == NO_REGION)
  }

  ghost predicate SeenBelow(g: Graph, p: nat, i: nat) {
    exists q :: q in Component(g, p) && q < i
  }

  lemma SkipVisited(g: Graph, minSize: nat, labels: seq<int>, visited: seq<bool>, starts: seq<nat>, i: nat)
    requires Grown(g, minSize, labels, visited, starts, i) && i < |g| && visited[i]
    ensures Grown(g, minSize, labels, visited, starts, i + 1)
  {
  }

  // The first unvisited index is the smallest of its component.
  lemma SeedIsLeast(g: Graph, minSize: nat, labels: seq<int>, visited: seq<bool>, starts: seq<nat>, i: nat, q: nat)
    requires Symmetric(g) && Grown(g, minSize, labels, visited, starts, i) && i < |g| && !visited[i] && q in Component(g, i)
    ensures i <= q && !visited[q]
  {
    if visited[q] {
      var closed := set x | x in Points(|g|) && visited[x];
      LinkedSym(g, Points(|g|), i, q);
      ClosedContainsLinked(g, Points(|g|), closed, q, i);
    }
  }

  // The outer loop's step for an unvisited index, in terms of the old and the new state.
  ghost predicate RegionStep(g: Graph, minSize: nat, labels: seq<int>, visited: seq<bool>, starts: seq<nat>, i: nat,
                             labels': seq<int>, visited': seq<bool>, starts': seq<nat>) {
    && i < |g| && |labels| == |visited| == |labels'| == |visited'| == |g|
    && (forall p: nat :: p < |g| ==> (visited'[p] <==> visited[p] || p in Component(g, i)))
    && starts' == (if |Component(g, i)| >= minSize then starts + [i] else starts)
    && (forall p: nat :: p < |g| ==>
          labels'[p] == if p in Component(g, i) && |Component(g, i)| >= minSize then |starts| else labels[p])
  }

  lemma NewRegion(g: Graph, minSize: nat, labels: seq<int>, visited: seq<bool>, starts: seq<nat>, i: nat,
                  labels': seq<int>, visited': seq<bool>, starts': seq<nat>)
    requires Symmetric(g) && Grown(g, minSize, labels, visited, starts, i) && i < |g| && !visited[i]
    requires RegionStep(g, minSize, labels, visited, starts, i, labels', visited', starts')
    requires WholeComponents(g, visited')
    ensures Grown(g, minSize, labels', visited', starts', i + 1)
  {
    hide Component, WholeComponents, ValidStarts, LabelOk, SeenBelow, Symmetric;
    SeedComponent(g, minSize, labels, visited, starts, i);
    NewStart(g, minSize, starts, i);
    forall p: nat | p < |g| && visited'[p]
      ensures SeenBelow(g, p, i + 1) && LabelOk(g, minSize, labels'[p], starts', p)
    {
      NewLabel(g, minSize, labels[p], starts, i, p, labels'[p], visited[p]);
    }
  }

  lemma SeedComponent(g: Graph, minSize: nat, labels: seq<int>, visited: seq<bool>, starts: seq<nat>, i: nat)
    requires Symmetric(g) && Grown(g, minSize, labels, visited, starts, i) && i < |g| && !visited[i]
    ensures i in Component(g, i)
    ensures forall q :: q in Component(g, i) ==> i <= q && q < |g| && !visited[q] && Component(g, q) == Component(g, i)
  {
    ComponentHolds(g, i);
    forall q | q in Component(g, i)
      ensures i <= q && !visited[q] && Component(g, q) == Component(g, i)
    {
      SeedIsLeast(g, minSize, labels, visited, starts, i, q);
      ComponentSame(g, i, q);
    }
  }

  lemma NewLabel(g: Graph, minSize: nat, lab: int, starts: seq<nat>, i: nat, p: nat, lab': int, seen: bool)
    requires i < |g| && p < |g| && i in Component(g, i) && (seen || p in Component(g, i))
    requires p in Component(g, i) ==> Component(g, p) == Component(g, i)
    requires if seen then p !in Component(g, i) && SeenBelow(g, p, i) && LabelOk(g, minSize, lab, starts, p) else lab == NO_REGION
    requires lab' == if p in Component(g, i) && |Component(g, i)| >= minSize then |starts| else lab
    ensures SeenBelow(g, p, i + 1)
    ensures LabelOk(g, minSize, lab', if |Component(g, i)| >= minSize then starts + [i] else starts, p)
  {
  }

  lemma NewStart(g: Graph, minSize: nat, starts: seq<nat>, i: nat)
    requires ValidStarts(g, minSize, starts, i) && i < |g|
    requires forall q :: q in Component(g, i) ==> i <= q
    ensures ValidStarts(g, minSize, if |Component(g, i)| >= minSize then starts + [i] else starts, i + 1)
  {
    hide Component;
    assert StartsRegion(g, minSize, i) <==> |Component(g, i)| >= minSize;
    assert forall c :: 0 <= c < |starts| ==> starts[c] in starts;
  }

  // `for (idx : current_region) region_labels[idx] = region_id`
  method LabelRegion(labels0: seq<int>, region: seq<nat>, regionId: int) returns (labels: seq<int>)
    requires forall k :: 0 <= k < |region| ==> region[k] < |labels0|
    ensures |labels| == |labels0|
    ensures forall p :: 0 <= p < |labels| ==> labels[p] == if p in region then regionId else labels0[p]
  {
    labels := labels0;
    for k := 0 to |region|
      invariant |labels| == |labels0|
      invariant forall p :: 0 <= p < |labels| ==> labels[p] == if p in region[..k] then regionId else labels0[p]
    {
      labels := labels[region[k] := regionId];
    }
  }

  /** `g` stands for the neighbour lists at `region_grow_threshold`. */
  method Grow(g: Graph, minSize: nat) returns (labels: seq<int>)
    requires Symmetric(g)
    ensures IsRegionsResult(g, minSize, labels)
  {
    hide WholeComponents, Component, LabelOk;
    labels := seq(|g|, _ => NO_REGION);
    ghost var starts: seq<nat> := [];
    var visited := seq(|g|, _ => false);
    var regionId := 0;
    assert WholeComponents(g, visited) by { EmptyIsWhole(g, visited); }
    for seed := 0 to |g|
      invariant Grown(g, minSize, labels, visited, starts, seed)
      invariant regionId == |starts|
    {
      if visited[seed] {
        SkipVisited(g, minSize, labels, visited, starts, seed);
        continue;
      }
      ghost var labels0, visited0, starts0 := labels, visited, starts;
      var region;
      visited, region := ExploreRegion(g, visited, seed);
      if |region| >= minSize {
        labels := LabelRegion(labels, region, regionId);
        starts := starts + [seed];
        regionId := regionId + 1;
      }
      NewRegion(g, minSize, labels0, visited0, starts0, seed, labels, visited, starts);
    }
    assert IsRegions(g, minSize, labels, starts);
  }

  lemma EmptyIsWhole(g: Graph, visited: seq<bool>)
    requires |visited| == |g| && forall p :: 0 <= p < |g| ==> !visited[p]
    ensures WholeComponents(g, visited)
  {
  }

  // ---------------------------------------------------------------- what the labels mean

  /** Same region id exactly when connected, for every point whose component is large enough. */
  lemma SameRegionIffConnected(g: Graph, minSize: nat, labels: seq<int>, starts: seq<nat>, p: nat, q: nat)
    requires Symmetric(g) && IsRegions(g, minSize, labels, starts) && p < |g| && q < |g| && labels[p] != NO_REGION
    ensures labels[p] == labels[q] <==> Linked(g, Points(|g|), p, q)
  {
    ComponentSame(g, starts[labels[p]], p);
    if labels[q] != NO_REGION {
      ComponentSame(g, starts[labels[q]], q);
    }
    ComponentHolds(g, q);
    if Linked(g, Points(|g|), p, q) {
      assert q in Component(g, p);
      ComponentSame(g, p, q);
      var a, b := starts[labels[p]], starts[labels[q]];
      assert a in starts && b in starts;
      ComponentHolds(g, a);
      ComponentHolds(g, b);
      assert a <= b && b <= a;
    }
  }

  /** Neighbours are never told apart. */
  lemma NeighboursAgree(g: Graph, minSize: nat, labels: seq<int>, starts: seq<nat>, p: nat, q: nat)
    requires Symmetric(g) && IsRegions(g, minSize, labels, starts) && p < |g| && q < |g| && q in g[p]
    ensures labels[p] == labels[q]
  {
    LinkedRefl(g, Points(|g|), p);
    LinkedStep(g, Points(|g|), p, p, q);
    assert q in Component(g, p);
    ComponentSame(g, p, q);
    if labels[p] != NO_REGION {
      SameRegionIffConnected(g, minSize, labels, starts, p, q);
    }
  }

  /** A point has no region exactly when its component is below the minimum size. */
  lemma NoRegionIffSmall(g: Graph, minSize: nat, labels: seq<int>, starts: seq<nat>, p: nat)
    requires Symmetric(g) && IsRegions(g, minSize, labels, starts) && p < |g|
    ensures labels[p] == NO_REGION <==> |Component(g, p)| < minSize
  {
  }

  /** Region ids follow the order of each component's smallest index. */
  lemma RegionOrder(g: Graph, minSize: nat, labels: seq<int>, starts: seq<nat>, p: nat, q: nat, a: nat, b: nat)
    requires Symmetric(g) && IsRegions(g, minSize, labels, starts) && p < |g| && q < |g|
    requires labels[p] != NO_REGION && labels[q] != NO_REGION
    requires a in Component(g, p) && (forall x :: x in Component(g, p) ==> a <= x)
    requires b in Component(g, q) && (forall x :: x in Component(g, q) ==> b <= x)
    ensures a == starts[labels[p]] && b == starts[labels[q]]
    ensures labels[p] < labels[q] <==> a < b
  {
    LeastIsStart(g, minSize, labels, starts, p, a);
    LeastIsStart(g, minSize, labels, starts, q, b);
  }

  lemma LeastIsStart(g: Graph, minSize: nat, labels: seq<int>, starts: seq<nat>, p: nat, a: nat)
    requires Symmetric(g) && IsRegions(g, minSize, labels, starts) && p < |g| && labels[p] != NO_REGION
    requires a in Component(g, p) && (forall x :: x in Component(g, p) ==> a <= x)
    ensures 0 <= labels[p] < |starts| && a == starts[labels[p]]
  {
    var s := starts[labels[p]];
    assert s in starts;
    ComponentSame(g, s, p);
    ComponentHolds(g, s);
  }

  /** The graph and the minimum size determine every label. */
  lemma RegionsUnique(g: Graph, minSize: nat, l: seq<int>, s: seq<nat>, l': seq<int>, s': seq<nat>)
    requires Symmetric(g) && IsRegions(g, minSize, l, s) && IsRegions(g, minSize, l', s')
    ensures l == l' && s == s'
  {
    forall x: nat ensures x in s <==> x in s' {
      assert x in s <==> x < |g| && StartsRegion(g, minSize, x);
    }
    IncreasingUnique(s, s');
    forall p: nat | p < |g|
      ensures l[p] == l'[p]
    {
      if l[p] != NO_REGION {
        ComponentSame(g, s[l[p]], p);
        ComponentSame(g, s[l'[p]], p);
        ComponentHolds(g, s[l[p]]);
        ComponentHolds(g, s[l'[p]]);
        assert s[l[p]] in s && s[l'[p]] in s;
      }
    }
  }
}
