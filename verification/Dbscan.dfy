/** `SegmentationStrategy::dbscan`: density clustering with a work list.

    The seed of a cluster enqueues all its neighbours, an expanded core point only those still
    unvisited. The textbook rule "noise iff no core point nearby" therefore fails; `Claims` is
    the rule the code does follow, and `IsDbscan` determines the labelling uniquely. */
module Dbscan {
  import opened NeighbourGraph

  const UNVISITED := -2
  const NOISE := -1

  ghost function Cores(g: Graph, minPoints: nat): set<nat> {
    set i | i in Points(|g|) && |g[i]| >= minPoints
  }

  // Cluster c reaches the non-core point p: one of its core points is a neighbour of p, and p was
  // either not yet visited when the cluster was seeded or is a neighbour of the seed itself.
  ghost predicate Claims(g: Graph, minPoints: nat, labels: seq<int>, seeds: seq<nat>, c: int, p: nat)
    requires |labels| == |g| && p < |g|
  {
    && 0 <= c < |seeds| && seeds[c] < |g|
    && (exists q :: q in Cores(g, minPoints) && labels[q] == c && p in g[q])
    && (seeds[c] < p || p in g[seeds[c]])
  }

  ghost predicate NoClaimBelow(g: Graph, minPoints: nat, labels: seq<int>, seeds: seq<nat>, k: int, p: nat)
    requires |labels| == |g| && p < |g|
  {
    forall c :: 0 <= c < k ==> !Claims(g, minPoints, labels, seeds, c, p)
  }

  ghost predicate ValidSeeds(g: Graph, minPoints: nat, labels: seq<int>, seeds: seq<nat>)
    requires |labels| == |g|
  {
    && (forall c :: 0 <= c < |seeds| ==> seeds[c] in Cores(g, minPoints) && labels[seeds[c]] == c)
    && (forall c, d :: 0 <= c < d < |seeds| ==> seeds[c] < seeds[d])
  }

  ghost predicate CoreLabelOk(g: Graph, minPoints: nat, labels: seq<int>, seeds: seq<nat>, p: nat)
    requires |labels| == |g| && p < |g|
  {
    && 0 <= labels[p] < |seeds|
    && seeds[labels[p]] <= p
    && Linked(g, Cores(g, minPoints), seeds[labels[p]], p)
  }

  ghost predicate BorderLabelOk(g: Graph, minPoints: nat, labels: seq<int>, seeds: seq<nat>, p: nat)
    requires |labels| == |g| && p < |g|
  {
    && Claims(g, minPoints, labels, seeds, labels[p], p)
    && NoClaimBelow(g, minPoints, labels, seeds, labels[p], p)
  }

  /** The finished labelling, with `seeds[c]` the first point of cluster c. */
  ghost predicate IsDbscan(g: Graph, minPoints: nat, labels: seq<int>, seeds: seq<nat>) {
    && |labels| == |g|
    && ValidSeeds(g, minPoints, labels, seeds)
    && (forall p: nat :: p in Cores(g, minPoints) ==> CoreLabelOk(g, minPoints, labels, seeds, p))
    && (forall p: nat, q: nat :: p in Cores(g, minPoints) && q in Cores(g, minPoints) && q in g[p]
                                 ==> labels[p] == labels[q])
    && (forall p: nat :: p < |g| && p !in Cores(g, minPoints) ==>
                           if labels[p] == NOISE
                           then NoClaimBelow(g, minPoints, labels, seeds, |seeds|, p)
                           else BorderLabelOk(g, minPoints, labels, seeds, p))
  }

  ghost predicate IsDbscanResult(g: Graph, minPoints: nat, labels: seq<int>) {
    exists seeds :: IsDbscan(g, minPoints, labels, seeds)
  }

  // What holds of every label already given, at any moment of the scan.
  ghost predicate Partial(g: Graph, minPoints: nat, labels: seq<int>, seeds: seq<nat>) {
    && |labels| == |g|
    && ValidSeeds(g, minPoints, labels, seeds)
    && (forall p: nat :: p < |g| ==> UNVISITED <= labels[p] < |seeds|)
    && (forall p: nat :: p in Cores(g, minPoints) && labels[p] != UNVISITED ==>
                           CoreLabelOk(g, minPoints, labels, seeds, p))
    && (forall p: nat :: p < |g| && p !in Cores(g, minPoints) && labels[p] >= 0 ==>
                           BorderLabelOk(g, minPoints, labels, seeds, p))
  }

  // Clusters below k are finished: nothing unvisited touches them, and no noise is theirs to claim.
  ghost predicate Finished(g: Graph, minPoints: nat, labels: seq<int>, seeds: seq<nat>, k: int)
    requires |labels| == |g|
  {
    && (forall q: nat, n: nat :: q in Cores(g, minPoints) && 0 <= labels[q] < k && n in g[q] && n < |g| ==>
                                   && labels[n] != UNVISITED
                                   && (n in Cores(g, minPoints) ==> labels[n] == labels[q]))
    && (forall p: nat :: p < |g| && labels[p] == NOISE ==> NoClaimBelow(g, minPoints, labels, seeds, k, p))
  }

  // Points below i have been visited, and noise is only ever found by the outer scan.
  ghost predicate Scanned(g: Graph, labels: seq<int>, i: nat)
    requires |labels| == |g|
  {
    && (forall p: nat :: p < i && p < |g| ==> labels[p] != UNVISITED)
    && (forall p: nat :: p < |g| && labels[p] == NOISE ==> p < i)
  }

  ghost predicate TouchesCluster(g: Graph, minPoints: nat, labels: seq<int>, k: int, p: nat)
    requires |labels| == |g|
  {
    exists q :: q in Cores(g, minPoints) && labels[q] == k && p in g[q]
  }

  // What every queued point is to the newest cluster k, seeded at i.
  ghost predicate Queueable(g: Graph, minPoints: nat, labels: seq<int>, k: int, i: nat, q: nat)
    requires |labels| == |g| && i < |g|
  {
    && q < |g|
    && TouchesCluster(g, minPoints, labels, k, q)
    && (labels[q] == NOISE ==> q in g[i])
  }

  // The queue holds only points next to cluster k, every unvisited point next to one of its core
  // points, and every neighbour of the seed not yet in a cluster.
  ghost predicate QueueOk(g: Graph, minPoints: nat, labels: seq<int>, k: int, i: nat, queue: seq<nat>)
    requires |labels| == |g| && i < |g|
  {
    && (forall j :: 0 <= j < |queue| ==> Queueable(g, minPoints, labels, k, i, queue[j]))
    && (forall x: nat, n: nat :: (x in Cores(g, minPoints) && labels[x] == k && n in g[x] && n < |g|
                                  && labels[n] == UNVISITED) ==> n in queue)
    && (forall n: nat :: n in g[i] && n < |g| ==> labels[n] >= 0 || n in queue)
  }

  // The state of the inner loop, while cluster |seeds|-1 grows from its seed i.
  ghost predicate Growing(g: Graph, minPoints: nat, labels: seq<int>, seeds: seq<nat>, i: nat, queue: seq<nat>) {
    && |labels| == |g|
    && Partial(g, minPoints, labels, seeds)
    && |seeds| > 0 && seeds[|seeds| - 1] == i && i < |g|
    && Finished(g, minPoints, labels, seeds, |seeds| - 1)
    && Scanned(g, labels, i)
    && QueueOk(g, minPoints, labels, |seeds| - 1, i, queue)
  }

  ghost function Unvisited(labels: seq<int>): set<nat> {
    set p | p in Points(|labels|) && labels[p] == UNVISITED
  }

  // Two states that agree on all clusters below k.
  ghost predicate SameBelow(g: Graph, minPoints: nat, l: seq<int>, s: seq<nat>, l': seq<int>, s': seq<nat>, k: nat) {
    && |l| == |l'| == |g| && k <= |s| && k <= |s'|
    && (forall c :: 0 <= c < k ==> s[c] == s'[c])
    && (forall q: nat :: q < |g| && (0 <= l[q] < k || 0 <= l'[q] < k) ==> l[q] == l'[q])
  }

  lemma SameClaims(g: Graph, minPoints: nat, l: seq<int>, s: seq<nat>, l': seq<int>, s': seq<nat>, k: nat, p: nat)
    requires SameBelow(g, minPoints, l, s, l', s', k) && p < |g|
    ensures forall c :: 0 <= c < k && Claims(g, minPoints, l, s, c, p) ==> Claims(g, minPoints, l', s', c, p)
    ensures forall b :: 0 <= b <= k && NoClaimBelow(g, minPoints, l, s, b, p) ==> NoClaimBelow(g, minPoints, l', s', b, p)
  {
    forall c | 0 <= c < k
      ensures Claims(g, minPoints, l, s, c, p) <==> Claims(g, minPoints, l', s', c, p)
    {
      forall q | q in Cores(g, minPoints)
        ensures l[q] == c <==> l'[q] == c
      {
        assert q < |g|;
      }
    }
    forall b | 0 <= b <= k && NoClaimBelow(g, minPoints, l, s, b, p)
      ensures NoClaimBelow(g, minPoints, l', s', b, p)
    {
      forall c | 0 <= c < b
        ensures !Claims(g, minPoints, l', s', c, p)
      {
        assert !Claims(g, minPoints, l, s, c, p);
      }
    }
  }

  // Growing the newest cluster keeps its own claims.
  lemma NewestClaim(g: Graph, minPoints: nat, labels: seq<int>, seeds: seq<nat>, x: nat, k: nat, p: nat)
    requires |labels| == |g| && p < |g| && x < |g| && Claims(g, minPoints, labels, seeds, k, p)
    ensures Claims(g, minPoints, labels[x := k], seeds, k, p)
  {
  }

  // The newest label given to a queued point is right for it.
  lemma NewLabelOk(g: Graph, minPoints: nat, labels: seq<int>, seeds: seq<nat>, i: nat, queue: seq<nat>)
    requires Symmetric(g)
    requires Growing(g, minPoints, labels, seeds, i, queue) && |queue| > 0 && queue[0] < |g| && labels[queue[0]] < 0
    ensures LabelOk(g, minPoints, labels[queue[0] := |seeds| - 1], seeds, queue[0])
    ensures queue[0] in Cores(g, minPoints) ==> labels[queue[0]] == UNVISITED
  {
    var k, x := |seeds| - 1, queue[0];
    var y := QueuedAt(g, minPoints, labels, seeds, i, queue);
    if x in Cores(g, minPoints) {
      hide Claims, NoClaimBelow, QueueOk, Finished, Scanned, Symmetric;
      LinkedStep(g, Cores(g, minPoints), i, y, x);
    } else {
      hide Partial, QueueOk, Finished, Scanned, Symmetric, NoClaimBelow;
      NoClaimYet(g, minPoints, labels, seeds, i, queue, x);
      SameClaims(g, minPoints, labels, seeds, labels[x := k], seeds, k, x);
      assert labels[x := k][y] == k;
    }
  }

  // The head of the queue touches the newest cluster, and comes after its seed or next to it.
  lemma QueuedAt(g: Graph, minPoints: nat, labels: seq<int>, seeds: seq<nat>, i: nat, queue: seq<nat>) returns (y: nat)
    requires Growing(g, minPoints, labels, seeds, i, queue) && |queue| > 0 && queue[0] < |g| && labels[queue[0]] < 0
    ensures y in Cores(g, minPoints) && y < |g| && labels[y] == |seeds| - 1 && queue[0] in g[y] && y != queue[0]
    ensures queue[0] in g[i] || i < queue[0]
    ensures Linked(g, Cores(g, minPoints), i, y)
    ensures queue[0] in Cores(g, minPoints) ==> labels[queue[0]] == UNVISITED && i <= queue[0]
  {
    var k, x := |seeds| - 1, queue[0];
    assert Queueable(g, minPoints, labels, k, i, x);
    y :| y in Cores(g, minPoints) && labels[y] == k && x in g[y];
    assert labels[x] != NOISE ==> x >= i && labels[i] == k;
  }

  lemma NoClaimYet(g: Graph, minPoints: nat, labels: seq<int>, seeds: seq<nat>, i: nat, queue: seq<nat>, x: nat)
    requires Growing(g, minPoints, labels, seeds, i, queue) && x < |g| && labels[x] < 0
    ensures NoClaimBelow(g, minPoints, labels, seeds, |seeds| - 1, x)
  {
    if labels[x] == UNVISITED {
      forall c | 0 <= c < |seeds| - 1
        ensures !Claims(g, minPoints, labels, seeds, c, x)
      {
        forall q | q in Cores(g, minPoints) && x in g[q]
          ensures labels[q] != c
        {
        }
      }
    }
  }

  ghost predicate LabelOk(g: Graph, minPoints: nat, labels: seq<int>, seeds: seq<nat>, x: nat)
    requires |labels| == |g| && x < |g|
  {
    if x in Cores(g, minPoints) then CoreLabelOk(g, minPoints, labels, seeds, x) else BorderLabelOk(g, minPoints, labels, seeds, x)
  }

  lemma RelabelPartial(g: Graph, minPoints: nat, labels: seq<int>, seeds: seq<nat>, x: nat)
    requires Partial(g, minPoints, labels, seeds) && x < |g| && labels[x] < 0 && |seeds| > 0
    requires LabelOk(g, minPoints, labels[x := |seeds| - 1], seeds, x)
    ensures Partial(g, minPoints, labels[x := |seeds| - 1], seeds)
  {
    var k := |seeds| - 1;
    var l' := labels[x := k];
    forall p: nat | p < |g| && p !in Cores(g, minPoints) && l'[p] >= 0
      ensures BorderLabelOk(g, minPoints, l', seeds, p)
    {
      if p != x {
        SameClaims(g, minPoints, labels, seeds, l', seeds, k, p);
        if l'[p] == k {
          NewestClaim(g, minPoints, labels, seeds, x, k, p);
        }
      }
    }
  }

  lemma RelabelFinished(g: Graph, minPoints: nat, labels: seq<int>, seeds: seq<nat>, x: nat, k: int)
    requires |labels| == |g| && Symmetric(g) && Finished(g, minPoints, labels, seeds, k) && x < |g| && labels[x] < 0 <= k <= |seeds|
    requires x in Cores(g, minPoints) ==> labels[x] == UNVISITED
    ensures Finished(g, minPoints, labels[x := k], seeds, k)
  {
    var l' := labels[x := k];
    forall p: nat | p < |g| && l'[p] == NOISE
      ensures NoClaimBelow(g, minPoints, l', seeds, k, p)
    {
      SameClaims(g, minPoints, labels, seeds, l', seeds, k, p);
    }
  }

  lemma StillQueueable(g: Graph, minPoints: nat, labels: seq<int>, k: nat, i: nat, q: nat, x: nat)
    requires |labels| == |g| && i < |g| && x < |g| && Queueable(g, minPoints, labels, k, i, q)
    ensures Queueable(g, minPoints, labels[x := k], k, i, q)
  {
  }

  // `more` is what popping x enqueues, once x carries its new label.
  ghost predicate Enqueues(g: Graph, minPoints: nat, labels: seq<int>, x: nat, more: seq<nat>)
    requires |labels| == |g| && x < |g|
  {
    if x in Cores(g, minPoints) then forall n :: n in more <==> n in g[x] && n < |g| && labels[n] == UNVISITED else more == []
  }

  lemma PopQueue(g: Graph, minPoints: nat, labels: seq<int>, k: nat, i: nat, queue: seq<nat>, more: seq<nat>)
    requires |labels| == |g| && i < |g| && QueueOk(g, minPoints, labels, k, i, queue)
    requires |queue| > 0 && queue[0] < |g|
    requires Enqueues(g, minPoints, labels[queue[0] := k], queue[0], more)
    ensures QueueOk(g, minPoints, labels[queue[0] := k], k, i, queue[1..] + more)
  {
    var x := queue[0];
    var l', queue' := labels[x := k], queue[1..] + more;
    forall j | 0 <= j < |queue'|
      ensures Queueable(g, minPoints, l', k, i, queue'[j])
    {
      if j < |queue| - 1 {
        StillQueueable(g, minPoints, labels, k, i, queue[j + 1], x);
      } else {
        assert queue'[j] in more;
        assert l'[x] == k && queue'[j] in g[x];
      }
    }
    forall q | q in queue && q != x
      ensures q in queue'
    {
      assert q in queue[1..];
    }
  }

  // Popping an unlabelled point gives it the newest label.
  lemma PopUnlabelled(g: Graph, minPoints: nat, labels: seq<int>, seeds: seq<nat>, i: nat, queue: seq<nat>, more: seq<nat>)
    requires Symmetric(g)
    requires Growing(g, minPoints, labels, seeds, i, queue) && |queue| > 0 && queue[0] < |g| && labels[queue[0]] < 0
    requires Enqueues(g, minPoints, labels[queue[0] := |seeds| - 1], queue[0], more)
    ensures Growing(g, minPoints, labels[queue[0] := |seeds| - 1], seeds, i, queue[1..] + more)
  {
    hide Partial, Finished, QueueOk, Enqueues, LabelOk, Symmetric;
    var k, x := |seeds| - 1, queue[0];
    NewLabelOk(g, minPoints, labels, seeds, i, queue);
    RelabelPartial(g, minPoints, labels, seeds, x);
    RelabelFinished(g, minPoints, labels, seeds, x, k);
    PopQueue(g, minPoints, labels, k, i, queue, more);
  }

  lemma PopLabelled(g: Graph, minPoints: nat, labels: seq<int>, k: nat, i: nat, queue: seq<nat>)
    requires |labels| == |g| && i < |g| && QueueOk(g, minPoints, labels, k, i, queue)
    requires |queue| > 0 && queue[0] < |g| && labels[queue[0]] >= 0
    ensures QueueOk(g, minPoints, labels, k, i, queue[1..])
  {
  }

  // What holds between two steps of the outer scan.
  ghost predicate Between(g: Graph, minPoints: nat, labels: seq<int>, seeds: seq<nat>, i: nat) {
    && Partial(g, minPoints, labels, seeds)
    && Finished(g, minPoints, labels, seeds, |seeds|)
    && Scanned(g, labels, i)
    && (forall c :: 0 <= c < |seeds| ==> seeds[c] < i)
  }

  lemma NoNewLabelYet(g: Graph, minPoints: nat, labels: seq<int>, seeds: seq<nat>)
    requires Partial(g, minPoints, labels, seeds)
    ensures forall x: nat :: x < |g| ==> labels[x] < |seeds|
  {
    hide ValidSeeds, CoreLabelOk, BorderLabelOk;
  }

  lemma StartCluster(g: Graph, minPoints: nat, labels: seq<int>, seeds: seq<nat>, i: nat, queue: seq<nat>)
    requires Symmetric(g) && i < |g|
    requires Between(g, minPoints, labels, seeds, i)
    requires labels[i] == UNVISITED && i in Cores(g, minPoints)
    requires forall n :: n in queue <==> n in g[i] && n != i
    ensures Growing(g, minPoints, labels[i := |seeds|], seeds + [i], i, queue)
  {
    StartPartial(g, minPoints, labels, seeds, i);
    StartFinished(g, minPoints, labels, seeds, i);
    NoNewLabelYet(g, minPoints, labels, seeds);
    StartScanned(g, labels, |seeds|, i);
    hide Partial, Finished, QueueOk, Scanned, Symmetric, Cores;
    StartQueue(g, minPoints, labels[i := |seeds|], |seeds|, i, queue);
  }

  lemma StartScanned(g: Graph, labels: seq<int>, k: nat, i: nat)
    requires |labels| == |g| && i < |g| && Scanned(g, labels, i)
    ensures Scanned(g, labels[i := k], i)
  {
  }

  lemma StartPartial(g: Graph, minPoints: nat, labels: seq<int>, seeds: seq<nat>, i: nat)
    requires i < |g| && Between(g, minPoints, labels, seeds, i)
    requires labels[i] == UNVISITED && i in Cores(g, minPoints)
    ensures Partial(g, minPoints, labels[i := |seeds|], seeds + [i])
  {
    var k := |seeds|;
    var l', seeds' := labels[i := k], seeds + [i];
    LinkedRefl(g, Cores(g, minPoints), i);
    forall p: nat | p < |g| && p !in Cores(g, minPoints) && l'[p] >= 0
      ensures BorderLabelOk(g, minPoints, l', seeds', p)
    {
      SameClaims(g, minPoints, labels, seeds, l', seeds', k, p);
    }
  }

  lemma StartFinished(g: Graph, minPoints: nat, labels: seq<int>, seeds: seq<nat>, i: nat)
    requires Symmetric(g) && i < |g| && Between(g, minPoints, labels, seeds, i)
    requires labels[i] == UNVISITED && i in Cores(g, minPoints)
    ensures Finished(g, minPoints, labels[i := |seeds|], seeds + [i], |seeds|)
  {
    var k := |seeds|;
    var l', seeds' := labels[i := k], seeds + [i];
    hide Claims, NoClaimBelow, CoreLabelOk, BorderLabelOk;
    forall p: nat | p < |g| && l'[p] == NOISE
      ensures NoClaimBelow(g, minPoints, l', seeds', k, p)
    {
      SameClaims(g, minPoints, labels, seeds, l', seeds', k, p);
    }
  }

  lemma StartQueue(g: Graph, minPoints: nat, labels: seq<int>, k: nat, i: nat, queue: seq<nat>)
    requires Symmetric(g) && |labels| == |g| && i < |g|
    requires labels[i] == k && i in Cores(g, minPoints)
    requires forall x: nat :: x < |g| && labels[x] == k ==> x == i
    requires forall n :: n in queue <==> n in g[i] && n != i
    ensures QueueOk(g, minPoints, labels, k, i, queue)
  {
    forall j | 0 <= j < |queue|
      ensures Queueable(g, minPoints, labels, k, i, queue[j])
    {
      assert queue[j] in queue;
      assert labels[i] == k && queue[j] in g[i];
    }
  }

  lemma FinishCluster(g: Graph, minPoints: nat, labels: seq<int>, seeds: seq<nat>, i: nat)
    requires Symmetric(g) && i < |g| && Growing(g, minPoints, labels, seeds, i, [])
    ensures Between(g, minPoints, labels, seeds, i + 1)
  {
    ClusterClosed(g, minPoints, labels, seeds, i);
    NoiseKept(g, minPoints, labels, seeds, i);
    hide Symmetric, CoreLabelOk, BorderLabelOk, NoClaimBelow, QueueOk;
  }

  // Noise is left behind the seed, and is not next to it.
  lemma NoiseKept(g: Graph, minPoints: nat, labels: seq<int>, seeds: seq<nat>, i: nat)
    requires i < |g| && Growing(g, minPoints, labels, seeds, i, [])
    ensures forall p: nat :: p < |g| && labels[p] == NOISE ==> NoClaimBelow(g, minPoints, labels, seeds, |seeds|, p)
  {
    hide Partial;
    forall p: nat | p < |g| && labels[p] == NOISE
      ensures NoClaimBelow(g, minPoints, labels, seeds, |seeds|, p)
    {
      assert NoClaimBelow(g, minPoints, labels, seeds, |seeds| - 1, p);
      assert p < i && p !in g[i];
    }
  }

  lemma CoresLabelled(g: Graph, minPoints: nat, labels: seq<int>, seeds: seq<nat>)
    requires Partial(g, minPoints, labels, seeds)
    ensures forall p: nat :: p in Cores(g, minPoints) && labels[p] != UNVISITED ==> 0 <= labels[p] < |seeds|
  {
    hide ValidSeeds, BorderLabelOk;
  }

  // With the queue empty, the newest cluster is closed as well.
  lemma ClusterClosed(g: Graph, minPoints: nat, labels: seq<int>, seeds: seq<nat>, i: nat)
    requires Symmetric(g) && i < |g| && Growing(g, minPoints, labels, seeds, i, [])
    ensures forall q: nat, n: nat :: q in Cores(g, minPoints) && 0 <= labels[q] < |seeds| && n in g[q] && n < |g| ==>
                                       && labels[n] != UNVISITED
                                       && (n in Cores(g, minPoints) ==> labels[n] == labels[q])
  {
    CoresLabelled(g, minPoints, labels, seeds);
    hide NoClaimBelow, Partial, Scanned;
    forall q: nat, n: nat | q in Cores(g, minPoints) && 0 <= labels[q] < |seeds| && n in g[q] && n < |g|
      ensures labels[n] != UNVISITED && (n in Cores(g, minPoints) ==> labels[n] == labels[q])
    {
      assert q in g[n];
    }
  }

  lemma MarkNoise(g: Graph, minPoints: nat, labels: seq<int>, seeds: seq<nat>, i: nat)
    requires Symmetric(g) && i < |g| && Between(g, minPoints, labels, seeds, i)
    requires labels[i] == UNVISITED && i !in Cores(g, minPoints)
    ensures Between(g, minPoints, labels[i := NOISE], seeds, i + 1)
  {
    NoisePartial(g, minPoints, labels, seeds, i);
    NoiseFinished(g, minPoints, labels, seeds, i);
    hide Partial, Finished, Symmetric;
  }

  lemma NoisePartial(g: Graph, minPoints: nat, labels: seq<int>, seeds: seq<nat>, i: nat)
    requires i < |g| && Partial(g, minPoints, labels, seeds)
    requires labels[i] == UNVISITED && i !in Cores(g, minPoints)
    ensures Partial(g, minPoints, labels[i := NOISE], seeds)
  {
    var l' := labels[i := NOISE];
    hide Claims, NoClaimBelow;
    forall p: nat | p < |g| && p !in Cores(g, minPoints) && l'[p] >= 0
      ensures BorderLabelOk(g, minPoints, l', seeds, p)
    {
      SameClaims(g, minPoints, labels, seeds, l', seeds, |seeds|, p);
    }
  }

  lemma NoiseFinished(g: Graph, minPoints: nat, labels: seq<int>, seeds: seq<nat>, i: nat)
    requires Symmetric(g) && i < |g| && |labels| == |g| && Finished(g, minPoints, labels, seeds, |seeds|)
    requires labels[i] == UNVISITED && i !in Cores(g, minPoints)
    ensures Finished(g, minPoints, labels[i := NOISE], seeds, |seeds|)
  {
    var l' := labels[i := NOISE];
    NoClaimOnUnvisited(g, minPoints, labels, seeds, i);
    hide Claims, NoClaimBelow;
    forall p: nat | p < |g| && l'[p] == NOISE
      ensures NoClaimBelow(g, minPoints, l', seeds, |seeds|, p)
    {
      SameClaims(g, minPoints, labels, seeds, l', seeds, |seeds|, p);
    }
  }

  lemma NoClaimOnUnvisited(g: Graph, minPoints: nat, labels: seq<int>, seeds: seq<nat>, i: nat)
    requires i < |g| && |labels| == |g| && Finished(g, minPoints, labels, seeds, |seeds|) && labels[i] == UNVISITED
    ensures NoClaimBelow(g, minPoints, labels, seeds, |seeds|, i)
  {
    forall c | 0 <= c < |seeds|
      ensures !Claims(g, minPoints, labels, seeds, c, i)
    {
      assert forall q :: q in Cores(g, minPoints) && i in g[q] ==> labels[q] != c;
    }
  }

  /** The scan itself. `g` stands for the neighbour lists of the points at `dbscan_eps`. */
  method Dbscan(g: Graph, minPoints: nat) returns (labels: seq<int>)
    requires Symmetric(g)
    ensures IsDbscanResult(g, minPoints, labels)
  {
    labels := seq(|g|, _ => UNVISITED);
    ghost var seeds: seq<nat> := [];
    var clusterId := 0;
    for i := 0 to |g|
      invariant Between(g, minPoints, labels, seeds, i)
      invariant clusterId == |seeds|
    {
      if labels[i] != UNVISITED {
        continue;
      }
      var neighbors := g[i];
      if |neighbors| < minPoints {
        MarkNoise(g, minPoints, labels, seeds, i);
        labels := labels[i := NOISE];
        continue;
      }
      var queue := Without(neighbors, i);
      StartCluster(g, minPoints, labels, seeds, i, queue);
      labels, seeds := labels[i := clusterId], seeds + [i];
      labels := ExpandCluster(g, minPoints, labels, seeds, clusterId, i, queue);
      FinishCluster(g, minPoints, labels, seeds, i);
      clusterId := clusterId + 1;
    }
    assert IsDbscan(g, minPoints, labels, seeds);
  }

  // The inner loop. Each round labels an unvisited point, or leaves one fewer in the queue.
  method ExpandCluster(g: Graph, minPoints: nat, start: seq<int>, ghost seeds: seq<nat>, clusterId: nat, ghost i: nat,
                       seedSet: seq<nat>)
    returns (labels: seq<int>)
    requires Symmetric(g)
    requires Growing(g, minPoints, start, seeds, i, seedSet) && clusterId == |seeds| - 1
    ensures Growing(g, minPoints, labels, seeds, i, [])
    ensures forall p :: 0 <= p < |g| && start[p] >= 0 ==> labels[p] == start[p]
  {
    hide Partial, Finished, QueueOk, Scanned, Symmetric, LabelOk;
    labels := start;
    var queue := seedSet;
    while queue != []
      invariant Growing(g, minPoints, labels, seeds, i, queue)
      invariant forall p :: 0 <= p < |g| && start[p] >= 0 ==> labels[p] == start[p]
      decreases Unvisited(labels), |queue|
    {
      var current := queue[0];
      QueueHead(g, minPoints, labels, seeds, i, queue);
      ghost var before, queueBefore := labels, queue;
      queue := queue[1..];
      if labels[current] == NOISE {
        labels := labels[current := clusterId];
        PopUnlabelled(g, minPoints, before, seeds, i, queueBefore, []);
        assert queue + [] == queue;
        assert Unvisited(labels) == Unvisited(before);
      }
      if labels[current] != UNVISITED {
        if before == labels {
          PopLabelled(g, minPoints, labels, clusterId, i, queueBefore);
        }
        continue;
      }
      labels := labels[current := clusterId];
      assert current in Unvisited(before) && current !in Unvisited(labels);
      var more := [];
      if |g[current]| >= minPoints {
        more := KeepUnvisited(g[current], labels);
      }
      PopUnlabelled(g, minPoints, before, seeds, i, queueBefore, more);
      queue := queue + more;
    }
  }

  lemma QueueHead(g: Graph, minPoints: nat, labels: seq<int>, seeds: seq<nat>, i: nat, queue: seq<nat>)
    requires Symmetric(g) && Growing(g, minPoints, labels, seeds, i, queue) && |queue| > 0
    ensures queue[0] < |g| && labels[queue[0]] >= UNVISITED
    ensures labels[queue[0]] == NOISE ==> queue[0] !in Cores(g, minPoints)
    ensures forall n :: 0 <= n < |g[queue[0]]| ==> g[queue[0]][n] < |g|
  {
  }

  // `for (neighbor : neighbors) if (neighbor != i) push(neighbor)`
  method Without(neighbors: seq<nat>, i: nat) returns (queue: seq<nat>)
    ensures forall n :: n in queue <==> n in neighbors && n != i
  {
    queue := [];
    for k := 0 to |neighbors|
      invariant forall n :: n in queue <==> n in neighbors[..k] && n != i
    {
      if neighbors[k] != i {
        queue := queue + [neighbors[k]];
      }
    }
  }

  // `for (neighbor : neighbors) if (cluster_labels[neighbor] == -2) push(neighbor)`
  method KeepUnvisited(neighbors: seq<nat>, labels: seq<int>) returns (queue: seq<nat>)
    requires forall k :: 0 <= k < |neighbors| ==> neighbors[k] < |labels|
    ensures forall n :: n in queue <==> n in neighbors && n < |labels| && labels[n] == UNVISITED
  {
    queue := [];
    for k := 0 to |neighbors|
      invariant forall n :: n in queue <==> n in neighbors[..k] && n < |labels| && labels[n] == UNVISITED
    {
      if labels[neighbors[k]] == UNVISITED {
        queue := queue + [neighbors[k]];
      }
    }
  }
}
