/** What a finished DBSCAN labelling means: clusters as chains of core points, the exact rules for border
    and noise points, and where the textbook rule for noise fails. */
module DbscanLabels {
  import opened NeighbourGraph
  import opened Dbscan

  ghost predicate HasLabels(g: Graph, minPoints: nat, labels: seq<int>, seeds: seq<nat>) {
    Symmetric(g) && IsDbscan(g, minPoints, labels, seeds)
  }

  /** In plain counts: a point with at least `minPoints` neighbours is in a cluster, every cluster was started
      by one, and a point with fewer of them, none beside such a point, is noise. */
  lemma EnoughNeighbours(g: Graph, minPoints: nat, labels: seq<int>, seeds: seq<nat>, p: nat)
    requires HasLabels(g, minPoints, labels, seeds) && p < |g|
    ensures |g[p]| >= minPoints ==> labels[p] >= 0
    ensures forall c :: 0 <= c < |seeds| ==> seeds[c] < |g| && |g[seeds[c]]| >= minPoints
    ensures |g[p]| < minPoints && (forall q: nat :: q < |g| && q in g[p] ==> |g[q]| < minPoints) ==> labels[p] == NOISE
  {
    assert p in Cores(g, minPoints) <==> |g[p]| >= minPoints;
    if |g[p]| < minPoints && labels[p] != NOISE {
      assert BorderLabelOk(g, minPoints, labels, seeds, p);
      var q :| q in Cores(g, minPoints) && labels[q] == labels[p] && p in g[q];
      assert q in g[p] && |g[q]| >= minPoints;
    }
  }

  /** Two core points share a label exactly when a chain of neighbouring core points joins them. */
  lemma SameLabelIffLinked(g: Graph, minPoints: nat, labels: seq<int>, seeds: seq<nat>, p: nat, q: nat)
    requires HasLabels(g, minPoints, labels, seeds) && p in Cores(g, minPoints) && q in Cores(g, minPoints)
    ensures labels[p] == labels[q] <==> Linked(g, Cores(g, minPoints), p, q)
  {
    var cores := Cores(g, minPoints);
    if labels[p] == labels[q] {
      LinkedSym(g, cores, seeds[labels[p]], p);
      LinkedTrans(g, cores, p, seeds[labels[p]], q);
    }
    if Linked(g, cores, p, q) {
      var same := set x | x in cores && labels[x] == labels[p];
      ClosedContainsLinked(g, cores, same, p, q);
    }
  }

  ghost predicate LeastCore(g: Graph, minPoints: nat, x: nat) {
    x in Cores(g, minPoints) && forall y: nat :: Linked(g, Cores(g, minPoints), x, y) ==> x <= y
  }

  /** Cluster ids count the clusters in the order of their least core points, with none skipped. */
  lemma SeedsAreLeastCores(g: Graph, minPoints: nat, labels: seq<int>, seeds: seq<nat>)
    requires HasLabels(g, minPoints, labels, seeds)
    ensures |labels| == |g| && forall c, d :: 0 <= c < d < |seeds| ==> seeds[c] < seeds[d]
    ensures forall x: nat :: x in seeds <==> LeastCore(g, minPoints, x)
    ensures forall p :: 0 <= p < |g| ==> NOISE <= labels[p] < |seeds|
    ensures forall c :: 0 <= c < |seeds| ==> labels[seeds[c]] == c
  {
    var cores := Cores(g, minPoints);
    forall x: nat | x in seeds
      ensures LeastCore(g, minPoints, x)
    {
      forall y: nat | Linked(g, cores, x, y)
        ensures x <= y
      {
        LinkedInside(g, cores, x, y);
        SameLabelIffLinked(g, minPoints, labels, seeds, x, y);
      }
    }
    forall x: nat | LeastCore(g, minPoints, x)
      ensures x in seeds
    {
      LinkedSym(g, cores, seeds[labels[x]], x);
      assert seeds[labels[x]] == x;
    }
  }

  lemma CoreLabelsAgree(g: Graph, minPoints: nat, l: seq<int>, s: seq<nat>, l': seq<int>, p: nat)
    requires HasLabels(g, minPoints, l, s) && HasLabels(g, minPoints, l', s) && p in Cores(g, minPoints)
    ensures l[p] == l'[p]
  {
    var cores := Cores(g, minPoints);
    LinkedSym(g, cores, s[l[p]], p);
    LinkedTrans(g, cores, s[l'[p]], p, s[l[p]]);
    SameLabelIffLinked(g, minPoints, l', s, s[l'[p]], s[l[p]]);
  }

  lemma ClaimsAgree(g: Graph, minPoints: nat, l: seq<int>, s: seq<nat>, l': seq<int>, c: int, p: nat)
    requires |l| == |l'| == |g| && p < |g| && forall q: nat :: q in Cores(g, minPoints) ==> l[q] == l'[q]
    ensures Claims(g, minPoints, l, s, c, p) <==> Claims(g, minPoints, l', s, c, p)
  {
  }

  lemma BorderLabelsAgree(g: Graph, minPoints: nat, l: seq<int>, s: seq<nat>, l': seq<int>, p: nat)
    requires HasLabels(g, minPoints, l, s) && HasLabels(g, minPoints, l', s) && p < |g| && p !in Cores(g, minPoints)
    requires forall q: nat :: q in Cores(g, minPoints) ==> l[q] == l'[q]
    ensures l[p] == l'[p]
  {
    hide ValidSeeds, CoreLabelOk;
    ClaimsAgree(g, minPoints, l, s, l', l[p], p);
    ClaimsAgree(g, minPoints, l, s, l', l'[p], p);
  }

  /** The specification leaves no freedom: it determines every label, border points included. */
  lemma LabellingUnique(g: Graph, minPoints: nat, l: seq<int>, s: seq<nat>, l': seq<int>, s': seq<nat>)
    requires HasLabels(g, minPoints, l, s) && HasLabels(g, minPoints, l', s')
    ensures l == l' && s == s'
  {
    hide IsDbscan, LeastCore;
    SeedsAreLeastCores(g, minPoints, l, s);
    SeedsAreLeastCores(g, minPoints, l', s');
    IncreasingUnique(s, s');
    forall p: nat | p in Cores(g, minPoints)
      ensures l[p] == l'[p]
    {
      CoreLabelsAgree(g, minPoints, l, s, l', p);
    }
    forall p: nat | p < |g| && p !in Cores(g, minPoints)
      ensures l[p] == l'[p]
    {
      BorderLabelsAgree(g, minPoints, l, s, l', p);
    }
  }

  /** The exact rule for noise: every cluster next to p was seeded after p, at a point p is not next to. */
  lemma NoiseExactly(g: Graph, minPoints: nat, labels: seq<int>, seeds: seq<nat>, p: nat)
    requires HasLabels(g, minPoints, labels, seeds) && p < |g|
    ensures labels[p] == NOISE <==>
            && p !in Cores(g, minPoints)
            && forall q :: q in Cores(g, minPoints) && p in g[q] ==>
                             p < seeds[labels[q]] && p !in g[seeds[labels[q]]]
  {
    if p !in Cores(g, minPoints) {
      forall q | q in Cores(g, minPoints) && p in g[q]
        ensures Claims(g, minPoints, labels, seeds, labels[q], p)
                <==> !(p < seeds[labels[q]] && p !in g[seeds[labels[q]]])
      {
        assert CoreLabelOk(g, minPoints, labels, seeds, q);
      }
      if labels[p] != NOISE {
        assert Claims(g, minPoints, labels, seeds, labels[p], p);
      }
    }
  }

  /** A border point has a core neighbour in its own cluster, and no earlier cluster claims it. */
  lemma BorderExactly(g: Graph, minPoints: nat, labels: seq<int>, seeds: seq<nat>, p: nat)
    requires HasLabels(g, minPoints, labels, seeds) && p < |g| && p !in Cores(g, minPoints) && labels[p] != NOISE
    ensures exists q :: q in Cores(g, minPoints) && q in g[p] && labels[q] == labels[p]
    ensures forall q :: q in Cores(g, minPoints) && q in g[p] && labels[q] < labels[p] ==>
                          p < seeds[labels[q]] && p !in g[seeds[labels[q]]]
  {
    assert Claims(g, minPoints, labels, seeds, labels[p], p);
    var x :| x in Cores(g, minPoints) && labels[x] == labels[p] && p in g[x];
    assert x in g[p];
    forall q | q in Cores(g, minPoints) && q in g[p] && labels[q] < labels[p]
      ensures p < seeds[labels[q]] && p !in g[seeds[labels[q]]]
    {
      assert CoreLabelOk(g, minPoints, labels, seeds, q) && p in g[q];
      assert !Claims(g, minPoints, labels, seeds, labels[q], p);
    }
  }

  // The textbook rule: noise is what is neither core nor next to a core point.
  ghost predicate TextbookNoise(g: Graph, minPoints: nat, labels: seq<int>)
    requires |labels| == |g|
  {
    forall p: nat :: p < |g| ==> (labels[p] == NOISE <==> Isolated(g, minPoints, p))
  }

  ghost predicate Isolated(g: Graph, minPoints: nat, p: nat)
    requires p < |g|
  {
    p !in Cores(g, minPoints) && forall q :: q in g[p] ==> q !in Cores(g, minPoints)
  }

  // A core point next to p belongs to a cluster whose least core point s comes before p or is next to it.
  ghost predicate Claimable(g: Graph, minPoints: nat, p: nat)
    requires p < |g|
  {
    exists q, s :: ClaimsBySeed(g, minPoints, p, q, s)
  }

  ghost predicate ClaimsBySeed(g: Graph, minPoints: nat, p: nat, q: nat, s: nat)
    requires p < |g|
  {
    q in g[p] && LeastCore(g, minPoints, s) && Linked(g, Cores(g, minPoints), q, s) && (s < p || (s < |g| && p in g[s]))
  }

  // The seed of a core point's cluster is the least core point linked to it.
  lemma SeedOf(g: Graph, minPoints: nat, labels: seq<int>, seeds: seq<nat>, q: nat, s: nat)
    requires HasLabels(g, minPoints, labels, seeds) && q in Cores(g, minPoints)
    requires LeastCore(g, minPoints, s) && Linked(g, Cores(g, minPoints), q, s)
    ensures 0 <= labels[q] < |seeds| && seeds[labels[q]] == s
  {
    var cores := Cores(g, minPoints);
    SeedsAreLeastCores(g, minPoints, labels, seeds);
    LinkedInside(g, cores, q, s);
    SameLabelIffLinked(g, minPoints, labels, seeds, q, s);
    var c :| 0 <= c < |seeds| && seeds[c] == s;
  }

  lemma ClaimableIsLabelled(g: Graph, minPoints: nat, labels: seq<int>, seeds: seq<nat>, p: nat)
    requires HasLabels(g, minPoints, labels, seeds) && p < |g| && Claimable(g, minPoints, p)
    ensures labels[p] != NOISE
  {
    var q: nat, s: nat :| ClaimsBySeed(g, minPoints, p, q, s);
    LinkedInside(g, Cores(g, minPoints), q, s);
    SeedOf(g, minPoints, labels, seeds, q, s);
    NoiseExactly(g, minPoints, labels, seeds, p);
    assert p in g[q];
    hide IsDbscan, LeastCore, Linked;
  }

  lemma LabelledIsClaimable(g: Graph, minPoints: nat, labels: seq<int>, seeds: seq<nat>, p: nat)
    requires HasLabels(g, minPoints, labels, seeds) && p < |g| && p !in Cores(g, minPoints) && labels[p] != NOISE
    ensures Claimable(g, minPoints, p)
  {
    hide Claims, NoClaimBelow, BorderLabelOk;
    NoiseExactly(g, minPoints, labels, seeds, p);
    SeedsAreLeastCores(g, minPoints, labels, seeds);
    var q :| q in Cores(g, minPoints) && p in g[q] && !(p < seeds[labels[q]] && p !in g[seeds[labels[q]]]);
    assert CoreLabelOk(g, minPoints, labels, seeds, q);
    var s := seeds[labels[q]];
    LinkedSym(g, Cores(g, minPoints), s, q);
    assert s in seeds && s in Cores(g, minPoints);
    hide IsDbscan, LeastCore, Linked;
    assert ClaimsBySeed(g, minPoints, p, q, s);
  }

  /** The code gives the textbook noise on a graph exactly when every non-core point next to a core point
      is claimable. */
  lemma TextbookNoiseIff(g: Graph, minPoints: nat, labels: seq<int>)
    requires Symmetric(g) && IsDbscanResult(g, minPoints, labels)
    ensures |labels| == |g|
    ensures TextbookNoise(g, minPoints, labels) <==>
            forall p: nat :: p < |g| && p !in Cores(g, minPoints) && !Isolated(g, minPoints, p) ==> Claimable(g, minPoints, p)
  {
    var seeds :| IsDbscan(g, minPoints, labels, seeds);
    hide IsDbscan, Symmetric, Claimable;
    forall p: nat | p < |g|
      ensures labels[p] == NOISE <==> p !in Cores(g, minPoints) && !Claimable(g, minPoints, p)
      ensures Isolated(g, minPoints, p) ==> !Claimable(g, minPoints, p)
    {
      NoiseIffUnclaimable(g, minPoints, labels, seeds, p);
    }
  }

  lemma NoiseIffUnclaimable(g: Graph, minPoints: nat, labels: seq<int>, seeds: seq<nat>, p: nat)
    requires HasLabels(g, minPoints, labels, seeds) && p < |g|
    ensures labels[p] == NOISE <==> p !in Cores(g, minPoints) && !Claimable(g, minPoints, p)
    ensures Isolated(g, minPoints, p) ==> !Claimable(g, minPoints, p)
  {
    if p !in Cores(g, minPoints) {
      if Claimable(g, minPoints, p) {
        ClaimableIsLabelled(g, minPoints, labels, seeds, p);
      } else if labels[p] != NOISE {
        LabelledIsClaimable(g, minPoints, labels, seeds, p);
      }
    } else {
      NoiseExactly(g, minPoints, labels, seeds, p);
    }
    forall q: nat, s: nat | ClaimsBySeed(g, minPoints, p, q, s)
      ensures q in g[p] && q in Cores(g, minPoints)
    {
      LinkedInside(g, Cores(g, minPoints), q, s);
    }
  }

  /** The textbook rule fails: four points, where point 0 stays noise beside the core point 2. */
  lemma NoiseBesideCore(g: Graph, labels: seq<int>, seeds: seq<nat>)
    requires g == [[0, 2], [1, 2, 3], [0, 1, 2], [1, 3]] && HasLabels(g, 3, labels, seeds)
    ensures labels[0] == NOISE && 2 in Cores(g, 3) && 0 in g[2]
  {
    hide Claims, NoClaimBelow, BorderLabelOk, Linked;
    var cores := Cores(g, 3);
    assert |g[0]| == 2 && |g[1]| == 3 && |g[2]| == 3 && |g[3]| == 2;
    assert cores == {1, 2};
    assert CoreLabelOk(g, 3, labels, seeds, 1);
    assert labels[1] == labels[2];
    assert seeds[labels[1]] in cores;
    NoiseExactly(g, 3, labels, seeds, 0);
  }
}
