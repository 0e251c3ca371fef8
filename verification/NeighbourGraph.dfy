/** Neighbour lists as the spatial index answers them, and chains of neighbours.

    `g[i]` is the answer of `findNeighbors` for point `i` at the configured radius.
    Only what the segmentation code relies on is assumed: indices are in range and the
    relation is symmetric. It need not be reflexive (a radius of zero answers nothing). */
module NeighbourGraph {

  type Graph = seq<seq<nat>>

  ghost predicate Symmetric(g: Graph) {
    && (forall i, k :: 0 <= i < |g| && 0 <= k < |g[i]| ==> g[i][k] < |g|)
    && (forall i, j :: 0 <= i < |g| && 0 <= j < |g| && j in g[i] ==> i in g[j])
  }

  ghost function Points(n: nat): (s: set<nat>)
    ensures forall i: nat :: i in s <==> i < n
  {
    if n == 0 then {} else Points(n - 1) + {n - 1}
  }

  // A non-empty walk along neighbours that stays inside `s`.
  ghost predicate IsChain(g: Graph, s: set<nat>, p: seq<nat>) {
    && |p| > 0
    && (forall k :: 0 <= k < |p| ==> p[k] in s && p[k] < |g|)
    && (forall k :: 0 < k < |p| ==> p[k] in g[p[k - 1]])
  }

  ghost predicate ChainFromTo(g: Graph, s: set<nat>, p: seq<nat>, a: nat, b: nat) {
    IsChain(g, s, p) && p[0] == a && p[|p| - 1] == b
  }

  ghost predicate Linked(g: Graph, s: set<nat>, a: nat, b: nat) {
    exists p :: ChainFromTo(g, s, p, a, b)
  }

  lemma LinkedRefl(g: Graph, s: set<nat>, a: nat)
    requires a < |g| && a in s
    ensures Linked(g, s, a, a)
  {
    assert ChainFromTo(g, s, [a], a, a);
  }

  lemma LinkedStep(g: Graph, s: set<nat>, a: nat, b: nat, c: nat)
    requires Linked(g, s, a, b) && c in s && c < |g| && c in g[b]
    ensures Linked(g, s, a, c)
  {
    var p :| ChainFromTo(g, s, p, a, b);
    assert ChainFromTo(g, s, p + [c], a, c);
  }

  lemma LinkedTrans(g: Graph, s: set<nat>, a: nat, b: nat, c: nat)
    requires Linked(g, s, a, b) && Linked(g, s, b, c)
    ensures Linked(g, s, a, c)
  {
    var p :| ChainFromTo(g, s, p, a, b);
    var q :| ChainFromTo(g, s, q, b, c);
    assert ChainFromTo(g, s, p + q[1..], a, c);
  }

  lemma LinkedSym(g: Graph, s: set<nat>, a: nat, b: nat)
    requires Symmetric(g) && Linked(g, s, a, b)
    ensures Linked(g, s, b, a)
  {
    var p :| ChainFromTo(g, s, p, a, b);
    var q := seq(|p|, k requires 0 <= k < |p| => p[|p| - 1 - k]);
    forall k | 0 < k < |q|
      ensures q[k] in g[q[k - 1]]
    {
      assert p[|p| - k] in g[p[|p| - k - 1]];
    }
    assert ChainFromTo(g, s, q, b, a);
  }

  lemma LinkedInside(g: Graph, s: set<nat>, a: nat, b: nat)
    requires Linked(g, s, a, b)
    ensures a in s && b in s && a < |g| && b < |g|
  {
  }

  // A set closed under neighbours (within `s`) contains everything linked to a member.
  lemma {:induction false} ClosedContainsChain(g: Graph, s: set<nat>, closed: set<nat>, p: seq<nat>)
    requires IsChain(g, s, p) && p[0] in closed
    requires forall a, b :: a in closed && a in s && a < |g| && b in g[a] && b in s ==> b in closed
    ensures p[|p| - 1] in closed
    decreases |p|
  {
    if |p| > 1 {
      var q := p[..|p| - 1];
      assert IsChain(g, s, q);
      ClosedContainsChain(g, s, closed, q);
      assert p[|p| - 1] in g[p[|p| - 2]];
    }
  }

  lemma ClosedContainsLinked(g: Graph, s: set<nat>, closed: set<nat>, a: nat, b: nat)
    requires Linked(g, s, a, b) && a in closed
    requires forall x, y :: x in closed && x in s && x < |g| && y in g[x] && y in s ==> y in closed
    ensures b in closed
  {
    var p :| ChainFromTo(g, s, p, a, b);
    ClosedContainsChain(g, s, closed, p);
  }

  lemma HasElement(s: seq<nat>)
    requires s != []
    ensures exists x :: x in s
  {
    assert s[0] in s;
  }

  // Two increasing sequences with the same elements are the same sequence.
  lemma {:induction false} IncreasingUnique(s: seq<nat>, t: seq<nat>)
    requires forall i, j :: 0 <= i < j < |s| ==> s[i] < s[j]
    requires forall i, j :: 0 <= i < j < |t| ==> t[i] < t[j]
    requires forall x :: x in s <==> x in t
    ensures s == t
  {
    if s == [] {
      if t != [] { HasElement(t); }
    } else {
      assert s[0] in t && t != [] && t[0] in s;
      assert s[0] == t[0];
      forall x
        ensures x in s[1..] <==> x in t[1..]
      {
        assert x in s[1..] <==> x in s && x != s[0];
        assert x in t[1..] <==> x in t && x != t[0];
      }
      IncreasingUnique(s[1..], t[1..]);
      assert s == [s[0]] + s[1..] && t == [t[0]] + t[1..];
    }
  }
}
