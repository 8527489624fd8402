/** Reachability in a directed graph, the yardstick for route
    validation and fallback planning. A node without an entry is a dangling
    fallback: walks may end there but not continue. */
module Graphs {
  type Graph<N> = map<N, seq<N>>

  predicate Edge<N(==)>(g: Graph<N>, a: N, b: N) {
    a in g && b in g[a]
  }

  ghost predicate Walk<N(!new)>(g: Graph<N>, p: seq<N>) {
    |p| > 0 && forall i :: 0 <= i < |p| - 1 ==> Edge(g, p[i], p[i + 1])
  }

  ghost predicate WalkBetween<N(!new)>(g: Graph<N>, a: N, b: N, p: seq<N>) {
    Walk(g, p) && p[0] == a && p[|p| - 1] == b
  }

  /** b can be reached from a over zero or more edges. */
  ghost predicate Reaches<N(!new)>(g: Graph<N>, a: N, b: N) {
    exists p :: WalkBetween(g, a, b, p)
  }

  /** b can be reached from a over at most k edges. */
  ghost predicate Within<N(!new)>(g: Graph<N>, a: N, b: N, k: nat) {
    exists p :: WalkBetween(g, a, b, p) && |p| <= k + 1
  }

  /** b can be reached from a over one or more edges. */
  ghost predicate ReachesPlus<N(!new)>(g: Graph<N>, a: N, b: N) {
    exists m :: Edge(g, a, m) && Reaches(g, m, b)
  }

  ghost predicate OnCycle<N(!new)>(g: Graph<N>, a: N) {
    ReachesPlus(g, a, a)
  }

  ghost predicate Acyclic<N(!new)>(g: Graph<N>) {
    forall a :: a in g ==> !OnCycle(g, a)
  }

  ghost predicate AllKnown<N(!new)>(g: Graph<N>) {
    forall a, b :: Edge(g, a, b) ==> b in g
  }

  /** Every edge out of S leads back into S. */
  ghost predicate ClosedUnder<N(!new)>(g: Graph<N>, S: set<N>) {
    forall a, b {:trigger Edge(g, a, b)} :: a in S && Edge(g, a, b) ==> b in S
  }

  lemma WithinSelf<N(!new)>(g: Graph<N>, a: N, k: nat)
    ensures Within(g, a, a, k) && Reaches(g, a, a)
  {
    assert WalkBetween(g, a, a, [a]);
  }

  lemma WithinPrepend<N(!new)>(g: Graph<N>, a: N, b: N, c: N, k: nat)
    requires Edge(g, a, b) && Within(g, b, c, k)
    ensures Within(g, a, c, k + 1)
  {
    var p :| WalkBetween(g, b, c, p) && |p| <= k + 1;
    assert WalkBetween(g, a, c, [a] + p);
  }

  lemma WithinReaches<N(!new)>(g: Graph<N>, a: N, b: N, k: nat)
    requires Within(g, a, b, k)
    ensures Reaches(g, a, b)
  {
  }

  lemma ReachesAppend<N(!new)>(g: Graph<N>, a: N, b: N, c: N)
    requires Reaches(g, a, b) && Edge(g, b, c)
    ensures Reaches(g, a, c)
  {
    var p :| WalkBetween(g, a, b, p);
    assert WalkBetween(g, a, c, p + [c]);
  }

  lemma ReachesPrepend<N(!new)>(g: Graph<N>, a: N, b: N, c: N)
    requires Edge(g, a, b) && Reaches(g, b, c)
    ensures Reaches(g, a, c)
  {
    var p :| WalkBetween(g, b, c, p);
    assert WalkBetween(g, a, c, [a] + p);
  }

  lemma ReachesPlusAppend<N(!new)>(g: Graph<N>, a: N, b: N, c: N)
    requires ReachesPlus(g, a, b) && Edge(g, b, c)
    ensures ReachesPlus(g, a, c)
  {
    var m :| Edge(g, a, m) && Reaches(g, m, b);
    ReachesAppend(g, m, b, c);
  }

  /** A closed set cannot be left. */
  lemma {:induction false} WalkStaysInside<N(!new)>(g: Graph<N>, S: set<N>, p: seq<N>, i: nat)
    requires ClosedUnder(g, S) && Walk(g, p) && p[0] in S && i < |p|
    ensures p[i] in S
  {
    if i > 0 {
      WalkStaysInside(g, S, p, i - 1);
      assert Edge(g, p[i - 1], p[i - 1 + 1]);
    }
  }

  lemma ReachesStaysInside<N(!new)>(g: Graph<N>, S: set<N>, a: N, b: N)
    requires ClosedUnder(g, S) && a in S && Reaches(g, a, b)
    ensures b in S
  {
    var p :| WalkBetween(g, a, b, p);
    WalkStaysInside(g, S, p, |p| - 1);
  }

  /** The step both depth-first searches rest on: a node whose successors all
      lie in a closed set that does not contain it is on no cycle. */
  lemma FinishedNodeIsAcyclic<N(!new)>(g: Graph<N>, S: set<N>, a: N)
    requires ClosedUnder(g, S) && a !in S
    requires forall b :: Edge(g, a, b) ==> b in S
    ensures !OnCycle(g, a) && ClosedUnder(g, S + {a})
  {
    if OnCycle(g, a) {
      var m :| Edge(g, a, m) && Reaches(g, m, a);
      ReachesStaysInside(g, S, m, a);
    }
  }

  /** Every edge of h is an edge of g. */
  ghost predicate SubgraphOf<N(!new)>(h: Graph<N>, g: Graph<N>) {
    h.Keys == g.Keys && forall a, b :: Edge(h, a, b) ==> Edge(g, a, b)
  }

  lemma SubgraphKeepsWalks<N(!new)>(h: Graph<N>, g: Graph<N>, a: N, b: N)
    requires SubgraphOf(h, g) && Reaches(h, a, b)
    ensures Reaches(g, a, b)
  {
    var p :| WalkBetween(h, a, b, p);
    assert WalkBetween(g, a, b, p);
  }

  lemma SubgraphIsSound<N(!new)>(h: Graph<N>, g: Graph<N>)
    requires SubgraphOf(h, g) && AllKnown(g) && Acyclic(g)
    ensures AllKnown(h) && Acyclic(h)
  {
    forall a | a in h
      ensures !OnCycle(h, a)
    {
      if m :| Edge(h, a, m) && Reaches(h, m, a) {
        assert Edge(g, a, m);
        SubgraphKeepsWalks(h, g, m, a);
      }
    }
  }
}
