/** Directed graphs over phase names, and what it means for one phase to be
    ordered before another. */
module Graphs {

  type Node = string
  type Graph = map<Node, set<Node>>

  predicate Edge(g: Graph, a: Node, b: Node) {
    a in g && b in g[a]
  }

  /** Every edge leads to a node of the graph. */
  predicate WellFormed(g: Graph) {
    forall p :: p in g ==> g[p] <= g.Keys
  }

  /** A walk follows at least one edge. */
  ghost predicate Walk(g: Graph, w: seq<Node>, a: Node, b: Node) {
    && |w| >= 2
    && w[0] == a && w[|w| - 1] == b
    && forall i :: 0 <= i < |w| - 1 ==> Edge(g, w[i], w[i + 1])
  }

  ghost predicate Reaches(g: Graph, a: Node, b: Node) {
    exists w :: Walk(g, w, a, b)
  }

  ghost predicate Acyclic(g: Graph) {
    forall p :: !Reaches(g, p, p)
  }

  ghost predicate ClosedUnder(g: Graph, s: set<Node>) {
    forall v :: v in s && v in g ==> g[v] <= s
  }

  lemma EdgeReaches(g: Graph, a: Node, b: Node)
    requires Edge(g, a, b)
    ensures Reaches(g, a, b)
  {
    assert Walk(g, [a, b], a, b);
  }

  lemma ReachesTransitive(g: Graph, a: Node, b: Node, c: Node)
    requires Reaches(g, a, b) && Reaches(g, b, c)
    ensures Reaches(g, a, c)
  {
    var u :| Walk(g, u, a, b);
    var w :| Walk(g, w, b, c);
    var uw := u + w[1..];
    forall i | 0 <= i < |uw| - 1
      ensures Edge(g, uw[i], uw[i + 1])
    {
      if i < |u| - 1 {
        assert Edge(g, u[i], u[i + 1]);
      } else {
        assert Edge(g, w[i - (|u| - 1)], w[i - (|u| - 1) + 1]);
      }
    }
    assert Walk(g, uw, a, c);
  }

  /** The first step of a walk. */
  lemma ReachesFirstStep(g: Graph, a: Node, b: Node) returns (q: Node)
    requires Reaches(g, a, b)
    ensures Edge(g, a, q) && (q == b || Reaches(g, q, b))
  {
    var w :| Walk(g, w, a, b);
    q := w[1];
    assert Edge(g, w[0], w[0 + 1]);
    if |w| > 2 {
      var t := w[1..];
      forall i | 0 <= i < |t| - 1 ensures Edge(g, t[i], t[i + 1]) {
        assert Edge(g, w[i + 1], w[i + 1 + 1]);
      }
      assert Walk(g, t, q, b);
    }
  }

  /** A walk never leaves a set that is closed under the edges. */
  lemma {:induction false} WalkStaysInside(g: Graph, s: set<Node>, w: seq<Node>, k: nat)
    requires ClosedUnder(g, s)
    requires |w| >= 2 && w[0] in s && k < |w|
    requires forall i :: 0 <= i < |w| - 1 ==> Edge(g, w[i], w[i + 1])
    ensures w[k] in s
  {
    if k > 0 {
      WalkStaysInside(g, s, w, k - 1);
      assert Edge(g, w[k - 1], w[k - 1 + 1]);
    }
  }

  lemma ReachesStaysInside(g: Graph, s: set<Node>, a: Node, b: Node)
    requires ClosedUnder(g, s) && a in s && Reaches(g, a, b)
    ensures b in s
  {
    var w :| Walk(g, w, a, b);
    WalkStaysInside(g, s, w, |w| - 1);
  }

  ghost function Descendants(g: Graph, a: Node): set<Node> {
    set x | x in g.Keys && Reaches(g, a, x)
  }

  /** On an acyclic graph every successor has strictly fewer descendants. */
  lemma DescendantsShrink(g: Graph, a: Node)
    requires WellFormed(g) && Acyclic(g) && a in g
    ensures forall q :: q in g[a] ==> Descendants(g, q) < Descendants(g, a)
  {
    forall q | q in g[a] ensures Descendants(g, q) < Descendants(g, a) {
      EdgeReaches(g, a, q);
      forall x | x in Descendants(g, q) ensures x in Descendants(g, a) {
        ReachesTransitive(g, a, q, x);
      }
      assert q in Descendants(g, a);
      assert q !in Descendants(g, q);
    }
  }
}
