/** The phase-graph checks of the golden-scenario validator: building the
    adjacency sets, the depth-first cycle check, and the recursive
    reachability question. */
module PhaseGraph {
  import opened Graphs

  /** An edge of the contract is a list of phase names; only lists of two known,
      distinct names within one rate are accepted, and none twice. */
  ghost predicate EdgesAccepted(edges: seq<seq<Node>>, rateOf: map<Node, string>) {
    && (forall e :: e in edges ==>
         |e| == 2 && e[0] in rateOf && e[1] in rateOf && e[0] != e[1] && rateOf[e[0]] == rateOf[e[1]])
    && (forall i, j :: 0 <= i < j < |edges| ==> edges[i] != edges[j])
  }

  /** The graph an edge list stands for. */
  ghost function EdgeGraph(edges: seq<seq<Node>>, rateOf: map<Node, string>): Graph {
    map p | p in rateOf :: set q | q in rateOf && [p, q] in edges
  }

  /** One more edge, checked as the source checks it. */
  lemma AcceptOneMore(edges: seq<seq<Node>>, rateOf: map<Node, string>, n: nat)
    requires n < |edges| && EdgesAccepted(edges[..n], rateOf)
    ensures EdgesAccepted(edges[..n + 1], rateOf) <==>
            (var e := edges[n];
             |e| == 2 && e[0] in rateOf && e[1] in rateOf && e[0] != e[1] && rateOf[e[0]] == rateOf[e[1]]
             && e !in edges[..n])
  {
  }

  lemma PrefixAccepted(edges: seq<seq<Node>>, rateOf: map<Node, string>, n: nat)
    requires n <= |edges| && EdgesAccepted(edges, rateOf)
    ensures EdgesAccepted(edges[..n], rateOf)
  {
  }

  /** Builds the adjacency sets; `ok` is false where the source raises. */
  method BuildAdjacency(edges: seq<seq<Node>>, rateOf: map<Node, string>) returns (ok: bool, g: Graph)
    ensures ok <==> EdgesAccepted(edges, rateOf)
    ensures ok ==> WellFormed(g) && g == EdgeGraph(edges, rateOf)
    ensures ok ==> g.Keys == rateOf.Keys && forall a, b :: Edge(g, a, b) <==> [a, b] in edges
  {
    g := map p | p in rateOf :: {};
    for n := 0 to |edges|
      invariant EdgesAccepted(edges[..n], rateOf) && Draws(g, edges[..n], rateOf)
    {
      var edge := edges[n];
      AcceptOneMore(edges, rateOf, n);
      if EdgesAccepted(edges, rateOf) {
        PrefixAccepted(edges, rateOf, n + 1);
      }
      if !(|edge| == 2 && edge[0] in rateOf && edge[1] in rateOf && edge[0] != edge[1]) {
        return false, g;
      }
      var a, b := edge[0], edge[1];
      assert edge == [a, b];
      assert Edge(g, a, b) <==> [a, b] in edges[..n];
      if b in g[a] {
        return false, g;
      }
      if rateOf[a] != rateOf[b] {
        return false, g;
      }
      DrawOneMore(g, edges[..n], rateOf, a, b);
      g := g[a := g[a] + {b}];
      assert edges[..n + 1] == edges[..n] + [[a, b]];
    }
    assert edges[..|edges|] == edges;
    ok := true;
    DrawnIsEdgeGraph(g, edges, rateOf);
  }

  /** The adjacency sets hold exactly the edges listed so far. */
  ghost predicate Draws(g: Graph, edges: seq<seq<Node>>, rateOf: map<Node, string>) {
    g.Keys == rateOf.Keys && WellFormed(g) && forall a, b :: Edge(g, a, b) <==> [a, b] in edges
  }

  lemma DrawOneMore(g: Graph, edges: seq<seq<Node>>, rateOf: map<Node, string>, a: Node, b: Node)
    requires Draws(g, edges, rateOf) && a in g && b in g
    ensures Draws(g[a := g[a] + {b}], edges + [[a, b]], rateOf)
  {
    var h, more := g[a := g[a] + {b}], edges + [[a, b]];
    forall p, q ensures Edge(h, p, q) <==> [p, q] in more {
      assert Edge(g, p, q) <==> [p, q] in edges;
      assert [p, q] == [a, b] <==> p == a && q == b;
      assert [p, q] in more <==> [p, q] in edges || [p, q] == [a, b];
    }
  }

  lemma DrawnIsEdgeGraph(g: Graph, edges: seq<seq<Node>>, rateOf: map<Node, string>)
    requires Draws(g, edges, rateOf)
    ensures g == EdgeGraph(edges, rateOf)
  {
    forall p | p in rateOf ensures g[p] == EdgeGraph(edges, rateOf)[p] {
      forall q ensures q in g[p] <==> q in EdgeGraph(edges, rateOf)[p] {
        assert Edge(g, p, q) <==> [p, q] in edges;
      }
    }
  }

  /** The colouring kept by the depth-first search: grey nodes are on the
      current path, black nodes are finished and lie on no cycle. */
  class CycleCheck {
    const g: Graph
    var visiting: set<Node>
    var visited: set<Node>

    constructor (g: Graph)
      ensures this.g == g && visiting == {} && visited == {}
    {
      this.g := g;
      visiting, visited := {}, {};
    }

    ghost predicate Valid()
      reads this
    {
      && WellFormed(g)
      && visiting <= g.Keys && visited <= g.Keys
      && visiting !! visited
      && ClosedUnder(g, visited)
      && forall v :: v in visited ==> !Reaches(g, v, v)
    }

    method Visit(p: Node) returns (ok: bool)
      requires Valid() && p in g
      requires forall v :: v in visiting ==> Reaches(g, v, p)
      modifies this
      ensures ok ==> Valid() && visiting == old(visiting) && old(visited) + {p} <= visited
      ensures !ok ==> exists c :: Reaches(g, c, c)
      decreases g.Keys - visiting
    {
      if p in visiting {
        return false;
      }
      if p in visited {
        return true;
      }
      visiting := visiting + {p};
      ok := VisitAll(p);
      if ok {
        if Reaches(g, p, p) {
          var q := ReachesFirstStep(g, p, p);
          if q != p {
            ReachesStaysInside(g, visited, q, p);
          }
          assert false;
        }
        visiting := visiting - {p};
        visited := visited + {p};
      }
    }

    /** The loop over the successors of `p`, taken in any order. */
    method VisitAll(p: Node) returns (ok: bool)
      requires Valid() && p in visiting
      requires forall v :: v in visiting ==> v == p || Reaches(g, v, p)
      modifies this
      ensures ok ==> Valid() && visiting == old(visiting) && old(visited) + g[p] <= visited
      ensures !ok ==> exists c :: Reaches(g, c, c)
      decreases g.Keys - visiting + {p}, 0
    {
      var todo := g[p];
      ok := true;
      while todo != {}
        invariant todo <= g[p]
        invariant Valid() && visiting == old(visiting)
        invariant old(visited) + (g[p] - todo) <= visited
        decreases todo
      {
        var q :| q in todo;
        EdgeReaches(g, p, q);
        forall v | v in visiting && v != p ensures Reaches(g, v, q) {
          ReachesTransitive(g, v, p, q);
        }
        ok := Visit(q);
        if !ok {
          return;
        }
        todo := todo - {q};
      }
    }

    method VisitEvery() returns (ok: bool)
      requires Valid() && visiting == {}
      modifies this
      ensures ok <==> Acyclic(g)
    {
      var todo := g.Keys;
      while todo != {}
        invariant todo <= g.Keys && Valid() && visiting == {}
        invariant g.Keys - todo <= visited
        decreases todo
      {
        var p :| p in todo;
        ok := Visit(p);
        if !ok {
          return;
        }
        todo := todo - {p};
      }
      ok := true;
      forall p ensures !Reaches(g, p, p) {
        if Reaches(g, p, p) {
          var q := ReachesFirstStep(g, p, p);
        }
      }
    }
  }

  /** The whole cycle check: it accepts exactly the acyclic graphs. */
  method AcceptsPhases(g: Graph) returns (ok: bool)
    requires WellFormed(g)
    ensures ok <==> Acyclic(g)
  {
    var check := new CycleCheck(g);
    ok := check.VisitEvery();
  }

  /** The unmemoised recursive question. It needs acyclicity to terminate: the
      set of descendants shrinks with every call. */
  function ReachesNow(g: Graph, a: Node, b: Node): (r: bool)
    requires WellFormed(g) && Acyclic(g) && a in g
    ensures r <==> Reaches(g, a, b)
    decreases Descendants(g, a)
  {
    DescendantsShrink(g, a);
    ReachesByCases(g, a, b);
    b in g[a] || exists q :: q in g[a] && ReachesNow(g, q, b)
  }

  lemma ReachesByCases(g: Graph, a: Node, b: Node)
    requires WellFormed(g) && a in g
    ensures Reaches(g, a, b) <==> b in g[a] || exists q :: q in g[a] && Reaches(g, q, b)
  {
    if Reaches(g, a, b) {
      var q := ReachesFirstStep(g, a, b);
    }
    if b in g[a] {
      EdgeReaches(g, a, b);
    } else if q :| q in g[a] && Reaches(g, q, b) {
      EdgeReaches(g, a, q);
      ReachesTransitive(g, a, q, b);
    }
  }
}
