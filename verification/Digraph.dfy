/** Directed graphs over the vertices 0..n-1, given by an edge list, and reachability in them. */
module Digraph {

  datatype Edge = Edge(source: nat, sink: nat)

  datatype Graph = Graph(n: nat, edges: seq<Edge>) {
    predicate Wf() {
      forall i :: 0 <= i < |edges| ==> edges[i].source < n && edges[i].sink < n
    }

    /** Every edge turned around, in the same position of the list. */
    function Transpose(): Graph {
      Graph(n, seq(|edges|, i requires 0 <= i < |edges| => Edge(edges[i].sink, edges[i].source)))
    }
  }

  /** The vertices of p, in order, lead from u (exclusive) to v (inclusive). */
  ghost predicate Path(g: Graph, u: nat, p: seq<nat>, v: nat)
    decreases |p|
  {
    if p == [] then u == v else Edge(u, p[0]) in g.edges && Path(g, p[0], p[1..], v)
  }

  ghost predicate Reach(g: Graph, u: nat, v: nat) {
    exists p: seq<nat> :: Path(g, u, p, v)
  }

  /** u and v are in the same strongly connected component. */
  ghost predicate Mutual(g: Graph, u: nat, v: nat) {
    Reach(g, u, v) && Reach(g, v, u)
  }

  /** No edge leaves s. */
  ghost predicate Closed(g: Graph, s: set<nat>) {
    forall e :: e in g.edges && e.source in s ==> e.sink in s
  }

  lemma ReachSelf(g: Graph, u: nat)
    ensures Reach(g, u, u)
  {
    assert Path(g, u, [], u);
  }

  lemma ReachEdge(g: Graph, u: nat, v: nat)
    requires Edge(u, v) in g.edges
    ensures Reach(g, u, v)
  {
    assert Path(g, v, [], v);
    assert [v][1..] == [];
    assert Path(g, u, [v], v);
  }

  lemma {:induction false} PathTrans(g: Graph, u: nat, p: seq<nat>, v: nat, q: seq<nat>, w: nat)
    requires Path(g, u, p, v) && Path(g, v, q, w)
    ensures Path(g, u, p + q, w)
    decreases |p|
  {
    if p == [] {
      assert p + q == q;
    } else {
      PathTrans(g, p[0], p[1..], v, q, w);
      assert (p + q)[1..] == p[1..] + q;
    }
  }

  lemma ReachTrans(g: Graph, u: nat, v: nat, w: nat)
    requires Reach(g, u, v) && Reach(g, v, w)
    ensures Reach(g, u, w)
  {
    var p :| Path(g, u, p, v);
    var q :| Path(g, v, q, w);
    PathTrans(g, u, p, v, q, w);
  }

  lemma MutualTrans(g: Graph, u: nat, v: nat, w: nat)
    requires Mutual(g, u, v) && Mutual(g, v, w)
    ensures Mutual(g, u, w)
  {
    ReachTrans(g, u, v, w);
    ReachTrans(g, w, v, u);
  }

  lemma {:induction false} PathInClosed(g: Graph, s: set<nat>, u: nat, p: seq<nat>, v: nat)
    requires Closed(g, s) && u in s && Path(g, u, p, v)
    ensures v in s
    decreases |p|
  {
    if p != [] {
      assert Edge(u, p[0]).sink in s;
      PathInClosed(g, s, p[0], p[1..], v);
    }
  }

  lemma ReachInClosed(g: Graph, s: set<nat>, u: nat, v: nat)
    requires Closed(g, s) && u in s && Reach(g, u, v)
    ensures v in s
  {
    var p :| Path(g, u, p, v);
    PathInClosed(g, s, u, p, v);
  }

  lemma {:induction false} PathBounded(g: Graph, u: nat, p: seq<nat>, v: nat)
    requires g.Wf() && u < g.n && Path(g, u, p, v)
    ensures v < g.n
    decreases |p|
  {
    if p != [] {
      assert Edge(u, p[0]).sink < g.n;
      PathBounded(g, p[0], p[1..], v);
    }
  }

  lemma ReachBounded(g: Graph, u: nat, v: nat)
    requires g.Wf() && u < g.n && Reach(g, u, v)
    ensures v < g.n
  {
    var p :| Path(g, u, p, v);
    PathBounded(g, u, p, v);
  }

  lemma TransposeEdge(g: Graph, e: Edge)
    ensures e in g.edges <==> Edge(e.sink, e.source) in g.Transpose().edges
  {
    var t := g.Transpose().edges;
    if e in g.edges {
      var i :| 0 <= i < |g.edges| && g.edges[i] == e;
      assert t[i] == Edge(e.sink, e.source);
    }
    if Edge(e.sink, e.source) in t {
      var i :| 0 <= i < |t| && t[i] == Edge(e.sink, e.source);
      assert g.edges[i] == e;
    }
  }

  lemma {:induction false} PathTranspose(g: Graph, u: nat, p: seq<nat>, v: nat)
    requires Path(g, u, p, v)
    ensures Reach(g.Transpose(), v, u)
    decreases |p|
  {
    var t := g.Transpose();
    if p == [] {
      ReachSelf(t, u);
    } else {
      PathTranspose(g, p[0], p[1..], v);
      TransposeEdge(g, Edge(u, p[0]));
      ReachEdge(t, p[0], u);
      ReachTrans(t, v, p[0], u);
    }
  }

  lemma TransposeTwice(g: Graph)
    ensures g.Transpose().Transpose() == g
  {
    assert g.Transpose().Transpose().edges == g.edges;
  }

  /** Turning every edge around turns reachability around. */
  lemma ReachTranspose(g: Graph, u: nat, v: nat)
    ensures Reach(g.Transpose(), v, u) <==> Reach(g, u, v)
  {
    if Reach(g, u, v) {
      var p :| Path(g, u, p, v);
      PathTranspose(g, u, p, v);
    }
    if Reach(g.Transpose(), v, u) {
      var p :| Path(g.Transpose(), v, p, u);
      PathTranspose(g.Transpose(), v, p, u);
      TransposeTwice(g);
    }
  }
}
