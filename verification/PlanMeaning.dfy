/** How the plan of distributed loops relates to the data dependences of the loop body. */
module PlanMeaning {
  import opened Digraph
  import opened DepthFirst
  import opened SearchFacts
  import opened Components
  import opened ComponentMembers
  import opened TopologicalOrder
  import opened StatementGraph

  /** The first number on the list of statement u, as an index. */
  function Home(labels: seq<seq<nat>>, u: nat): nat
    requires u < |labels| && labels[u] != [] && labels[u][0] > 0
  {
    labels[u][0] - 1
  }

  /** Every array statement carries a number between 1 and k. */
  predicate Labelled(b: Body, labels: seq<seq<nat>>, k: nat) {
    && b.Wf() && |labels| == |b.hasRef|
    && forall u :: 0 <= u < |labels| && b.hasRef[u] ==> labels[u] != [] && 1 <= labels[u][0] <= k
  }

  /** The edges that build_prdg and build_scc_graph store for the data dependences: the two arguments of
      new_prdg_edge change places, so an edge leads from the home of the sink to the home of the source. */
  function StoredEdges(b: Body, labels: seq<seq<nat>>, k: nat, i: nat): seq<Edge>
    requires Labelled(b, labels, k) && i <= |b.deps|
  {
    if i == 0 then []
    else
      var d := b.deps[i - 1];
      StoredEdges(b, labels, k, i - 1)
      + (if d.scalar then [] else [Edge(Home(labels, d.sink), Home(labels, d.source))])
  }

  function Stored(b: Body, labels: seq<seq<nat>>, k: nat): Graph
    requires Labelled(b, labels, k)
  {
    Graph(k, StoredEdges(b, labels, k, |b.deps|))
  }

  lemma {:induction false} StoredEdge(b: Body, labels: seq<seq<nat>>, k: nat, i: nat, d: Dep)
    requires Labelled(b, labels, k) && i <= |b.deps| && d in b.deps[..i] && !d.scalar
    ensures Edge(Home(labels, d.sink), Home(labels, d.source)) in StoredEdges(b, labels, k, i)
  {
    if d in b.deps[..i - 1] {
      StoredEdge(b, labels, k, i - 1, d);
    } else {
      assert b.deps[..i] == b.deps[..i - 1] + [b.deps[i - 1]];
    }
  }

  lemma {:induction false} EdgeStored(b: Body, labels: seq<seq<nat>>, k: nat, i: nat, e: Edge) returns (d: Dep)
    requires Labelled(b, labels, k) && i <= |b.deps| && e in StoredEdges(b, labels, k, i)
    ensures d in b.deps && !d.scalar && e == Edge(Home(labels, d.sink), Home(labels, d.source))
  {
    if e in StoredEdges(b, labels, k, i - 1) {
      d := EdgeStored(b, labels, k, i - 1, e);
    } else {
      d := b.deps[i - 1];
    }
  }

  lemma DepHomes(b: Body, labels: seq<seq<nat>>, k: nat, d: Dep)
    requires Labelled(b, labels, k) && d in b.deps && !d.scalar
    ensures d.source < |labels| && d.sink < |labels| && b.hasRef[d.source] && b.hasRef[d.sink]
    ensures Home(labels, d.source) < k && Home(labels, d.sink) < k
    ensures Edge(Home(labels, d.sink), Home(labels, d.source)) in Stored(b, labels, k).edges
  {
    assert b.deps[..|b.deps|] == b.deps;
    StoredEdge(b, labels, k, |b.deps|, d);
  }

  /** The component lists name, for every array statement, the component of its partition. */
  ghost predicate Lifted(b: Body, parts: seq<seq<nat>>, p: nat, m: seq<Mark>, k: nat, sccs: seq<seq<nat>>) {
    && Labelled(b, parts, p) && |m| == p
    && ComponentNumbers(Stored(b, parts, p), m, k)
    && |sccs| == |parts|
    && forall u :: 0 <= u < |parts| && b.hasRef[u] ==> sccs[u] == [m[Home(parts, u)].scc]
  }

  lemma LiftedLabelled(b: Body, parts: seq<seq<nat>>, p: nat, m: seq<Mark>, k: nat, sccs: seq<seq<nat>>)
    requires Lifted(b, parts, p, m, k, sccs)
    ensures Labelled(b, sccs, k)
  {
  }

  /** Two array statements share a component exactly when their partitions reach each other. */
  lemma SameComponent(b: Body, parts: seq<seq<nat>>, p: nat, m: seq<Mark>, k: nat, sccs: seq<seq<nat>>, u: nat, v: nat)
    requires Lifted(b, parts, p, m, k, sccs) && u < |parts| && v < |parts| && b.hasRef[u] && b.hasRef[v]
    ensures sccs[u] == sccs[v] <==> Mutual(Stored(b, parts, p), Home(parts, u), Home(parts, v))
  {
  }

  lemma {:induction false} NumbersRise(g: Graph, u: nat, p: seq<nat>, v: nat)
    requires forall e :: e in g.edges ==> e.source <= e.sink
    requires Path(g, u, p, v)
    ensures u <= v
    decreases |p|
  {
    if p != [] {
      assert Edge(u, p[0]).source <= Edge(u, p[0]).sink;
      NumbersRise(g, p[0], p[1..], v);
    }
  }

  /** The graph of components has no cycle but self-loops: its edges never lead to a smaller number. */
  lemma ComponentGraphAcyclic(b: Body, parts: seq<seq<nat>>, p: nat, m: seq<Mark>, k: nat, sccs: seq<seq<nat>>)
    requires Lifted(b, parts, p, m, k, sccs)
    ensures Labelled(b, sccs, k) && AcyclicButLoops(Stored(b, sccs, k))
  {
    var g := Stored(b, sccs, k);
    forall e | e in g.edges ensures e.source <= e.sink {
      var d := EdgeStored(b, sccs, k, |b.deps|, e);
      DepHomes(b, parts, p, d);
      assert Edge(Home(parts, d.sink), Home(parts, d.source)) in Stored(b, parts, p).edges;
    }
    forall e | e in g.edges && e.source != e.sink ensures !Reach(g, e.sink, e.source) {
      if Reach(g, e.sink, e.source) {
        var q :| Path(g, e.sink, q, e.source);
        NumbersRise(g, e.sink, q, e.source);
      }
    }
  }

  /** The plan runs the loop of every dependence's source no later than the loop of its sink. */
  ghost predicate Respects(b: Body, sccs: seq<seq<nat>>, k: nat, order: seq<nat>)
    requires Labelled(b, sccs, k)
  {
    forall d :: d in b.deps && !d.scalar && Home(sccs, d.source) != Home(sccs, d.sink) ==>
      Before(order, Home(sccs, d.source), Home(sccs, d.sink))
  }

  function Reversed(s: seq<nat>): (r: seq<nat>)
    ensures |r| == |s| && forall i :: 0 <= i < |s| ==> r[i] == s[|s| - 1 - i]
  {
    if s == [] then [] else Reversed(s[1..]) + [s[0]]
  }

  /** A dependence between two components is run backwards: the loop of its sink comes first. */
  lemma SinkFirst(b: Body, sccs: seq<seq<nat>>, k: nat, order: seq<nat>, d: Dep)
    requires Labelled(b, sccs, k) && Topological(Stored(b, sccs, k), order)
    requires d in b.deps && !d.scalar && Home(sccs, d.source) != Home(sccs, d.sink)
    ensures Before(order, Home(sccs, d.sink), Home(sccs, d.source))
  {
    DepHomes(b, sccs, k, d);
    var e := Edge(Home(sccs, d.sink), Home(sccs, d.source));
    assert e in Stored(b, sccs, k).edges && e.source != e.sink;
  }

  /** Read from its end, the plan respects every dependence. */
  lemma ReversedRespects(b: Body, sccs: seq<seq<nat>>, k: nat, order: seq<nat>)
    requires Labelled(b, sccs, k) && Topological(Stored(b, sccs, k), order)
    ensures Respects(b, sccs, k, Reversed(order))
  {
    forall d | d in b.deps && !d.scalar && Home(sccs, d.source) != Home(sccs, d.sink)
      ensures Before(Reversed(order), Home(sccs, d.source), Home(sccs, d.sink))
    {
      SinkFirst(b, sccs, k, order, d);
      var i, j :| 0 <= i < j < |order| && order[i] == Home(sccs, d.sink) && order[j] == Home(sccs, d.source);
      var n := |order| - 1;
      assert 0 <= n - j < n - i < |order|;
      assert Reversed(order)[n - j] == order[j] && Reversed(order)[n - i] == order[i];
    }
  }

  lemma NotBothWays(order: seq<nat>, n: nat, u: nat, v: nat)
    requires Permutation(order, n) && Before(order, u, v)
    ensures !Before(order, v, u)
  {
  }

  /** From the partition of its sink, where its stored edge starts, the graph leads back to it. */
  ghost predicate OnCycle(b: Body, parts: seq<seq<nat>>, p: nat, d: Dep)
    requires Labelled(b, parts, p) && d in b.deps && !d.scalar
  {
    Reach(Stored(b, parts, p), Home(parts, d.source), Home(parts, d.sink))
  }

  /** Every data dependence lies on a cycle of the partition graph. */
  ghost predicate AllOnCycles(b: Body, parts: seq<seq<nat>>, p: nat)
    requires Labelled(b, parts, p)
  {
    forall d {:trigger OnCycle(b, parts, p, d)} :: d in b.deps && !d.scalar ==> OnCycle(b, parts, p, d)
  }

  /** As it stands the plan respects the dependences exactly when none of them joins two components, that is,
      when every data dependence lies on a cycle of the partition graph. */
  lemma RespectsIff(b: Body, parts: seq<seq<nat>>, p: nat, m: seq<Mark>, k: nat, sccs: seq<seq<nat>>, order: seq<nat>)
    requires Lifted(b, parts, p, m, k, sccs) && Labelled(b, sccs, k)
    requires Permutation(order, k) && Topological(Stored(b, sccs, k), order)
    ensures Labelled(b, parts, p) && (Respects(b, sccs, k, order) <==> AllOnCycles(b, parts, p))
  {
    var g := Stored(b, parts, p);
    forall d | d in b.deps && !d.scalar
      ensures OnCycle(b, parts, p, d) <==> Home(sccs, d.source) == Home(sccs, d.sink)
      ensures Home(sccs, d.source) != Home(sccs, d.sink) ==>
                !Before(order, Home(sccs, d.source), Home(sccs, d.sink))
    {
      DepHomes(b, parts, p, d);
      ReachEdge(g, Home(parts, d.sink), Home(parts, d.source));
      SameComponent(b, parts, p, m, k, sccs, d.source, d.sink);
      if Home(sccs, d.source) != Home(sccs, d.sink) {
        SinkFirst(b, sccs, k, order, d);
        NotBothWays(order, k, Home(sccs, d.sink), Home(sccs, d.source));
      }
    }
  }
}
