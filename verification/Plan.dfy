/** From the reduced dependence graph to the plan of distributed loops. */
module Plan {
  import opened Digraph
  import opened DepthFirst
  import opened Components
  import opened ComponentMembers
  import opened TopologicalOrder
  import opened StatementGraph
  import opened PartitionMeaning
  import opened ReducedGraph
  import opened PartitionGraph
  import opened PlanMeaning

  /** The numbers of the statements whose list holds k, in increasing order, among the first n. */
  function Holders(labels: seq<seq<nat>>, k: nat, n: nat): (r: seq<nat>)
    requires n <= |labels|
    ensures forall u: nat :: u in r <==> u < n && k in labels[u]
    ensures NoRepeats(r) && Increasing(r) && forall i :: 0 <= i < |r| ==> r[i] < n
  {
    if n == 0 then []
    else Holders(labels, k, n - 1) + (if k in labels[n - 1] then [n - 1] else [])
  }

  /** g is the graph that build_prdg and build_scc_graph build from the lists: one vertex per number 1..k,
      holding the statements that carry the number, and one edge per data dependence. */
  ghost predicate BuiltFrom(g: Prdg, rdg: Rdg, labels: seq<seq<nat>>, k: nat)
    reads g.edges
  {
    && g.rdg == rdg && Labelled(rdg.View(), labels, k)
    && g.Valid()
    && g.View() == Stored(rdg.View(), labels, k)
    && InEdgeOrder(g.edges, rdg.edges, |rdg.edges|)
    && (forall i :: 0 <= i < k ==> g.Pv()[i] == Holders(labels, i + 1, |labels|))
  }

  /** How many of the first i dependences are data dependences. */
  ghost function DataBefore(edges: seq<RdgEdge>, i: nat): nat
    requires i <= |edges|
  {
    if i == 0 then 0 else DataBefore(edges, i - 1) + (if edges[i - 1].scalar then 0 else 1)
  }

  /** Every data dependence among the first i has one stored edge, in the same order, which names it. */
  ghost predicate InEdgeOrder(es: seq<PrdgEdge>, edges: seq<RdgEdge>, i: nat)
    requires i <= |edges|
  {
    && |es| == DataBefore(edges, i)
    && forall j :: 0 <= j < i && !edges[j].scalar ==> DataBefore(edges, j) < |es| && es[DataBefore(edges, j)].rdgEdge == edges[j]
  }

  lemma {:induction false} DataRises(edges: seq<RdgEdge>, j: nat, i: nat)
    requires j < i <= |edges| && !edges[j].scalar
    ensures DataBefore(edges, j) < DataBefore(edges, i)
    decreases i
  {
    if j < i - 1 { DataRises(edges, j, i - 1); }
  }

  lemma EdgeNamed(es: seq<PrdgEdge>, edges: seq<RdgEdge>, i: nat, e: PrdgEdge)
    requires i < |edges| && InEdgeOrder(es, edges, i) && !edges[i].scalar && e.rdgEdge == edges[i]
    ensures InEdgeOrder(es + [e], edges, i + 1)
  {
    hide DataBefore;
    assert DataBefore(edges, i + 1) == DataBefore(edges, i) + 1 by { DataStep(edges, i); }
    forall j: nat | j < i && !edges[j].scalar ensures DataBefore(edges, j) < |es| { DataRises(edges, j, i); }
  }

  lemma DataStep(edges: seq<RdgEdge>, i: nat)
    requires i < |edges|
    ensures DataBefore(edges, 0) == 0
    ensures DataBefore(edges, i + 1) == DataBefore(edges, i) + if edges[i].scalar then 0 else 1
  {
  }

  lemma NoneNamed(es: seq<PrdgEdge>, edges: seq<RdgEdge>, i: nat)
    ensures InEdgeOrder([], edges, 0)
    ensures i < |edges| && InEdgeOrder(es, edges, i) && edges[i].scalar ==> InEdgeOrder(es, edges, i + 1)
  {
  }

  lemma HoldersUnfolds(labels: seq<seq<nat>>, k: nat, n: nat)
    requires n < |labels|
    ensures Holders(labels, k, 0) == []
    ensures Holders(labels, k, n + 1) == Holders(labels, k, n) + (if k in labels[n] then [n] else [])
  {
  }

  ghost function Numbers(vs: seq<RdgVertex>): (r: seq<nat>)
    ensures |r| == |vs| && forall i :: 0 <= i < |r| ==> r[i] == vs[i].number
  {
    seq(|vs|, i requires 0 <= i < |vs| => vs[i].number)
  }

  ghost predicate AllOwned(rdg: Rdg, vs: seq<RdgVertex>) {
    forall i :: 0 <= i < |vs| ==> rdg.Owns(vs[i])
  }

  lemma OwnedAppend(rdg: Rdg, vs: seq<RdgVertex>, j: nat)
    requires rdg.Valid() && j < |rdg.vertices| && AllOwned(rdg, vs)
    ensures AllOwned(rdg, vs + [rdg.vertices[j]])
    ensures Numbers(vs + [rdg.vertices[j]]) == Numbers(vs) + [j]
  {
  }

  /** The inner loop of build_prdg: the statements in partition k. */
  method PartitionStatements(rdg: Rdg, k: nat) returns (members: seq<RdgVertex>)
    requires rdg.Valid()
    ensures Numbers(members) == Holders(rdg.Parts(), k, |rdg.vertices|) && AllOwned(rdg, members)
  {
    hide *;
    members := [];
    assert AllOwned(rdg, []) by { NothingOwned(rdg); }
    HoldersStart(rdg.Parts(), k);
    for j := 0 to |rdg.vertices|
      invariant Numbers(members) == Holders(rdg.Parts(), k, j) && AllOwned(rdg, members)
    {
      HoldersUnfolds(rdg.Parts(), k, j);
      var here := rdg.vertices[j].InPartition(k);
      if here {
        OwnedAppend(rdg, members, j);
        members := members + [rdg.vertices[j]];
      }
    }
  }

  lemma NothingOwned(rdg: Rdg)
    ensures AllOwned(rdg, []) && Numbers([]) == []
  {
  }

  lemma HoldersStart(labels: seq<seq<nat>>, k: nat)
    ensures Holders(labels, k, 0) == []
  {
  }

  /** The inner loop of build_scc_graph: the statements in component k. */
  method ComponentStatements(rdg: Rdg, k: nat) returns (members: seq<RdgVertex>)
    requires rdg.Valid()
    ensures Numbers(members) == Holders(Prdg.SccLists(rdg.vertices), k, |rdg.vertices|) && AllOwned(rdg, members)
  {
    hide *;
    members := [];
    assert AllOwned(rdg, []) by { NothingOwned(rdg); }
    HoldersStart(Prdg.SccLists(rdg.vertices), k);
    for j := 0 to |rdg.vertices|
      invariant Numbers(members) == Holders(Prdg.SccLists(rdg.vertices), k, j) && AllOwned(rdg, members)
    {
      HoldersUnfolds(Prdg.SccLists(rdg.vertices), k, j);
      var here := rdg.vertices[j].InScc(k);
      if here {
        OwnedAppend(rdg, members, j);
        members := members + [rdg.vertices[j]];
      }
    }
  }

  ghost predicate BuiltVertex(v: PrdgVertex, rdg: Rdg, labels: seq<seq<nat>>, i: nat) {
    v.Index() == i && AllOwned(rdg, v.pvertices) && Numbers(v.pvertices) == Holders(labels, i + 1, |labels|)
  }

  /** The vertices 1..n of a graph built from the lists. */
  ghost predicate BuiltVertices(vs: seq<PrdgVertex>, rdg: Rdg, labels: seq<seq<nat>>) {
    forall i :: 0 <= i < |vs| ==> BuiltVertex(vs[i], rdg, labels, i)
  }

  lemma VertexBuilt(vs: seq<PrdgVertex>, rdg: Rdg, labels: seq<seq<nat>>, v: PrdgVertex)
    requires BuiltVertices(vs, rdg, labels) && v.num == |vs| + 1 && AllOwned(rdg, v.pvertices)
    requires Numbers(v.pvertices) == Holders(labels, |vs| + 1, |labels|)
    ensures BuiltVertices(vs + [v], rdg, labels)
  {
    assert BuiltVertex(v, rdg, labels, |vs|);
    hide BuiltVertex;
  }

  /** The edges for the first i dependences. */
  ghost predicate BuiltEdges(es: seq<PrdgEdge>, vs: seq<PrdgVertex>, b: Body, labels: seq<seq<nat>>, i: nat)
    requires Labelled(b, labels, |vs|) && i <= |b.deps|
    reads es
  {
    && (forall j :: 0 <= j < |es| ==> InList(vs, es[j].source) && InList(vs, es[j].sink))
    && (forall j, l :: 0 <= j < l < |es| ==> es[j] != es[l])
    && Prdg.EdgeViews(es) == StoredEdges(b, labels, |vs|, i)
  }

  ghost predicate InList(vs: seq<PrdgVertex>, v: PrdgVertex) {
    v.Index() < |vs| && vs[v.Index()] == v
  }

  lemma EdgeBuilt(es: seq<PrdgEdge>, vs: seq<PrdgVertex>, rdg: Rdg, b: Body, labels: seq<seq<nat>>, i: nat, e: PrdgEdge)
    requires Labelled(b, labels, |vs|) && i < |b.deps| && BuiltEdges(es, vs, b, labels, i) && e !in es
    requires BuiltVertices(vs, rdg, labels)
    requires var d := b.deps[i]; !d.scalar && e.source == vs[Home(labels, d.sink)] && e.sink == vs[Home(labels, d.source)]
    ensures BuiltEdges(es + [e], vs, b, labels, i + 1)
  {
    var views := Prdg.EdgeViews(es + [e]);
    assert views == Prdg.EdgeViews(es) + [e.View()];
  }

  lemma ScalarSkipped(es: seq<PrdgEdge>, vs: seq<PrdgVertex>, b: Body, labels: seq<seq<nat>>, i: nat)
    requires Labelled(b, labels, |vs|) && i < |b.deps| && BuiltEdges(es, vs, b, labels, i) && b.deps[i].scalar
    ensures BuiltEdges(es, vs, b, labels, i + 1)
  {
  }

  lemma EdgesStart(vs: seq<PrdgVertex>, b: Body, labels: seq<seq<nat>>)
    requires Labelled(b, labels, |vs|)
    ensures BuiltEdges([], vs, b, labels, 0)
  {
  }

  lemma BuiltAll(g: Prdg, rdg: Rdg, labels: seq<seq<nat>>)
    requires rdg.Valid() && g.rdg == rdg && Labelled(rdg.View(), labels, |g.vertices|)
    requires BuiltVertices(g.vertices, rdg, labels)
    requires BuiltEdges(g.edges, g.vertices, rdg.View(), labels, |rdg.View().deps|) && InEdgeOrder(g.edges, rdg.edges, |rdg.edges|)
    ensures BuiltFrom(g, rdg, labels, |g.vertices|)
  {
    assert g.Valid();
    forall i: nat | i < |g.vertices| ensures g.Pv()[i] == Holders(labels, i + 1, |labels|) {
      assert g.Pv()[i] == Numbers(g.vertices[i].pvertices);
    }
  }

  method PartitionVertices(rdg: Rdg, p: nat) returns (vs: seq<PrdgVertex>)
    requires rdg.Valid()
    ensures |vs| == p && fresh(vs) && BuiltVertices(vs, rdg, rdg.Parts())
  {
    hide *;
    vs := [];
    NoVertices(rdg, rdg.Parts());
    for i := 0 to p
      invariant |vs| == i && fresh(vs) && BuiltVertices(vs, rdg, rdg.Parts())
    {
      var members := PartitionStatements(rdg, i + 1);
      var v := new PrdgVertex(i + 1, members);
      VertexBuilt(vs, rdg, rdg.Parts(), v);
      vs := vs + [v];
    }
  }

  lemma NoVertices(rdg: Rdg, labels: seq<seq<nat>>)
    ensures BuiltVertices([], rdg, labels)
  {
  }

  method ComponentVertices(rdg: Rdg, k: nat) returns (vs: seq<PrdgVertex>)
    requires rdg.Valid()
    ensures |vs| == k && fresh(vs) && BuiltVertices(vs, rdg, Prdg.SccLists(rdg.vertices))
  {
    hide *;
    vs := [];
    NoVertices(rdg, Prdg.SccLists(rdg.vertices));
    for i := 0 to k
      invariant |vs| == i && fresh(vs) && BuiltVertices(vs, rdg, Prdg.SccLists(rdg.vertices))
    {
      var members := ComponentStatements(rdg, i + 1);
      var v := new PrdgVertex(i + 1, members);
      v.scc := i + 1;
      VertexBuilt(vs, rdg, Prdg.SccLists(rdg.vertices), v);
      vs := vs + [v];
    }
  }

  lemma DataEdge(rdg: Rdg, labels: seq<seq<nat>>, k: nat, i: nat)
    requires rdg.Valid() && Labelled(rdg.View(), labels, k) && i < |rdg.edges|
    ensures |rdg.View().deps| == |rdg.edges| && rdg.View().deps[i].scalar == rdg.edges[i].scalar
    ensures !rdg.edges[i].scalar ==>
              var u, v, d := rdg.edges[i].source, rdg.edges[i].sink, rdg.View().deps[i];
              && d == Dep(u.number, v.number, false)
              && |labels| == |rdg.vertices|
              && u.number < |labels| && v.number < |labels|
              && rdg.vertices[u.number] == u && rdg.vertices[v.number] == v
              && labels[u.number] != [] && labels[v.number] != []
              && 1 <= labels[u.number][0] <= k && 1 <= labels[v.number][0] <= k
              && Home(labels, d.source) == labels[u.number][0] - 1 && Home(labels, d.sink) == labels[v.number][0] - 1
  {
  }

  /** The edges of the partition graph: source and sink are passed in the order of the call. */
  method PartitionEdges(rdg: Rdg, vs: seq<PrdgVertex>) returns (es: seq<PrdgEdge>)
    requires rdg.Valid() && Labelled(rdg.View(), rdg.Parts(), |vs|) && BuiltVertices(vs, rdg, rdg.Parts())
    ensures fresh(es) && |rdg.View().deps| == |rdg.edges|
    ensures BuiltEdges(es, vs, rdg.View(), rdg.Parts(), |rdg.edges|) && InEdgeOrder(es, rdg.edges, |rdg.edges|)
  {
    hide *;
    es := [];
    assert |rdg.View().deps| == |rdg.edges| by { DepCount(rdg); }
    EdgesStart(vs, rdg.View(), rdg.Parts());
    NoneNamed(es, rdg.edges, 0);
    for i := 0 to |rdg.edges|
      invariant fresh(es) && BuiltEdges(es, vs, rdg.View(), rdg.Parts(), i) && InEdgeOrder(es, rdg.edges, i)
    {
      var e := rdg.edges[i];
      DataEdge(rdg, rdg.Parts(), |vs|, i);
      if !e.scalar {
        var soIdx := e.source.partitionNumbers[0];
        var siIdx := e.sink.partitionNumbers[0];
        var pe := new PrdgEdge(e, vs[soIdx - 1], vs[siIdx - 1]);
        EdgeBuilt(es, vs, rdg, rdg.View(), rdg.Parts(), i, pe);
        EdgeNamed(es, rdg.edges, i, pe);
        es := es + [pe];
      } else {
        ScalarSkipped(es, vs, rdg.View(), rdg.Parts(), i);
        NoneNamed(es, rdg.edges, i);
      }
    }
  }

  lemma DepCount(rdg: Rdg)
    ensures |rdg.View().deps| == |rdg.edges|
  {
  }

  /** The edges of the component graph. */
  method ComponentEdges(rdg: Rdg, vs: seq<PrdgVertex>) returns (es: seq<PrdgEdge>)
    requires rdg.Valid() && Labelled(rdg.View(), Prdg.SccLists(rdg.vertices), |vs|)
    requires BuiltVertices(vs, rdg, Prdg.SccLists(rdg.vertices))
    ensures fresh(es) && |rdg.View().deps| == |rdg.edges|
    ensures BuiltEdges(es, vs, rdg.View(), Prdg.SccLists(rdg.vertices), |rdg.edges|) && InEdgeOrder(es, rdg.edges, |rdg.edges|)
  {
    hide *;
    es := [];
    assert |rdg.View().deps| == |rdg.edges| by { DepCount(rdg); }
    EdgesStart(vs, rdg.View(), Prdg.SccLists(rdg.vertices));
    NoneNamed(es, rdg.edges, 0);
    for i := 0 to |rdg.edges|
      invariant fresh(es) && BuiltEdges(es, vs, rdg.View(), Prdg.SccLists(rdg.vertices), i) && InEdgeOrder(es, rdg.edges, i)
    {
      var e := rdg.edges[i];
      DataEdge(rdg, Prdg.SccLists(rdg.vertices), |vs|, i);
      if !e.scalar {
        var sourceIdx := e.source.sccNumbers[0];
        var sinkIdx := e.sink.sccNumbers[0];
        assert sourceIdx != 0 && sinkIdx != 0;
        var pe := new PrdgEdge(e, vs[sourceIdx - 1], vs[sinkIdx - 1]);
        EdgeBuilt(es, vs, rdg, rdg.View(), Prdg.SccLists(rdg.vertices), i, pe);
        EdgeNamed(es, rdg.edges, i, pe);
        es := es + [pe];
      } else {
        ScalarSkipped(es, vs, rdg.View(), Prdg.SccLists(rdg.vertices), i);
        NoneNamed(es, rdg.edges, i);
      }
    }
  }

  lemma PartsLabelled(b: Body, parts: seq<seq<nat>>, p: nat)
    requires b.Wf() && ExactPartitions(b, parts, p)
    ensures Labelled(b, parts, p)
  {
    forall u: nat | u < |parts| && b.hasRef[u] ensures parts[u] != [] && 1 <= parts[u][0] <= p {
      ArrayIsFixed(b, u);
      assert Fixed(b, u);
      assert InOne(parts[u], p);
    }
  }

  /** build_prdg. The edges are stored as the source stores them: the call passes the source's partition
      where new_prdg_edge declares the sink, and the other way round. */
  method BuildPrdg(rdg: Rdg, ghost rank: seq<nat>) returns (g: Prdg)
    requires rdg.Valid() && rdg.View().Wf() && Ranked(rdg.View(), rank)
    modifies rdg.vertices`partitionNumbers
    ensures |g.vertices| >= 1 && ExactPartitions(rdg.View(), rdg.Parts(), |g.vertices|)
    ensures rdg.ddVertices != [] ==> NoneSuperfluous(rdg.View(), rdg.Parts(), |g.vertices|)
    ensures InTurn(rdg.Parts(), rdg.Arrays())
    ensures BuiltFrom(g, rdg, rdg.Parts(), |g.vertices|)
    ensures fresh(g) && fresh(g.vertices) && fresh(g.edges)
  {
    hide *;
    var p := rdg.MarkPartitions(rank);
    PartsLabelled(rdg.View(), rdg.Parts(), p);
    var vertices := PartitionVertices(rdg, p);
    var edges := PartitionEdges(rdg, vertices);
    g := new Prdg(rdg, vertices, edges);
    BuiltAll(g, rdg, rdg.Parts());
  }

  /** A statement carries a component number exactly when one of its partitions is in that component. */
  ghost predicate Inherited(parts: seq<seq<nat>>, p: nat, m: seq<Mark>, sccs: seq<seq<nat>>) {
    && |m| == p && |sccs| == |parts|
    && forall u: nat, j: nat {:trigger InPartOf(parts, m, u, j)} :: u < |parts| ==> (j in sccs[u] <==> InPartOf(parts, m, u, j))
  }

  ghost predicate InPartOf(parts: seq<seq<nat>>, m: seq<Mark>, u: nat, j: nat)
    requires u < |parts|
  {
    exists v: nat :: v < |m| && v + 1 in parts[u] && m[v].scc == j
  }

  /** pv lists, for every partition, the statements that carry its number. */
  ghost predicate Lists(pv: seq<seq<nat>>, parts: seq<seq<nat>>, p: nat) {
    |pv| == p && forall i :: 0 <= i < p ==> pv[i] == Holders(parts, i + 1, |parts|)
  }

  lemma ListsDistinct(pv: seq<seq<nat>>, parts: seq<seq<nat>>, p: nat)
    requires Lists(pv, parts, p)
    ensures Distinct(pv)
  {
  }

  lemma ListsHold(pv: seq<seq<nat>>, parts: seq<seq<nat>>, p: nat, u: nat, v: nat)
    requires Lists(pv, parts, p) && u < |parts| && v < p
    ensures u in pv[v] <==> v + 1 in parts[u]
  {
    assert pv[v] == Holders(parts, v + 1, |parts|);
  }

  lemma PushedInherited(parts: seq<seq<nat>>, p: nat, pv: seq<seq<nat>>, s: State)
    requires Lists(pv, parts, p) && |s.marks| == p && |s.numbers| == |parts|
    requires Pushed(pv, s) && AllBlack(s)
    ensures Inherited(parts, p, s.marks, s.numbers)
  {
    forall u: nat, j: nat | u < |parts| ensures j in s.numbers[u] <==> InPartOf(parts, s.marks, u, j) {
      assert j in s.numbers[u] <==> Carries(pv, s, u, j);
      forall v: nat | v < p ensures In(pv, s, u, v) <==> v + 1 in parts[u] {
        ListsHold(pv, parts, p, u, v);
      }
    }
  }

  lemma PushedLifted(b: Body, parts: seq<seq<nat>>, p: nat, pv: seq<seq<nat>>, s: State, k: nat)
    requires b.Wf() && ExactPartitions(b, parts, p) && Labelled(b, parts, p)
    requires Lists(pv, parts, p) && |s.marks| == p && |s.numbers| == |parts|
    requires Pushed(pv, s) && AllBlack(s) && ComponentNumbers(Stored(b, parts, p), s.marks, k)
    ensures Lifted(b, parts, p, s.marks, k, s.numbers)
  {
    forall u: nat | u < |parts| && b.hasRef[u] ensures s.numbers[u] == [s.marks[Home(parts, u)].scc] {
      ArrayIsFixed(b, u);
      assert Fixed(b, u);
      assert InOne(parts[u], p);
      var h := Home(parts, u);
      forall v: nat | v < p ensures u in pv[v] <==> v == h {
        ListsHold(pv, parts, p, u, v);
      }
      assert Only(pv, u, h);
      assert Seen(s, h);
    }
  }

  lemma BuiltFits(g: Prdg, rdg: Rdg, labels: seq<seq<nat>>, k: nat)
    requires BuiltFrom(g, rdg, labels, k) && rdg.Valid()
    ensures g.Valid() && g.rdg == rdg && |g.vertices| == k && Lists(g.Pv(), labels, k)
    ensures g.View() == Stored(rdg.View(), labels, k) && g.View().n == k
    ensures Fits(g.View(), g.Pv(), g.At(0)) && InEdgeOrder(g.edges, rdg.edges, |rdg.edges|)
  {
    g.ViewFits(0);
  }

  lemma StillBuilt(g: Prdg, rdg: Rdg, labels: seq<seq<nat>>, k: nat)
    requires g.rdg == rdg && Labelled(rdg.View(), labels, k) && g.Valid() && Lists(g.Pv(), labels, k)
    requires g.View() == Stored(rdg.View(), labels, k) && InEdgeOrder(g.edges, rdg.edges, |rdg.edges|)
    ensures BuiltFrom(g, rdg, labels, k)
  {
  }

  lemma SccsComputed(g: Prdg, rdg: Rdg, parts: seq<seq<nat>>, p: nat, s0: State, t: nat, k: nat)
    requires rdg.Valid() && rdg.View().Wf() && ExactPartitions(rdg.View(), parts, p) && Labelled(rdg.View(), parts, p)
    requires g.Valid() && g.rdg == rdg && |g.vertices| == p >= 1 && Lists(g.Pv(), parts, p)
    requires g.View() == Stored(rdg.View(), parts, p) && Fits(g.View(), g.Pv(), s0)
    requires forall r :: 0 <= r < |s0.numbers| ==> s0.numbers[r] == []
    requires (g.At(t), k) == Number(g.View(), g.Pv(), s0)
    ensures k >= 1 && Lifted(rdg.View(), parts, p, Prdg.Marks(g.vertices), k, Prdg.SccLists(rdg.vertices))
    ensures Inherited(parts, p, Prdg.Marks(g.vertices), Prdg.SccLists(rdg.vertices))
    ensures Labelled(rdg.View(), Prdg.SccLists(rdg.vertices), k)
  {
    hide Number, Lists, Labelled, ExactPartitions, Pushed, Lifted, Inherited, Fits;
    var s := g.At(t);
    ListsDistinct(g.Pv(), parts, p);
    NumberCorrect(g.View(), g.Pv(), s0);
    NumberPushes(g.View(), g.Pv(), s0);
    SomeComponent(g.View(), s.marks, k);
    PartsLength(rdg, parts, p);
    PushedInherited(parts, p, g.Pv(), s);
    PushedLifted(rdg.View(), parts, p, g.Pv(), s, k);
    LiftedLabelled(rdg.View(), parts, p, s.marks, k, s.numbers);
  }

  lemma SomeComponent(g: Graph, m: seq<Mark>, k: nat)
    requires ComponentNumbers(g, m, k) && g.n >= 1
    ensures k >= 1
  {
    assert 1 <= m[0].scc <= k;
  }

  lemma PartsLength(rdg: Rdg, parts: seq<seq<nat>>, p: nat)
    requires Labelled(rdg.View(), parts, p)
    ensures |parts| == |rdg.vertices|
  {
  }

  /** build_scc_graph: numbers the components of g and builds the graph of components. */
  method BuildSccGraph(g: Prdg, rdg: Rdg) returns (sccg: Prdg)
    requires rdg.Valid() && rdg.View().Wf() && |g.vertices| >= 1
    requires ExactPartitions(rdg.View(), rdg.Parts(), |g.vertices|)
    requires BuiltFrom(g, rdg, rdg.Parts(), |g.vertices|)
    requires forall r :: 0 <= r < |rdg.vertices| ==> rdg.vertices[r].sccNumbers == []
    modifies g.vertices`color, g.vertices`d, g.vertices`f, g.vertices`scc, g.vertices`pred
    modifies rdg.vertices`sccNumbers, g.edges`source, g.edges`sink
    ensures rdg.Parts() == old(rdg.Parts()) && BuiltFrom(g, rdg, rdg.Parts(), |g.vertices|)
    ensures |sccg.vertices| >= 1 && BuiltFrom(sccg, rdg, Prdg.SccLists(rdg.vertices), |sccg.vertices|)
    ensures Lifted(rdg.View(), rdg.Parts(), |g.vertices|, Prdg.Marks(g.vertices), |sccg.vertices|, Prdg.SccLists(rdg.vertices))
    ensures Inherited(rdg.Parts(), |g.vertices|, Prdg.Marks(g.vertices), Prdg.SccLists(rdg.vertices))
    ensures fresh(sccg) && fresh(sccg.vertices) && fresh(sccg.edges)
  {
    hide *;
    ghost var p, s0 := |g.vertices|, g.At(0);
    PartsLabelled(rdg.View(), rdg.Parts(), p);
    BuiltFits(g, rdg, rdg.Parts(), p);
    g.AtParts(0);
    var k;
    ghost var t;
    k, t := g.Scc();
    SccsComputed(g, rdg, rdg.Parts(), p, s0, t, k);
    StillBuilt(g, rdg, rdg.Parts(), p);
    var vertices := ComponentVertices(rdg, k);
    var edges := ComponentEdges(rdg, vertices);
    sccg := new Prdg(rdg, vertices, edges);
    BuiltAll(sccg, rdg, Prdg.SccLists(rdg.vertices));
  }

  lemma SortedPlan(sccg: Prdg, rdg: Rdg, b: Body, parts: seq<seq<nat>>, p: nat, m: seq<Mark>, k: nat, sccs: seq<seq<nat>>, s0: State)
    requires b == rdg.View() && Lifted(b, parts, p, m, k, sccs) && Labelled(b, sccs, k)
    requires sccg.View() == Stored(b, sccs, k) && sccg.View().n == k && Fits(sccg.View(), sccg.Pv(), s0)
    ensures var order := Order(sccg.View(), sccg.Pv(), s0); Permutation(order, k) && Topological(sccg.View(), order)
    ensures Search(sccg.View(), sccg.Pv(), s0).numbers == s0.numbers
  {
    hide Search, Order;
    ComponentGraphAcyclic(b, parts, p, m, k, sccs);
    OrderIsPermutation(sccg.View(), sccg.Pv(), s0);
    OrderTopologicalIff(sccg.View(), sccg.Pv(), s0);
    SearchDone(sccg.View(), sccg.Pv(), s0);
  }

  /** The two graphs, for partition lists parts, component lists sccs and partition marks m: the partitions are
      exact, the components are the strongly connected components of the partition graph, statements carry
      the components of their partitions, and both graphs are built from the lists. */
  ghost predicate Graphs(rdg: Rdg, rdgp: Prdg, sccg: Prdg, parts: seq<seq<nat>>, m: seq<Mark>, sccs: seq<seq<nat>>)
    reads rdgp.edges, sccg.edges
  {
    && ExactPartitions(rdg.View(), parts, |rdgp.vertices|)
    && (rdg.ddVertices != [] ==> NoneSuperfluous(rdg.View(), parts, |rdgp.vertices|))
    && InTurn(parts, rdg.Arrays())
    && BuiltFrom(rdgp, rdg, parts, |rdgp.vertices|)
    && Lifted(rdg.View(), parts, |rdgp.vertices|, m, |sccg.vertices|, sccs)
    && Inherited(parts, |rdgp.vertices|, m, sccs)
    && BuiltFrom(sccg, rdg, sccs, |sccg.vertices|)
  }

  /** The first half of do_distribution. */
  method BuildGraphs(rdg: Rdg, ghost rank: seq<nat>) returns (rdgp: Prdg, sccg: Prdg)
    requires rdg.Valid() && rdg.View().Wf() && Ranked(rdg.View(), rank)
    requires forall r :: 0 <= r < |rdg.vertices| ==> rdg.vertices[r].sccNumbers == []
    modifies rdg.vertices`partitionNumbers, rdg.vertices`sccNumbers
    ensures Graphs(rdg, rdgp, sccg, rdg.Parts(), Prdg.Marks(rdgp.vertices), Prdg.SccLists(rdg.vertices))
    ensures fresh(rdgp.vertices) && fresh(rdgp.edges) && fresh(sccg.vertices) && fresh(sccg.edges)
    ensures forall u :: u in rdgp.vertices ==> u !in sccg.vertices
  {
    hide ExactPartitions, NoneSuperfluous, InTurn, BuiltFrom, Lifted, Inherited, Ranked;
    rdgp := BuildPrdg(rdg, rank);
    sccg := BuildSccGraph(rdgp, rdg);
  }

  lemma GraphsFit(rdg: Rdg, rdgp: Prdg, sccg: Prdg, parts: seq<seq<nat>>, m: seq<Mark>, sccs: seq<seq<nat>>)
    requires rdg.Valid() && Graphs(rdg, rdgp, sccg, parts, m, sccs)
    ensures sccg.Valid() && sccg.rdg == rdg && Fits(sccg.View(), sccg.Pv(), sccg.At(0))
    ensures var order := Order(sccg.View(), sccg.Pv(), sccg.At(0));
            Permutation(order, |sccg.vertices|) && Topological(sccg.View(), order)
  {
    hide ExactPartitions, NoneSuperfluous, InTurn, Lifted, Inherited, Permutation, Topological, Order;
    BuiltFits(sccg, rdg, sccs, |sccg.vertices|);
    LiftedLabelled(rdg.View(), parts, |rdgp.vertices|, m, |sccg.vertices|, sccs);
    SortedPlan(sccg, rdg, rdg.View(), parts, |rdgp.vertices|, m, |sccg.vertices|, sccs, sccg.At(0));
  }

  /** do_distribution, once the reduced dependence graph is there: the partition graph, the component graph
      and the plan, a list of component vertices. */
  method Distribute(rdg: Rdg, ghost rank: seq<nat>) returns (rdgp: Prdg, sccg: Prdg, plan: seq<PrdgVertex>)
    requires rdg.Valid() && rdg.View().Wf() && Ranked(rdg.View(), rank)
    requires forall r :: 0 <= r < |rdg.vertices| ==> rdg.vertices[r].sccNumbers == []
    modifies rdg.vertices`partitionNumbers, rdg.vertices`sccNumbers
    ensures Graphs(rdg, rdgp, sccg, rdg.Parts(), Prdg.Marks(rdgp.vertices), Prdg.SccLists(rdg.vertices))
    ensures Permutation(Prdg.Indices(plan), |sccg.vertices|) && Topological(sccg.View(), Prdg.Indices(plan))
    ensures forall i :: 0 <= i < |plan| ==> sccg.Owns(plan[i])
  {
    hide *;
    rdgp, sccg := BuildGraphs(rdg, rank);
    ghost var parts, m, sccs := rdg.Parts(), Prdg.Marks(rdgp.vertices), Prdg.SccLists(rdg.vertices);
    GraphsFit(rdg, rdgp, sccg, parts, m, sccs);
    plan := sccg.TopologicalSort();
    forall i | 0 <= i < |rdgp.vertices| ensures rdgp.vertices[i].View() == m[i] {
      assert rdgp.vertices[i] !in sccg.vertices;
    }
    assert Prdg.Marks(rdgp.vertices) == m;
  }

  /** What the plan means for the dependences of the body: respected exactly when every data dependence is on a
      cycle of the partition graph, and always respected when the plan is read from its end. */
  lemma PlanAndDependences(rdg: Rdg, rdgp: Prdg, sccg: Prdg, parts: seq<seq<nat>>, m: seq<Mark>, sccs: seq<seq<nat>>, order: seq<nat>)
    requires Graphs(rdg, rdgp, sccg, parts, m, sccs)
    requires Permutation(order, |sccg.vertices|) && Topological(sccg.View(), order)
    ensures var b, k := rdg.View(), |sccg.vertices|;
            && Labelled(b, parts, |rdgp.vertices|) && Labelled(b, sccs, k)
            && (Respects(b, sccs, k, order) <==> AllOnCycles(b, parts, |rdgp.vertices|))
            && Stored(b, parts, |rdgp.vertices|) == rdgp.View()
            && Respects(b, sccs, k, Reversed(order))
  {
    hide ExactPartitions, NoneSuperfluous, InTurn, Lifted, Inherited, Permutation, Topological, Respects;
    LiftedLabelled(rdg.View(), parts, |rdgp.vertices|, m, |sccg.vertices|, sccs);
    RespectsIff(rdg.View(), parts, |rdgp.vertices|, m, |sccg.vertices|, sccs, order);
    ReversedRespects(rdg.View(), sccs, |sccg.vertices|, order);
  }
}
