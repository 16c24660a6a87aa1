/** The partition graph as the pass holds it: vertices whose search fields are overwritten by every
    search, and edges that are turned around in place. */
module PartitionGraph {
  import opened Options
  import opened Digraph
  import opened DepthFirst
  import opened Components
  import opened ReducedGraph
  import TopologicalOrder

  /** Vertices are numbered from 1. */
  type positive = n: nat | n > 0 witness 1

  class PrdgVertex {
    const num: positive
    const pvertices: seq<RdgVertex>
    var color: Color
    var d: nat
    var f: nat
    var scc: nat
    var pred: PrdgVertex?

    /** new_prdg_vertex, with the members that are pushed right after it. */
    constructor (num: positive, pvertices: seq<RdgVertex>)
      ensures this.num == num && this.pvertices == pvertices
      ensures color.White? && d == f == scc == 0 && pred == null
    {
      this.num, this.pvertices := num, pvertices;
      color, d, f, scc, pred := White, 0, 0, 0, null;
    }

    ghost function Index(): nat {
      num - 1
    }

    ghost function View(): Mark
      reads this
    {
      Mark(color, d, f, scc, if pred == null then None else Some(pred.Index()))
    }
  }

  class PrdgEdge {
    const rdgEdge: RdgEdge
    var source: PrdgVertex
    var sink: PrdgVertex

    /** new_prdg_edge, with its parameters in the declared order. */
    constructor (rdgEdge: RdgEdge, sink: PrdgVertex, source: PrdgVertex)
      ensures this.rdgEdge == rdgEdge && this.sink == sink && this.source == source
    {
      this.rdgEdge, this.sink, this.source := rdgEdge, sink, source;
    }

    ghost function View(): Edge
      reads this
    {
      Edge(source.Index(), sink.Index())
    }
  }

  class Prdg {
    const rdg: Rdg
    const vertices: seq<PrdgVertex>
    const edges: seq<PrdgEdge>

    constructor (rdg: Rdg, vertices: seq<PrdgVertex>, edges: seq<PrdgEdge>)
      ensures this.rdg == rdg && this.vertices == vertices && this.edges == edges
    {
      this.rdg, this.vertices, this.edges := rdg, vertices, edges;
    }

    ghost predicate Owns(v: PrdgVertex) {
      v.Index() < |vertices| && vertices[v.Index()] == v
    }

    ghost predicate Valid()
      reads edges
    {
      && (forall i :: 0 <= i < |vertices| ==> vertices[i].Index() == i)
      && (forall i :: 0 <= i < |edges| ==> Owns(edges[i].source) && Owns(edges[i].sink))
      && (forall i, j :: 0 <= i < j < |edges| ==> edges[i] != edges[j])
      && (forall i :: 0 <= i < |rdg.vertices| ==> rdg.vertices[i].number == i)
      && (forall i, j :: 0 <= i < |vertices| && 0 <= j < |vertices[i].pvertices| ==> rdg.Owns(vertices[i].pvertices[j]))
    }

    /** The stored edges, by vertex index. */
    ghost function View(): (g: Graph)
      reads edges
      ensures g.n == |vertices| && |g.edges| == |edges|
      ensures forall i :: 0 <= i < |edges| ==> g.edges[i] == edges[i].View()
    {
      Graph(|vertices|, EdgeViews(edges))
    }

    static ghost function EdgeViews(es: seq<PrdgEdge>): (r: seq<Edge>)
      reads es
      ensures |r| == |es| && forall i :: 0 <= i < |r| ==> r[i] == es[i].View()
    {
      if es == [] then [] else [es[0].View()] + EdgeViews(es[1..])
    }

    /** The statements of every vertex, by number. */
    ghost function Pv(): (r: seq<seq<nat>>)
      ensures |r| == |vertices|
      ensures forall i :: 0 <= i < |r| ==> |r[i]| == |vertices[i].pvertices|
      ensures forall i, j :: 0 <= i < |r| && 0 <= j < |r[i]| ==> r[i][j] == vertices[i].pvertices[j].number
    {
      seq(|vertices|, i requires 0 <= i < |vertices| =>
        seq(|vertices[i].pvertices|, j requires 0 <= j < |vertices[i].pvertices| => vertices[i].pvertices[j].number))
    }

    static ghost function Marks(vs: seq<PrdgVertex>): (r: seq<Mark>)
      reads vs
      ensures |r| == |vs| && forall i :: 0 <= i < |r| ==> r[i] == vs[i].View()
    {
      if vs == [] then [] else [vs[0].View()] + Marks(vs[1..])
    }

    static ghost function SccLists(vs: seq<RdgVertex>): (r: seq<seq<nat>>)
      reads vs`sccNumbers
      ensures |r| == |vs| && forall i :: 0 <= i < |r| ==> r[i] == vs[i].sccNumbers
    {
      if vs == [] then [] else [vs[0].sccNumbers] + SccLists(vs[1..])
    }

    /** Everything a search reads and writes, with the clock at t. */
    ghost function At(t: nat): State
      reads vertices, rdg.vertices`sccNumbers
    {
      State(Marks(vertices), t, SccLists(rdg.vertices))
    }

    lemma ViewFits(t: nat)
      requires Valid()
      ensures Fits(View(), Pv(), At(t))
    {
    }

    lemma OwnedVertex(v: PrdgVertex)
      requires Valid() && Owns(v)
      ensures v.Index() < |vertices| && vertices[v.Index()] == v
      ensures forall i :: 0 <= i < |vertices| && i != v.Index() ==> vertices[i] != v
    {
    }

    lemma OwnedMember(v: PrdgVertex, j: nat)
      requires Valid() && Owns(v) && j < |v.pvertices|
      ensures var r := v.pvertices[j].number;
              && r < |rdg.vertices| && rdg.vertices[r] == v.pvertices[j] && r == Pv()[v.Index()][j]
              && forall i :: 0 <= i < |rdg.vertices| && i != r ==> rdg.vertices[i] != v.pvertices[j]
    {
      assert rdg.Owns(vertices[v.Index()].pvertices[j]);
    }

    lemma OwnedEdge(i: nat)
      requires Valid() && i < |edges|
      ensures Owns(edges[i].source) && Owns(edges[i].sink)
      ensures View().edges[i] == Edge(edges[i].source.Index(), edges[i].sink.Index())
    {
    }

    lemma SameVertex(u: PrdgVertex, v: PrdgVertex)
      requires Owns(u) && Owns(v)
      ensures u == v <==> u.Index() == v.Index()
    {
    }

    /** Appends the component number to the list of every statement of v. */
    method PushScc(v: PrdgVertex, scc: nat)
      requires Valid() && Owns(v) && v.Index() < |Pv()|
      requires forall j :: 0 <= j < |Pv()[v.Index()]| ==> Pv()[v.Index()][j] < |rdg.vertices|
      modifies rdg.vertices`sccNumbers
      ensures SccLists(rdg.vertices) == PushAll(old(SccLists(rdg.vertices)), Pv()[v.Index()], scc)
    {
      hide Valid, Owns;
      OwnedVertex(v);
      ghost var rs := Pv()[v.Index()];
      ghost var lists0 := SccLists(rdg.vertices);
      assert rs[0..] == rs;
      for i := 0 to |v.pvertices|
        invariant PushAll(SccLists(rdg.vertices), rs[i..], scc) == PushAll(lists0, rs, scc)
      {
        ghost var lists := SccLists(rdg.vertices);
        var r := v.pvertices[i];
        OwnedMember(v, i);
        r.sccNumbers := r.sccNumbers + [scc];
        assert SccLists(rdg.vertices) == lists[rs[i] := lists[rs[i]] + [scc]];
        assert rs[i..][1..] == rs[i + 1..];
      }
    }

    method Paint(v: PrdgVertex, t: nat, scc: nat)
      requires Valid() && Owns(v)
      modifies vertices`color, vertices`d, vertices`scc
      ensures v.Index() < |vertices|
      ensures Marks(vertices) == old(Marks(vertices))[v.Index() := old(Marks(vertices))[v.Index()].(color := Gray, d := t, scc := scc)]
    {
      hide Valid, Owns;
      OwnedVertex(v);
      ghost var marks0 := Marks(vertices);
      v.color := Gray;
      v.d := t;
      v.scc := scc;
      assert Marks(vertices) == marks0[v.Index() := marks0[v.Index()].(color := Gray, d := t, scc := scc)];
    }

    /** v becomes active at clock t + 1. */
    method Open(v: PrdgVertex, t: nat, scc: nat)
      requires Valid() && Owns(v) && Fits(View(), Pv(), At(t)) && v.Index() < View().n
      modifies vertices`color, vertices`d, vertices`scc, rdg.vertices`sccNumbers
      ensures At(t + 1) == Discover(View(), Pv(), v.Index(), old(At(t)), scc)
    {
      hide *;
      OwnedVertex(v);
      AtParts(t);
      DiscoverUnfolds(View(), Pv(), v.Index(), At(t), scc);
      Paint(v, t + 1, scc);
      if scc != 0 {
        PushScc(v, scc);
      }
      AtParts(t + 1);
    }

    /** v is finished at clock t + 1. */
    method Close(v: PrdgVertex, t: nat)
      requires Valid() && Owns(v) && v.Index() < |At(t).marks|
      modifies vertices`color, vertices`f
      ensures At(t + 1) == Finish(v.Index(), old(At(t)))
    {
      hide Valid, Owns;
      OwnedVertex(v);
      ghost var marks0 := Marks(vertices);
      v.color := Black;
      v.f := t + 1;
      assert Marks(vertices) == marks0[v.Index() := marks0[v.Index()].(color := Black, f := t + 1)];
    }

    method LinkPred(u: PrdgVertex, v: PrdgVertex, ghost t: nat)
      requires Valid() && Owns(u) && u.Index() < |At(t).marks|
      modifies vertices`pred
      ensures At(t) == SetPred(old(At(t)), u.Index(), v.Index())
    {
      hide Valid, Owns;
      OwnedVertex(u);
      ghost var marks0 := Marks(vertices);
      u.pred := v;
      assert Marks(vertices) == marks0[u.Index() := marks0[u.Index()].(pred := Some(v.Index()))];
    }

    lemma ColorIs(v: PrdgVertex, t: nat)
      requires Valid() && Owns(v)
      ensures v.Index() < |At(t).marks| == View().n && At(t).marks[v.Index()].color == v.color
    {
    }

    /** dfs_rdgp_1: the search from v, with the clock at t, computes Visit. */
    method DfsVisit(v: PrdgVertex, t: nat, scc: nat) returns (t1: nat)
      requires Valid() && Owns(v) && v.color.White? && Fits(View(), Pv(), At(t))
      requires v.Index() < View().n && At(t).marks[v.Index()].color.White?
      modifies vertices`color, vertices`d, vertices`f, vertices`scc, vertices`pred, rdg.vertices`sccNumbers
      ensures At(t1) == Visit(View(), Pv(), v.Index(), old(At(t)), scc)
      decreases Whites(At(t))
    {
      hide *;
      ghost var g, pv, s0 := View(), Pv(), At(t);
      VisitUnfolds(g, pv, v.Index(), s0, scc);
      Open(v, t, scc);
      t1 := t + 1;
      ghost var s1 := At(t1);
      for i := 0 to |edges|
        invariant Fits(g, pv, At(t1)) && Seen(At(t1), v.Index())
        invariant Whites(At(t1)) <= Whites(s1)
        invariant VisitEdges(g, pv, v.Index(), i, At(t1), scc) == VisitEdges(g, pv, v.Index(), 0, s1, scc)
      {
        var e := edges[i];
        OwnedEdge(i);
        SameVertex(e.source, v);
        ColorIs(e.sink, t1);
        VisitEdgesUnfolds(g, pv, v.Index(), i, At(t1), scc);
        if e.source == v {
          var u := e.sink;
          if u.color.White? {
            LinkPred(u, v, t1);
            t1 := DfsVisit(u, t1, scc);
          }
        }
      }
      VisitEdgesEnds(g, pv, v.Index(), At(t1), scc);
      Close(v, t1);
      t1 := t1 + 1;
    }

    /** Every vertex white and without predecessor. */
    method ResetColors()
      requires Valid()
      modifies vertices`color, vertices`pred
      ensures At(0) == Reset(old(At(0)))
      ensures forall i :: 0 <= i < |vertices| ==> vertices[i].f == old(vertices[i].f)
    {
      hide Valid, Owns;
      ghost var marks0 := Marks(vertices);
      VerticesDistinct();
      for i := 0 to |vertices|
        invariant forall j :: 0 <= j < |vertices| ==>
                    vertices[j].View() == if j < i then marks0[j].(color := White, pred := None) else marks0[j]
      {
        vertices[i].color := White;
        vertices[i].pred := null;
      }
      assert Marks(vertices) == Reset(old(At(0))).marks;
    }

    lemma VerticesDistinct()
      requires Valid()
      ensures forall i, j :: 0 <= i < |vertices| && 0 <= j < |vertices| && i != j ==> vertices[i] != vertices[j]
    {
    }

    lemma VertexAt(i: nat, t: nat)
      requires Valid() && i < |vertices|
      ensures Owns(vertices[i]) && vertices[i].Index() == i
      ensures |At(t).marks| == View().n == |vertices| && At(t).marks[i].color == vertices[i].color
    {
    }

    /** dfs_rdgp: a complete search; returns the largest finish time. */
    method Dfs() returns (t: nat)
      requires Valid() && Fits(View(), Pv(), At(0))
      modifies vertices`color, vertices`d, vertices`f, vertices`scc, vertices`pred, rdg.vertices`sccNumbers
      ensures At(t) == Search(View(), Pv(), old(At(0)))
    {
      hide *;
      ghost var g, pv, s0 := View(), Pv(), At(0);
      SearchUnfolds(g, pv, s0);
      t := 0;
      ResetColors();
      for i := 0 to |vertices|
        invariant Fits(g, pv, At(t))
        invariant SearchFrom(g, pv, i, At(t)) == Search(g, pv, s0)
      {
        VertexAt(i, t);
        SearchFromUnfolds(g, pv, i, At(t));
        if vertices[i].color.White? {
          t := DfsVisit(vertices[i], t, 0);
        }
      }
      SearchFromEnds(g, pv, At(t));
    }

    /** transpose_rdgp: turns every edge around, in place. */
    method Transpose()
      requires Valid()
      modifies edges`source, edges`sink
      ensures Valid() && View() == old(View()).Transpose()
    {
      for i := 0 to |edges|
        invariant forall j :: 0 <= j < |edges| ==>
                    && edges[j].source == (if j < i then old(edges[j].sink) else old(edges[j].source))
                    && edges[j].sink == (if j < i then old(edges[j].source) else old(edges[j].sink))
      {
        var e := edges[i];
        var tmp := e.sink;
        e.sink := e.source;
        e.source := tmp;
      }
    }

    static ghost function Indices(vs: seq<PrdgVertex>): (r: seq<nat>)
      ensures |r| == |vs| && forall i :: 0 <= i < |r| ==> r[i] == vs[i].Index()
    {
      seq(|vs|, i requires 0 <= i < |vs| => vs[i].Index())
    }

    /** The binary search that finds where v belongs in the sorted vertices. */
    method FindLowerBound(sorted: seq<PrdgVertex>, v: PrdgVertex, ghost marks: seq<Mark>) returns (k: nat)
      requires v.Index() < |marks| && SortedByFinish(marks, Indices(sorted))
      requires marks[v.Index()].f == v.f
      requires forall i :: 0 <= i < |sorted| ==> sorted[i].Index() < |marks| && marks[sorted[i].Index()].f == sorted[i].f
      ensures k == LowerBound(marks, Indices(sorted), v.Index())
    {
      ghost var order := Indices(sorted);
      var lo, hi := 0, |sorted|;
      while lo < hi
        invariant 0 <= lo <= hi <= |sorted|
        invariant forall j :: 0 <= j < lo ==> marks[order[j]].f < v.f
        invariant forall j :: hi <= j < |sorted| ==> v.f <= marks[order[j]].f
      {
        var mid := (lo + hi) / 2;
        assert marks[order[mid]].f == sorted[mid].f;
        if sorted[mid].f < v.f {
          lo := mid + 1;
        } else {
          hi := mid;
        }
      }
      LowerBoundUnique(marks, order, v.Index(), lo);
      k := lo;
    }

    lemma OwnedMarks(vs: seq<PrdgVertex>)
      requires forall i :: 0 <= i < |vs| ==> Owns(vs[i])
      ensures forall i :: 0 <= i < |vs| ==> vs[i].Index() < |Marks(vertices)| && Marks(vertices)[vs[i].Index()].f == vs[i].f
    {
    }

    /** The vertices in increasing order of finish time. */
    method SortByFinish() returns (sorted: seq<PrdgVertex>)
      requires Valid() && DistinctFinish(Marks(vertices))
      ensures Indices(sorted) == FinishOrder(Marks(vertices), |vertices|)
      ensures forall i :: 0 <= i < |sorted| ==> Owns(sorted[i])
    {
      hide *;
      ghost var marks := Marks(vertices);
      sorted := [];
      FinishOrderStarts(marks);
      for i := 0 to |vertices|
        invariant Indices(sorted) == FinishOrder(marks, i)
        invariant forall j :: 0 <= j < |sorted| ==> Owns(sorted[j])
      {
        var v := vertices[i];
        VertexAt(i, 0);
        FinishOrderUnfolds(marks, i);
        OwnedMarks(sorted);
        OwnedMarks([v]);
        assert [v][0] == v;
        var k := FindLowerBound(sorted, v, marks);
        ghost var order := Indices(sorted);
        sorted := sorted[..k] + [v] + sorted[k..];
        assert Indices(sorted) == order[..k] + [i] + order[k..];
      }
    }

    lemma IndicesPrefix(sorted: seq<PrdgVertex>, n: nat)
      requires n <= |sorted|
      ensures Indices(sorted[..n]) == Indices(sorted)[..n]
    {
    }

    /** The first search is over. */
    ghost predicate Searched()
      reads vertices, edges, rdg.vertices`sccNumbers
    {
      && Fits(View(), Pv(), At(0)) && Fits(View(), Pv(), Reset(At(0)))
      && Below(FinishOrder(Marks(vertices), |vertices|), View().n)
    }

    /** What the second pass has to compute: searches from the vertices by falling finish time. */
    ghost function Collected(): (State, nat)
      reads vertices, edges, rdg.vertices`sccNumbers
      requires Searched()
    {
      Collect(View(), Pv(), FinishOrder(Marks(vertices), |vertices|), Reset(At(0)), 0)
    }

    lemma CollectedIs()
      requires Searched()
      ensures Fits(View(), Pv(), At(0)) && Fits(View(), Pv(), Reset(At(0)))
      ensures Below(FinishOrder(Marks(vertices), |vertices|), View().n)
      ensures Collected() == Collect(View(), Pv(), FinishOrder(Marks(vertices), |vertices|), Reset(At(0)), 0)
    {
    }

    lemma SearchedIs()
      ensures Searched() <==> Fits(View(), Pv(), At(0)) && Fits(View(), Pv(), Reset(At(0))) && Below(FinishOrder(Marks(vertices), |vertices|), View().n)
    {
    }

    /** scc_rdgp_1: the second pass, over the graph with its edges turned around; returns the number of
        components, and as t the final clock. */
    method SecondPass() returns (k: nat, ghost t: nat)
      requires Valid() && Searched() && DistinctFinish(Marks(vertices)) && |vertices| > 0
      modifies vertices`color, vertices`d, vertices`f, vertices`scc, vertices`pred, rdg.vertices`sccNumbers
      ensures (At(t), k) == old(Collected())
    {
      hide *;
      ghost var g, pv, s0 := View(), Pv(), At(0);
      CollectedIs();
      var sorted := SortByFinish();
      assert |sorted| > 0;
      ghost var order := Indices(sorted);
      var clock := 0;
      k, t := 0, 0;
      ResetColors();
      while |sorted| > 0
        invariant Fits(g, pv, At(clock)) && Below(Indices(sorted), g.n)
        invariant forall i :: 0 <= i < |sorted| ==> Owns(sorted[i])
        invariant Collect(g, pv, Indices(sorted), At(clock), k) == Collect(g, pv, order, Reset(s0), 0)
      {
        var n := |sorted| - 1;
        var v := sorted[n];
        ColorIs(v, clock);
        CollectUnfolds(g, pv, Indices(sorted), At(clock), k);
        IndicesPrefix(sorted, n);
        sorted := sorted[..n];
        if v.color.White? {
          k := k + 1;
          clock := DfsVisit(v, clock, k);
        }
      }
      CollectEnds(g, pv, At(clock), k);
      assert Indices(sorted) == [];
      t := clock;
    }

    /** The first search, and the edges turned around. */
    method FirstPass()
      requires Valid() && Fits(View(), Pv(), At(0))
      modifies vertices`color, vertices`d, vertices`f, vertices`scc, vertices`pred, rdg.vertices`sccNumbers
      modifies edges`source, edges`sink
      ensures Valid() && View() == old(View()).Transpose() && View().Transpose() == old(View())
      ensures Searched() && DistinctFinish(Marks(vertices)) && Collected() == old(Number(View(), Pv(), At(0)))
    {
      hide *;
      ghost var g, pv, s0 := View(), Pv(), At(0);
      NumberUnfolds(g, pv, s0);
      var maxF := Dfs();
      AtParts(maxF);
      AtParts(0);
      SameReset(At(maxF), At(0));
      Transpose();
      SearchedIs();
      CollectedIs();
    }

    /** scc_rdgp: numbers the strongly connected components and returns how many there are; the edges end up
        as they were. */
    method Scc() returns (k: nat, ghost t: nat)
      requires Valid() && Fits(View(), Pv(), At(0)) && |vertices| > 0
      modifies vertices`color, vertices`d, vertices`f, vertices`scc, vertices`pred, rdg.vertices`sccNumbers
      modifies edges`source, edges`sink
      ensures Valid() && View() == old(View())
      ensures (At(t), k) == Number(View(), Pv(), old(At(0)))
    {
      hide *;
      FirstPass();
      k, t := SecondPass();
      Transpose();
    }

    lemma AtParts(t: nat)
      ensures At(t).marks == Marks(vertices) && At(t).t == t && At(t).numbers == SccLists(rdg.vertices)
    {
    }

    lemma SameReset(s: State, r: State)
      requires s.marks == r.marks && s.numbers == r.numbers
      ensures Reset(s) == Reset(r)
      ensures forall g, pv :: Fits(g, pv, s) <==> Fits(g, pv, r)
    {
    }

    /** topological_sort: the vertices by decreasing finish time, read off an array of buckets. */
    method TopologicalSort() returns (sorted: seq<PrdgVertex>)
      requires Valid() && Fits(View(), Pv(), At(0))
      modifies vertices`color, vertices`d, vertices`f, vertices`scc, vertices`pred, rdg.vertices`sccNumbers
      ensures Indices(sorted) == TopologicalOrder.Order(View(), Pv(), old(At(0)))
      ensures SccLists(rdg.vertices) == old(SccLists(rdg.vertices))
      ensures forall i :: 0 <= i < |sorted| ==> Owns(sorted[i])
    {
      hide *;
      TopologicalOrder.OrderUnfolds(View(), Pv(), At(0));
      AtParts(0);
      var maxF := Dfs();
      AtParts(maxF);
      var buckets := FillBuckets(maxF);
      sorted := DrainBuckets(buckets, maxF);
    }

    /** Puts every vertex into the bucket of its finish time. */
    method FillBuckets(maxF: nat) returns (buckets: array<PrdgVertex?>)
      requires Valid() && forall i :: 0 <= i < |vertices| ==> Marks(vertices)[i].f <= maxF
      ensures fresh(buckets) && buckets.Length == maxF + 1
      ensures forall f :: 0 <= f <= maxF ==> InBucket(buckets[f], |vertices|, f)
    {
      hide *;
      buckets := new PrdgVertex?[maxF + 1](_ => null);
      forall f | 0 <= f <= maxF ensures InBucket(buckets[f], 0, f) { EmptyBucket(f); }
      for i := 0 to |vertices|
        invariant forall f :: 0 <= f <= maxF ==> InBucket(buckets[f], i, f)
      {
        ghost var before := buckets[..];
        MarkOf(i);
        buckets[vertices[i].f] := vertices[i];
        forall f | 0 <= f <= maxF ensures InBucket(buckets[f], i + 1, f) {
          NextInBucket(before[f], i, f);
        }
      }
    }

    ghost predicate InBucket(v: PrdgVertex?, i: nat, f: nat)
      reads vertices
      requires i <= |vertices|
    {
      match TopologicalOrder.Bucket(Marks(vertices), i, f)
      case None => v == null
      case Some(j) => v != null && Owns(v) && v.Index() == j
    }

    lemma EmptyBucket(f: nat)
      ensures InBucket(null, 0, f)
    {
    }

    lemma MarkOf(i: nat)
      requires i < |vertices|
      ensures Marks(vertices)[i].f == vertices[i].f
    {
    }

    lemma NextInBucket(v: PrdgVertex?, i: nat, f: nat)
      requires Valid() && i < |vertices| && InBucket(v, i, f)
      ensures InBucket(if vertices[i].f == f then vertices[i] else v, i + 1, f)
    {
      VertexAt(i, 0);
    }

    lemma BucketHolds(v: PrdgVertex?, f: nat)
      requires InBucket(v, |vertices|, f)
      ensures |Marks(vertices)| == |vertices|
      ensures var b := TopologicalOrder.Bucket(Marks(vertices), |vertices|, f);
              if v == null then b == None else Owns(v) && b == Some(v.Index())
    {
    }

    lemma Appended(sorted: seq<PrdgVertex>, v: PrdgVertex, rest: seq<nat>)
      ensures Indices(sorted + [v]) + rest == Indices(sorted) + ([v.Index()] + rest)
    {
    }

    method DrainBuckets(buckets: array<PrdgVertex?>, maxF: nat) returns (sorted: seq<PrdgVertex>)
      requires buckets.Length == maxF + 1
      requires forall f :: 0 <= f <= maxF ==> InBucket(buckets[f], |vertices|, f)
      ensures Indices(sorted) == TopologicalOrder.Drain(Marks(vertices), maxF)
      ensures forall i :: 0 <= i < |sorted| ==> Owns(sorted[i])
    {
      hide *;
      ghost var marks := Marks(vertices);
      sorted := [];
      var f: nat := maxF;
      TopologicalOrder.DrainUnfolds(marks, 0);
      assert Indices(sorted) == [];
      while f > 0
        invariant f <= maxF
        invariant Indices(sorted) + TopologicalOrder.Drain(marks, f) == TopologicalOrder.Drain(marks, maxF)
        invariant forall i :: 0 <= i < |sorted| ==> Owns(sorted[i])
      {
        TopologicalOrder.DrainUnfolds(marks, f);
        BucketHolds(buckets[f], f);
        var v := buckets[f];
        if v != null {
          Appended(sorted, v, TopologicalOrder.Drain(marks, f - 1));
          sorted := sorted + [v];
        }
        f := f - 1;
      }
    }
  }
}
