/** The reduced dependence graph as the pass holds it: statement vertices whose partition and component
    lists are appended to in place. */
module ReducedGraph {
  import opened Digraph
  import opened StatementGraph
  import opened PartitionMeaning

  datatype DepKind = Flow | Anti | Output | Input

  class RdgEdge {
    const source: RdgVertex
    const sink: RdgVertex
    const kind: DepKind
    const level: nat
    const scalar: bool

    constructor (source: RdgVertex, sink: RdgVertex, kind: DepKind, level: nat, scalar: bool)
      ensures this.source == source && this.sink == sink && this.kind == kind && this.level == level && this.scalar == scalar
    {
      this.source, this.sink, this.kind, this.level, this.scalar := source, sink, kind, level, scalar;
    }

    function View(): Dep {
      Dep(source.number, sink.number, scalar)
    }
  }

  class RdgVertex {
    const number: nat
    const hasRef: bool
    var inEdges: seq<RdgEdge>
    var outEdges: seq<RdgEdge>
    var partitionNumbers: seq<nat>
    var sccNumbers: seq<nat>

    constructor (number: nat, hasRef: bool)
      ensures this.number == number && this.hasRef == hasRef
      ensures inEdges == [] && outEdges == [] && partitionNumbers == [] && sccNumbers == []
    {
      this.number, this.hasRef := number, hasRef;
      inEdges, outEdges, partitionNumbers, sccNumbers := [], [], [], [];
    }

    /** vertex_in_partition_p: a search through the list. */
    method InPartition(p: nat) returns (found: bool)
      ensures found <==> p in partitionNumbers
    {
      for i := 0 to |partitionNumbers|
        invariant p !in partitionNumbers[..i]
      {
        if partitionNumbers[i] == p { return true; }
      }
      return false;
    }

    /** Appends 1, 2, .., p. */
    method PutInAll(p: nat)
      requires partitionNumbers == []
      modifies this`partitionNumbers
      ensures partitionNumbers == UpTo(p)
    {
      for k := 0 to p
        invariant partitionNumbers == UpTo(k)
      {
        partitionNumbers := partitionNumbers + [k + 1];
      }
    }

    /** vertex_in_scc_p: a search through the list. */
    method InScc(k: nat) returns (found: bool)
      ensures found <==> k in sccNumbers
    {
      for i := 0 to |sccNumbers|
        invariant k !in sccNumbers[..i]
      {
        if sccNumbers[i] == k { return true; }
      }
      return false;
    }
  }

  class Rdg {
    const vertices: seq<RdgVertex>
    const edges: seq<RdgEdge>
    const ddVertices: seq<RdgVertex>

    constructor (vertices: seq<RdgVertex>, edges: seq<RdgEdge>, ddVertices: seq<RdgVertex>)
      ensures this.vertices == vertices && this.edges == edges && this.ddVertices == ddVertices
    {
      this.vertices, this.edges, this.ddVertices := vertices, edges, ddVertices;
    }

    ghost function View(): Body {
      Body(seq(|vertices|, i requires 0 <= i < |vertices| => vertices[i].hasRef),
           seq(|edges|, i requires 0 <= i < |edges| => edges[i].View()))
    }

    /** The numbers of the array statements, as listed. */
    ghost function Arrays(): (r: seq<nat>)
      ensures |r| == |ddVertices| && forall i :: 0 <= i < |r| ==> r[i] == ddVertices[i].number
    {
      seq(|ddVertices|, i requires 0 <= i < |ddVertices| => ddVertices[i].number)
    }

    ghost predicate Owns(v: RdgVertex) {
      v.number < |vertices| && vertices[v.number] == v
    }

    /** What build_rdg establishes. */
    ghost predicate Valid()
      reads vertices`inEdges, vertices`outEdges
    {
      && (forall i :: 0 <= i < |vertices| ==> vertices[i].number == i)
      && (forall i :: 0 <= i < |edges| ==> Owns(edges[i].source) && Owns(edges[i].sink))
      && (forall i :: 0 <= i < |edges| && !edges[i].scalar ==> edges[i].source.hasRef && edges[i].sink.hasRef)
      && (forall v, e :: v in vertices && e in v.inEdges ==> e in edges && e.sink == v)
      && (forall v, e :: v in vertices && e in v.outEdges ==> e in edges && e.source == v)
      && (forall e :: e in edges ==> e in e.sink.inEdges && e in e.source.outEdges)
      && (forall i :: 0 <= i < |ddVertices| ==> Owns(ddVertices[i]) && ddVertices[i].hasRef)
      && (forall i :: 0 <= i < |vertices| && vertices[i].hasRef ==> vertices[i] in ddVertices)
    }

    /** The partition lists of all statements. */
    ghost function Parts(): (r: seq<seq<nat>>)
      reads vertices`partitionNumbers
      ensures |r| == |vertices| && forall i :: 0 <= i < |r| ==> r[i] == vertices[i].partitionNumbers
    {
      Lists(vertices)
    }

    static ghost function Lists(vs: seq<RdgVertex>): (r: seq<seq<nat>>)
      reads vs`partitionNumbers
      ensures |r| == |vs| && forall i :: 0 <= i < |r| ==> r[i] == vs[i].partitionNumbers
    {
      if vs == [] then [] else [vs[0].partitionNumbers] + Lists(vs[1..])
    }

    lemma ViewDep(e: RdgEdge)
      requires e in edges
      ensures e.View() in View().deps
    {
      var i :| 0 <= i < |edges| && edges[i] == e;
      assert View().deps[i] == e.View();
    }

    lemma DepEdge(d: Dep) returns (e: RdgEdge)
      requires d in View().deps
      ensures e in edges && e.View() == d
    {
      var i :| 0 <= i < |View().deps| && View().deps[i] == d;
      e := edges[i];
    }

    lemma ViewWf()
      requires Valid()
      ensures View().Wf()
    {
    }

    lemma InEdge(v: RdgVertex, e: RdgEdge)
      requires Valid() && Owns(v) && e in v.inEdges
      ensures e.sink == v && Owns(e.source) && e in edges && Dep(e.source.number, v.number, e.scalar) in View().deps
    {
      ViewDep(e);
    }

    lemma OutEdge(v: RdgVertex, e: RdgEdge)
      requires Valid() && Owns(v) && e in v.outEdges
      ensures e.source == v && Owns(e.sink) && e in edges && Dep(v.number, e.sink.number, e.scalar) in View().deps
    {
      ViewDep(e);
    }

    /** The edge that stands for a scalar dependence is in the lists of both of its ends. */
    lemma ListedEdge(u: RdgVertex, v: RdgVertex) returns (e: RdgEdge)
      requires Valid() && Owns(u) && Owns(v) && Dep(u.number, v.number, true) in View().deps
      ensures e in v.inEdges && e in u.outEdges && e.scalar && e.source == u && e.sink == v
    {
      e := DepEdge(Dep(u.number, v.number, true));
    }

    lemma FixedByOperands(v: RdgVertex)
      requires Valid() && Owns(v)
      ensures Fixed(View(), v.number)
         <==> v.hasRef || exists i :: 0 <= i < |v.inEdges| && v.inEdges[i].scalar && Fixed(View(), v.inEdges[i].source.number)
    {
      hide Fixed;
      var b := View();
      ViewWf();
      FixedUnfolds(b, v.number);
      if d :| d in b.deps && d.scalar && d.sink == v.number && Fixed(b, d.source) {
        var u := vertices[d.source];
        assert d == Dep(u.number, v.number, true);
        var e := ListedEdge(u, v);
      }
      if i :| 0 <= i < |v.inEdges| && v.inEdges[i].scalar && Fixed(b, v.inEdges[i].source.number) {
        InEdge(v, v.inEdges[i]);
      }
    }

    lemma RankFalls(b: Body, rank: seq<nat>, u: nat, v: nat)
      requires b.Wf() && Ranked(b, rank) && Dep(u, v, true) in b.deps
      ensures u < |b.hasRef| && v < |b.hasRef| && rank[u] < rank[v]
    {
      assert Dep(u, v, true).source == u && Dep(u, v, true).sink == v && Dep(u, v, true).scalar;
    }

    /** can_recompute_vertex_p: false exactly for the fixed statements. */
    method CanRecompute(v: RdgVertex, ghost rank: seq<nat>) returns (r: bool)
      requires Valid() && Owns(v) && View().Wf() && Ranked(View(), rank)
      ensures r <==> !Fixed(View(), v.number)
      decreases rank[v.number]
    {
      hide Fixed;
      FixedByOperands(v);
      if v.hasRef { return false; }
      for i := 0 to |v.inEdges|
        invariant forall j :: 0 <= j < i && v.inEdges[j].scalar ==> !Fixed(View(), v.inEdges[j].source.number)
      {
        var e := v.inEdges[i];
        if e.scalar {
          InEdge(v, e);
          RankFalls(View(), rank, e.source.number, v.number);
          var up := CanRecompute(e.source, rank);
          if !up { return false; }
        }
      }
      return true;
    }

    lemma AllMovesDone(v: RdgVertex, s: set<nat>)
      requires Valid() && Owns(v)
      requires forall i :: 0 <= i < |v.inEdges| && v.inEdges[i].scalar ==> v.inEdges[i].source.number in s
      requires Fixed(View(), v.number) ==>
                 forall i :: 0 <= i < |v.outEdges| && v.outEdges[i].scalar ==> v.outEdges[i].sink.number in s
      ensures MovesInto(View(), v.number, s)
    {
      hide Fixed;
      var b := View();
      ViewWf();
      forall w: nat | Edge(v.number, w) in Moves(b).edges ensures w in s {
        MovesEdge(b, v.number, w);
        if Dep(w, v.number, true) in b.deps {
          assert w < |vertices| by { assert Dep(w, v.number, true).source == w; }
          var e := ListedEdge(vertices[w], v);
        } else {
          assert w < |vertices| by { assert Dep(v.number, w, true).sink == w; }
          var e := ListedEdge(v, vertices[w]);
        }
      }
    }

    lemma MoveUp(v: RdgVertex, e: RdgEdge)
      requires Valid() && Owns(v) && e in v.inEdges && e.scalar
      ensures Owns(e.source) && Edge(v.number, e.source.number) in Moves(View()).edges
    {
      InEdge(v, e);
      MovesEdge(View(), v.number, e.source.number);
    }

    lemma MoveDown(v: RdgVertex, e: RdgEdge)
      requires Valid() && Owns(v) && e in v.outEdges && e.scalar && Fixed(View(), v.number)
      ensures Owns(e.sink) && Edge(v.number, e.sink.number) in Moves(View()).edges
    {
      OutEdge(v, e);
      MovesEdge(View(), v.number, e.sink.number);
    }

    ghost function Numbers(): set<nat> {
      set v | v in vertices :: v.number
    }

    lemma MembersBounded(p: nat)
      requires Valid()
      ensures Members(Parts(), p) <= Numbers()
    {
      forall u | u in Members(Parts(), p) ensures u in Numbers() {
        assert vertices[u] in vertices;
      }
    }

    lemma OtherVertices(v: RdgVertex)
      requires Valid() && Owns(v)
      ensures v.number < |vertices| && vertices[v.number] == v
      ensures forall i :: 0 <= i < |vertices| && i != v.number ==> vertices[i] != v
    {
    }

    /** one_prdg: marks v with p, then its scalar operands and, when v cannot be recomputed, its scalar uses. */
    method OnePartition(v: RdgVertex, p: nat, ghost rank: seq<nat>)
      requires Valid() && Owns(v) && View().Wf() && Ranked(View(), rank)
      modifies vertices`partitionNumbers
      ensures MarksFrom(View(), v.number, p, old(Parts()), Parts())
      decreases Numbers() - Members(Parts(), p), 0
    {
      hide *;
      ghost var b, parts0 := View(), Parts();
      OtherVertices(v);
      var found := v.InPartition(p);
      if found {
        MarkedAlready(b, v.number, p, parts0);
        return;
      }
      v.partitionNumbers := v.partitionNumbers + [p];
      assert Parts() == parts0[v.number := parts0[v.number] + [p]];
      MarkingStarts(b, v.number, p, parts0, Parts());
      MembersBounded(p);
      MarkOperands(v, p, rank, parts0);
      var recomputable := CanRecompute(v, rank);
      if !recomputable {
        MarkUses(v, p, rank, parts0);
      }
      AllMovesDone(v, Members(Parts(), p));
      MarkingDone(b, v.number, p, parts0, Parts());
    }

    /** The loop of one_prdg over the incoming edges. */
    method MarkOperands(v: RdgVertex, p: nat, ghost rank: seq<nat>, ghost parts0: seq<seq<nat>>)
      requires Valid() && Owns(v) && View().Wf() && Ranked(View(), rank)
      requires MarkingFrom(View(), v.number, p, parts0, Parts())
      modifies vertices`partitionNumbers
      ensures MarkingFrom(View(), v.number, p, parts0, Parts())
      ensures Members(old(Parts()), p) <= Members(Parts(), p) <= Numbers()
      ensures forall i :: 0 <= i < |v.inEdges| && v.inEdges[i].scalar ==> v.inEdges[i].source.number in Members(Parts(), p)
      decreases Numbers() - Members(Parts(), p), 1
    {
      hide *;
      ghost var b := View();
      MembersBounded(p);
      for i := 0 to |v.inEdges|
        invariant MarkingFrom(b, v.number, p, parts0, Parts())
        invariant Members(old(Parts()), p) <= Members(Parts(), p) <= Numbers()
        invariant forall j :: 0 <= j < i && v.inEdges[j].scalar ==> v.inEdges[j].source.number in Members(Parts(), p)
      {
        var e := v.inEdges[i];
        if e.scalar {
          ghost var parts1 := Parts();
          MoveUp(v, e);
          OnePartition(e.source, p, rank);
          MarkingStep(b, v.number, e.source.number, p, parts0, parts1, Parts());
          MembersBounded(p);
        }
      }
    }

    /** The loop of one_prdg over the outgoing edges. */
    method MarkUses(v: RdgVertex, p: nat, ghost rank: seq<nat>, ghost parts0: seq<seq<nat>>)
      requires Valid() && Owns(v) && View().Wf() && Ranked(View(), rank)
      requires Fixed(View(), v.number) && MarkingFrom(View(), v.number, p, parts0, Parts())
      modifies vertices`partitionNumbers
      ensures MarkingFrom(View(), v.number, p, parts0, Parts())
      ensures Members(old(Parts()), p) <= Members(Parts(), p) <= Numbers()
      ensures forall i :: 0 <= i < |v.outEdges| && v.outEdges[i].scalar ==> v.outEdges[i].sink.number in Members(Parts(), p)
      decreases Numbers() - Members(Parts(), p), 1
    {
      hide *;
      ghost var b := View();
      MembersBounded(p);
      for i := 0 to |v.outEdges|
        invariant MarkingFrom(b, v.number, p, parts0, Parts())
        invariant Members(old(Parts()), p) <= Members(Parts(), p) <= Numbers()
        invariant forall j :: 0 <= j < i && v.outEdges[j].scalar ==> v.outEdges[j].sink.number in Members(Parts(), p)
      {
        var e := v.outEdges[i];
        if e.scalar {
          ghost var parts1 := Parts();
          MoveDown(v, e);
          OnePartition(e.sink, p, rank);
          MarkingStep(b, v.number, e.sink.number, p, parts0, parts1, Parts());
          MembersBounded(p);
        }
      }
    }

    method ClearPartitions()
      modifies vertices`partitionNumbers
      ensures forall i :: 0 <= i < |vertices| ==> vertices[i].partitionNumbers == []
    {
      for i := 0 to |vertices|
        invariant forall j :: 0 <= j < i ==> vertices[j].partitionNumbers == []
      {
        vertices[i].partitionNumbers := [];
      }
    }

    method PutAllInOne()
      requires Valid()
      requires forall i :: 0 <= i < |vertices| ==> vertices[i].partitionNumbers == []
      modifies vertices`partitionNumbers
      ensures forall i :: 0 <= i < |vertices| ==> vertices[i].partitionNumbers == [1]
    {
      for i := 0 to |vertices|
        invariant forall j :: 0 <= j < |vertices| ==> vertices[j].partitionNumbers == if j < i then [1] else []
      {
        vertices[i].partitionNumbers := vertices[i].partitionNumbers + [1];
      }
    }

    /** Statements in no partition are put into all of them. */
    method FillPartitions(p: nat)
      requires Valid()
      modifies vertices`partitionNumbers
      ensures Parts() == FillIn(old(Parts()), p)
    {
      hide *;
      ghost var parts0 := Parts();
      VerticesDistinct();
      for i := 0 to |vertices|
        invariant forall j :: 0 <= j < |vertices| ==>
                    vertices[j].partitionNumbers == if j < i && parts0[j] == [] then UpTo(p) else parts0[j]
      {
        if |vertices[i].partitionNumbers| == 0 {
          vertices[i].PutInAll(p);
        }
      }
    }

    lemma VerticesDistinct()
      requires Valid()
      ensures forall i, j :: 0 <= i < |vertices| && 0 <= j < |vertices| && i != j ==> vertices[i] != vertices[j]
    {
    }

    /** correct_partitions_p, whose test of array statements only repeats the test for emptiness. */
    method CorrectPartitions(p: nat) returns (r: bool)
      ensures r <==> p != 0 && forall i :: 0 <= i < |vertices| ==> vertices[i].partitionNumbers != []
    {
      if p == 0 { return false; }
      for i := 0 to |vertices|
        invariant forall j :: 0 <= j < i ==> vertices[j].partitionNumbers != []
      {
        if vertices[i].hasRef && |vertices[i].partitionNumbers| == 0 { return false; }
        if |vertices[i].partitionNumbers| == 0 { return false; }
      }
      return true;
    }

    lemma ArrayVertices()
      requires Valid()
      ensures |View().hasRef| == |vertices|
      ensures forall i :: 0 <= i < |ddVertices| ==>
                && Owns(ddVertices[i]) && ddVertices[i].number < |vertices|
                && vertices[ddVertices[i].number] == ddVertices[i] && View().hasRef[ddVertices[i].number]
    {
    }

    lemma ArraysListed()
      requires Valid()
      requires forall i :: 0 <= i < |ddVertices| ==> ddVertices[i].partitionNumbers != []
      ensures AllPlaced(View(), Parts())
    {
      forall u | 0 <= u < |vertices| && vertices[u].hasRef ensures Parts()[u] != [] {
        assert vertices[u] in ddVertices;
      }
    }

    /** mark_partitions. */
    method MarkPartitions(ghost rank: seq<nat>) returns (p: nat)
      requires Valid() && View().Wf() && Ranked(View(), rank)
      modifies vertices`partitionNumbers
      ensures p >= 1 && ExactPartitions(View(), Parts(), p)
      ensures ddVertices != [] ==> NoneSuperfluous(View(), Parts(), p)
      ensures InTurn(Parts(), Arrays())
    {
      hide InTurn;
      ghost var b := View();
      ClearPartitions();
      if |ddVertices| == 0 {
        PutAllInOne();
        assert Arrays() == [];
        OnlyOneInTurn(Parts());
        OnePartitionIsExact(b, Parts());
        return 1;
      }
      p := MarkArrays(rank);
      var ok := CorrectPartitions(p);
      forall u: nat | u < |vertices| ensures vertices[u].partitionNumbers != [] {
        ExactNonempty(b, Parts(), p, u);
      }
      assert ok;
    }

    /** The loops of mark_partitions when there are array statements. */
    method MarkArrays(ghost rank: seq<nat>) returns (p: nat)
      requires Valid() && View().Wf() && Ranked(View(), rank) && ddVertices != []
      requires forall i :: 0 <= i < |vertices| ==> vertices[i].partitionNumbers == []
      modifies vertices`partitionNumbers
      ensures p >= 1 && ExactPartitions(View(), Parts(), p) && NoneSuperfluous(View(), Parts(), p)
      ensures InTurn(Parts(), Arrays())
    {
      hide *;
      ghost var roots, firsts;
      p, roots, firsts := MarkRoots(rank);
      ArraysListed();
      ArrayVertices();
      RootedIsExact(View(), roots, Parts());
      RootsOwnPartitions(View(), roots, Parts());
      StartedInTurn(View(), Parts(), Arrays(), roots, firsts);
      FillPartitions(p);
    }

    /** Every array statement that is in no partition yet starts the next one. */
    method MarkRoots(ghost rank: seq<nat>) returns (p: nat, ghost roots: seq<nat>, ghost firsts: seq<nat>)
      requires Valid() && View().Wf() && Ranked(View(), rank) && ddVertices != []
      requires forall i :: 0 <= i < |vertices| ==> vertices[i].partitionNumbers == []
      modifies vertices`partitionNumbers
      ensures p == |roots| >= 1 && Rooted(View(), roots, Parts()) && Started(Parts(), Arrays(), |Arrays()|, roots, firsts)
      ensures forall i :: 0 <= i < |ddVertices| ==> ddVertices[i].partitionNumbers != []
    {
      hide *;
      p, roots, firsts := 0, [], [];
      ArrayVertices();
      NoRootsYet(View(), Parts());
      NothingStarted(Parts(), Arrays());
      for i := 0 to |ddVertices|
        invariant p == |roots| && (i > 0 ==> p > 0) && Rooted(View(), roots, Parts())
        invariant Started(Parts(), Arrays(), i, roots, firsts)
        invariant forall j :: 0 <= j < i ==> ddVertices[j].partitionNumbers != []
      {
        var v := ddVertices[i];
        if |v.partitionNumbers| == 0 {
          p := p + 1;
          ghost var parts0 := Parts();
          OnePartition(v, p, rank);
          RootAdded(View(), roots, parts0, Parts(), v.number);
          MarksAppends(View(), v.number, p, parts0, Parts());
          NextStarted(parts0, Parts(), Arrays(), i, roots, firsts);
          roots, firsts := roots + [v.number], firsts + [i];
        } else {
          AlreadyStarted(View(), Parts(), Arrays(), i, roots, firsts);
          PlacedNeedsRoot(View(), roots, Parts(), v.number);
        }
      }
    }
  }
}
