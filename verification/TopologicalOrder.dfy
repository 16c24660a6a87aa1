/** The order that topological_sort reads off the finish times, and when it is a topological one. */
module TopologicalOrder {
  import opened Options
  import opened Digraph
  import opened DepthFirst
  import opened SearchFacts
  import opened Components

  /** What the bucket of finish time f holds after the first i vertices have been put in. */
  function Bucket(marks: seq<Mark>, i: nat, f: nat): (r: Option<nat>)
    requires i <= |marks|
    ensures r.Some? ==> r.value < i && marks[r.value].f == f
    ensures r.None? ==> forall v :: 0 <= v < i ==> marks[v].f != f
  {
    if i == 0 then None
    else if marks[i - 1].f == f then Some(i - 1)
    else Bucket(marks, i - 1, f)
  }

  /** The vertices in the buckets f, f-1, .., 1. */
  function Drain(marks: seq<Mark>, f: nat): seq<nat> {
    if f == 0 then []
    else
      var b := Bucket(marks, |marks|, f);
      (if b.Some? then [b.value] else []) + Drain(marks, f - 1)
  }

  function Order(g: Graph, pv: seq<seq<nat>>, s: State): seq<nat>
    requires Fits(g, pv, s)
  {
    var r := Search(g, pv, s);
    Drain(r.marks, r.t)
  }

  /** order lists every vertex below n exactly once. */
  ghost predicate Permutation(order: seq<nat>, n: nat) {
    && |order| == n
    && (forall i :: 0 <= i < |order| ==> order[i] < n)
    && (forall i, j :: 0 <= i < j < |order| ==> order[i] != order[j])
    && (forall v: nat :: v < n ==> v in order)
  }

  /** u comes before v. */
  ghost predicate Before(order: seq<nat>, u: nat, v: nat) {
    exists i, j :: 0 <= i < j < |order| && order[i] == u && order[j] == v
  }

  /** Edges between different vertices point forward. */
  ghost predicate Topological(g: Graph, order: seq<nat>) {
    forall e :: e in g.edges && e.source != e.sink ==> Before(order, e.source, e.sink)
  }

  /** The only cycles are edges from a vertex to itself. */
  ghost predicate AcyclicButLoops(g: Graph) {
    forall e :: e in g.edges && e.source != e.sink ==> !Reach(g, e.sink, e.source)
  }

  ghost predicate FallingFinish(marks: seq<Mark>, order: seq<nat>, f: nat) {
    && (forall i :: 0 <= i < |order| ==> order[i] < |marks| && 1 <= marks[order[i]].f <= f)
    && (forall i, j :: 0 <= i < j < |order| ==> marks[order[j]].f < marks[order[i]].f)
  }

  lemma {:induction false} DrainFalls(marks: seq<Mark>, f: nat)
    ensures FallingFinish(marks, Drain(marks, f), f)
  {
    if f > 0 { DrainFalls(marks, f - 1); }
  }

  lemma {:induction false} DrainHas(marks: seq<Mark>, f: nat, v: nat)
    requires v < |marks| && 1 <= marks[v].f <= f && DistinctFinish(marks)
    ensures v in Drain(marks, f)
  {
    var b := Bucket(marks, |marks|, f);
    if marks[v].f < f { DrainHas(marks, f - 1, v); }
  }

  lemma SizeOfCover(order: seq<nat>, n: nat)
    requires forall i :: 0 <= i < |order| ==> order[i] < n
    requires forall i, j :: 0 <= i < j < |order| ==> order[i] != order[j]
    requires forall v: nat :: v < n ==> v in order
    ensures |order| == n
    decreases n
  {
    if n == 0 {
    } else {
      var last: nat := n - 1;
      assert last in order;
      var k :| 0 <= k < |order| && order[k] == last;
      var rest := order[..k] + order[k + 1..];
      forall v: nat | v < n - 1 ensures v in rest {
        assert v in order;
        var j :| 0 <= j < |order| && order[j] == v;
        assert v == if j < k then rest[j] else rest[j - 1];
      }
      SizeOfCover(rest, n - 1);
    }
  }

  lemma OrderHas(g: Graph, pv: seq<seq<nat>>, s: State, v: nat)
    requires Fits(g, pv, s) && v < g.n
    ensures v in Order(g, pv, s)
  {
    var r := Search(g, pv, s);
    SearchDone(g, pv, s);
    SearchIsFirstPass(g, pv, s);
    assert Seen(r, v);
    DrainHas(r.marks, r.t, v);
  }

  /** Every vertex is listed once, by decreasing finish time. */
  lemma OrderIsPermutation(g: Graph, pv: seq<seq<nat>>, s: State)
    requires Fits(g, pv, s)
    ensures var order, r := Order(g, pv, s), Search(g, pv, s);
            Permutation(order, g.n) && FallingFinish(r.marks, order, r.t)
  {
    var r, order := Search(g, pv, s), Order(g, pv, s);
    DrainFalls(r.marks, r.t);
    forall v: nat | v < g.n ensures v in order {
      OrderHas(g, pv, s, v);
    }
    SizeOfCover(order, g.n);
  }

  lemma {:induction false} SingletonComponent(g: Graph, u: nat, p: seq<nat>, w: nat)
    requires AcyclicButLoops(g) && Path(g, u, p, w) && Reach(g, w, u)
    ensures u == w
    decreases |p|
  {
    if p != [] {
      if p[0] == u {
        SingletonComponent(g, u, p[1..], w);
      } else {
        assert Reach(g, p[0], w);
        ReachTrans(g, p[0], w, u);
      }
    }
  }

  lemma EarlierFinish(g: Graph, pv: seq<seq<nat>>, s: State, e: Edge)
    requires Fits(g, pv, s) && AcyclicButLoops(g) && e in g.edges && e.source != e.sink
    ensures var m := Search(g, pv, s).marks; m[e.sink].f < m[e.source].f
  {
    var r := Search(g, pv, s);
    var u, v := e.source, e.sink;
    SearchIsFirstPass(g, pv, s);
    ReachEdge(g, u, v);
    assert Leads(g, r.marks, u, v);
    var w: nat :| w < g.n && Mutual(g, u, w) && r.marks[v].f <= r.marks[w].f;
    var p :| Path(g, u, p, w);
    SingletonComponent(g, u, p, w);
    if u < v { assert r.marks[u].f != r.marks[v].f; } else { assert r.marks[v].f != r.marks[u].f; }
  }

  lemma EdgeForward(g: Graph, pv: seq<seq<nat>>, s: State, e: Edge)
    requires Fits(g, pv, s) && AcyclicButLoops(g) && e in g.edges && e.source != e.sink
    ensures Before(Order(g, pv, s), e.source, e.sink)
  {
    hide AcyclicButLoops, Search, Order;
    var r, order := Search(g, pv, s), Order(g, pv, s);
    EarlierFinish(g, pv, s, e);
    OrderIsPermutation(g, pv, s);
    OrderHas(g, pv, s, e.source);
    OrderHas(g, pv, s, e.sink);
    var i :| 0 <= i < |order| && order[i] == e.source;
    var j :| 0 <= j < |order| && order[j] == e.sink;
    assert i < j;
  }

  lemma {:induction false} PathForward(g: Graph, order: seq<nat>, i: nat, p: seq<nat>, j: nat)
    requires g.Wf() && Permutation(order, g.n) && Topological(g, order)
    requires i < |order| && j < |order| && Path(g, order[i], p, order[j])
    ensures i <= j
    decreases |p|
  {
    if p == [] {
    } else if p[0] == order[i] {
      PathForward(g, order, i, p[1..], j);
    } else {
      var e := Edge(order[i], p[0]);
      assert Before(order, e.source, e.sink);
      var a, b :| 0 <= a < b < |order| && order[a] == e.source && order[b] == e.sink;
      PathForward(g, order, b, p[1..], j);
    }
  }

  /** topological_sort yields a topological order exactly when the graph has one: no cycle but self-loops. */
  lemma OrderTopologicalIff(g: Graph, pv: seq<seq<nat>>, s: State)
    requires Fits(g, pv, s)
    ensures Topological(g, Order(g, pv, s)) <==> AcyclicButLoops(g)
  {
    hide Order;
    var order := Order(g, pv, s);
    if AcyclicButLoops(g) {
      forall e | e in g.edges && e.source != e.sink ensures Before(order, e.source, e.sink) {
        EdgeForward(g, pv, s, e);
      }
    }
    if Topological(g, order) {
      OrderIsPermutation(g, pv, s);
      forall e | e in g.edges && e.source != e.sink ensures !Reach(g, e.sink, e.source) {
        assert Before(order, e.source, e.sink);
        var i, j :| 0 <= i < j < |order| && order[i] == e.source && order[j] == e.sink;
        if Reach(g, e.sink, e.source) {
          var p :| Path(g, e.sink, p, e.source);
          PathForward(g, order, j, p, i);
        }
      }
    }
  }

  lemma DrainUnfolds(marks: seq<Mark>, f: nat)
    ensures Drain(marks, 0) == []
    ensures f > 0 ==>
              var b := Bucket(marks, |marks|, f);
              Drain(marks, f) == (if b.Some? then [b.value] else []) + Drain(marks, f - 1)
  {
  }

  lemma OrderUnfolds(g: Graph, pv: seq<seq<nat>>, s: State)
    requires Fits(g, pv, s)
    ensures var r := Search(g, pv, s);
            && Order(g, pv, s) == Drain(r.marks, r.t) && r.numbers == s.numbers
            && forall v: nat :: v < |r.marks| ==> r.marks[v].f <= r.t
  {
    SearchDone(g, pv, s);
    var r := Search(g, pv, s);
    forall v: nat | v < |r.marks| ensures r.marks[v].f <= r.t {
      assert Seen(r, v);
    }
  }
}
