/** The reduced dependence graph of a loop body as a value, and the meaning of its partitions: which
    statements share a distributed loop, and which are recomputed in several. */
module StatementGraph {
  import opened Digraph

  /** A dependence between statements source and sink, through a scalar or through an array. */
  datatype Dep = Dep(source: nat, sink: nat, scalar: bool)

  /** hasRef[v] says that statement v has an array reference. */
  datatype Body = Body(hasRef: seq<bool>, deps: seq<Dep>) {
    predicate Wf() {
      && (forall i :: 0 <= i < |deps| ==> deps[i].source < |hasRef| && deps[i].sink < |hasRef|)
      && (forall i :: 0 <= i < |deps| && !deps[i].scalar ==> hasRef[deps[i].source] && hasRef[deps[i].sink])
    }
  }

  /** Scalar dependences have no cycle: rank grows along each of them. */
  ghost predicate Ranked(b: Body, rank: seq<nat>)
    requires b.Wf()
  {
    |rank| == |b.hasRef| && forall e :: e in b.deps && e.scalar ==> rank[e.source] < rank[e.sink]
  }

  ghost function ScalarEdges(deps: seq<Dep>): (r: seq<Edge>)
    ensures forall u: nat, v: nat :: Edge(u, v) in r <==> Dep(u, v, true) in deps
  {
    if deps == [] then []
    else (if deps[0].scalar then [Edge(deps[0].source, deps[0].sink)] else []) + ScalarEdges(deps[1..])
  }

  ghost function Scalars(b: Body): Graph {
    Graph(|b.hasRef|, ScalarEdges(b.deps))
  }

  /** v has an array reference, or is computed, through scalars only, from a statement that has one. */
  ghost predicate Fixed(b: Body, v: nat) {
    exists a: nat :: a < |b.hasRef| && b.hasRef[a] && Reach(Scalars(b), a, v)
  }

  /** The scalar dependences that leave a fixed statement; their sinks are fixed as well. */
  ghost function FixedEdges(b: Body, deps: seq<Dep>): (r: seq<Edge>)
    ensures forall u: nat, v: nat :: Edge(u, v) in r <==> Dep(u, v, true) in deps && Fixed(b, u)
  {
    if deps == [] then []
    else (if deps[0].scalar && Fixed(b, deps[0].source) then [Edge(deps[0].source, deps[0].sink)] else [])
         + FixedEdges(b, deps[1..])
  }

  ghost function FixedGraph(b: Body): Graph {
    Graph(|b.hasRef|, FixedEdges(b, b.deps))
  }

  /** Fixed statements joined by scalar dependences taken in either direction. */
  ghost function Joined(b: Body): Graph {
    Graph(|b.hasRef|, FixedEdges(b, b.deps) + FixedGraph(b).Transpose().edges)
  }

  /** The moves of one_prdg: up any scalar dependence, and down those that leave a fixed statement. */
  ghost function Moves(b: Body): Graph {
    Graph(|b.hasRef|, Scalars(b).Transpose().edges + FixedEdges(b, b.deps))
  }

  ghost predicate Connected(b: Body, u: nat, v: nat) {
    Reach(Joined(b), u, v)
  }

  lemma MovesEdge(b: Body, u: nat, v: nat)
    ensures Edge(u, v) in Moves(b).edges <==> Dep(v, u, true) in b.deps || (Dep(u, v, true) in b.deps && Fixed(b, u))
  {
    TransposeEdge(Scalars(b), Edge(v, u));
  }

  lemma JoinedEdge(b: Body, u: nat, v: nat)
    ensures Edge(u, v) in Joined(b).edges
       <==> (Dep(u, v, true) in b.deps && Fixed(b, u)) || (Dep(v, u, true) in b.deps && Fixed(b, v))
  {
    TransposeEdge(FixedGraph(b), Edge(v, u));
  }

  lemma FixedPasses(b: Body, u: nat, v: nat)
    requires Fixed(b, u) && Reach(Scalars(b), u, v)
    ensures Fixed(b, v)
  {
    var a: nat :| a < |b.hasRef| && b.hasRef[a] && Reach(Scalars(b), a, u);
    ReachTrans(Scalars(b), a, u, v);
  }

  lemma FixedPassesDep(b: Body, u: nat, v: nat)
    requires Fixed(b, u) && Dep(u, v, true) in b.deps
    ensures Fixed(b, v)
  {
    ReachEdge(Scalars(b), u, v);
    FixedPasses(b, u, v);
  }

  lemma {:induction false} LastStep(g: Graph, u: nat, p: seq<nat>, v: nat) returns (w: nat)
    requires Path(g, u, p, v) && p != []
    ensures Edge(w, v) in g.edges && Reach(g, u, w)
    decreases |p|
  {
    if |p| == 1 {
      w := u;
      ReachSelf(g, u);
    } else {
      w := LastStep(g, p[0], p[1..], v);
      ReachEdge(g, u, p[0]);
      ReachTrans(g, u, p[0], w);
    }
  }

  /** What can_recompute_vertex_p tests, one level of the recursion: v is fixed when it has an array reference
      or when a scalar operand is fixed. */
  lemma FixedUnfolds(b: Body, v: nat)
    requires b.Wf() && v < |b.hasRef|
    ensures Fixed(b, v) <==> b.hasRef[v] || exists e :: e in b.deps && e.scalar && e.sink == v && Fixed(b, e.source)
  {
    var g := Scalars(b);
    if Fixed(b, v) && !b.hasRef[v] {
      var a: nat :| a < |b.hasRef| && b.hasRef[a] && Reach(g, a, v);
      var p :| Path(g, a, p, v);
      var w := LastStep(g, a, p, v);
      assert Fixed(b, w);
      assert Dep(w, v, true) in b.deps;
    }
    if b.hasRef[v] {
      ReachSelf(g, v);
    }
    if exists e :: e in b.deps && e.scalar && e.sink == v && Fixed(b, e.source) {
      var e :| e in b.deps && e.scalar && e.sink == v && Fixed(b, e.source);
      assert e == Dep(e.source, v, true);
      FixedPassesDep(b, e.source, v);
    }
  }

  // ---------- where the moves lead ----------

  lemma {:induction false} MovesUp(b: Body, x: nat, p: seq<nat>, u: nat)
    requires Path(Moves(b), x, p, u) && !Fixed(b, x)
    ensures Reach(Scalars(b), u, x) && !Fixed(b, u)
    decreases |p|
  {
    if p == [] {
      ReachSelf(Scalars(b), u);
    } else {
      MovesEdge(b, x, p[0]);
      if Fixed(b, p[0]) { FixedPassesDep(b, p[0], x); }
      MovesUp(b, p[0], p[1..], u);
      ReachEdge(Scalars(b), p[0], x);
      ReachTrans(Scalars(b), u, p[0], x);
    }
  }

  /** From a fixed statement the moves reach a fixed one only if the two are connected, and any other only
      above a connected fixed one. */
  lemma {:induction false} MovesFromFixed(b: Body, x: nat, p: seq<nat>, u: nat) returns (m: nat)
    requires Path(Moves(b), x, p, u) && Fixed(b, x)
    ensures Fixed(b, m) && Connected(b, x, m) && Reach(Scalars(b), u, m) && (Fixed(b, u) ==> m == u)
    decreases |p|
  {
    if p == [] {
      m := u;
      ReachSelf(Scalars(b), u);
      ReachSelf(Joined(b), u);
    } else {
      var y := p[0];
      MovesEdge(b, x, y);
      JoinedEdge(b, x, y);
      if Dep(x, y, true) in b.deps { FixedPassesDep(b, x, y); }
      if Fixed(b, y) {
        m := MovesFromFixed(b, y, p[1..], u);
        ReachEdge(Joined(b), x, y);
        ReachTrans(Joined(b), x, y, m);
      } else {
        MovesUp(b, y, p[1..], u);
        m := x;
        ReachSelf(Joined(b), x);
        ReachEdge(Scalars(b), y, x);
        ReachTrans(Scalars(b), u, y, x);
      }
    }
  }

  lemma {:induction false} ConnectedMoves(b: Body, x: nat, p: seq<nat>, u: nat)
    requires Path(Joined(b), x, p, u)
    ensures Reach(Moves(b), x, u)
    decreases |p|
  {
    if p == [] {
      ReachSelf(Moves(b), u);
    } else {
      JoinedEdge(b, x, p[0]);
      MovesEdge(b, x, p[0]);
      ConnectedMoves(b, p[0], p[1..], u);
      ReachEdge(Moves(b), x, p[0]);
      ReachTrans(Moves(b), x, p[0], u);
    }
  }

  lemma {:induction false} ConnectedBack(b: Body, x: nat, p: seq<nat>, u: nat)
    requires Path(Joined(b), x, p, u)
    ensures Connected(b, u, x)
    decreases |p|
  {
    var g := Joined(b);
    if p == [] {
      ReachSelf(g, u);
    } else {
      JoinedEdge(b, x, p[0]);
      JoinedEdge(b, p[0], x);
      ConnectedBack(b, p[0], p[1..], u);
      ReachEdge(g, p[0], x);
      ReachTrans(g, u, p[0], x);
    }
  }

  lemma ConnectedSymmetric(b: Body, x: nat, u: nat)
    requires Connected(b, x, u)
    ensures Connected(b, u, x)
  {
    var p :| Path(Joined(b), x, p, u);
    ConnectedBack(b, x, p, u);
  }

  lemma {:induction false} AncestorsMove(b: Body, x: nat, p: seq<nat>, m: nat)
    requires Path(Scalars(b), x, p, m)
    ensures Reach(Moves(b), m, x)
    decreases |p|
  {
    if p == [] {
      ReachSelf(Moves(b), m);
    } else {
      AncestorsMove(b, p[0], p[1..], m);
      MovesEdge(b, p[0], x);
      ReachEdge(Moves(b), p[0], x);
      ReachTrans(Moves(b), m, p[0], x);
    }
  }

  lemma {:induction false} FixedMovesDown(b: Body, a: nat, p: seq<nat>, u: nat)
    requires Path(Scalars(b), a, p, u) && Fixed(b, a)
    ensures Reach(Moves(b), a, u)
    decreases |p|
  {
    if p == [] {
      ReachSelf(Moves(b), u);
    } else {
      MovesEdge(b, a, p[0]);
      FixedPassesDep(b, a, p[0]);
      FixedMovesDown(b, p[0], p[1..], u);
      ReachEdge(Moves(b), a, p[0]);
      ReachTrans(Moves(b), a, p[0], u);
    }
  }

  /** one_prdg started at a fixed statement r reaches exactly: the fixed statements connected to r, and the
      scalar ancestors of those. */
  lemma MovesMeaning(b: Body, r: nat, u: nat)
    requires Fixed(b, r)
    ensures Fixed(b, u) ==> (Reach(Moves(b), r, u) <==> Connected(b, r, u))
    ensures Reach(Moves(b), r, u) <==> exists m: nat :: Fixed(b, m) && Connected(b, r, m) && Reach(Scalars(b), u, m)
  {
    if Reach(Moves(b), r, u) {
      var p :| Path(Moves(b), r, p, u);
      var m := MovesFromFixed(b, r, p, u);
    }
    if Connected(b, r, u) {
      var p :| Path(Joined(b), r, p, u);
      ConnectedMoves(b, r, p, u);
    }
    if m: nat :| Fixed(b, m) && Connected(b, r, m) && Reach(Scalars(b), u, m) {
      var p :| Path(Joined(b), r, p, m);
      ConnectedMoves(b, r, p, m);
      var q :| Path(Scalars(b), u, q, m);
      AncestorsMove(b, u, q, m);
      ReachTrans(Moves(b), r, m, u);
    }
  }

  // ---------- marking along the moves ----------

  ghost predicate MovesInto(b: Body, u: nat, s: set<nat>) {
    forall w: nat :: Edge(u, w) in Moves(b).edges ==> w in s
  }

  /** m1 is m0 with v added, and what is new is reached from v and has all its moves inside m1. */
  ghost predicate Grown(b: Body, v: nat, m0: set<nat>, m1: set<nat>) {
    && m0 <= m1 && v in m1
    && forall u :: u in m1 && u !in m0 ==> Reach(Moves(b), v, u) && MovesInto(b, u, m1)
  }

  /** The same while the moves of v itself are still being followed. */
  ghost predicate Growing(b: Body, v: nat, m0: set<nat>, m1: set<nat>) {
    && m0 <= m1 && v in m1 && v !in m0
    && forall u :: u in m1 && u !in m0 ==> Reach(Moves(b), v, u) && (u != v ==> MovesInto(b, u, m1))
  }

  lemma GrowingStarts(b: Body, v: nat, m0: set<nat>)
    requires v !in m0
    ensures Growing(b, v, m0, m0 + {v})
  {
    ReachSelf(Moves(b), v);
  }

  lemma GrowingStep(b: Body, v: nat, w: nat, m0: set<nat>, m1: set<nat>, m2: set<nat>)
    requires Growing(b, v, m0, m1) && Edge(v, w) in Moves(b).edges && Grown(b, w, m1, m2)
    ensures Growing(b, v, m0, m2)
  {
    forall u | u in m2 && u !in m0
      ensures Reach(Moves(b), v, u) && (u != v ==> MovesInto(b, u, m2))
    {
      if u !in m1 {
        ReachEdge(Moves(b), v, w);
        ReachTrans(Moves(b), v, w, u);
      } else if u != v {
        assert MovesInto(b, u, m1);
      }
    }
  }

  /** Marking that starts from nothing ends with exactly what the moves reach. */
  lemma GrownFromNothing(b: Body, v: nat, m: set<nat>, u: nat)
    requires Grown(b, v, {}, m)
    ensures u in m <==> Reach(Moves(b), v, u)
  {
    if Reach(Moves(b), v, u) {
      forall e | e in Moves(b).edges && e.source in m ensures e.sink in m {
        assert MovesInto(b, e.source, m);
        assert Edge(e.source, e.sink) == e;
      }
      ReachInClosed(Moves(b), m, v, u);
    }
  }
}
