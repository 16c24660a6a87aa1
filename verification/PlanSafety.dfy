/** The plan run as loops: which reading of it leaves the memory of the original loop. */
module PlanSafety {
  import opened Options
  import opened Digraph
  import opened DepthFirst
  import opened SearchFacts
  import opened Components
  import opened TopologicalOrder
  import opened StatementGraph
  import opened PartitionMeaning
  import opened PlanMeaning
  import opened Distribution
  import opened Recomputation
  import opened ReducedGraph
  import opened PartitionGraph
  import opened Plan

  /** Loop q of the plan runs component order[q]: the statements that carry its number. */
  function HeldBy(order: seq<nat>, sccs: seq<seq<nat>>): (nat, nat) -> bool {
    (s: nat, q: nat) => q < |order| && s < |sccs| && order[q] + 1 in sccs[s]
  }

  lemma {:induction false} FixedPathConnects(b: StatementGraph.Body, w: nat, p: seq<nat>, s: nat)
    requires Path(Scalars(b), w, p, s) && Fixed(b, w)
    ensures Connected(b, w, s)
    decreases |p|
  {
    var g := Joined(b);
    if p == [] {
      ReachSelf(g, s);
    } else {
      JoinedEdge(b, w, p[0]);
      FixedPassesDep(b, w, p[0]);
      FixedPathConnects(b, p[0], p[1..], s);
      ReachEdge(g, w, p[0]);
      ReachTrans(g, w, p[0], s);
    }
  }

  lemma {:induction false} PathStartsWithin(b: StatementGraph.Body, w: nat, p: seq<nat>, s: nat)
    requires b.Wf() && Path(Scalars(b), w, p, s) && s < |b.hasRef|
    ensures w < |b.hasRef|
  {
    if p != [] {
      assert Dep(w, p[0], true) in b.deps;
      assert Dep(w, p[0], true).source < |b.hasRef|;
    }
  }

  /** Whatever an array statement is computed from, through scalars, is in its partition. */
  lemma AncestorInPartition(b: StatementGraph.Body, parts: seq<seq<nat>>, p: nat, s: nat, w: nat)
    requires b.Wf() && ExactPartitions(b, parts, p) && s < |parts| && b.hasRef[s] && Reach(Scalars(b), w, s)
    requires parts[s] != []
    ensures w < |parts| && parts[s][0] in parts[w]
  {
    var q :| Path(Scalars(b), w, q, s);
    PathStartsWithin(b, w, q, s);
    ArrayIsFixed(b, s);
    assert InOne(parts[s], p);
    if Fixed(b, w) {
      FixedPathConnects(b, w, q, s);
      assert parts[w] == parts[s];
    } else {
      assert Feeds(b, w);
      assert FeedsPartition(b, parts, w, parts[s][0]);
    }
  }

  lemma HeldAncestor(b: StatementGraph.Body, parts: seq<seq<nat>>, p: nat, m: seq<Mark>, k: nat, sccs: seq<seq<nat>>, order: seq<nat>, s: nat, q: nat, w: nat)
    requires b.Wf() && ExactPartitions(b, parts, p) && Lifted(b, parts, p, m, k, sccs) && Inherited(parts, p, m, sccs)
    requires s < |parts| && b.hasRef[s] && HeldBy(order, sccs)(s, q) && Reach(Scalars(b), w, s)
    ensures HeldBy(order, sccs)(w, q)
  {
    AncestorInPartition(b, parts, p, s, w);
    var h := Home(parts, s);
    assert sccs[s] == [m[h].scc];
    assert h + 1 in parts[w] && m[h].scc == order[q] + 1;
    assert InPartOf(parts, m, w, order[q] + 1);
  }

  lemma PlanSound(b: StatementGraph.Body, parts: seq<seq<nat>>, p: nat, m: seq<Mark>, k: nat, sccs: seq<seq<nat>>, order: seq<nat>)
    requires b.Wf() && ExactPartitions(b, parts, p) && Lifted(b, parts, p, m, k, sccs) && Inherited(parts, p, m, sccs)
    requires Permutation(order, k)
    ensures Sound(b, k, HeldBy(order, sccs))
  {
    var holds := HeldBy(order, sccs);
    hide ExactPartitions, Inherited;
    LiftedLabelled(b, parts, p, m, k, sccs);
    forall s: nat | s < |b.hasRef| && b.hasRef[s] ensures HasLoop(s, k, holds) {
      var c: nat := Home(sccs, s);
      assert c in order;
      var q :| 0 <= q < |order| && order[q] == c;
      assert holds(s, q);
    }
    forall s: nat, q: nat, r: nat | s < |b.hasRef| && b.hasRef[s] && holds(s, q) && holds(s, r) && q < k && r < k ensures q == r {
      assert sccs[s] == [m[Home(parts, s)].scc];
      assert order[q] == order[r];
    }
    forall s: nat, q: nat | s < |b.hasRef| && b.hasRef[s] && q < k && holds(s, q) ensures Good(b, holds, q, s) {
      forall w: nat | Reach(Scalars(b), w, s) ensures holds(w, q) {
        HeldAncestor(b, parts, p, m, k, sccs, order, s, q, w);
      }
    }
  }

  lemma PlanPlaced(b: StatementGraph.Body, prog: seq<Statement>, parts: seq<seq<nat>>, p: nat, m: seq<Mark>, k: nat, sccs: seq<seq<nat>>, order: seq<nat>)
    requires Lifted(b, parts, p, m, k, sccs) && Labelled(b, sccs, k) && |prog| == |b.hasRef|
    requires Permutation(order, k) && Respects(b, sccs, k, order)
    ensures Placed(b, prog, k, HeldBy(order, sccs))
  {
    var holds := HeldBy(order, sccs);
    forall d, q: nat, r: nat | d in b.deps && !d.scalar && holds(d.source, q) && holds(d.sink, r) && q < k && r < k
      ensures q <= r
    {
      DepHomes(b, parts, p, d);
      assert sccs[d.source] == [m[Home(parts, d.source)].scc] && sccs[d.sink] == [m[Home(parts, d.sink)].scc];
      assert order[q] == Home(sccs, d.source) && order[r] == Home(sccs, d.sink);
      if order[q] != order[r] {
        assert Before(order, order[q], order[r]);
        var i, j :| 0 <= i < j < |order| && order[i] == order[q] && order[j] == order[r];
        assert i == q && j == r;
      }
    }
  }

  /** The loops of a plan that respects the data dependences, run one after the other, each recomputing the
      scalars it needs in registers of its own, leave the memory that the original loop leaves. */
  lemma RespectfulPlanPreserves(b: StatementGraph.Body, prog: seq<Statement>, trips: nat, parts: seq<seq<nat>>, p: nat, m: seq<Mark>, k: nat, sccs: seq<seq<nat>>, order: seq<nat>, st: Store)
    requires Describes(b, prog, trips)
    requires ExactPartitions(b, parts, p) && Lifted(b, parts, p, m, k, sccs) && Inherited(parts, p, m, sccs) && Labelled(b, sccs, k)
    requires Permutation(order, k) && Respects(b, sccs, k, order)
    ensures SplitPreserves(prog, trips, k, HeldBy(order, sccs), st)
  {
    PlanSound(b, parts, p, m, k, sccs, order);
    PlanPlaced(b, prog, parts, p, m, k, sccs, order);
    RecomputationPreserves(b, prog, trips, k, HeldBy(order, sccs), st);
  }

  /** Running loops 0..m-1, where loop q runs the statements s with holds(s, q), leaves the original memory. */
  ghost predicate SplitPreserves(prog: seq<Statement>, trips: nat, m: nat, holds: (nat, nat) -> bool, st: Store) {
    var cs := Copies(|prog|, m, holds);
    && Proper(prog, cs, m, holds)
    && var plain, split := PlainBody(prog), CopyBody(prog, cs);
       && Within(plain, Original(|prog|, trips)) && Within(split, Loops(|cs|, trips, LoopOf(cs), m))
       && SameMemory(Run(Ops(plain, Original(|prog|, trips)), st), Run(Ops(split, Loops(|cs|, trips, LoopOf(cs), m)), st))
  }

  lemma ReversedPermutation(order: seq<nat>, k: nat)
    requires Permutation(order, k)
    ensures Permutation(Reversed(order), k)
  {
    forall v: nat | v < k ensures v in Reversed(order) {
      assert v in order;
      var i :| 0 <= i < |order| && order[i] == v;
      assert Reversed(order)[|order| - 1 - i] == v;
    }
  }

  /** Main result: for every loop body, every program it describes, every trip count and every initial store,
      the plan read from its end preserves the memory. */
  lemma ReversedPlanPreserves(b: StatementGraph.Body, prog: seq<Statement>, trips: nat, parts: seq<seq<nat>>, p: nat, m: seq<Mark>, k: nat, sccs: seq<seq<nat>>, order: seq<nat>, st: Store)
    requires Describes(b, prog, trips)
    requires ExactPartitions(b, parts, p) && Lifted(b, parts, p, m, k, sccs) && Inherited(parts, p, m, sccs) && Labelled(b, sccs, k)
    requires Permutation(order, k) && Topological(Stored(b, sccs, k), order)
    ensures SplitPreserves(prog, trips, k, HeldBy(Reversed(order), sccs), st)
  {
    hide Describes, ExactPartitions, Lifted, Inherited, Labelled, Topological, Respects, SplitPreserves, Permutation;
    ReversedRespects(b, sccs, k, order);
    ReversedPermutation(order, k);
    RespectfulPlanPreserves(b, prog, trips, parts, p, m, k, sccs, Reversed(order), st);
  }
}
