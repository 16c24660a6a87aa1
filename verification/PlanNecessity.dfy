/** When the plan as it is listed leaves the memory of the loop, for every program that the dependence graph
    describes: exactly when every data dependence lies on a cycle of the partition graph. */
module PlanNecessity {
  import opened Options
  import opened Digraph
  import opened DepthFirst
  import opened Components
  import opened TopologicalOrder
  import opened StatementGraph
  import opened PartitionMeaning
  import opened PlanMeaning
  import opened Distribution
  import opened Recomputation
  import opened ReducedGraph
  import opened PartitionGraph
  import opened Plan
  import opened PlanSafety

  // ---------- a store that must come before a load ----------

  /** Stores 1 to cell 0. */
  ghost predicate Sets(x: Op) {
    x.write == Some(Mem(0)) && x.uses == [] && x.compute([]) == 1
  }

  /** Copies cell 0 to cell 1. */
  ghost predicate Moves(x: Op) {
    x.write == Some(Mem(1)) && x.uses == [Mem(0)] && forall v: int :: x.compute([v]) == v
  }

  ghost predicate Quiet(x: Op) {
    x.write.Some? && x.write.value.Reg?
  }

  ghost predicate Simple(xs: seq<Op>) {
    forall k :: 0 <= k < |xs| ==> Sets(xs[k]) || Moves(xs[k]) || Quiet(xs[k])
  }

  /** No store comes before a copy. */
  ghost predicate CopiesFirst(xs: seq<Op>) {
    forall k, l :: 0 <= k < l < |xs| && Sets(xs[k]) ==> !Moves(xs[l])
  }

  /** Every copy comes after some store. */
  ghost predicate StoresFirst(xs: seq<Op>) {
    forall l :: 0 <= l < |xs| && Moves(xs[l]) ==> exists k :: 0 <= k < l && Sets(xs[k])
  }

  lemma StepOf(x: Op, st: Store)
    requires Sets(x) || Moves(x) || Quiet(x)
    ensures Get(Step(x, st), Mem(0)) == if Sets(x) then 1 else Get(st, Mem(0))
    ensures Get(Step(x, st), Mem(1)) == if Moves(x) then Get(st, Mem(0)) else Get(st, Mem(1))
  {
    if Moves(x) {
      assert Fetch(st, x.uses) == [Get(st, Mem(0))];
    } else if Sets(x) {
      assert Fetch(st, x.uses) == [];
    }
  }

  lemma {:induction false} CopiedTooEarly(xs: seq<Op>, st: Store)
    requires Simple(xs) && CopiesFirst(xs) && Get(st, Mem(1)) == 0
    requires Get(st, Mem(0)) == 0 || forall k :: 0 <= k < |xs| ==> !Moves(xs[k])
    ensures Get(Run(xs, st), Mem(1)) == 0
  {
    if xs != [] {
      StepOf(xs[0], st);
      assert forall k :: 0 <= k < |xs[1..]| ==> xs[1..][k] == xs[k + 1];
      CopiedTooEarly(xs[1..], Step(xs[0], st));
    }
  }

  lemma {:induction false} CopiedInTime(xs: seq<Op>, st: Store)
    requires Simple(xs) && (Get(st, Mem(0)) == 1 || StoresFirst(xs))
    requires Get(st, Mem(1)) == 1 || exists k :: 0 <= k < |xs| && Moves(xs[k])
    requires Get(st, Mem(0)) == 1 || Get(st, Mem(1)) == 0
    ensures Get(Run(xs, st), Mem(1)) == 1
  {
    if xs != [] {
      var rest, next := xs[1..], Step(xs[0], st);
      StepOf(xs[0], st);
      assert forall k :: 0 <= k < |rest| ==> rest[k] == xs[k + 1];
      if Get(next, Mem(0)) != 1 {
        forall l | 0 <= l < |rest| && Moves(rest[l]) ensures exists k :: 0 <= k < l && Sets(rest[k]) {
          assert Moves(xs[l + 1]);
          var k :| 0 <= k < l + 1 && Sets(xs[k]);
          assert rest[k - 1] == xs[k];
        }
      }
      if Get(next, Mem(1)) != 1 {
        var k :| 0 <= k < |xs| && Moves(xs[k]);
        assert rest[k - 1] == xs[k];
      }
      CopiedInTime(rest, next);
    }
  }

  // ---------- the program that notices the order ----------

  /** In iteration 0 the source of d stores 1 to cell 0; in iteration 1 its sink copies cell 0 to cell 1. */
  function Witness(b: StatementGraph.Body, d: Dep): (r: seq<Statement>)
    ensures |r| == |b.hasRef|
  {
    seq(|b.hasRef|, s requires 0 <= s < |b.hasRef| =>
      Statement([], (i: nat) => if s == d.sink && i == 1 then [0] else [],
                (i: nat) => if s == d.source && i == 0 then Some(0) else if s == d.sink && i == 1 then Some(1) else None,
                (i: nat, values: seq<int>) => if s == d.source || |values| != 1 then 1 else values[0]))
  }

  lemma WitnessDescribed(b: StatementGraph.Body, d: Dep)
    requires b.Wf() && d in b.deps && !d.scalar && d.source != d.sink && b.hasRef[d.source] && b.hasRef[d.sink]
    ensures Describes(b, Witness(b, d), 2)
  {
    assert d == Dep(d.source, d.sink, false);
  }

  lemma WitnessOps(b: StatementGraph.Body, d: Dep, s: nat, k: nat, i: nat)
    requires d.source != d.sink && s < |b.hasRef|
    ensures var x := OpFor(Witness(b, d), s, k, i);
            && (Sets(x) || Moves(x) || Quiet(x))
            && (Sets(x) <==> s == d.source && i == 0) && (Moves(x) <==> s == d.sink && i == 1)
  {
    var x := OpFor(Witness(b, d), s, k, i);
    if s == d.source && i == 0 {
      assert x.uses == [];
    } else if s == d.sink && i == 1 {
      assert x.uses == [Mem(0)];
    }
  }

  lemma PlainOps(b: StatementGraph.Body, d: Dep, xs: seq<Inst>)
    requires d.source != d.sink && Within(PlainBody(Witness(b, d)), xs)
    ensures var ops := Ops(PlainBody(Witness(b, d)), xs);
            && Simple(ops)
            && forall k :: 0 <= k < |xs| ==> (Sets(ops[k]) <==> xs[k] == Inst(d.source, 0)) && (Moves(ops[k]) <==> xs[k] == Inst(d.sink, 1))
  {
    hide Witness, Sets, Moves, Quiet;
    var ops := Ops(PlainBody(Witness(b, d)), xs);
    forall k | 0 <= k < |xs|
      ensures Sets(ops[k]) || Moves(ops[k]) || Quiet(ops[k])
      ensures (Sets(ops[k]) <==> xs[k] == Inst(d.source, 0)) && (Moves(ops[k]) <==> xs[k] == Inst(d.sink, 1))
    {
      WitnessOps(b, d, xs[k].s, 0, xs[k].i);
      assert xs[k] == Inst(xs[k].s, xs[k].i);
    }
  }

  lemma PlainOrder(d: Dep, xs: seq<Inst>, ops: seq<Op>)
    requires |ops| == |xs| && SortedBy(xs, Earlier) && Inst(d.source, 0) in xs && Inst(d.sink, 1) in xs
    requires forall k :: 0 <= k < |xs| ==> (Sets(ops[k]) <==> xs[k] == Inst(d.source, 0)) && (Moves(ops[k]) <==> xs[k] == Inst(d.sink, 1))
    ensures StoresFirst(ops) && exists k :: 0 <= k < |ops| && Moves(ops[k])
  {
    hide Sets, Moves;
    var first :| 0 <= first < |xs| && xs[first] == Inst(d.source, 0);
    var second :| 0 <= second < |xs| && xs[second] == Inst(d.sink, 1);
    assert Moves(ops[second]) && Sets(ops[first]);
    forall l | 0 <= l < |ops| && Moves(ops[l]) ensures exists k :: 0 <= k < l && Sets(ops[k]) {
      assert xs[l] == Inst(d.sink, 1);
      assert first < l;
    }
  }

  /** The original loop stores before it copies. */
  lemma WitnessPlain(b: StatementGraph.Body, d: Dep, st: Store)
    requires d.source != d.sink && d.source < |b.hasRef| && d.sink < |b.hasRef| && st == map[]
    ensures var prog := Witness(b, d); var plain, xs := PlainBody(prog), Original(|prog|, 2);
            Within(plain, xs) && Get(Run(Ops(plain, xs), st), Mem(1)) == 1
  {
    var prog := Witness(b, d);
    var plain, xs := PlainBody(prog), Original(|prog|, 2);
    LoopsWithin(plain, 2, OneGroup, 0);
    LoopContent(|prog|, 2, OneGroup, 0);
    assert Inst(d.source, 0) in xs && Inst(d.sink, 1) in xs;
    hide Witness, PlainBody, Simple, StoresFirst, Original, Ops, Run;
    PlainOps(b, d, xs);
    PlainOrder(d, xs, Ops(plain, xs));
    CopiedInTime(Ops(plain, xs), st);
  }

  /** The loops of a plan that runs the sink first copy before they store. */
  lemma WitnessSplit(b: StatementGraph.Body, d: Dep, cs: seq<Copy>, m: nat, holds: (nat, nat) -> bool, st: Store)
    requires d.source != d.sink && st == map[] && Proper(Witness(b, d), cs, m, holds)
    requires forall k: nat, l: nat :: holds(d.source, k) && holds(d.sink, l) ==> l < k
    ensures var split, ys := CopyBody(Witness(b, d), cs), Loops(|cs|, 2, LoopOf(cs), m);
            Within(split, ys) && Get(Run(Ops(split, ys), st), Mem(1)) == 0
  {
    var prog, group := Witness(b, d), LoopOf(cs);
    var split, ys := CopyBody(prog, cs), Loops(|cs|, 2, group, m);
    LoopsWithin(split, 2, group, m);
    LoopsContent(|cs|, 2, group, m);
    var ops := Ops(split, ys);
    forall k | 0 <= k < |ops|
      ensures Sets(ops[k]) || Moves(ops[k]) || Quiet(ops[k])
      ensures Sets(ops[k]) ==> holds(d.source, group(ys[k].s))
      ensures Moves(ops[k]) ==> holds(d.sink, group(ys[k].s))
    {
      var c := ys[k].s;
      WitnessOps(b, d, cs[c].s, cs[c].k, ys[k].i);
    }
    forall k, l | 0 <= k < l < |ops| && Sets(ops[k]) ensures !Moves(ops[l]) {
      assert EarlierIn(group, ys[k], ys[l]);
    }
    CopiedTooEarly(ops, st);
  }

  // ---------- the plan as it is listed ----------

  lemma SinkRunsFirst(b: StatementGraph.Body, parts: seq<seq<nat>>, p: nat, m: seq<Mark>, k: nat, sccs: seq<seq<nat>>, order: seq<nat>,
                      d: Dep, q: nat, r: nat)
    requires Lifted(b, parts, p, m, k, sccs) && Labelled(b, sccs, k)
    requires Permutation(order, k) && Topological(Stored(b, sccs, k), order)
    requires d in b.deps && !d.scalar && Labelled(b, parts, p) && !OnCycle(b, parts, p, d)
    requires HeldBy(order, sccs)(d.source, q) && HeldBy(order, sccs)(d.sink, r)
    ensures r < q
  {
    DepHomes(b, parts, p, d);
    SameComponent(b, parts, p, m, k, sccs, d.source, d.sink);
    SinkFirst(b, sccs, k, order, d);
    var i, j :| 0 <= i < j < |order| && order[i] == PlanMeaning.Home(sccs, d.sink) && order[j] == PlanMeaning.Home(sccs, d.source);
    assert order[q] == order[j] && order[r] == order[i];
  }

  /** For every data dependence off the cycles there is a described program, run for two iterations from an
      empty memory, whose memory the plan as listed changes: it copies a cell before it is stored. */
  lemma ListedPlanBreaks(b: StatementGraph.Body, parts: seq<seq<nat>>, p: nat, m: seq<Mark>, k: nat, sccs: seq<seq<nat>>, order: seq<nat>, d: Dep)
    requires Lifted(b, parts, p, m, k, sccs) && Labelled(b, sccs, k)
    requires Permutation(order, k) && Topological(Stored(b, sccs, k), order)
    requires d in b.deps && !d.scalar && Labelled(b, parts, p) && !OnCycle(b, parts, p, d)
    ensures Describes(b, Witness(b, d), 2)
    ensures !SplitPreserves(Witness(b, d), 2, k, HeldBy(order, sccs), map[])
  {
    DepHomes(b, parts, p, d);
    ReachSelf(Stored(b, parts, p), PlanMeaning.Home(parts, d.source));
    WitnessDescribed(b, d);
    var holds, prog := HeldBy(order, sccs), Witness(b, d);
    forall q: nat, r: nat | holds(d.source, q) && holds(d.sink, r) ensures r < q {
      SinkRunsFirst(b, parts, p, m, k, sccs, order, d, q, r);
    }
    hide Lifted, Labelled, Permutation, Topological, Describes, Witness, Copies, Run, Ops, Loops, Original, HeldBy;
    WitnessPlain(b, d, map[]);
    if Proper(prog, Copies(|prog|, k, holds), k, holds) {
      WitnessSplit(b, d, Copies(|prog|, k, holds), k, holds, map[]);
    }
  }

  /** The plan as listed preserves the memory of every described program, trip count and store. */
  ghost predicate ListedPreserves(b: StatementGraph.Body, k: nat, sccs: seq<seq<nat>>, order: seq<nat>) {
    forall prog: seq<Statement>, trips: nat, st: Store {:trigger SplitPreserves(prog, trips, k, HeldBy(order, sccs), st)} ::
      Describes(b, prog, trips) ==> SplitPreserves(prog, trips, k, HeldBy(order, sccs), st)
  }

  lemma LiftedParts(b: StatementGraph.Body, parts: seq<seq<nat>>, p: nat, m: seq<Mark>, k: nat, sccs: seq<seq<nat>>)
    requires Lifted(b, parts, p, m, k, sccs)
    ensures Labelled(b, parts, p)
  {
  }

  /** Main result: exactly when the plan as listed is safe. */
  lemma ListedPreservesIff(b: StatementGraph.Body, parts: seq<seq<nat>>, p: nat, m: seq<Mark>, k: nat, sccs: seq<seq<nat>>, order: seq<nat>)
    requires ExactPartitions(b, parts, p) && Lifted(b, parts, p, m, k, sccs) && Inherited(parts, p, m, sccs) && Labelled(b, sccs, k)
    requires Permutation(order, k) && Topological(Stored(b, sccs, k), order)
    ensures Labelled(b, parts, p)
    ensures ListedPreserves(b, k, sccs, order) <==> AllOnCycles(b, parts, p)
  {
    hide ExactPartitions, Inherited, Lifted, Permutation, Topological, Respects, SplitPreserves, Describes, Labelled, HeldBy, Witness;
    LiftedParts(b, parts, p, m, k, sccs);
    if AllOnCycles(b, parts, p) {
      RespectsIff(b, parts, p, m, k, sccs, order);
      forall prog: seq<Statement>, trips: nat, st: Store | Describes(b, prog, trips)
        ensures SplitPreserves(prog, trips, k, HeldBy(order, sccs), st)
      {
        RespectfulPlanPreserves(b, prog, trips, parts, p, m, k, sccs, order, st);
      }
    }
    if ListedPreserves(b, k, sccs, order) {
      forall d | d in b.deps && !d.scalar ensures OnCycle(b, parts, p, d) {
        if !OnCycle(b, parts, p, d) {
          ListedPlanBreaks(b, parts, p, m, k, sccs, order, d);
        }
      }
    }
  }

  /** The same for the graphs that do_distribution builds; read from its end the plan is safe in any case. */
  lemma DistributePreserves(rdg: Rdg, rdgp: Prdg, sccg: Prdg, parts: seq<seq<nat>>, m: seq<Mark>, sccs: seq<seq<nat>>, order: seq<nat>)
    requires Graphs(rdg, rdgp, sccg, parts, m, sccs)
    requires Permutation(order, |sccg.vertices|) && Topological(sccg.View(), order)
    ensures ListedPreserves(rdg.View(), |sccg.vertices|, sccs, Reversed(order))
    ensures Labelled(rdg.View(), parts, |rdgp.vertices|)
    ensures ListedPreserves(rdg.View(), |sccg.vertices|, sccs, order) <==> AllOnCycles(rdg.View(), parts, |rdgp.vertices|)
  {
    hide Describes, ExactPartitions, NoneSuperfluous, Lifted, Inherited, Topological, Respects, SplitPreserves, Permutation, AllOnCycles;
    var b, p, k := rdg.View(), |rdgp.vertices|, |sccg.vertices|;
    LiftedLabelled(b, parts, p, m, k, sccs);
    ListedPreservesIff(b, parts, p, m, k, sccs, order);
    forall prog: seq<Statement>, trips: nat, st: Store | Describes(b, prog, trips)
      ensures SplitPreserves(prog, trips, k, HeldBy(Reversed(order), sccs), st)
    {
      ReversedPlanPreserves(b, prog, trips, parts, p, m, k, sccs, order, st);
    }
  }

  // ---------- the smallest body that goes wrong ----------

  /** Two array statements, the second depending on the first. */
  function TwoStatements(): StatementGraph.Body {
    StatementGraph.Body([true, true], [Dep(0, 1, false)])
  }

  /** Its exact partitions are apart, and no path leads from the first to the second. */
  lemma TwoStatementsOffCycle(parts: seq<seq<nat>>, p: nat)
    requires ExactPartitions(TwoStatements(), parts, p) && Labelled(TwoStatements(), parts, p)
    ensures Dep(0, 1, false) in TwoStatements().deps && !OnCycle(TwoStatements(), parts, p, Dep(0, 1, false))
  {
    var b, d := TwoStatements(), Dep(0, 1, false);
    var u, v, g := PlanMeaning.Home(parts, 0), PlanMeaning.Home(parts, 1), Stored(b, parts, p);
    ArrayIsFixed(b, 0);
    ArrayIsFixed(b, 1);
    NotConnected();
    assert InOne(parts[0], p) && InOne(parts[1], p);
    assert parts[0] != parts[1];
    assert u != v;
    assert StoredEdges(b, parts, p, 0) == [];
    assert b.deps[0] == d;
    assert g.edges == [Edge(v, u)];
    forall q: seq<nat> ensures !Path(g, u, q, v) {
      if q != [] { assert Edge(u, q[0]) !in g.edges; }
    }
  }

  lemma NotConnected()
    ensures !Connected(TwoStatements(), 0, 1)
  {
    var b := TwoStatements();
    assert forall d :: d in b.deps ==> !d.scalar;
    forall q: seq<nat> ensures !Path(Joined(b), 0, q, 1) {
      if q != [] { assert Edge(0, q[0]) !in Joined(b).edges; }
    }
  }

  /** Any plan computed for it is backwards, and some program with that dependence notices. */
  lemma TwoStatementsBreak(parts: seq<seq<nat>>, p: nat, m: seq<Mark>, k: nat, sccs: seq<seq<nat>>, order: seq<nat>)
    requires var b := TwoStatements();
             && ExactPartitions(b, parts, p) && Lifted(b, parts, p, m, k, sccs) && Labelled(b, sccs, k)
             && Permutation(order, k) && Topological(Stored(b, sccs, k), order)
    ensures var b := TwoStatements();
            && Before(order, PlanMeaning.Home(sccs, 1), PlanMeaning.Home(sccs, 0))
            && !Respects(b, sccs, k, order) && !ListedPreserves(b, k, sccs, order)
  {
    var b, d := TwoStatements(), Dep(0, 1, false);
    assert b.deps[0] == d;
    TwoStatementsOffCycle(parts, p);
    RespectsIff(b, parts, p, m, k, sccs, order);
    DepHomes(b, parts, p, d);
    SameComponent(b, parts, p, m, k, sccs, 0, 1);
    SinkFirst(b, sccs, k, order, d);
    ListedPlanBreaks(b, parts, p, m, k, sccs, order, d);
  }
}
