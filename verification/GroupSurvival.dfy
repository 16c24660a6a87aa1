/** Which instructions survive the splitting, and in how many of the loops. */
module GroupSurvival {
  import DG = LoopDependences
  import RP = RegisterPartitions
  import SG = SccGroups
  import GP = GroupPlan
  import Digraph
  import opened Options
  import opened LoopSplit
  import opened SplitOrder
  import opened LoopCopies
  import opened LoopErasure
  import opened SplitRun
  import opened SplitResult
  import opened SplitLoops
  import D = Distribution
  import opened Execution
  import opened LoopCode
  import opened CodeFission
  import opened SplitMeaning
  import opened PlanFission

  /** The copy of instruction j of block k is in loop t; a branch is if its block has kept its end. */
  ghost predicate Survives(orig: seq<Block>, body: seq<nat>, now: seq<Block>, loops: seq<seq<nat>>, shifts: seq<nat>, t: nat, k: nat, j: nat)
    requires InBounds(orig, body) && Erasable(orig, body, k, j) && t < |loops| == |shifts|
    requires k < |loops[t]| && InBounds(now, loops[t])
  {
    var b := now[loops[t][k]];
    if j < |orig[body[k]].insts| then Moved(orig[body[k]].insts[j], DefinedIn(orig, body), shifts[t]) in b.insts else b.ended
  }

  lemma DistinctPart(xs: seq<nat>, ys: seq<nat>)
    requires DG.Distinct(xs + ys)
    ensures DG.Distinct(xs) && DG.Distinct(ys)
  {
    var all := xs + ys;
    assert forall i :: 0 <= i < |xs| ==> all[i] == xs[i];
    assert forall i :: 0 <= i < |ys| ==> all[|xs| + i] == ys[i];
  }

  lemma {:induction false} BlockDistinct(blocks: seq<Block>, body: seq<nat>, n: nat, k: nat)
    requires InBounds(blocks, body) && 0 < k < n <= |body| && DG.Distinct(ItemIds(blocks, body, n))
    ensures DG.Distinct(IdsOf(blocks[body[k]].insts))
    decreases n
  {
    var b := blocks[body[n - 1]];
    DistinctPart(ItemIds(blocks, body, n - 1), IdsOf(b.insts) + [b.branch.id]);
    if k < n - 1 { BlockDistinct(blocks, body, n - 1, k); } else { DistinctPart(IdsOf(b.insts), [b.branch.id]); }
  }

  lemma {:induction false} KeptHas(xs: seq<Instr>, scc: seq<nat>, back: map<nat, nat>, i: nat)
    requires i < |xs| && Origin(back, xs[i].id) in scc
    ensures xs[i] in Kept(xs, scc, back)
    decreases |xs|
  {
    if i > 0 { KeptHas(xs[1..], scc, back, i - 1); }
  }

  lemma InMoved(xs: seq<Instr>, x: Instr, ids: set<nat>, shift: nat)
    ensures x in xs ==> Moved(x, ids, shift) in MovedAll(xs, ids, shift)
    ensures Moved(x, ids, shift) in MovedAll(xs, ids, shift) ==> exists y :: y in xs && y.id == x.id
  {
    hide MovedArgs;
    if x in xs {
      var i :| 0 <= i < |xs| && xs[i] == x;
      assert MovedAll(xs, ids, shift)[i] == Moved(x, ids, shift);
    }
    if Moved(x, ids, shift) in MovedAll(xs, ids, shift) {
      var i :| 0 <= i < |xs| && Moved(xs[i], ids, shift) == Moved(x, ids, shift);
      assert xs[i] in xs;
    }
  }

  lemma InstSurvivesIff(b: Block, scc: seq<nat>, latch: bool, j: nat)
    requires j < |b.insts| && j < Erasables(b, latch) && DG.Distinct(IdsOf(b.insts))
    ensures (exists y :: y in Thin(b, scc, map[], latch).insts && y.id == b.insts[j].id) <==> b.insts[j].id in scc
    ensures b.insts[j].id in scc ==> b.insts[j] in Thin(b, scc, map[], latch).insts
  {
    hide Kept;
    ThinParts(b, scc, map[], latch);
    FrontSize(b, latch);
    var front := Front(b, latch);
    assert front[j] == b.insts[j];
    if b.insts[j].id in scc { KeptHas(front, scc, map[], j); }
    if latch { LastDiffers(b.insts, j); }
    forall y | y in Thin(b, scc, map[], latch).insts && y.id == b.insts[j].id ensures y.id in scc {
    }
  }

  lemma LastDiffers(xs: seq<Instr>, j: nat)
    requires DG.Distinct(IdsOf(xs)) && j < |xs| - 1
    ensures xs[j].id != xs[|xs| - 1].id
  {
    assert IdsOf(xs)[j] == xs[j].id;
  }

  /** An instruction survives in a loop exactly if it is in the loop's group. */
  lemma SurvivesIff(orig: seq<Block>, limit: nat, body: seq<nat>, exit: nat, now: seq<Block>, loops: seq<seq<nat>>, shifts: seq<nat>,
                    sccs: seq<seq<nat>>, t: nat, k: nat, j: nat)
    requires SplitInto(orig, limit, body, now, loops, shifts, sccs) && Shaped(orig, body, exit) && DG.Distinct(Analysed(orig, body))
    requires t < |loops| && Erasable(orig, body, k, j)
    ensures InBounds(orig, body) && |loops| == |shifts| <= |sccs| && k < |loops[t]| && InBounds(now, loops[t])
    ensures Survives(orig, body, now, loops, shifts, t, k, j) <==> ItemAt(orig[body[k]], j).id in sccs[t]
  {
    hide DefinedIn, Moved, MovedArgs, Kept, Thin, AllApart, ItemIds;
    assert GroupCopy(orig, body, now, loops[t], sccs[t], shifts[t]);
    var b, c, ids, latch := orig[body[k]], ForGroup(orig, body, sccs[t], k), DefinedIn(orig, body), k == |body| - 1;
    var r := now[loops[t][k]];
    assert CopyBlock(r, c, ids, shifts[t]);
    if j < |b.insts| {
      BlockDistinct(orig, body, |body|, k);
      InstSurvivesIff(b, sccs[t], latch, j);
      assert r.insts == MovedAll(c.insts, ids, shifts[t]);
      InMoved(c.insts, b.insts[j], ids, shifts[t]);
    } else {
      GroupEnds(orig, body, sccs[t], k);
    }
  }

  ghost predicate HaveBlocks(now: seq<Block>, loops: seq<seq<nat>>, n: nat) {
    forall t :: 0 <= t < |loops| ==> |loops[t]| == n && InBounds(now, loops[t])
  }

  /** It survives in exactly one of the loops. */
  ghost predicate SurvivesOnce(orig: seq<Block>, body: seq<nat>, now: seq<Block>, loops: seq<seq<nat>>, shifts: seq<nat>, k: nat, j: nat)
    requires InBounds(orig, body) && Erasable(orig, body, k, j) && |loops| == |shifts| && HaveBlocks(now, loops, |body|)
  {
    exists t: nat :: t < |loops| && Survives(orig, body, now, loops, shifts, t, k, j)
                     && forall u: nat :: u < |loops| && Survives(orig, body, now, loops, shifts, u, k, j) ==> u == t
  }

  lemma LoopsHave(orig: seq<Block>, limit: nat, body: seq<nat>, now: seq<Block>, loops: seq<seq<nat>>, shifts: seq<nat>, sccs: seq<seq<nat>>)
    requires SplitInto(orig, limit, body, now, loops, shifts, sccs)
    ensures InBounds(orig, body) && |loops| == |shifts| && HaveBlocks(now, loops, |body|)
  {
    forall t: nat | t < |loops| ensures |loops[t]| == |body| && InBounds(now, loops[t]) {
      assert GroupCopy(orig, body, now, loops[t], sccs[t], shifts[t]);
    }
  }

  /** Each analysed instruction is in exactly one of the lists that the splitting is given. */
  lemma InOneScc(facts: DG.Facts, ids: seq<nat>, p: LoopPlan, x: nat) returns (home: nat)
    requires PlanFor(facts, ids, p) && HasParts(p) && SG.Exact(p.edges, |p.prdg|, p.groups) && x in ids
    ensures home < |Sccs(p)| && forall t: nat :: t < |Sccs(p)| ==> (x in Sccs(p)[t] <==> t == home)
  {
    hide PlanFor, GP.Flatten, HomeOf, Sccs, SG.Exact, HasParts, Place;
    HomeIsHome(facts, ids, p, x);
    home := Place(p, HomeOf(p, x));
    InPlace(p, home, x);
    forall t: nat | t < |Sccs(p)| ensures x in Sccs(p)[t] <==> t == home {
      InPlace(p, t, x);
    }
  }

  /** Where the groups come out exact, an instruction that may be erased survives in exactly one of the loops made
      if and only if it is in neither of the last two lists, for which no loop is made. */
  lemma SurvivesInOneLoop(facts: DG.Facts, p: LoopPlan, orig: seq<Block>, limit: nat, body: seq<nat>, exit: nat, now: seq<Block>,
                          loops: seq<seq<nat>>, shifts: seq<nat>, k: nat, j: nat)
    requires HasParts(p) && SplitInto(orig, limit, body, now, loops, shifts, Sccs(p)) && |loops| == |Sccs(p)| - 2
    requires Shaped(orig, body, exit) && DG.Distinct(Analysed(orig, body)) && PlanFor(facts, Analysed(orig, body), p)
    requires SG.Exact(p.edges, |p.prdg|, p.groups) && Erasable(orig, body, k, j)
    ensures InBounds(orig, body) && |loops| == |shifts| && HaveBlocks(now, loops, |body|)
    ensures SurvivesOnce(orig, body, now, loops, shifts, k, j)
            <==> ItemAt(orig[body[k]], j).id !in Sccs(p)[|Sccs(p)| - 2] && ItemAt(orig[body[k]], j).id !in Sccs(p)[|Sccs(p)| - 1]
  {
    hide SplitInto, Shaped, PlanFor, Sccs, SG.Exact, Survives, HasParts, DG.Distinct, Analysed, Erasable, ItemAt;
    ShapedSize(orig, body, exit);
    ErasableBlock(orig, body, k, j);
    LoopsHave(orig, limit, body, now, loops, shifts, Sccs(p));
    var x := ItemAt(orig[body[k]], j).id;
    ErasableListed(orig, body, k, j);
    var home := InOneScc(facts, Analysed(orig, body), p, x);
    forall t: nat | t < |loops| ensures Survives(orig, body, now, loops, shifts, t, k, j) <==> t == home {
      SurvivesIff(orig, limit, body, exit, now, loops, shifts, Sccs(p), t, k, j);
    }
    if home < |loops| {
      assert Survives(orig, body, now, loops, shifts, home, k, j);
    }
  }

  ghost predicate WithoutLoop(orig: seq<Block>, body: seq<nat>, sccs: seq<seq<nat>>, k: nat, j: nat)
    requires InBounds(orig, body) && Erasable(orig, body, k, j) && |sccs| >= 2
  {
    var x := ItemAt(orig[body[k]], j).id;
    x in sccs[|sccs| - 2] || x in sccs[|sccs| - 1]
  }

  /** So all of them survive, each once, exactly if the last two lists hold none of them. */
  lemma AllSurviveIff(facts: DG.Facts, p: LoopPlan, orig: seq<Block>, limit: nat, body: seq<nat>, exit: nat, now: seq<Block>,
                      loops: seq<seq<nat>>, shifts: seq<nat>)
    requires HasParts(p) && SplitInto(orig, limit, body, now, loops, shifts, Sccs(p)) && |loops| == |Sccs(p)| - 2
    requires Shaped(orig, body, exit) && DG.Distinct(Analysed(orig, body)) && PlanFor(facts, Analysed(orig, body), p)
    requires SG.Exact(p.edges, |p.prdg|, p.groups)
    ensures InBounds(orig, body) && |loops| == |shifts| && HaveBlocks(now, loops, |body|)
    ensures (forall k: nat, j: nat :: Erasable(orig, body, k, j) ==> SurvivesOnce(orig, body, now, loops, shifts, k, j))
            <==> (forall k: nat, j: nat :: Erasable(orig, body, k, j) ==> !WithoutLoop(orig, body, Sccs(p), k, j))
  {
    hide SplitInto, Shaped, PlanFor, Sccs, SG.Exact, HasParts, DG.Distinct, Analysed, SurvivesOnce;
    ShapedSize(orig, body, exit);
    LoopsHave(orig, limit, body, now, loops, shifts, Sccs(p));
    forall k: nat, j: nat | Erasable(orig, body, k, j)
      ensures SurvivesOnce(orig, body, now, loops, shifts, k, j) <==> !WithoutLoop(orig, body, Sccs(p), k, j)
    {
      SurvivesInOneLoop(facts, p, orig, limit, body, exit, now, loops, shifts, k, j);
    }
  }

  lemma ErasableBlock(orig: seq<Block>, body: seq<nat>, k: nat, j: nat)
    requires InBounds(orig, body) && Erasable(orig, body, k, j)
    ensures 0 < k < |body| && j <= |orig[body[k]].insts|
  {
  }

  /** So with exact groups every loop that is split and has a block between header and latch loses an end: the
      branch of the block is an instruction like any other, and in one group only. */
  lemma MiddleBlockLosesEnd(facts: DG.Facts, p: LoopPlan, orig: seq<Block>, body: seq<nat>)
    requires InBounds(orig, body) && |body| > 2
    requires HasParts(p) && PlanFor(facts, Analysed(orig, body), p) && SG.Exact(p.edges, |p.prdg|, p.groups) && |Sccs(p)| > 3
    ensures !EndsKept(orig, body, Sccs(p), |Sccs(p)| - 2)
  {
    hide PlanFor, Sccs, SG.Exact, HasParts, Analysed;
    var j := |orig[body[1]].insts|;
    assert Erasable(orig, body, 1, j);
    ErasableListed(orig, body, 1, j);
    var home := InOneScc(facts, Analysed(orig, body), p, ItemAt(orig[body[1]], j).id);
    if EndsKept(orig, body, Sccs(p), |Sccs(p)| - 2) {
      EndsKeptAt(orig, body, Sccs(p), |Sccs(p)| - 2, 1, 0);
      EndsKeptAt(orig, body, Sccs(p), |Sccs(p)| - 2, 1, 1);
    }
  }

  // ---------- a plan that loses the whole body ----------

  /** Header 1, latch 2 with the statements 0 and 1, the increment 2 and the branch 3; exit 3. */
  function TwoStatementLoop(): seq<Block> {
    [Block([], [], Instr(6, 0, []), [1], true),
     Block([Phi(4, [0, 2], [Other(0), Def(2)])], [], Instr(5, 0, [Def(4)]), [2, 3], true),
     Block([], [Instr(0, 1, [Def(4)]), Instr(1, 2, [Def(4)]), Instr(2, 3, [Def(4)])], Instr(3, 0, []), [1], true),
     Block([], [], Instr(7, 0, []), [], true)]
  }

  /** Nothing depends on anything. */
  function NoFacts(): DG.Facts {
    DG.Facts(x => false, (x, y) => DG.NoDependence, x => {})
  }

  /** The partitions in an order that the addresses of the instructions may well have: increment and branch first. */
  function AddressPlan(): LoopPlan {
    LoopPlan(map[0 := {}, 1 := {}, 2 := {}, 3 := {}], [[2], [3], [0], [1]], map[], [[0], [1], [2], [3]], None)
  }

  lemma {:induction false} NoPath(m: RP.Adjacency, x: nat, p: seq<nat>, y: nat)
    requires (forall v: nat :: RP.Next(m, v) == {}) && Digraph.Path(RP.AsGraph(m), x, p, y)
    ensures x == y
  {
  }

  lemma NoEdges(m: RP.Adjacency, x: nat, y: nat)
    requires forall v: nat :: RP.Next(m, v) == {}
    ensures Digraph.Reach(RP.AsGraph(m), x, y) <==> x == y
    ensures Digraph.Mutual(RP.AsGraph(m), x, y) <==> x == y
    ensures forall t: set<nat> :: SG.Avoids(m, t, x, y) <==> x == y
  {
    Digraph.ReachSelf(RP.AsGraph(m), x);
    if Digraph.Reach(RP.AsGraph(m), x, y) {
      var p :| Digraph.Path(RP.AsGraph(m), x, p, y);
      NoPath(m, x, p, y);
    }
    forall t: set<nat> ensures SG.Avoids(m, t, x, y) <==> x == y {
      SG.AvoidsSelf(m, t, x);
    }
  }

  lemma OneWhole(m: RP.Adjacency, x: nat)
    requires (forall v: nat :: RP.Next(m, v) == {}) && x in m
    ensures RP.Whole(m, [x])
  {
    forall y: nat ensures Digraph.Reach(RP.AsGraph(m), x, y) <==> x == y { NoEdges(m, x, y); }
  }

  lemma SingleParts()
    ensures RP.ConnectedComponents(AddressPlan().dual, AddressPlan().prdg)
  {
    var m, prdg := AddressPlan().dual, AddressPlan().prdg;
    assert forall v: nat :: RP.Next(m, v) == {};
    hide RP.Whole, RP.Next;
    OneWhole(m, 0);
    OneWhole(m, 1);
    OneWhole(m, 2);
    OneWhole(m, 3);
    forall x: nat | x in m ensures RP.Holds(prdg, x) {
      assert 0 in prdg[2] && 1 in prdg[3] && 2 in prdg[0] && 3 in prdg[1];
    }
  }

  lemma SingleRound(prev: seq<seq<nat>>, k: nat)
    requires k < 4 && |prev| == k && forall i :: 0 <= i < k ==> prev[i] == [i]
    ensures SG.Round(map[], 4, prev, [k])
  {
    var m: RP.Adjacency := map[];
    forall x: nat ensures x in SG.Union(prev) <==> x < k {
      if x < k { assert x in prev[x]; }
    }
    forall x: nat ensures SG.Kept(m, SG.Stale(prev), SG.Union(prev), k, x) <==> x == k {
      NoEdges(m, k, x);
    }
  }

  lemma SingleRounds()
    ensures SG.Rounds(map[], 4, AddressPlan().groups) && SG.Exact(map[], 4, AddressPlan().groups)
    ensures forall q: nat :: q < 4 ==> q in SG.Union(AddressPlan().groups)
  {
    hide SG.Round;
    var groups := AddressPlan().groups;
    forall k | 0 <= k < 4 ensures SG.Round(map[], 4, groups[..k], groups[k]) {
      SingleRound(groups[..k], k);
    }
    forall q: nat | q < 4 ensures q in SG.Union(groups) {
      assert q in groups[q];
    }
    SingleExact();
  }

  lemma SingleExact()
    ensures SG.Exact(map[], 4, AddressPlan().groups)
  {
    var groups := AddressPlan().groups;
    forall k: nat, x: nat, y: nat | k < |groups| && x in groups[k] && y < 4
      ensures y in groups[k] <==> Digraph.Mutual(RP.AsGraph(map[]), x, y)
    {
      NoEdges(map[], x, y);
    }
  }

  lemma AddressSccs()
    ensures HasParts(AddressPlan()) && Sccs(AddressPlan()) == [[2], [3], [0], [1]]
  {
    var p := AddressPlan();
    forall k | 0 <= k < 4 ensures GP.Flatten(p.prdg, p.groups[k]) == p.prdg[k] {
      assert p.groups[k] == [k] && [k][1..] == [];
      assert p.prdg[k] + [] == p.prdg[k];
    }
  }

  lemma AddressPlanIsPlan()
    ensures PlanFor(NoFacts(), [0, 1, 2, 3], AddressPlan()) && HasParts(AddressPlan())
    ensures SG.Exact(AddressPlan().edges, 4, AddressPlan().groups)
    ensures Sccs(AddressPlan()) == [[2], [3], [0], [1]]
  {
    hide SG.Rounds, SG.Exact, RP.ConnectedComponents, Sccs;
    var p := AddressPlan();
    SingleParts();
    SingleRounds();
    AddressSccs();
    forall a: nat, b: nat ensures !GP.Orders(NoFacts(), [0, 1, 2, 3], p.prdg, a, b) {}
  }

  lemma TwoStatementIds()
    ensures InBounds(TwoStatementLoop(), [1, 2]) && Analysed(TwoStatementLoop(), [1, 2]) == [0, 1, 2, 3]
  {
    var f := TwoStatementLoop();
    assert ItemIds(f, [1, 2], 1) == [];
    assert IdsOf(f[2].insts) == [0, 1, 2];
  }

  lemma TwoStatementEdges(a: nat, b: nat)
    ensures Pred(TwoStatementLoop(), a, b) <==> (a == 0 && b == 1) || (a == 1 && (b == 2 || b == 3)) || (a == 2 && b == 1)
  {
    var f := TwoStatementLoop();
    assert f[0].succs == [1] && f[1].succs == [2, 3] && f[2].succs == [1] && f[3].succs == [];
  }

  lemma TwoStatementShape()
    ensures |TwoStatementLoop()| == 4 && Shaped(TwoStatementLoop(), [1, 2], 3)
    ensures forall k: nat, j: nat :: Erasable(TwoStatementLoop(), [1, 2], k, j) <==> k == 1 && j < 2
    ensures ItemAt(TwoStatementLoop()[2], 0).id == 0 && ItemAt(TwoStatementLoop()[2], 1).id == 1
  {
    var f := TwoStatementLoop();
    assert |f[2].insts| == 3;
  }

  lemma TwoStatementEntered()
    ensures Entered(TwoStatementLoop(), [1, 2], 0)
  {
    hide TwoStatementLoop;
    TwoStatementShape();
    forall a: nat, b: nat {
      TwoStatementEdges(a, b);
    }
  }

  lemma TwoStatementStarts()
    ensures Started(TwoStatementLoop(), [1, 2], 0) && InBounds(TwoStatementLoop(), [1, 2])
  {
    var f := TwoStatementLoop();
    forall i: nat, o | Takes(f, 1, 0, i, o) ensures Outside(f, [1, 2], o) {
      assert f[1].phis[i].froms == [0, 2] && f[1].phis[i].vals == [Other(0), Def(2)];
    }
  }

  lemma TwoStatementMatch()
    ensures PhisMatch(TwoStatementLoop())
  {
    var f := TwoStatementLoop();
    forall b: nat | b < |f| ensures PhisMatchAt(f, b) {
      if b == 1 {
        assert f[1].phis[0].froms == [0, 2];
        forall a: nat ensures a in f[1].phis[0].froms <==> Pred(f, a, 1) { TwoStatementEdges(a, 1); }
      }
    }
  }

  lemma TwoStatementUse(v: nat, c: nat)
    requires c < 4 && UsedIn(v, TwoStatementLoop()[c])
    ensures v == 4 || v == 2
  {
  }

  lemma TwoStatementPrivate()
    ensures Private(TwoStatementLoop(), [1, 2])
    ensures forall scc :: Closed(TwoStatementLoop(), [1, 2], scc, map[])
  {
    var f, body := TwoStatementLoop(), [1, 2];
    assert f[2].phis == [] && |f[2].insts| > 0 && forall c :: 0 <= c < 4 ==> f[c].ended;
    TwoStatementShape();
    hide Erasable, ItemAt, TwoStatementLoop;
    forall k: nat, j: nat | Erasable(f, body, k, j)
      ensures forall c: nat :: c < |f| ==> !UsedIn(ItemAt(f[body[k]], j).id, f[c])
    {
      forall c: nat | c < |f| && UsedIn(ItemAt(f[body[k]], j).id, f[c]) ensures false { TwoStatementUse(ItemAt(f[body[k]], j).id, c); }
    }
    UnusedIsPrivate(f, body);
  }

  /** There is nothing wrong with the loop. */
  lemma TwoStatementLoopIsLoop()
    ensures Chain(TwoStatementLoop(), [1, 2], 0, 3) && WellFormed(TwoStatementLoop(), 8) && Private(TwoStatementLoop(), [1, 2])
    ensures BodyFirst(TwoStatementLoop(), [1, 2])
    ensures HasParts(AddressPlan()) && forall t :: 0 <= t < |Sccs(AddressPlan())| ==> Closed(TwoStatementLoop(), [1, 2], Sccs(AddressPlan())[t], map[])
  {
    hide Entered, Started, PhisMatch, Private, Closed, Shaped, TwoStatementLoop, Numbered, AddressPlan, Sccs, HasParts, Erasable, ItemAt;
    TwoStatementShape();
    TwoStatementEntered();
    TwoStatementStarts();
    TwoStatementMatch();
    TwoStatementPrivate();
    TwoStatementNumbers();
    AddressPlanIsPlan();
  }

  lemma TwoStatementNumber(b: nat)
    requires b < |TwoStatementLoop()|
    ensures BlockBelow(TwoStatementLoop()[b], 8)
  {
    if b == 0 || b == 3 {
    } else if b == 1 {
      assert OperandsBelow([Other(0), Def(2)], 8);
    } else {
      assert OperandsBelow([Def(4)], 8);
    }
  }

  lemma TwoStatementNumbers()
    ensures Numbered(TwoStatementLoop(), 8) && InBounds(TwoStatementLoop(), [1, 2]) && BodyFirst(TwoStatementLoop(), [1, 2])
  {
    TwoStatementHeader();
    hide TwoStatementLoop, BlockBelow;
    forall b: nat | b < |TwoStatementLoop()| ensures BlockBelow(TwoStatementLoop()[b], 8) { TwoStatementNumber(b); }
  }

  lemma TwoStatementHeader()
    ensures InBounds(TwoStatementLoop(), [1, 2]) && BodyFirst(TwoStatementLoop(), [1, 2])
  {
  }

  /** And the groups of this plan are exact; but the last two are the statements, and are in neither of the loops. */
  lemma BodyLost(now: seq<Block>, loops: seq<seq<nat>>, shifts: seq<nat>, t: nat, j: nat)
    requires HasParts(AddressPlan()) && SplitInto(TwoStatementLoop(), 8, [1, 2], now, loops, shifts, Sccs(AddressPlan()))
    requires |loops| == |Sccs(AddressPlan())| - 2 && t < |loops| && j < 2
    ensures |loops| == 2 && InBounds(TwoStatementLoop(), [1, 2]) && Erasable(TwoStatementLoop(), [1, 2], 1, j)
    ensures |shifts| == 2 && 1 < |loops[t]| && InBounds(now, loops[t])
    ensures !Survives(TwoStatementLoop(), [1, 2], now, loops, shifts, t, 1, j)
  {
    hide *;
    AddressPlanIsPlan();
    TwoStatementIds();
    TwoStatementShape();
    FirstFour();
    var sccs: seq<seq<nat>> := [[2], [3], [0], [1]];
    SurvivesIff(TwoStatementLoop(), 8, [1, 2], 3, now, loops, shifts, sccs, t, 1, j);
  }

  lemma FirstFour()
    ensures DG.Distinct([0, 1, 2, 3])
  {
  }

  // ---------- the same loop with a plan that fits ----------

  /** The same partitions in the order of the body. */
  function BodyPlan(): LoopPlan {
    AddressPlan().(prdg := [[0], [1], [2], [3]])
  }

  /** Statement 0 stores 1 to where the counter points; everything else computes the sum of its operands. */
  function Storing(): Meaning {
    Meaning((op, vs: seq<int>) => if op == 1 && |vs| == 1 then Store(vs[0], 1) else Value(if |vs| == 1 then vs[0] + 1 else 0),
            (op, vs: seq<int>) => if |vs| == 1 && vs[0] < 10 then 0 else 1, n => 0)
  }

  lemma BodyParts()
    ensures RP.ConnectedComponents(BodyPlan().dual, BodyPlan().prdg)
  {
    var m, prdg := BodyPlan().dual, BodyPlan().prdg;
    assert forall v: nat :: RP.Next(m, v) == {};
    hide RP.Whole, RP.Next;
    OneWhole(m, 0);
    OneWhole(m, 1);
    OneWhole(m, 2);
    OneWhole(m, 3);
    forall x: nat | x in m ensures RP.Holds(prdg, x) {
      assert 0 in prdg[0] && 1 in prdg[1] && 2 in prdg[2] && 3 in prdg[3];
    }
  }

  lemma BodySccs()
    ensures HasParts(BodyPlan()) && Sccs(BodyPlan()) == [[0], [1], [2], [3]]
  {
    var p := BodyPlan();
    forall k | 0 <= k < 4 ensures GP.Flatten(p.prdg, p.groups[k]) == p.prdg[k] {
      assert p.groups[k] == [k] && [k][1..] == [];
      assert p.prdg[k] + [] == p.prdg[k];
    }
  }

  lemma BodyPlanIsPlan()
    ensures PlanFor(NoFacts(), [0, 1, 2, 3], BodyPlan()) && SG.InputOrdered(BodyPlan().edges)
  {
    hide SG.Rounds, SG.Exact, RP.ConnectedComponents, Sccs;
    var p := BodyPlan();
    BodyParts();
    SingleRounds();
    BodySccs();
    forall a: nat, b: nat ensures !GP.Orders(NoFacts(), [0, 1, 2, 3], p.prdg, a, b) {}
  }

  lemma TwoStatementCode()
    ensures HasTail(TwoStatementLoop(), [1, 2])
    ensures CodeOf(TwoStatementLoop(), [1, 2], 0)
         == Code([Node(4, Other(0), Def(2))], [], Instr(5, 0, [Def(4)]), [Instr(0, 1, [Def(4)]), Instr(1, 2, [Def(4)])], Instr(2, 3, [Def(4)]))
  {
    var f, xs := TwoStatementLoop(), [Instr(0, 1, [Def(4)]), Instr(1, 2, [Def(4)]), Instr(2, 3, [Def(4)])];
    assert BodyInsts(f, [1, 2], 1) == [];
    assert BodyInsts(f, [1, 2], 2) == [] + f[2].insts == xs;
    assert xs[..2] == [Instr(0, 1, [Def(4)]), Instr(1, 2, [Def(4)])];
    assert f[1].phis[0].froms == [0, 2] && f[1].phis[0].vals == [Other(0), Def(2)];
    assert EntryFor([0, 2], 0) == 0 && EntryFor([0, 2], 2) == 1;
    assert NodesOf(f[1], 0, 2) == [Node(4, Other(0), Def(2))];
  }

  lemma TwoStatementSsa(ids: set<nat>)
    ensures HasTail(TwoStatementLoop(), [1, 2]) && Ssa(CodeOf(TwoStatementLoop(), [1, 2], 0), ids)
    ensures PureFrame(Storing(), CodeOf(TwoStatementLoop(), [1, 2], 0))
  {
    TwoStatementCode();
    hide TwoStatementLoop, CodeOf;
    var code := CodeOf(TwoStatementLoop(), [1, 2], 0);
    assert code.nodes[0].id in NodeIds(code);
    assert HeaderIds(code) == {4} by { assert code.head[..0] == []; }
    assert InstrIds(code.stmts) == {0, 1} by {
      assert code.stmts[0].id == 0 && code.stmts[1].id == 1;
      assert 0 in InstrIds(code.stmts) && 1 in InstrIds(code.stmts);
    }
  }

  /** Two accesses to a common cell of which one stores are executions of one statement. */
  lemma OneStores(st: State, s: nat, t: nat, i: nat, j: nat)
    requires s < 2 && t < 2 && s != t && HasTail(TwoStatementLoop(), [1, 2])
    requires |Trace(Storing(), CodeOf(TwoStatementLoop(), [1, 2], 0), st)| == 2
    ensures var b := Trace(Storing(), CodeOf(TwoStatementLoop(), [1, 2], 0), st); !D.Conflict(b[s](i), b[t](j))
  {
    TwoStatementCode();
    hide TwoStatementLoop, CodeOf, CodeFission.During;
    var m, code := Storing(), CodeOf(TwoStatementLoop(), [1, 2], 0);
    assert EffectAt(m, code, st, j, 1).Value? && EffectAt(m, code, st, i, 1).Value?;
    assert !EffectAt(m, code, st, i, 0).Load? && !EffectAt(m, code, st, j, 0).Load?;
  }

  lemma StoringSound(st: State)
    ensures HasTail(TwoStatementLoop(), [1, 2]) && AnalysesSound(Storing(), CodeOf(TwoStatementLoop(), [1, 2], 0), st, NoFacts())
  {
    TwoStatementCode();
    hide TwoStatementLoop, CodeOf, RunsFor, D.Conflict, Trace, NoFacts;
    var code := CodeOf(TwoStatementLoop(), [1, 2], 0);
    var b := Trace(Storing(), code, st);
    assert |b| == 2 && |Names(code)| == 2;
    forall trips: nat ensures GP.Sound(b, trips, Names(code), NoFacts()) {
      forall s: nat, t: nat, i: nat, j: nat | s < |b| && t < |b| && D.Conflict(b[s](i), b[t](j)) ensures s == t {
        if s != t { OneStores(st, s, t, i, j); }
      }
    }
  }

  lemma BodyPlanBare()
    ensures HasTail(TwoStatementLoop(), [1, 2]) && HasParts(BodyPlan()) && PlanFits(TwoStatementLoop(), [1, 2], 0, BodyPlan())
  {
    TwoStatementCode();
    BodySccs();
    BodyPlanIsPlan();
    hide TwoStatementLoop, CodeOf, Sccs, SG.InputOrdered, HasParts;
  }

  lemma NoMiddle(blocks: seq<Block>, sccs: seq<seq<nat>>, count: nat)
    requires InBounds(blocks, [1, 2]) && count <= |sccs|
    ensures EndsKept(blocks, [1, 2], sccs, count)
  {
  }

  lemma ProperIf(m: Meaning, orig: seq<Block>, body: seq<nat>, pre: nat, st: State, facts: DG.Facts)
    requires HasTail(orig, body) && Ssa(CodeOf(orig, body, pre), DefinedIn(orig, body)) && PureFrame(m, CodeOf(orig, body, pre))
    requires AnalysesSound(m, CodeOf(orig, body, pre), st, facts)
    ensures Proper(m, orig, body, pre, st, facts)
  {
  }

  /** With this plan the loop meets all conditions for being split rightly, in every state. */
  lemma BodyPlanFits(st: State)
    ensures var f, body, p := TwoStatementLoop(), [1, 2], BodyPlan();
            && HasTail(f, body) && HasParts(p) && PlanFor(NoFacts(), Analysed(f, body), p) && PlanFits(f, body, 0, p)
            && |Sccs(p)| == 4 && EndsKept(f, body, Sccs(p), |Sccs(p)| - 2) && Proper(Storing(), f, body, 0, st, NoFacts())
  {
    hide *;
    TwoStatementIds();
    BodyPlanIsPlan();
    BodySccs();
    BodyPlanBare();
    StoringSound(st);
    TwoStatementSsa(DefinedIn(TwoStatementLoop(), [1, 2]));
    NoMiddle(TwoStatementLoop(), Sccs(BodyPlan()), |Sccs(BodyPlan())| - 2);
    ProperIf(Storing(), TwoStatementLoop(), [1, 2], 0, st, NoFacts());
  }
}
