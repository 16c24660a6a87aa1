/** From the reported facts to the split function: the groups of the plan as the splitting uses them, and when
    the split function computes what the function computed. */
module PlanFission {
  import D = Distribution
  import DG = LoopDependences
  import RP = RegisterPartitions
  import SG = SccGroups
  import GP = GroupPlan
  import Digraph
  import opened Options
  import opened Regrouping
  import opened LoopSplit
  import opened SplitOrder
  import opened LoopCopies
  import opened LoopErasure
  import opened SplitPass
  import opened SplitRun
  import opened SplitResult
  import opened SplitLoops
  import opened Execution
  import opened LoopCode
  import opened CodeFission
  import opened SplitMeaning

  // ---------- the instructions that are grouped ----------

  function IdsOf(xs: seq<Instr>): (r: seq<nat>)
    ensures |r| == |xs| && forall i :: 0 <= i < |r| ==> r[i] == xs[i].id
  {
    seq(|xs|, i requires 0 <= i < |xs| => xs[i].id)
  }

  /** The instructions of the blocks after the header, up to block k, branches included. */
  function ItemIds(blocks: seq<Block>, body: seq<nat>, k: nat): seq<nat>
    requires InBounds(blocks, body) && 0 < k <= |body|
  {
    if k == 1 then []
    else ItemIds(blocks, body, k - 1) + (IdsOf(blocks[body[k - 1]].insts) + [blocks[body[k - 1]].branch.id])
  }

  /** The instructions whose dependences are analysed. */
  function Analysed(blocks: seq<Block>, body: seq<nat>): seq<nat>
    requires InBounds(blocks, body) && |body| > 1
  {
    ItemIds(blocks, body, |body|)
  }

  lemma {:induction false} ItemListed(blocks: seq<Block>, body: seq<nat>, k: nat, l: nat, j: nat)
    requires InBounds(blocks, body) && 0 < l < k <= |body| && j <= |blocks[body[l]].insts|
    ensures ItemAt(blocks[body[l]], j).id in ItemIds(blocks, body, k)
    decreases k
  {
    var b := blocks[body[k - 1]];
    if l < k - 1 {
      ItemListed(blocks, body, k - 1, l, j);
    } else {
      assert (IdsOf(b.insts) + [b.branch.id])[j] == ItemAt(b, j).id;
    }
  }

  lemma ErasableListed(blocks: seq<Block>, body: seq<nat>, k: nat, j: nat)
    requires InBounds(blocks, body) && Erasable(blocks, body, k, j)
    ensures ItemAt(blocks[body[k]], j).id in Analysed(blocks, body)
  {
    ItemListed(blocks, body, |body|, k, j);
  }

  lemma PrecedesLonger(xs: seq<nat>, ys: seq<nat>, zs: seq<nat>, x: nat, y: nat)
    requires DG.Precedes(ys, x, y)
    ensures DG.Precedes(xs + ys + zs, x, y)
  {
    var i, j :| 0 <= i < j < |ys| && ys[i] == x && ys[j] == y;
    var all := xs + ys + zs;
    assert all[|xs| + i] == x && all[|xs| + j] == y;
  }

  lemma PrecedesAcross(xs: seq<nat>, ys: seq<nat>, x: nat, y: nat)
    requires x in xs && y in ys
    ensures DG.Precedes(xs + ys, x, y)
  {
    var i :| 0 <= i < |xs| && xs[i] == x;
    var j :| 0 <= j < |ys| && ys[j] == y;
    assert (xs + ys)[i] == x && (xs + ys)[|xs| + j] == y;
  }

  lemma PrecedesAt(xs: seq<nat>, i: nat, j: nat)
    requires i < j < |xs|
    ensures DG.Precedes(xs, xs[i], xs[j])
  {
  }

  /** The instructions are analysed block by block, each block from its first instruction to its branch. */
  lemma {:induction false} AnalysedInOrder(blocks: seq<Block>, body: seq<nat>, n: nat, k: nat, j: nat, l: nat, m: nat)
    requires InBounds(blocks, body) && 0 < k <= l < n <= |body| && j <= |blocks[body[k]].insts| && m <= |blocks[body[l]].insts|
    requires k < l || j < m
    ensures DG.Precedes(ItemIds(blocks, body, n), ItemAt(blocks[body[k]], j).id, ItemAt(blocks[body[l]], m).id)
    decreases n
  {
    hide DG.Precedes;
    var b := blocks[body[n - 1]];
    var before, last := ItemIds(blocks, body, n - 1), IdsOf(b.insts) + [b.branch.id];
    if l < n - 1 {
      AnalysedInOrder(blocks, body, n - 1, k, j, l, m);
      PrecedesLonger([], before, last, ItemAt(blocks[body[k]], j).id, ItemAt(blocks[body[l]], m).id);
      assert [] + before + last == before + last;
    } else if k < l {
      ItemListed(blocks, body, n - 1, k, j);
      assert last[m] == ItemAt(b, m).id;
      PrecedesAcross(before, last, ItemAt(blocks[body[k]], j).id, last[m]);
    } else {
      assert last[j] == ItemAt(b, j).id && last[m] == ItemAt(b, m).id;
      PrecedesAt(last, j, m);
      PrecedesLonger(before, last, [], last[j], last[m]);
      assert before + last + [] == before + last;
    }
  }

  /** And nothing else is analysed. */
  lemma {:induction false} AnalysedIsItem(blocks: seq<Block>, body: seq<nat>, n: nat, x: nat) returns (k: nat, j: nat)
    requires InBounds(blocks, body) && 0 < n <= |body| && x in ItemIds(blocks, body, n)
    ensures 0 < k < n && j <= |blocks[body[k]].insts| && ItemAt(blocks[body[k]], j).id == x
  {
    var b := blocks[body[n - 1]];
    if x in ItemIds(blocks, body, n - 1) {
      k, j := AnalysedIsItem(blocks, body, n - 1, x);
    } else {
      var last := IdsOf(b.insts) + [b.branch.id];
      k := n - 1;
      j :| 0 <= j < |last| && last[j] == x;
    }
  }

  lemma SequenceGrows(ids: seq<nat>, names: seq<nat>, xs: seq<nat>, b: nat)
    requires GP.InSequence(ids, names)
    ensures GP.InSequence(ids + (xs + [b]), names + xs)
  {
    var all, more := ids + (xs + [b]), names + xs;
    forall s, t | 0 <= s < t < |more| ensures DG.Precedes(all, more[s], more[t]) {
      if t < |names| {
        PrecedesLonger([], ids, xs + [b], names[s], names[t]);
        assert [] + ids + (xs + [b]) == all;
      } else if s < |names| {
        PrecedesAcross(ids, xs + [b], names[s], xs[t - |names|]);
      } else {
        assert DG.Precedes(xs, xs[s - |names|], xs[t - |names|]);
        PrecedesLonger(ids, xs, [b], xs[s - |names|], xs[t - |names|]);
        assert ids + xs + [b] == all;
      }
    }
  }

  lemma {:induction false} BodyInSequence(blocks: seq<Block>, body: seq<nat>, k: nat)
    requires InBounds(blocks, body) && 0 < k <= |body|
    ensures GP.InSequence(ItemIds(blocks, body, k), IdsOf(BodyInsts(blocks, body, k)))
  {
    if k > 1 {
      hide GP.InSequence;
      BodyInSequence(blocks, body, k - 1);
      var b := blocks[body[k - 1]];
      SequenceGrows(ItemIds(blocks, body, k - 1), IdsOf(BodyInsts(blocks, body, k - 1)), IdsOf(b.insts), b.branch.id);
      assert IdsOf(BodyInsts(blocks, body, k)) == IdsOf(BodyInsts(blocks, body, k - 1)) + IdsOf(b.insts);
    }
  }

  function Names(code: Code): seq<nat> {
    IdsOf(code.stmts)
  }

  /** The statements are analysed in the order in which they run. */
  lemma StmtsInSequence(blocks: seq<Block>, body: seq<nat>, pre: nat)
    requires HasTail(blocks, body)
    ensures GP.InSequence(Analysed(blocks, body), Names(CodeOf(blocks, body, pre)))
  {
    hide ItemIds, BodyInsts, DG.Precedes;
    BodyInSequence(blocks, body, |body|);
    TailIsLast(blocks, body);
    var xs := BodyInsts(blocks, body, |body|);
    var names := Names(CodeOf(blocks, body, pre));
    assert forall s :: 0 <= s < |names| ==> names[s] == IdsOf(xs)[s];
  }

  // ---------- the groups as the erasing needs them ----------

  /** The facts know which of the instructions use which. */
  ghost predicate UsesKnown(blocks: seq<Block>, body: seq<nat>, facts: DG.Facts)
    requires InBounds(blocks, body)
  {
    forall k: nat, j: nat, l: nat, m: nat {:trigger Erasable(blocks, body, k, j), Erasable(blocks, body, l, m)} ::
      Erasable(blocks, body, k, j) && Erasable(blocks, body, l, m) && ItemUses(blocks, body, l, m, ItemAt(blocks[body[k]], j).id) ==>
      ItemAt(blocks[body[l]], m).id in facts.uses(ItemAt(blocks[body[k]], j).id)
  }

  /** What the analysis hands to the splitting: the groups, or their regrouping with the cuts chosen. */
  datatype LoopPlan = LoopPlan(dual: RP.Adjacency, prdg: seq<seq<nat>>, edges: RP.Adjacency, groups: seq<seq<nat>>, cut: Option<seq<nat>>)

  ghost predicate PlanFor(facts: DG.Facts, ids: seq<nat>, p: LoopPlan) {
    && GP.Planned(facts, ids, p.dual, p.prdg, p.edges, p.groups)
    && (forall x, y :: x in p.edges && y in p.edges[x] ==> x < |p.prdg| && y < |p.prdg|)
    && (forall k, i :: 0 <= k < |p.groups| && 0 <= i < |p.groups[k]| ==> p.groups[k][i] < |p.prdg|)
    && (p.cut.Some? ==> |p.groups| == |p.cut.value| + 3)
  }

  ghost predicate HasParts(p: LoopPlan) {
    && (forall k, i :: 0 <= k < |p.groups| && 0 <= i < |p.groups[k]| ==> p.groups[k][i] < |p.prdg|)
    && (p.cut.Some? ==> |p.groups| == |p.cut.value| + 3)
  }

  ghost function Sccs(p: LoopPlan): seq<seq<nat>>
    requires HasParts(p)
  {
    match p.cut
    case None => GP.Parts(p.prdg, p.groups)
    case Some(cut) => Regrouped(GP.Parts(p.prdg, p.groups), cut)
  }

  /** Where a group of the analysis ends up. */
  function Place(p: LoopPlan, k: nat): nat {
    match p.cut
    case None => k
    case Some(cut) => PlaceOf(cut, k)
  }

  lemma PlacesKeepOrder(p: LoopPlan, k: nat, l: nat)
    requires k <= l
    ensures Place(p, k) <= Place(p, l)
    ensures p.cut.Some? && |p.groups| == |p.cut.value| + 3 && k < |p.groups| - 2 <= l ==> Place(p, k) < Place(p, l)
  {
    match p.cut
    case None =>
    case Some(cut) => PlacesRise(cut, k, l);
  }

  /** Everything is exactly where Place says. */
  lemma InPlace(p: LoopPlan, t: nat, x: nat)
    requires HasParts(p)
    ensures |p.groups| >= 2 ==> |Sccs(p)| == Place(p, |p.groups| - 1) + 1 && Place(p, |p.groups| - 2) + 1 == |Sccs(p)| - 1
    ensures t < |Sccs(p)| && x in Sccs(p)[t] <==> exists k :: 0 <= k < |p.groups| && Place(p, k) == t && x in GP.Parts(p.prdg, p.groups)[k]
  {
    match p.cut
    case None =>
    case Some(cut) => InItsPlace(GP.Parts(p.prdg, p.groups), cut, t, x);
  }

  lemma LinkedHeld(dual: RP.Adjacency, prdg: seq<seq<nat>>, x: nat, y: nat, p: nat)
    requires RP.ConnectedComponents(dual, prdg) && y in RP.Next(dual, x) && p < |prdg| && x in prdg[p]
    ensures y in prdg[p]
  {
    assert RP.Whole(dual, prdg[p]);
    Digraph.ReachEdge(RP.AsGraph(dual), x, y);
  }

  lemma LinkedInGroup(dual: RP.Adjacency, prdg: seq<seq<nat>>, group: seq<nat>, x: nat, y: nat)
    requires RP.ConnectedComponents(dual, prdg) && y in RP.Next(dual, x)
    requires (forall i :: 0 <= i < |group| ==> group[i] < |prdg|) && x in GP.Flatten(prdg, group)
    ensures y in GP.Flatten(prdg, group)
  {
    hide *;
    var p := GP.GroupHoldsPartition(prdg, group, x);
    LinkedHeld(dual, prdg, x, y, p);
    GP.FlattenContent(prdg, group, y);
  }

  lemma PlanLinks(facts: DG.Facts, ids: seq<nat>, p: LoopPlan, x: nat, y: nat)
    requires PlanFor(facts, ids, p) && x in ids && y in ids && |ids| > 1 && y in facts.uses(x)
    ensures RP.ConnectedComponents(p.dual, p.prdg) && y in RP.Next(p.dual, x) && x in RP.Next(p.dual, y)
  {
    hide RP.ConnectedComponents, SG.Rounds, GP.Orders;
    assert GP.Linked(facts, ids, x, y) && GP.Linked(facts, ids, y, x);
  }

  /** An instruction and its users are in the same groups, whether or not these are exact. */
  lemma UsesTogether(facts: DG.Facts, ids: seq<nat>, p: LoopPlan, k: nat, x: nat, y: nat)
    requires PlanFor(facts, ids, p) && k < |p.groups| && x in ids && y in ids && |ids| > 1 && y in facts.uses(x)
    ensures x in GP.Flatten(p.prdg, p.groups[k]) <==> y in GP.Flatten(p.prdg, p.groups[k])
  {
    hide GP.Planned, GP.Flatten, RP.ConnectedComponents;
    PlanLinks(facts, ids, p, x, y);
    if x in GP.Flatten(p.prdg, p.groups[k]) { LinkedInGroup(p.dual, p.prdg, p.groups[k], x, y); }
    if y in GP.Flatten(p.prdg, p.groups[k]) { LinkedInGroup(p.dual, p.prdg, p.groups[k], y, x); }
  }

  lemma TogetherInScc(facts: DG.Facts, ids: seq<nat>, p: LoopPlan, t: nat, x: nat, y: nat)
    requires PlanFor(facts, ids, p) && HasParts(p) && t < |Sccs(p)| && x in ids && y in ids && |ids| > 1 && y in facts.uses(x)
    ensures x in Sccs(p)[t] <==> y in Sccs(p)[t]
  {
    InPlace(p, t, x);
    InPlace(p, t, y);
    hide PlanFor, GP.Flatten, Sccs, Place;
    forall k: nat | k < |p.groups| ensures x in GP.Parts(p.prdg, p.groups)[k] <==> y in GP.Parts(p.prdg, p.groups)[k] {
      UsesTogether(facts, ids, p, k, x, y);
    }
  }

  lemma AtLeastTwo(blocks: seq<Block>, body: seq<nat>)
    requires HasTail(blocks, body)
    ensures |Analysed(blocks, body)| > 1
  {
    var b := blocks[body[|body| - 1]];
    assert |IdsOf(b.insts) + [b.branch.id]| >= 2;
  }

  /** Every group that the splitting is given holds an instruction and its users together. */
  lemma PlannedGroupsClosed(blocks: seq<Block>, body: seq<nat>, facts: DG.Facts, p: LoopPlan, t: nat)
    requires HasTail(blocks, body) && UsesKnown(blocks, body, facts)
    requires PlanFor(facts, Analysed(blocks, body), p) && HasParts(p) && t < |Sccs(p)|
    ensures Closed(blocks, body, Sccs(p)[t], map[])
  {
    hide PlanFor, Sccs, HasParts, ItemAt, Analysed, Erasable, ItemUses;
    AtLeastTwo(blocks, body);
    forall k: nat, j: nat, l: nat, m: nat | Erasable(blocks, body, k, j) && Erasable(blocks, body, l, m)
      ensures Together(blocks, body, Sccs(p)[t], map[], k, j, l, m)
    {
      ErasableSize(blocks, body, k, j);
      ErasableSize(blocks, body, l, m);
      var x, y := ItemAt(blocks[body[k]], j).id, ItemAt(blocks[body[l]], m).id;
      if ItemUses(blocks, body, l, m, x) {
        ErasableListed(blocks, body, k, j);
        ErasableListed(blocks, body, l, m);
        TogetherInScc(facts, Analysed(blocks, body), p, t, x, y);
      }
    }
  }

  // ---------- the group of a statement ----------

  /** The group that holds x. */
  ghost function HomeOf(p: LoopPlan, x: nat): nat
    requires HasParts(p)
  {
    if exists k: nat :: k < |p.groups| && x in GP.Parts(p.prdg, p.groups)[k] then
      var k: nat :| k < |p.groups| && x in GP.Parts(p.prdg, p.groups)[k]; k
    else 0
  }

  /** Every analysed instruction is in some group, and in only one where the groups are exact. */
  lemma HomeIsHome(facts: DG.Facts, ids: seq<nat>, p: LoopPlan, x: nat)
    requires PlanFor(facts, ids, p) && HasParts(p) && x in ids
    ensures HomeOf(p, x) < |p.groups| && x in GP.Parts(p.prdg, p.groups)[HomeOf(p, x)]
    ensures SG.Exact(p.edges, |p.prdg|, p.groups) ==>
              forall k: nat :: k < |p.groups| ==> (x in GP.Parts(p.prdg, p.groups)[k] <==> k == HomeOf(p, x))
  {
    hide GP.Flatten, GP.Orders, GP.Linked, SG.Rounds, HomeOf;
    assert x in p.dual && RP.Holds(p.prdg, x);
    var q: nat :| q < |p.prdg| && x in p.prdg[q];
    assert q in SG.Union(p.groups);
    var k: nat :| k < |p.groups| && q in p.groups[k];
    GP.FlattenContent(p.prdg, p.groups[k], x);
    HomeExists(p, x, k);
    if SG.Exact(p.edges, |p.prdg|, p.groups) {
      forall l: nat | l < |p.groups| && x in GP.Parts(p.prdg, p.groups)[l] ensures l == k {
        GP.FlattenContent(p.prdg, p.groups[l], x);
        var r :| r in p.groups[l] && x in p.prdg[r];
        GP.HomeIsOnly(p.dual, p.prdg, x, q);
        GP.HomeIsOnly(p.dual, p.prdg, x, r);
        ExactOnce(p.edges, |p.prdg|, p.groups, k, l, q);
      }
    }
  }

  lemma ExactOnce(edges: RP.Adjacency, n: nat, groups: seq<seq<nat>>, k: nat, l: nat, q: nat)
    requires SG.Exact(edges, n, groups) && k < |groups| && l < |groups| && q in groups[k] && q in groups[l]
    ensures k == l
  {
  }

  lemma HomeExists(p: LoopPlan, x: nat, k: nat)
    requires HasParts(p) && k < |p.groups| && x in GP.Parts(p.prdg, p.groups)[k]
    ensures HomeOf(p, x) < |p.groups| && x in GP.Parts(p.prdg, p.groups)[HomeOf(p, x)]
  {
  }

  ghost function GroupFor(p: LoopPlan, code: Code): nat -> nat
    requires HasParts(p)
  {
    (s: nat) => if s < |code.stmts| then HomeOf(p, code.stmts[s].id) else 0
  }

  /** The group of a statement, where it ends up. */
  ghost function PlaceFor(p: LoopPlan, code: Code): nat -> nat
    requires HasParts(p)
  {
    (s: nat) => Place(p, GroupFor(p, code)(s))
  }

  /** No statement is in the last two groups, which get no loop. */
  ghost predicate LastTwoBare(code: Code, sccs: seq<seq<nat>>)
    requires |sccs| >= 2
  {
    forall s :: 0 <= s < |code.stmts| ==> code.stmts[s].id !in sccs[|sccs| - 2] && code.stmts[s].id !in sccs[|sccs| - 1]
  }

  lemma PlaceForIs(p: LoopPlan, code: Code, s: nat)
    requires HasParts(p) && s < |code.stmts|
    ensures PlaceFor(p, code)(s) == Place(p, HomeOf(p, code.stmts[s].id))
  {
    assert GroupFor(p, code)(s) == HomeOf(p, code.stmts[s].id);
  }

  lemma PlaceBeforeLast(p: LoopPlan, x: nat, k: nat)
    requires HasParts(p) && |p.groups| >= 2 && k < |p.groups| && x in GP.Parts(p.prdg, p.groups)[k]
    requires |Sccs(p)| >= 2 && x !in Sccs(p)[|Sccs(p)| - 2] && x !in Sccs(p)[|Sccs(p)| - 1]
    ensures Place(p, k) < |Sccs(p)| - 2
  {
    InPlace(p, Place(p, k), x);
  }

  lemma SccsSize(p: LoopPlan)
    requires HasParts(p)
    ensures |Sccs(p)| > 3 ==> |p.groups| > 3
  {
    if p.cut.Some? {
      InPlace(p, 0, 0);
      CutsAtMost(p.cut.value, |p.groups| - 1);
    }
  }

  lemma {:induction false} CutsAtMost(cut: seq<nat>, k: nat)
    ensures PlaceOf(cut, k) <= k
  {
    GroupAtMost(cut, if k <= |cut| then k else |cut|);
  }

  lemma {:induction false} GroupAtMost(cut: seq<nat>, k: nat)
    ensures GroupOf(cut, k) <= k
  {
    if k > 0 { GroupAtMost(cut, k - 1); }
  }

  /** Where the groups are exact and the last two hold no statement, each statement gets exactly one loop. */
  lemma StmtsInOneGroup(facts: DG.Facts, ids: seq<nat>, p: LoopPlan, code: Code)
    requires PlanFor(facts, ids, p) && HasParts(p) && |p.groups| >= 2 && |Sccs(p)| >= 2
    requires SG.Exact(p.edges, |p.prdg|, p.groups) && (forall s :: 0 <= s < |code.stmts| ==> code.stmts[s].id in ids)
    requires LastTwoBare(code, Sccs(p))
    ensures OneGroupEach(code, Sccs(p), |Sccs(p)| - 2, PlaceFor(p, code))
  {
    hide PlanFor, GP.Flatten, HomeOf, Sccs, SG.Exact, HasParts, Place;
    var sccs, group := Sccs(p), PlaceFor(p, code);
    forall s: nat | s < |code.stmts|
      ensures group(s) < |sccs| - 2 && forall t: nat :: t < |sccs| ==> (code.stmts[s].id in sccs[t] <==> group(s) == t)
    {
      var x := code.stmts[s].id;
      HomeIsHome(facts, ids, p, x);
      PlaceForIs(p, code, s);
      PlaceBeforeLast(p, x, HomeOf(p, x));
      forall t: nat | t < |sccs| ensures x in sccs[t] <==> group(s) == t {
        InPlace(p, t, x);
      }
    }
  }

  // ---------- safety ----------

  /** The analyses miss no conflict between memory accesses of any complete run of the loop. */
  ghost predicate AnalysesSound(m: Meaning, code: Code, st: State, facts: DG.Facts) {
    forall trips: nat :: RunsFor(m, code, st, trips) ==> GP.Sound(Trace(m, code, st), trips, Names(code), facts)
  }

  /** Regrouping keeps a grouping legal, whichever cuts win. */
  lemma RegroupingLegal(b: D.Body, trips: nat, group: nat -> nat, cut: seq<nat>, merged: nat -> nat)
    requires D.Legal(b, trips, group) && forall s: nat :: s < |b| ==> merged(s) == PlaceOf(cut, group(s))
    ensures D.Legal(b, trips, merged)
  {
    hide D.Depends, PlaceOf;
    forall s: nat, t: nat | s < |b| && t < |b| && D.Depends(b, trips, s, t) ensures merged(s) <= merged(t) {
      PlacesRise(cut, group(s), group(t));
    }
  }

  /** So the regrouped loops compute what the loop computes. */
  lemma RegroupingPreserves(b: D.Body, trips: nat, group: nat -> nat, cut: seq<nat>, merged: nat -> nat, st: D.Store)
    requires D.Legal(b, trips, group) && (forall s: nat :: s < |b| ==> merged(s) == PlaceOf(cut, group(s)))
    requires forall s: nat :: s < |b| ==> group(s) < |cut| + 3
    ensures var count := PlaceOf(cut, |cut| + 2) + 1;
            && D.Within(b, D.Original(|b|, trips)) && D.Within(b, D.Loops(|b|, trips, merged, count))
            && D.Run(D.Ops(b, D.Original(|b|, trips)), st) == D.Run(D.Ops(b, D.Loops(|b|, trips, merged, count)), st)
  {
    hide *;
    RegroupingLegal(b, trips, group, cut, merged);
    forall s: nat | s < |b| ensures merged(s) < PlaceOf(cut, |cut| + 2) + 1 {
      PlacesRise(cut, group(s), |cut| + 2);
    }
    D.DistributionPreserves(b, trips, merged, PlaceOf(cut, |cut| + 2) + 1, st);
  }

  lemma GroupsAssigned(facts: DG.Facts, ids: seq<nat>, p: LoopPlan, code: Code)
    requires PlanFor(facts, ids, p) && HasParts(p) && GP.InSequence(ids, Names(code))
    ensures GP.Assigns(Names(code), p.prdg, p.groups, GroupFor(p, code))
  {
    hide PlanFor, GP.Flatten, HomeOf;
    forall s: nat | s < |Names(code)|
      ensures GroupFor(p, code)(s) < |p.groups| && Names(code)[s] in GP.Flatten(p.prdg, p.groups[GroupFor(p, code)(s)])
    {
      HomeIsHome(facts, ids, p, Names(code)[s]);
    }
  }

  /** The plan is safe for every run, if the partitions are listed in dependence order. */
  lemma PlanIsSafe(m: Meaning, code: Code, st: State, facts: DG.Facts, ids: seq<nat>, p: LoopPlan)
    requires PlanFor(facts, ids, p) && HasParts(p) && DG.Distinct(ids) && GP.InSequence(ids, Names(code))
    requires SG.InputOrdered(p.edges) && AnalysesSound(m, code, st, facts)
    ensures MemorySafe(m, code, st, PlaceFor(p, code))
  {
    forall trips: nat | RunsFor(m, code, st, trips) ensures D.Legal(Trace(m, code, st), trips, PlaceFor(p, code)) {
      assert GP.Sound(Trace(m, code, st), trips, Names(code), facts);
      PlanIsLegal(Trace(m, code, st), trips, code, facts, ids, p);
    }
  }

  lemma PlanIsLegal(b: D.Body, trips: nat, code: Code, facts: DG.Facts, ids: seq<nat>, p: LoopPlan)
    requires PlanFor(facts, ids, p) && HasParts(p) && DG.Distinct(ids) && GP.InSequence(ids, Names(code)) && |b| == |code.stmts|
    requires SG.InputOrdered(p.edges) && GP.Sound(b, trips, Names(code), facts)
    ensures D.Legal(b, trips, PlaceFor(p, code))
  {
    hide *;
    GroupsAssigned(facts, ids, p, code);
    PlanParts(facts, ids, p);
    assert |Names(code)| == |code.stmts| by { NamesSize(code); }
    GP.PlannedGroupsLegal(b, trips, facts, ids, Names(code), p.dual, p.prdg, p.edges, p.groups, GroupFor(p, code));
    forall s: nat, t: nat | s < |b| && t < |b| && D.Depends(b, trips, s, t) ensures PlaceFor(p, code)(s) <= PlaceFor(p, code)(t) {
      LegalAt(b, trips, GroupFor(p, code), s, t);
      PlacesKeepOrder(p, GroupFor(p, code)(s), GroupFor(p, code)(t));
      PlaceForGroup(p, code, s);
      PlaceForGroup(p, code, t);
    }
    LegalIf(b, trips, PlaceFor(p, code));
  }

  lemma PlanParts(facts: DG.Facts, ids: seq<nat>, p: LoopPlan)
    requires PlanFor(facts, ids, p)
    ensures GP.Planned(facts, ids, p.dual, p.prdg, p.edges, p.groups)
    ensures forall x, y :: x in p.edges && y in p.edges[x] ==> x < |p.prdg| && y < |p.prdg|
  {
  }

  lemma NamesSize(code: Code)
    ensures |Names(code)| == |code.stmts|
  {
  }

  lemma PlaceForGroup(p: LoopPlan, code: Code, s: nat)
    requires HasParts(p)
    ensures PlaceFor(p, code)(s) == Place(p, GroupFor(p, code)(s))
  {
  }

  lemma LegalAt(b: D.Body, trips: nat, group: nat -> nat, s: nat, t: nat)
    requires D.Legal(b, trips, group) && s < |b| && t < |b| && D.Depends(b, trips, s, t)
    ensures group(s) <= group(t)
  {
  }

  lemma LegalIf(b: D.Body, trips: nat, group: nat -> nat)
    requires forall s: nat, t: nat :: s < |b| && t < |b| && D.Depends(b, trips, s, t) ==> group(s) <= group(t)
    ensures D.Legal(b, trips, group)
  {
  }

  // ---------- the pass ----------

  lemma StmtsAnalysed(blocks: seq<Block>, body: seq<nat>, pre: nat)
    requires HasTail(blocks, body)
    ensures forall s :: 0 <= s < |CodeOf(blocks, body, pre).stmts| ==> CodeOf(blocks, body, pre).stmts[s].id in Analysed(blocks, body)
  {
    hide CodeOf, Analysed;
    forall s: nat | s < |CodeOf(blocks, body, pre).stmts| ensures CodeOf(blocks, body, pre).stmts[s].id in Analysed(blocks, body) {
      var k, j := StmtItem(blocks, body, pre, s);
      ErasableListed(blocks, body, k, j);
    }
  }

  /** What the plan has to meet: the loop is split, the partitions are listed in dependence order, and the last two
      groups, which get no loop, hold no statement. */
  ghost predicate PlanFits(orig: seq<Block>, body: seq<nat>, pre: nat, p: LoopPlan)
    requires HasTail(orig, body) && HasParts(p)
  {
    |Sccs(p)| > 3 && SG.InputOrdered(p.edges) && LastTwoBare(CodeOf(orig, body, pre), Sccs(p))
  }

  lemma PlanExact(facts: DG.Facts, ids: seq<nat>, p: LoopPlan)
    requires PlanFor(facts, ids, p) && SG.InputOrdered(p.edges)
    ensures SG.Exact(p.edges, |p.prdg|, p.groups)
  {
    hide SG.InputOrdered, SG.Exact, SG.OutputOrdered, RP.ConnectedComponents, GP.Orders, GP.Linked;
    SG.ExactIffInputOrdered(p.edges, |p.prdg|, p.groups);
  }

  /** A single-assignment loop whose header and last instruction keep away from memory, and a state in which the
      analyses miss no conflict. */
  ghost predicate Proper(m: Meaning, orig: seq<Block>, body: seq<nat>, pre: nat, st: State, facts: DG.Facts)
    requires HasTail(orig, body)
  {
    && Ssa(CodeOf(orig, body, pre), DefinedIn(orig, body)) && PureFrame(m, CodeOf(orig, body, pre))
    && AnalysesSound(m, CodeOf(orig, body, pre), st, facts)
  }

  /** The whole way, for one meaning and one state: the split function computes what the function computed exactly
      where no block has lost its branch, or the loop does not complete an iteration. */
  lemma PlannedRunsSame(m: Meaning, orig: seq<Block>, limit: nat, body: seq<nat>, pre: nat, exit: nat,
                        now: seq<Block>, loops: seq<seq<nat>>, shifts: seq<nat>, facts: DG.Facts, p: LoopPlan, st: State)
    requires HasTail(orig, body) && HasParts(p) && PlanFor(facts, Analysed(orig, body), p) && PlanFits(orig, body, pre, p)
    requires IsSplit(orig, limit, body, pre, exit, now, loops, shifts, Sccs(p)) && |loops| == |Sccs(p)| - 2
    requires DG.Distinct(Analysed(orig, body)) && Proper(m, orig, body, pre, st, facts)
    ensures SameRuns(m, orig, limit, body, pre, exit, now, st)
            <==> EndsKept(orig, body, Sccs(p), |Sccs(p)| - 2) || !Iterates(m, CodeOf(orig, body, pre), st)
  {
    hide *;
    FitsParts(orig, body, pre, p);
    var ids, code := Analysed(orig, body), CodeOf(orig, body, pre);
    ProperParts(m, orig, body, pre, st, facts);
    SccsSize(p);
    StmtsAnalysed(orig, body, pre);
    StmtsInSequence(orig, body, pre);
    PlanExact(facts, ids, p);
    StmtsInOneGroup(facts, ids, p, code);
    PlanIsSafe(m, code, st, facts, ids, p);
    RunsIf(m, orig, limit, body, pre, exit, now, loops, shifts, Sccs(p), PlaceFor(p, code));
    SplitComputesLoopIff(m, orig, limit, body, pre, exit, now, loops, shifts, Sccs(p), PlaceFor(p, code), st);
    SplitEnds(orig, limit, body, pre, exit, now, loops, shifts, Sccs(p));
  }

  lemma FitsParts(orig: seq<Block>, body: seq<nat>, pre: nat, p: LoopPlan)
    requires HasTail(orig, body) && HasParts(p) && PlanFits(orig, body, pre, p)
    ensures |body| > 1 && InBounds(orig, body) && |Sccs(p)| > 3 && SG.InputOrdered(p.edges) && LastTwoBare(CodeOf(orig, body, pre), Sccs(p))
  {
  }

  lemma ProperParts(m: Meaning, orig: seq<Block>, body: seq<nat>, pre: nat, st: State, facts: DG.Facts)
    requires HasTail(orig, body) && Proper(m, orig, body, pre, st, facts)
    ensures Ssa(CodeOf(orig, body, pre), DefinedIn(orig, body)) && PureFrame(m, CodeOf(orig, body, pre))
    ensures AnalysesSound(m, CodeOf(orig, body, pre), st, facts)
  {
  }

  lemma RunsIf(m: Meaning, orig: seq<Block>, limit: nat, body: seq<nat>, pre: nat, exit: nat,
               now: seq<Block>, loops: seq<seq<nat>>, shifts: seq<nat>, sccs: seq<seq<nat>>, group: nat -> nat)
    requires IsSplit(orig, limit, body, pre, exit, now, loops, shifts, sccs) && HasTail(orig, body)
    requires Ssa(CodeOf(orig, body, pre), DefinedIn(orig, body)) && PureFrame(m, CodeOf(orig, body, pre))
    requires |loops| <= |sccs| && OneGroupEach(CodeOf(orig, body, pre), sccs, |loops|, group)
    ensures Runs(m, orig, limit, body, pre, exit, now, loops, shifts, sccs, group)
  {
    hide IsSplit, Ssa, PureFrame, OneGroupEach, CodeOf;
  }

  lemma SplitEnds(orig: seq<Block>, limit: nat, body: seq<nat>, pre: nat, exit: nat,
                  now: seq<Block>, loops: seq<seq<nat>>, shifts: seq<nat>, sccs: seq<seq<nat>>)
    requires IsSplit(orig, limit, body, pre, exit, now, loops, shifts, sccs)
    ensures |loops| <= |sccs| && InBounds(orig, body) && (EndedUpTo(now, loops, |loops|) <==> EndsKept(orig, body, sccs, |loops|))
  {
    hide SplitInto, RowKept, Closed, WellFormed, Private, Shaped, Entered, Started, EndsKept, AllEnded;
    EndsKeptIff(orig, limit, body, exit, now, loops, shifts, sccs);
  }

  /** The analyses and the splitting of one loop: groups are planned from the reported facts, regrouped in the best
      way if the heuristics are on and there are groups to choose from, and the loop is split into one loop for each
      group but the last two, if those are at least two. If the plan fits, then for every
      meaning in which header and last instruction keep away from memory and every state for which the analyses are
      sound, the function computes what it computed exactly where no block has lost its branch or the loop does not
      complete an iteration; and if the header named the exit first, exactly where it never came to the exit. */
  method FissionLoop(f: Function, body: seq<nat>, facts: DG.Facts, heuristics: bool, scoring: seq<seq<int>> -> nat -> real, ghost pre: nat, ghost exit: nat)
    returns (ghost p: LoopPlan, ghost loops: seq<seq<nat>>, ghost shifts: seq<nat>)
    requires Chain(f.blocks, body, pre, exit) && WellFormed(f.blocks, f.limit) && Private(f.blocks, body)
    requires DG.Distinct(Analysed(f.blocks, body)) && DG.Symmetric(facts) && UsesKnown(f.blocks, body, facts)
    modifies f
    ensures HasTail(old(f.blocks), body) && HasParts(p) && PlanFor(facts, Analysed(old(f.blocks), body), p)
    ensures p.cut.Some? <==> heuristics && |p.groups| >= 3
    ensures p.cut.Some? ==> BestCut(GP.Parts(p.prdg, p.groups), p.cut.value, scoring)
    ensures GP.Listing(p.prdg, p.groups, GP.Parts(p.prdg, p.groups))
    ensures Flat(Sccs(p)) == Flat(GP.Parts(p.prdg, p.groups))
    ensures SG.Exact(p.edges, |p.prdg|, p.groups) ==> GP.SharedOut(Analysed(old(f.blocks), body), Sccs(p))
    ensures |Sccs(p)| <= 3 ==> f.blocks == old(f.blocks)
    ensures |Sccs(p)| > 3 ==> IsDivided(old(f.blocks), old(f.limit), body, pre, exit, f.blocks, loops, shifts, Sccs(p))
    ensures PlanFits(old(f.blocks), body, pre, p) && BodyFirst(old(f.blocks), body) ==>
              forall m, st :: Proper(m, old(f.blocks), body, pre, st, facts) ==>
                (SameRuns(m, old(f.blocks), old(f.limit), body, pre, exit, f.blocks, st)
                 <==> EndsKept(old(f.blocks), body, Sccs(p), |Sccs(p)| - 2) || !Iterates(m, CodeOf(old(f.blocks), body, pre), st))
    ensures |Sccs(p)| > 3 && !BodyFirst(old(f.blocks), body) ==>
              forall m, st ::
                SameRuns(m, old(f.blocks), old(f.limit), body, pre, exit, f.blocks, st)
                <==> forall d :: !Reaches(m, old(f.blocks), Config(pre, body[0], st), exit, d)
  {
    hide *;
    ghost var orig, limit := f.blocks, f.limit;
    ChainParts(f.blocks, body, pre, exit);
    PrivateSize(f.blocks, body);
    TailFromPrivate(orig, body);
    var ids := Analysed(f.blocks, body);
    var prdg, edges, groups, sccs;
    ghost var dual;
    prdg, edges, groups, sccs, dual := GP.PlanGroups(facts, ids);
    ListsBelow(prdg, groups, sccs);
    p := LoopPlan(dual, prdg, edges, groups, None);
    if heuristics && |sccs| >= 3 {
      var r, plans, best := CheckPartition(sccs, scoring);
      ChosenBest(sccs, plans, best, scoring);
      sccs := r;
      p := LoopPlan(dual, prdg, edges, groups, Some(best));
    }
    PlanMade(facts, ids, p, sccs);
    SccsFlat(p);
    if SG.Exact(edges, |prdg|, groups) { SccsShared(ids, p); }
    forall t: nat | t < |sccs| ensures Closed(orig, body, sccs[t], map[]) {
      PlannedGroupsClosed(orig, body, facts, p, t);
    }
    loops, shifts := SplitLoop(f, body, sccs, pre, exit);
    if |sccs| > 3 { DividedIf(orig, limit, body, pre, exit, f.blocks, loops, shifts, sccs); }
    if PlanFits(orig, body, pre, p) && BodyFirst(orig, body) {
      FitsParts(orig, body, pre, p);
      SplitFits(orig, limit, body, pre, exit, f.blocks, loops, shifts, sccs);
      forall m, st | Proper(m, orig, body, pre, st, facts)
        ensures SameRuns(m, orig, limit, body, pre, exit, f.blocks, st) <==> EndsKept(orig, body, Sccs(p), |Sccs(p)| - 2) || !Iterates(m, CodeOf(orig, body, pre), st)
      {
        PlannedRunsSame(m, orig, limit, body, pre, exit, f.blocks, loops, shifts, facts, p, st);
      }
    }
    if |sccs| > 3 && !BodyFirst(orig, body) {
      forall m, st
        ensures SameRuns(m, orig, limit, body, pre, exit, f.blocks, st) <==> forall d :: !Reaches(m, orig, Config(pre, body[0], st), exit, d)
      {
        CaughtComputesIff(m, orig, limit, body, pre, exit, f.blocks, st);
      }
    }
  }

  /** What the splitting has done: one loop for each list but the last two, the first the loop itself, each with
      what its list holds; one after the other exactly if the header named the body first and all ends are kept. */
  ghost predicate IsDivided(orig: seq<Block>, limit: nat, body: seq<nat>, pre: nat, exit: nat,
                            now: seq<Block>, loops: seq<seq<nat>>, shifts: seq<nat>, sccs: seq<seq<nat>>) {
    && |body| > 1 && InBounds(orig, body) && |loops| + 2 == |sccs|
    && SplitInto(orig, limit, body, now, loops, shifts, sccs)
    && (BodyFirst(orig, body) ==> RowKept(orig, body, now, loops, pre, exit))
    && (InOrder(now, loops, pre, exit) <==> BodyFirst(orig, body) && EndsKept(orig, body, sccs, |loops|))
  }

  lemma DividedIf(orig: seq<Block>, limit: nat, body: seq<nat>, pre: nat, exit: nat,
                  now: seq<Block>, loops: seq<seq<nat>>, shifts: seq<nat>, sccs: seq<seq<nat>>)
    requires |body| > 1 && InBounds(orig, body) && |loops| == |sccs| - 2
    requires SplitInto(orig, limit, body, now, loops, shifts, sccs)
    requires BodyFirst(orig, body) ==> RowKept(orig, body, now, loops, pre, exit)
    requires InOrder(now, loops, pre, exit) <==> BodyFirst(orig, body) && EndsKept(orig, body, sccs, |loops|)
    ensures IsDivided(orig, limit, body, pre, exit, now, loops, shifts, sccs)
  {
    hide SplitInto, RowKept, InOrder, BodyFirst, EndsKept;
  }

  lemma ChosenBest(parts: seq<seq<nat>>, plans: seq<seq<int>>, cut: seq<nat>, scoring: seq<seq<int>> -> nat -> real)
    requires |parts| >= 3 && |cut| == |parts| - 3 && Binary(cut) && |plans| == Pow2(|parts| - 2 - 1) && Plans(Sizes(parts[..|parts| - 2]), plans)
    requires Regrouping.Value(cut) < |plans| && (forall idx: nat :: idx < |plans| ==> scoring(plans)(Regrouping.Value(cut)) <= scoring(plans)(idx))
    requires forall idx: nat :: idx < Regrouping.Value(cut) ==> scoring(plans)(Regrouping.Value(cut)) < scoring(plans)(idx)
    ensures BestCut(parts, cut, scoring)
  {
    hide BestCut, Plans, Regrouping.Value, Pow2;
    ChosenIsBest(parts, cut, plans, scoring);
  }

  lemma TailFromPrivate(blocks: seq<Block>, body: seq<nat>)
    requires InBounds(blocks, body) && Private(blocks, body)
    ensures HasTail(blocks, body)
  {
  }

  lemma ListsBelow(prdg: seq<seq<nat>>, groups: seq<seq<nat>>, lists: seq<seq<nat>>)
    requires GP.Listing(prdg, groups, lists)
    ensures |lists| == |groups| && forall k, i :: 0 <= k < |groups| && 0 <= i < |groups[k]| ==> groups[k][i] < |prdg|
  {
    GP.ListingSize(prdg, groups, lists);
  }

  lemma SccsFlat(p: LoopPlan)
    requires HasParts(p)
    ensures Flat(Sccs(p)) == Flat(GP.Parts(p.prdg, p.groups))
  {
    if p.cut.Some? { FlatOfRegrouped(GP.Parts(p.prdg, p.groups), p.cut.value); }
  }

  /** Regrouped or not, the lists share the instructions out. */
  lemma SccsShared(ids: seq<nat>, p: LoopPlan)
    requires DG.Distinct(ids) && HasParts(p) && GP.SharedOut(ids, GP.Parts(p.prdg, p.groups))
    ensures GP.SharedOut(ids, Sccs(p))
  {
    hide GP.SharedOut;
    if p.cut.Some? { GP.RegroupedShares(ids, GP.Parts(p.prdg, p.groups), p.cut.value); }
  }

  lemma PlanMade(facts: DG.Facts, ids: seq<nat>, p: LoopPlan, sccs: seq<seq<nat>>)
    requires GP.Planned(facts, ids, p.dual, p.prdg, p.edges, p.groups)
    requires forall x, y :: x in p.edges && y in p.edges[x] ==> x < |p.prdg| && y < |p.prdg|
    requires forall k, i :: 0 <= k < |p.groups| && 0 <= i < |p.groups[k]| ==> p.groups[k][i] < |p.prdg|
    requires p.cut.Some? ==> |p.groups| == |p.cut.value| + 3
    requires sccs == if p.cut.Some? then Regrouped(GP.Parts(p.prdg, p.groups), p.cut.value) else GP.Parts(p.prdg, p.groups)
    ensures PlanFor(facts, ids, p) && HasParts(p) && sccs == Sccs(p)
  {
  }

  lemma SplitFits(orig: seq<Block>, limit: nat, body: seq<nat>, pre: nat, exit: nat,
                  now: seq<Block>, loops: seq<seq<nat>>, shifts: seq<nat>, sccs: seq<seq<nat>>)
    requires Chain(orig, body, pre, exit) && WellFormed(orig, limit) && Private(orig, body)
    requires |body| > 1 && InBounds(orig, body) && BodyFirst(orig, body)
    requires SplitInto(orig, limit, body, now, loops, shifts, sccs) && RowKept(orig, body, now, loops, pre, exit)
    requires |loops| <= |sccs| && forall t: nat :: t < |sccs| ==> Closed(orig, body, sccs[t], map[])
    ensures IsSplit(orig, limit, body, pre, exit, now, loops, shifts, sccs)
  {
    hide Chain, WellFormed, Private, BodyFirst, SplitInto, RowKept, Closed;
  }
}
