/** The splitting of one loop from beginning to end, and when it leaves its loops in order. */
module SplitLoops {
  import opened LoopSplit
  import opened SplitOrder
  import opened LoopCopies
  import opened SplitPass
  import opened LoopErasure
  import opened SplitRun
  import opened SplitResult

  /** A copy of the loop, thinned out for one group. */
  ghost predicate GroupCopy(orig: seq<Block>, body: seq<nat>, now: seq<Block>, copy: seq<nat>, scc: seq<nat>, shift: nat) {
    && InBounds(orig, body) && |copy| == |body| && InBounds(now, copy) && Different(copy)
    && forall k: nat {:trigger ForGroup(orig, body, scc, k)} :: k < |body| ==>
         CopyBlock(now[copy[k]], ForGroup(orig, body, scc, k), DefinedIn(orig, body), shift)
  }

  /** Loops that are copies of the one loop there was, the t-th for group t. */
  ghost predicate SplitInto(orig: seq<Block>, limit: nat, body: seq<nat>, now: seq<Block>, loops: seq<seq<nat>>, shifts: seq<nat>, sccs: seq<seq<nat>>) {
    && |body| > 1 && InBounds(orig, body) && 0 < |loops| == |shifts| <= |sccs|
    && loops[0] == body && shifts[0] == 0 && (forall t :: 0 < t < |loops| ==> shifts[t] >= limit)
    && Headed(loops) && AllApart(loops)
    && forall t: nat {:trigger loops[t]} :: t < |loops| ==> GroupCopy(orig, body, now, loops[t], sccs[t], shifts[t])
  }

  /** The header leads into the body and out; every block behind it that still has an end leads to the next. */
  ghost predicate OpenLoop(now: seq<Block>, loop: seq<nat>, out: nat) {
    && |loop| > 1 && InBounds(now, loop) && out < |now| && out !in loop
    && now[loop[0]].ended && now[loop[0]].succs == [loop[1], out]
    && forall k: nat {:trigger StepsOn(now, loop, k)} :: 0 < k < |loop| ==> StepsOn(now, loop, k)
  }

  ghost predicate StepsOn(now: seq<Block>, loop: seq<nat>, k: nat)
    requires InBounds(now, loop) && k < |loop|
  {
    now[loop[k]].ended ==> now[loop[k]].succs == [if k + 1 < |loop| then loop[k + 1] else loop[0]]
  }

  ghost predicate HeaderEntered(now: seq<Block>, loop: seq<nat>, entry: nat) {
    && |loop| > 0 && entry != loop[|loop| - 1]
    && forall a: nat {:trigger Pred(now, a, loop[0])} :: Pred(now, a, loop[0]) <==> a == entry || a == loop[|loop| - 1]
  }

  ghost predicate OpenAt(now: seq<Block>, loops: seq<seq<nat>>, pre: nat, exit: nat, t: nat)
    requires Headed(loops) && t < |loops|
  {
    OpenLoop(now, loops[t], ExitOf(loops, exit, t)) && HeaderEntered(now, loops[t], EntryOf(loops, pre, t)) && exit !in loops[t]
  }

  /** Phi nodes that match, loops that all start alike and lead one to the next if they do not run, and everything
      else as it was. */
  ghost predicate RowKept(orig: seq<Block>, body: seq<nat>, now: seq<Block>, loops: seq<seq<nat>>, pre: nat, exit: nat) {
    && |loops| > 0 && PhisMatch(now) && AllRestart(now, loops, pre)
    && Around(orig, body, exit, now, LastHeader(loops))
    && forall t: nat {:trigger OpenAt(now, loops, pre, exit, t)} :: t < |loops| ==> OpenAt(now, loops, pre, exit, t)
  }

  /** What the erasing is given. */
  ghost predicate Prepared(orig: seq<Block>, limit: nat, body: seq<nat>, split: seq<Block>, loops: seq<seq<nat>>, sccs: seq<seq<nat>>,
                         backs: seq<map<nat, nat>>, shifts: seq<nat>) {
    && |body| > 1 && InBounds(orig, body) && 0 < |loops| == |shifts| == |backs| <= |sccs| && Headed(loops) && AllApart(loops)
    && forall t: nat {:trigger loops[t]} :: t < |loops| ==> ACopy(orig, limit, body, split, loops[t], backs[t], shifts[t])
  }

  lemma CopySize(orig: seq<Block>, limit: nat, body: seq<nat>, split: seq<Block>, loops: seq<seq<nat>>, sccs: seq<seq<nat>>,
                 backs: seq<map<nat, nat>>, shifts: seq<nat>, t: nat)
    requires Prepared(orig, limit, body, split, loops, sccs, backs, shifts) && t < |loops|
    ensures |loops[t]| == |body| && InBounds(split, loops[t]) && Different(loops[t]) && Private(split, loops[t])
    ensures ACopy(orig, limit, body, split, loops[t], backs[t], shifts[t])
  {
    assert ACopy(orig, limit, body, split, loops[t], backs[t], shifts[t]);
  }

  function Erased(split: seq<Block>, loops: seq<seq<nat>>, sccs: seq<seq<nat>>, backs: seq<map<nat, nat>>): (r: seq<Block>)
    requires Headed(loops) && |loops| <= |backs| && |loops| <= |sccs|
    ensures |r| == |split|
  {
    ErasedUpTo(split, loops, sccs, backs, |loops|)
  }

  lemma ErasedGroup(orig: seq<Block>, limit: nat, body: seq<nat>, split: seq<Block>, loops: seq<seq<nat>>, sccs: seq<seq<nat>>,
                    backs: seq<map<nat, nat>>, shifts: seq<nat>, t: nat)
    requires Prepared(orig, limit, body, split, loops, sccs, backs, shifts) && t < |loops|
    ensures GroupCopy(orig, body, Erased(split, loops, sccs, backs), loops[t], sccs[t], shifts[t])
  {
    hide ACopy, AllApart, ErasedUpTo, CopyBlock, ForGroup, DefinedIn, Private, Different;
    CopySize(orig, limit, body, split, loops, sccs, backs, shifts, t);
    forall k: nat | k < |body|
      ensures CopyBlock(Erased(split, loops, sccs, backs)[loops[t][k]], ForGroup(orig, body, sccs[t], k), DefinedIn(orig, body), shifts[t])
    {
      ErasedCopy(orig, limit, body, split, loops, sccs, backs, shifts[t], t, k);
    }
  }

  /** The header of each copy is as before, and so is every block outside; a block between header and latch
      keeps its end exactly if its branch is in the group. */
  lemma ErasedEnds(orig: seq<Block>, limit: nat, body: seq<nat>, split: seq<Block>, loops: seq<seq<nat>>, sccs: seq<seq<nat>>,
                   backs: seq<map<nat, nat>>, shifts: seq<nat>, t: nat, k: nat)
    requires Prepared(orig, limit, body, split, loops, sccs, backs, shifts) && t < |loops| && k < |body|
    ensures |loops[t]| == |body| && loops[t][k] < |split|
    ensures var now, was := Erased(split, loops, sccs, backs)[loops[t][k]], split[loops[t][k]];
            && (k == 0 ==> now == was)
            && if k == 0 || k == |body| - 1 || orig[body[k]].branch.id in sccs[t] then now.succs == was.succs && now.ended == was.ended
               else now.succs == [] && !now.ended
  {
    hide AllApart, ErasedUpTo, DefinedIn, Private, Traces, Thin, MovedArgs, Kept, Undo, Origin;
    CopySize(orig, limit, body, split, loops, sccs, backs, shifts, t);
    CopyAt(orig, body, split, loops[t], shifts[t], k);
    ErasedIn(split, loops, sccs, backs, |loops|, t, k);
    ThinParts(split[loops[t][k]], sccs[t], backs[t], k == |body| - 1);
    DefinedHere(orig, body, k);
    TraceBack(DefinedIn(orig, body), limit, shifts[t], backs[t], orig[body[k]].branch.id);
  }

  ghost predicate BlockOf(loops: seq<seq<nat>>, c: nat, t: nat, k: nat) {
    t < |loops| && k < |loops[t]| && loops[t][k] == c
  }

  /** Either nothing happened to the way out of a block, or it is the block of some copy, between header and latch. */
  lemma WayOut(orig: seq<Block>, limit: nat, body: seq<nat>, split: seq<Block>, loops: seq<seq<nat>>, sccs: seq<seq<nat>>,
               backs: seq<map<nat, nat>>, shifts: seq<nat>, c: nat)
    requires Prepared(orig, limit, body, split, loops, sccs, backs, shifts) && c < |split|
    ensures var now, was := Erased(split, loops, sccs, backs)[c], split[c];
            || (now.succs == was.succs && now.ended == was.ended)
            || (now.succs == [] && exists t: nat, k: nat :: BlockOf(loops, c, t, k) && 0 < k < |body| - 1 && orig[body[k]].branch.id !in sccs[t])
  {
    hide ErasedUpTo, ACopy, AllApart;
    if forall t :: 0 <= t < |loops| ==> c !in loops[t] {
      ErasedElsewhere(split, loops, sccs, backs, |loops|, c);
    } else {
      var t: nat :| t < |loops| && c in loops[t];
      var k: nat :| k < |loops[t]| && loops[t][k] == c;
      CopySize(orig, limit, body, split, loops, sccs, backs, shifts, t);
      ErasedEnds(orig, limit, body, split, loops, sccs, backs, shifts, t, k);
      assert BlockOf(loops, c, t, k);
    }
  }

  lemma AllThinned(split: seq<Block>, loops: seq<seq<nat>>, sccs: seq<seq<nat>>, backs: seq<map<nat, nat>>)
    requires Headed(loops) && |loops| <= |backs| && |loops| <= |sccs|
    ensures Thinned(split, Erased(split, loops, sccs, backs))
  {
    hide ErasedUpTo, ThinnedBlock;
    forall c | 0 <= c < |split| ensures ThinnedBlock(split[c], Erased(split, loops, sccs, backs)[c]) {
      ErasedIsThinned(split, loops, sccs, backs, |loops|, c);
    }
  }

  lemma EndsKeptAt(orig: seq<Block>, body: seq<nat>, sccs: seq<seq<nat>>, count: nat, k: nat, t: nat)
    requires InBounds(orig, body) && count <= |sccs| && EndsKept(orig, body, sccs, count) && 0 < k < |body| - 1 && t < count
    ensures orig[body[k]].branch.id in sccs[t]
  {
  }

  /** Where the branches are in all groups, all blocks keep their ways out. */
  lemma BranchesStay(orig: seq<Block>, limit: nat, body: seq<nat>, split: seq<Block>, loops: seq<seq<nat>>, sccs: seq<seq<nat>>,
                     backs: seq<map<nat, nat>>, shifts: seq<nat>)
    requires Prepared(orig, limit, body, split, loops, sccs, backs, shifts) && EndsKept(orig, body, sccs, |loops|)
    ensures SameBranches(split, Erased(split, loops, sccs, backs))
  {
    hide ErasedUpTo, Prepared, EndsKept;
    BeforeSize(orig, limit, body, split, loops, sccs, backs, shifts);
    var now := Erased(split, loops, sccs, backs);
    forall c | 0 <= c < |now| ensures now[c].succs == split[c].succs && now[c].ended == split[c].ended {
      WayOut(orig, limit, body, split, loops, sccs, backs, shifts, c);
      if t: nat, k: nat :| BlockOf(loops, c, t, k) && 0 < k < |body| - 1 && orig[body[k]].branch.id !in sccs[t] {
        EndsKeptAt(orig, body, sccs, |loops|, k, t);
      }
    }
  }

  /** Otherwise some block of some copy is left without end. */
  lemma EndLost(orig: seq<Block>, limit: nat, body: seq<nat>, split: seq<Block>, loops: seq<seq<nat>>, sccs: seq<seq<nat>>,
                backs: seq<map<nat, nat>>, shifts: seq<nat>) returns (t: nat, k: nat)
    requires Prepared(orig, limit, body, split, loops, sccs, backs, shifts) && !EndsKept(orig, body, sccs, |loops|)
    ensures 0 < k < |body| - 1 && t < |loops| && |loops[t]| == |body| && loops[t][k] < |split|
    ensures !Erased(split, loops, sccs, backs)[loops[t][k]].ended
  {
    hide ErasedUpTo, ACopy, AllApart;
    k, t :| 0 < k < |body| - 1 && 0 <= t < |loops| && orig[body[k]].branch.id !in sccs[t];
    ErasedEnds(orig, limit, body, split, loops, sccs, backs, shifts, t, k);
  }

  lemma ChainEnded(blocks: seq<Block>, loops: seq<seq<nat>>, pre: nat, exit: nat, t: nat, k: nat)
    requires InOrder(blocks, loops, pre, exit) && t < |loops| && k < |loops[t]|
    ensures loops[t][k] < |blocks| && blocks[loops[t][k]].ended
    ensures Shaped(blocks, loops[t], ExitOf(loops, exit, t))
  {
    assert ChainAt(blocks, loops, pre, exit, t);
  }

  /** The copies stay one after the other exactly where the header named the body first and all branches are kept. */
  lemma ErasedOrderIff(orig: seq<Block>, limit: nat, body: seq<nat>, split: seq<Block>, loops: seq<seq<nat>>, sccs: seq<seq<nat>>,
                       backs: seq<map<nat, nat>>, shifts: seq<nat>, pre: nat, exit: nat)
    requires Prepared(orig, limit, body, split, loops, sccs, backs, shifts)
    requires if BodyFirst(orig, body) then InOrder(split, loops, pre, exit) else |loops| > 1 && Trapped(split, loops[1])
    ensures InOrder(Erased(split, loops, sccs, backs), loops, pre, exit) <==> BodyFirst(orig, body) && EndsKept(orig, body, sccs, |loops|)
  {
    hide ErasedUpTo, Prepared, EndsKept, InOrder, BodyFirst, Shaped, Trapped;
    BeforeSize(orig, limit, body, split, loops, sccs, backs, shifts);
    var now := Erased(split, loops, sccs, backs);
    if !BodyFirst(orig, body) {
      TrapHeader(split, loops[1]);
      ErasedEnds(orig, limit, body, split, loops, sccs, backs, shifts, 1, 0);
      if InOrder(now, loops, pre, exit) {
        ChainEnded(now, loops, pre, exit, 1, 0);
        NotTrapped(now, loops[1], ExitOf(loops, exit, 1));
      }
    } else if EndsKept(orig, body, sccs, |loops|) {
      BranchesStay(orig, limit, body, split, loops, sccs, backs, shifts);
      AllThinned(split, loops, sccs, backs);
      ThinnedOrder(split, now, loops, pre, exit);
    } else {
      var t, k := EndLost(orig, limit, body, split, loops, sccs, backs, shifts);
      if InOrder(now, loops, pre, exit) { ChainEnded(now, loops, pre, exit, t, k); }
    }
  }

  lemma BeforeSize(orig: seq<Block>, limit: nat, body: seq<nat>, split: seq<Block>, loops: seq<seq<nat>>, sccs: seq<seq<nat>>,
                   backs: seq<map<nat, nat>>, shifts: seq<nat>)
    requires Prepared(orig, limit, body, split, loops, sccs, backs, shifts)
    ensures |body| > 1 && InBounds(orig, body) && 0 < |loops| == |shifts| == |backs| <= |sccs| && Headed(loops) && AllApart(loops)
  {
  }

  lemma NotTrapped(blocks: seq<Block>, body: seq<nat>, exit: nat)
    requires Shaped(blocks, body, exit)
    ensures |body| > 1 && InBounds(blocks, body) && blocks[body[0]].succs != [body[1], body[1]]
  {
    assert body[1] in body;
  }

  lemma TrapHeader(blocks: seq<Block>, copy: seq<nat>)
    requires Trapped(blocks, copy)
    ensures |copy| > 1 && InBounds(blocks, copy) && blocks[copy[0]].succs == [copy[1], copy[1]]
  {
  }

  /** The phi nodes match even where a block has lost its end: the block behind it has none. */
  lemma ErasedMatch(orig: seq<Block>, limit: nat, body: seq<nat>, split: seq<Block>, loops: seq<seq<nat>>, sccs: seq<seq<nat>>,
                    backs: seq<map<nat, nat>>, shifts: seq<nat>, pre: nat, exit: nat)
    requires Prepared(orig, limit, body, split, loops, sccs, backs, shifts) && InOrder(split, loops, pre, exit) && PhisMatch(split)
    ensures PhisMatch(Erased(split, loops, sccs, backs))
  {
    hide ErasedUpTo, Prepared, InOrder, Shaped, ThinnedBlock;
    BeforeSize(orig, limit, body, split, loops, sccs, backs, shifts);
    var now := Erased(split, loops, sccs, backs);
    forall c: nat | c < |now|
      ensures now[c].phis == split[c].phis
      ensures forall b: nat :: b in now[c].succs ==> b in split[c].succs
      ensures forall b: nat :: b in split[c].succs && b < |split| && split[b].phis != [] ==> b in now[c].succs
    {
      ErasedIsThinned(split, loops, sccs, backs, |loops|, c);
      ThinnedPhis(split[c], now[c]);
      WayOut(orig, limit, body, split, loops, sccs, backs, shifts, c);
      if t: nat, k: nat :| BlockOf(loops, c, t, k) && 0 < k < |body| - 1 && orig[body[k]].branch.id !in sccs[t] {
        CopySize(orig, limit, body, split, loops, sccs, backs, shifts, t);
        ChainEnded(split, loops, pre, exit, t, k);
        NextHasNoPhis(split, loops[t], ExitOf(loops, exit, t), k);
      }
    }
    forall b: nat | b < |now| ensures PhisMatchAt(now, b) {
      assert PhisMatchAt(split, b);
      SamePreds(split, now, b);
    }
    forall c: nat, i | c < |now| && 0 <= i < |now[c].succs| ensures now[c].succs[i] < |now| {
      assert now[c].succs[i] in split[c].succs;
      TargetBelow(split, c, now[c].succs[i]);
    }
  }

  lemma TargetBelow(blocks: seq<Block>, c: nat, b: nat)
    requires PhisMatch(blocks) && c < |blocks| && b in blocks[c].succs
    ensures b < |blocks|
  {
  }

  lemma SamePreds(split: seq<Block>, now: seq<Block>, b: nat)
    requires b < |now| == |split| && now[b].phis == split[b].phis && PhisMatchAt(split, b)
    requires forall c: nat :: c < |now| && b in now[c].succs ==> b in split[c].succs
    requires forall c: nat :: c < |now| && b in split[c].succs && split[b].phis != [] ==> b in now[c].succs
    ensures PhisMatchAt(now, b)
  {
    forall i, a: nat | 0 <= i < |now[b].phis| ensures a in now[b].phis[i].froms <==> Pred(now, a, b) {
      assert split[b].phis != [];
      assert a in split[b].phis[i].froms <==> Pred(split, a, b);
    }
  }

  lemma ThinnedPhis(b: Block, now: Block)
    requires ThinnedBlock(b, now)
    ensures now.phis == b.phis
  {
  }

  lemma NextHasNoPhis(blocks: seq<Block>, body: seq<nat>, exit: nat, k: nat)
    requires Shaped(blocks, body, exit) && Private(blocks, body) && 0 < k < |body| - 1
    ensures blocks[body[k]].succs == [body[k + 1]] && blocks[body[k + 1]].phis == []
  {
  }

  // ---------- the loops together ----------

  lemma ClonedBefore(orig: seq<Block>, limit0: nat, split: seq<Block>, limit: nat, body: seq<nat>, pre: nat, exit: nat,
                     copies: seq<seq<nat>>, maps: seq<map<nat, nat>>, shifts: seq<nat>, sccs: seq<seq<nat>>)
    requires HasCopies(orig, limit0, split, limit, body, pre, exit, copies, maps, shifts) && |sccs| > |copies|
    ensures Prepared(orig, limit0, body, split, Order(body, copies), sccs, InOrderOf(map[], maps), InOrderOf(0, shifts))
  {
    hide ACopy, AllApart, Order, InOrderOf, CloneAt, Private, CopyOf, Numbered, Chain, BodyFirst, Trapped;
    forall t: nat | t < |copies| + 1
      ensures ACopy(orig, limit0, body, split, Order(body, copies)[t], InOrderOf(map[], maps)[t], InOrderOf(0, shifts)[t])
    {
      CopyFacts(orig, limit0, split, limit, body, pre, exit, copies, maps, shifts, t);
    }
  }

  lemma ErasedIsSplit(orig: seq<Block>, limit0: nat, split: seq<Block>, limit: nat, body: seq<nat>, pre: nat, exit: nat,
                      copies: seq<seq<nat>>, maps: seq<map<nat, nat>>, shifts: seq<nat>, sccs: seq<seq<nat>>)
    requires HasCopies(orig, limit0, split, limit, body, pre, exit, copies, maps, shifts) && |sccs| > |copies|
    ensures SplitInto(orig, limit0, body, Erased(split, Order(body, copies), sccs, InOrderOf(map[], maps)), Order(body, copies), InOrderOf(0, shifts), sccs)
  {
    hide ACopy, AllApart, Order, InOrderOf, CloneAt, Private, CopyOf, Numbered, Chain, BodyFirst, Trapped, Prepared, GroupCopy, Erased;
    ClonedBefore(orig, limit0, split, limit, body, pre, exit, copies, maps, shifts, sccs);
    forall t: nat | t < |copies| + 1
      ensures GroupCopy(orig, body, Erased(split, Order(body, copies), sccs, InOrderOf(map[], maps)), Order(body, copies)[t], sccs[t], InOrderOf(0, shifts)[t])
      ensures t > 0 ==> InOrderOf(0, shifts)[t] >= limit0
    {
      ErasedGroup(orig, limit0, body, split, Order(body, copies), sccs, InOrderOf(map[], maps), InOrderOf(0, shifts), t);
      CopyFacts(orig, limit0, split, limit, body, pre, exit, copies, maps, shifts, t);
    }
  }

  lemma RestartAtIs(blocks: seq<Block>, now: seq<Block>, loops: seq<seq<nat>>, pre: nat, t: nat)
    requires AllRestart(blocks, loops, pre) && t < |loops| && |now| == |blocks|
    requires forall u :: 0 <= u < |loops| && loops[u][0] < |blocks| ==> now[loops[u][0]] == blocks[loops[u][0]]
    ensures RestartAt(now, loops, pre, t)
  {
    assert RestartAt(blocks, loops, pre, t);
  }

  lemma FarCopy(orig: seq<Block>, limit: nat, body: seq<nat>, blocks: seq<Block>, copy: seq<nat>, back: map<nat, nat>, shift: nat, c: nat)
    requires CloneAt(orig, limit, body, blocks, copy, back, shift) && c < |orig|
    ensures c !in copy
  {
  }

  lemma OutsideLoops(orig: seq<Block>, limit0: nat, split: seq<Block>, limit: nat, body: seq<nat>, pre: nat, exit: nat,
                     copies: seq<seq<nat>>, maps: seq<map<nat, nat>>, shifts: seq<nat>, c: nat)
    requires HasCopies(orig, limit0, split, limit, body, pre, exit, copies, maps, shifts) && c < |orig| && c !in body
    ensures forall t :: 0 <= t <= |copies| ==> c !in Order(body, copies)[t]
  {
    hide AllApart, Order, CloneAt, Private, CopyOf, Numbered, Chain, BodyFirst, Trapped;
    forall t | 0 < t <= |copies| ensures c !in Order(body, copies)[t] {
      FarCopy(orig, limit0, body, split, copies[|copies| - t], maps[|copies| - t], shifts[|copies| - t], c);
    }
  }

  lemma ErasedRow(orig: seq<Block>, limit0: nat, split: seq<Block>, limit: nat, body: seq<nat>, pre: nat, exit: nat,
                  copies: seq<seq<nat>>, maps: seq<map<nat, nat>>, shifts: seq<nat>, sccs: seq<seq<nat>>)
    requires HasCopies(orig, limit0, split, limit, body, pre, exit, copies, maps, shifts) && |sccs| > |copies|
    requires InRow(orig, split, body, pre, exit, copies)
    ensures RowKept(orig, body, Erased(split, Order(body, copies), sccs, InOrderOf(map[], maps)), Order(body, copies), pre, exit)
  {
    hide ACopy, AllApart, Order, InOrderOf, CloneAt, Private, CopyOf, Numbered, Chain, BodyFirst, Trapped, Prepared, ErasedUpTo, PhisMatch, SameStart, RestartAt;
    var loops, backs := Order(body, copies), InOrderOf(map[], maps);
    var now := Erased(split, loops, sccs, backs);
    ClonedBefore(orig, limit0, split, limit, body, pre, exit, copies, maps, shifts, sccs);
    ErasedMatch(orig, limit0, body, split, loops, sccs, backs, InOrderOf(0, shifts), pre, exit);
    forall t: nat | t < |loops| ensures loops[t][0] < |split| && now[loops[t][0]] == split[loops[t][0]] {
      ErasedEnds(orig, limit0, body, split, loops, sccs, backs, InOrderOf(0, shifts), t, 0);
    }
    forall t: nat | t < |loops| ensures RestartAt(now, loops, pre, t) {
      RestartAtIs(split, now, loops, pre, t);
    }
    forall t: nat | t < |loops| ensures OpenAt(now, loops, pre, exit, t) {
      ErasedOpen(orig, limit0, body, split, loops, sccs, backs, InOrderOf(0, shifts), pre, exit, t);
    }
    ExitApart(split, loops, pre, exit);
    forall c: nat | c < |orig| && c !in body ensures now[c] == split[c] {
      OutsideLoops(orig, limit0, split, limit, body, pre, exit, copies, maps, shifts, c);
      ErasedElsewhere(split, loops, sccs, backs, |loops|, c);
    }
  }

  lemma ErasedOpen(orig: seq<Block>, limit: nat, body: seq<nat>, split: seq<Block>, loops: seq<seq<nat>>, sccs: seq<seq<nat>>,
                   backs: seq<map<nat, nat>>, shifts: seq<nat>, pre: nat, exit: nat, t: nat)
    requires Prepared(orig, limit, body, split, loops, sccs, backs, shifts) && InOrder(split, loops, pre, exit) && AllNameBody(split, loops)
    requires t < |loops|
    ensures Headed(loops) && |loops| <= |backs| && |loops| <= |sccs| && OpenAt(Erased(split, loops, sccs, backs), loops, pre, exit, t)
  {
    hide Prepared, InOrder, Erased, Shaped, Chain, AllNameBody;
    BeforeSize(orig, limit, body, split, loops, sccs, backs, shifts);
    CopySize(orig, limit, body, split, loops, sccs, backs, shifts, t);
    ChainIn(split, loops, pre, exit, t);
    NamesBodyAt(split, loops, t);
    var now := Erased(split, loops, sccs, backs);
    forall k: nat | k < |loops[t]|
      ensures now[loops[t][k]].ended ==> now[loops[t][k]].succs == split[loops[t][k]].succs
      ensures k == 0 || k == |loops[t]| - 1 ==> now[loops[t][k]].ended == split[loops[t][k]].ended && now[loops[t][k]].succs == split[loops[t][k]].succs
    {
      ErasedEnds(orig, limit, body, split, loops, sccs, backs, shifts, t, k);
    }
    StillOpen(split, now, loops[t], EntryOf(loops, pre, t), ExitOf(loops, exit, t));
    forall a: nat ensures Pred(now, a, loops[t][0]) <==> Pred(split, a, loops[t][0]) {
      HeaderPred(orig, limit, body, split, loops, sccs, backs, shifts, pre, exit, t, a);
    }
    StillEntered(split, now, loops[t], EntryOf(loops, pre, t), ExitOf(loops, exit, t));
  }

  lemma ChainIn(blocks: seq<Block>, loops: seq<seq<nat>>, pre: nat, exit: nat, t: nat)
    requires InOrder(blocks, loops, pre, exit) && t < |loops|
    ensures Headed(loops) && exit !in loops[t] && Chain(blocks, loops[t], EntryOf(loops, pre, t), ExitOf(loops, exit, t))
  {
    assert ChainAt(blocks, loops, pre, exit, t);
  }

  lemma NamesBodyAt(blocks: seq<Block>, loops: seq<seq<nat>>, t: nat)
    requires AllNameBody(blocks, loops) && t < |loops|
    ensures |loops[t]| > 1 && InBounds(blocks, loops[t]) && BodyFirst(blocks, loops[t])
  {
  }

  lemma StillOpen(split: seq<Block>, now: seq<Block>, loop: seq<nat>, entry: nat, out: nat)
    requires Chain(split, loop, entry, out) && |now| == |split| && |loop| > 1 && InBounds(split, loop) && BodyFirst(split, loop)
    requires forall k: nat :: k < |loop| && now[loop[k]].ended ==> now[loop[k]].succs == split[loop[k]].succs
    requires now[loop[0]].ended == split[loop[0]].ended
    ensures OpenLoop(now, loop, out)
  {
    hide Different, Entered, Started;
    assert loop[1] in loop;
    forall k: nat | 0 < k < |loop| ensures StepsOn(now, loop, k) {
      if k == |loop| - 1 { assert split[loop[|loop| - 1]].succs == [loop[0]]; } else { assert split[loop[k]].succs == [loop[k + 1]]; }
    }
  }

  lemma StillEntered(split: seq<Block>, now: seq<Block>, loop: seq<nat>, entry: nat, out: nat)
    requires Chain(split, loop, entry, out)
    requires forall a: nat :: Pred(now, a, loop[0]) <==> Pred(split, a, loop[0])
    ensures HeaderEntered(now, loop, entry)
  {
    hide Shaped, Started, Pred;
    ShapedSize(split, loop, out);
    assert loop[|loop| - 1] in loop;
  }

  /** No header loses a predecessor: a block whose branch may be erased leads to a block behind a header. */
  lemma HeaderPred(orig: seq<Block>, limit: nat, body: seq<nat>, split: seq<Block>, loops: seq<seq<nat>>, sccs: seq<seq<nat>>,
                   backs: seq<map<nat, nat>>, shifts: seq<nat>, pre: nat, exit: nat, t: nat, a: nat)
    requires Prepared(orig, limit, body, split, loops, sccs, backs, shifts) && InOrder(split, loops, pre, exit) && t < |loops|
    ensures Headed(loops) && |loops| <= |backs| && |loops| <= |sccs|
    ensures Pred(Erased(split, loops, sccs, backs), a, loops[t][0]) <==> Pred(split, a, loops[t][0])
  {
    hide Prepared, InOrder, Shaped;
    BeforeSize(orig, limit, body, split, loops, sccs, backs, shifts);
    if a < |split| {
      WayOut(orig, limit, body, split, loops, sccs, backs, shifts, a);
      if u: nat, k: nat :| BlockOf(loops, a, u, k) && 0 < k < |body| - 1 && orig[body[k]].branch.id !in sccs[u] {
        CopySize(orig, limit, body, split, loops, sccs, backs, shifts, u);
        ChainEnded(split, loops, pre, exit, u, k);
        NextHasNoPhis(split, loops[u], ExitOf(loops, exit, u), k);
        NotAHeader(loops, u, k + 1, t);
      }
    }
  }

  lemma NotAHeader(loops: seq<seq<nat>>, u: nat, k: nat, t: nat)
    requires Headed(loops) && AllApart(loops) && u < |loops| && t < |loops| && Different(loops[u]) && 0 < k < |loops[u]|
    ensures loops[u][k] != loops[t][0]
  {
    if u != t {
      AllApartAt(loops, u, t);
      assert loops[u][k] in loops[u] && loops[t][0] in loops[t];
    }
  }

  lemma ExitApart(blocks: seq<Block>, loops: seq<seq<nat>>, pre: nat, exit: nat)
    requires InOrder(blocks, loops, pre, exit)
    ensures exit !in loops[0]
  {
  }

  lemma ErasedInOrder(orig: seq<Block>, limit0: nat, split: seq<Block>, limit: nat, body: seq<nat>, pre: nat, exit: nat,
                      copies: seq<seq<nat>>, maps: seq<map<nat, nat>>, shifts: seq<nat>, sccs: seq<seq<nat>>)
    requires Cloned(orig, limit0, split, limit, body, pre, exit, copies, maps, shifts) && |sccs| > |copies| > 0
    ensures InOrder(Erased(split, Order(body, copies), sccs, InOrderOf(map[], maps)), Order(body, copies), pre, exit)
            <==> BodyFirst(orig, body) && EndsKept(orig, body, sccs, |copies| + 1)
    ensures BodyFirst(orig, body) ==> RowKept(orig, body, Erased(split, Order(body, copies), sccs, InOrderOf(map[], maps)), Order(body, copies), pre, exit)
  {
    hide AllApart, Order, InOrderOf, CloneAt, Private, CopyOf, Numbered, Chain, BodyFirst, Trapped, Prepared, Erased, PhisMatch, InOrder, RowKept,
         AllNameBody, AllRestart, Around;
    ClonedBefore(orig, limit0, split, limit, body, pre, exit, copies, maps, shifts, sccs);
    if BodyFirst(orig, body) { ErasedRow(orig, limit0, split, limit, body, pre, exit, copies, maps, shifts, sccs); }
    ErasedOrderIff(orig, limit0, body, split, Order(body, copies), sccs, InOrderOf(map[], maps), InOrderOf(0, shifts), pre, exit);
  }

  /** The block and what it leads to, directly or not, are blocks among which exit is not. */
  ghost predicate Caught(blocks: seq<Block>, b: nat, exit: nat) {
    exists s: set<nat> :: b in s && exit !in s && LeadsOnlyTo(blocks, s)
  }

  ghost predicate LeadsOnlyTo(blocks: seq<Block>, s: set<nat>) {
    forall a: nat, i :: a in s && a < |blocks| && 0 <= i < |blocks[a].succs| ==> blocks[a].succs[i] in s
  }

  lemma FirstWays(blocks: seq<Block>, body: seq<nat>, exit: nat, k: nat, b: nat)
    requires Shaped(blocks, body, exit) && k < |body| && b in blocks[body[k]].succs
    ensures b in body || b == exit
  {
    hide Different;
    if k > 0 { assert blocks[body[k]].succs == [if k + 1 < |body| then body[k + 1] else body[0]]; }
  }

  lemma LatestIsTrap(orig: seq<Block>, limit0: nat, split: seq<Block>, limit: nat, body: seq<nat>, pre: nat, exit: nat,
                     copies: seq<seq<nat>>, maps: seq<map<nat, nat>>, shifts: seq<nat>)
    requires HasCopies(orig, limit0, split, limit, body, pre, exit, copies, maps, shifts) && |copies| > 0 && !BodyFirst(orig, body)
    ensures |body| > 0 && InBounds(split, body) && Trapped(split, copies[|copies| - 1]) && Shaped(split, body, copies[|copies| - 1][0])
    ensures forall c: nat {:trigger c in copies[|copies| - 1]} :: c < |orig| ==> c !in copies[|copies| - 1]
  {
    hide AllApart, Private, CopyOf, Numbered, BodyFirst, Entered, Started, Undo;
    var n := |copies| - 1;
    assert CloneAt(orig, limit0, body, split, copies[n], maps[n], shifts[n]);
    assert Order(body, copies)[1] == copies[n];
    forall c: nat | c < |orig| ensures c !in copies[n] {
      FarCopy(orig, limit0, body, split, copies[n], maps[n], shifts[n], c);
    }
  }

  /** If the header named the exit first, the loop now leads only into the latest copy, and that nowhere. */
  lemma ErasedCaught(orig: seq<Block>, limit0: nat, split: seq<Block>, limit: nat, body: seq<nat>, pre: nat, exit: nat,
                     copies: seq<seq<nat>>, maps: seq<map<nat, nat>>, shifts: seq<nat>, sccs: seq<seq<nat>>)
    requires HasCopies(orig, limit0, split, limit, body, pre, exit, copies, maps, shifts) && |sccs| > |copies| > 0
    requires !BodyFirst(orig, body) && exit < |orig| && exit !in body
    ensures |body| > 0 && Caught(Erased(split, Order(body, copies), sccs, InOrderOf(map[], maps)), body[0], exit)
  {
    hide Order, InOrderOf, CloneAt, HasCopies, Erased, BodyFirst, Shaped, ThinnedBlock;
    LatestIsTrap(orig, limit0, split, limit, body, pre, exit, copies, maps, shifts);
    assert Headed(Order(body, copies)) && |maps| == |copies| by { CopiesHeaded(orig, limit0, split, limit, body, pre, exit, copies, maps, shifts); }
    var now, trap := Erased(split, Order(body, copies), sccs, InOrderOf(map[], maps)), copies[|copies| - 1];
    var s := (set b | b in body) + (set b | b in trap);
    AllThinned(split, Order(body, copies), sccs, InOrderOf(map[], maps));
    forall a: nat, i | a in s && a < |now| && 0 <= i < |now[a].succs| ensures now[a].succs[i] in s {
      assert ThinnedBlock(split[a], now[a]);
      ThinnedSuccs(split[a], now[a]);
      var b := now[a].succs[i];
      assert b in split[a].succs;
      if a in body {
        var k: nat :| k < |body| && body[k] == a;
        FirstWays(split, body, trap[0], k, b);
      } else {
        var k :| 0 <= k < |trap| && trap[k] == a;
      }
    }
    assert body[0] in body && exit !in trap;
    assert body[0] in s && exit !in s && LeadsOnlyTo(now, s);
  }

  lemma ThinnedSuccs(b: Block, now: Block)
    requires ThinnedBlock(b, now)
    ensures forall x :: x in now.succs ==> x in b.succs
  {
  }

  lemma CopiesHeaded(orig: seq<Block>, limit0: nat, split: seq<Block>, limit: nat, body: seq<nat>, pre: nat, exit: nat,
                     copies: seq<seq<nat>>, maps: seq<map<nat, nat>>, shifts: seq<nat>)
    requires HasCopies(orig, limit0, split, limit, body, pre, exit, copies, maps, shifts)
    ensures Headed(Order(body, copies)) && |maps| == |copies|
  {
  }

  /** runOnFunction, for one loop. The last two groups are taken to be the increment and the back branch; with
      fewer than two others the function stays as it is. */
  method SplitLoop(f: Function, body: seq<nat>, sccs: seq<seq<nat>>, ghost pre: nat, ghost exit: nat)
    returns (ghost loops: seq<seq<nat>>, ghost shifts: seq<nat>)
    requires Chain(f.blocks, body, pre, exit) && WellFormed(f.blocks, f.limit) && Private(f.blocks, body)
    requires forall t :: 0 <= t < |sccs| - 2 ==> Closed(f.blocks, body, sccs[t], map[])
    modifies f
    ensures |sccs| - 2 <= 1 ==> f.blocks == old(f.blocks)
    ensures |sccs| - 2 > 1 ==> |loops| == |sccs| - 2 && SplitInto(old(f.blocks), old(f.limit), body, f.blocks, loops, shifts, sccs)
    ensures |sccs| - 2 > 1 && BodyFirst(old(f.blocks), body) ==> RowKept(old(f.blocks), body, f.blocks, loops, pre, exit)
    ensures |sccs| - 2 > 1 && !BodyFirst(old(f.blocks), body) ==> Caught(f.blocks, body[0], exit)
    ensures |sccs| - 2 > 1 ==>
              (InOrder(f.blocks, loops, pre, exit) <==> BodyFirst(old(f.blocks), body) && EndsKept(old(f.blocks), body, sccs, |loops|))
  {
    hide *;
    loops, shifts := [body], [0];
    var size := |sccs| - 2;
    ChainParts(f.blocks, body, pre, exit);
    if size <= 1 { return; }
    ghost var orig, limit0 := f.blocks, f.limit;
    ghost var moved;
    var copies, maps;
    copies, maps, moved := CloneTimes(f, body, size - 1, pre, exit);
    ghost var split, limit := f.blocks, f.limit;
    ClonedHas(orig, limit0, split, limit, body, pre, exit, copies, maps, moved);
    EraseFromAll(f, body, copies, maps, sccs, orig, limit0, pre, exit, moved);
    loops, shifts := Order(body, copies), InOrderOf(0, moved);
    ErasedUnfolds(split, loops, sccs, InOrderOf(map[], maps));
    ErasedIsSplit(orig, limit0, split, limit, body, pre, exit, copies, maps, moved, sccs);
    ErasedInOrder(orig, limit0, split, limit, body, pre, exit, copies, maps, moved, sccs);
    if !BodyFirst(orig, body) { ErasedCaught(orig, limit0, split, limit, body, pre, exit, copies, maps, moved, sccs); }
  }

  lemma ErasedUnfolds(split: seq<Block>, loops: seq<seq<nat>>, sccs: seq<seq<nat>>, backs: seq<map<nat, nat>>)
    requires Headed(loops) && |loops| <= |backs| && |loops| <= |sccs|
    ensures Erased(split, loops, sccs, backs) == ErasedUpTo(split, loops, sccs, backs, |loops|)
  {
  }

  lemma ClonedHas(orig: seq<Block>, limit0: nat, blocks: seq<Block>, limit: nat, body: seq<nat>, pre: nat, exit: nat,
                  copies: seq<seq<nat>>, backs: seq<map<nat, nat>>, shifts: seq<nat>)
    requires Cloned(orig, limit0, blocks, limit, body, pre, exit, copies, backs, shifts)
    ensures HasCopies(orig, limit0, blocks, limit, body, pre, exit, copies, backs, shifts)
    ensures |backs| == |copies| == |shifts| && Headed(Order(body, copies))
  {
  }

  ghost predicate AllEnded(now: seq<Block>, loop: seq<nat>) {
    InBounds(now, loop) && forall k :: 0 <= k < |loop| ==> now[loop[k]].ended
  }

  lemma CopyEnds(orig: seq<Block>, body: seq<nat>, now: seq<Block>, copy: seq<nat>, scc: seq<nat>, shift: nat, exit: nat)
    requires GroupCopy(orig, body, now, copy, scc, shift) && Shaped(orig, body, exit)
    ensures AllEnded(now, copy) <==> forall k: nat :: 0 < k < |body| - 1 ==> orig[body[k]].branch.id in scc
  {
    hide DefinedIn, Moved, MovedArgs, Thin, Different;
    forall k: nat | k < |body|
      ensures now[copy[k]].ended <==> k == 0 || k == |body| - 1 || orig[body[k]].branch.id in scc
    {
      GroupEnds(orig, body, scc, k);
      assert CopyBlock(now[copy[k]], ForGroup(orig, body, scc, k), DefinedIn(orig, body), shift);
    }
  }

  /** Every block of every copy keeps its end exactly if there is no block between header and latch, or the branch
      of each such block is in every group that gets a loop. */
  lemma EndsKeptIff(orig: seq<Block>, limit: nat, body: seq<nat>, exit: nat, now: seq<Block>, loops: seq<seq<nat>>, shifts: seq<nat>, sccs: seq<seq<nat>>)
    requires SplitInto(orig, limit, body, now, loops, shifts, sccs) && Shaped(orig, body, exit)
    ensures |loops| <= |sccs| && InBounds(orig, body)
    ensures (forall t :: 0 <= t < |loops| ==> AllEnded(now, loops[t])) <==> EndsKept(orig, body, sccs, |loops|)
  {
    hide AllEnded, GroupCopy, Shaped, AllApart;
    forall t: nat | t < |loops|
      ensures AllEnded(now, loops[t]) <==> forall k: nat :: 0 < k < |body| - 1 ==> orig[body[k]].branch.id in sccs[t]
    {
      CopyEnds(orig, body, now, loops[t], sccs[t], shifts[t], exit);
    }
  }

  // ---------- a loop with a block between header and latch ----------

  /** Header 1, body 2 with two instructions that have nothing to do with each other, latch 3, exit 4. */
  function ThreeBlockLoop(): seq<Block> {
    [Block([], [], Instr(0, 0, []), [1], true),
     Block([Phi(1, [0, 3], [Other(0), Def(6)])], [], Instr(2, 0, [Def(1)]), [2, 4], true),
     Block([], [Instr(3, 1, [Def(1)]), Instr(4, 2, [Def(1)])], Instr(5, 0, []), [3], true),
     Block([], [Instr(6, 3, [Def(1)])], Instr(7, 0, []), [1], true),
     Block([], [], Instr(8, 0, []), [], true)]
  }

  lemma ThreeBlockEdges(a: nat, b: nat)
    ensures Pred(ThreeBlockLoop(), a, b) <==> (a == 0 && b == 1) || (a == 1 && (b == 2 || b == 4)) || (a == 2 && b == 3) || (a == 3 && b == 1)
  {
    var f := ThreeBlockLoop();
    assert f[0].succs == [1] && f[1].succs == [2, 4] && f[2].succs == [3] && f[3].succs == [1] && f[4].succs == [];
  }

  lemma ThreeBlockSize()
    ensures |ThreeBlockLoop()| == 5
  {
  }

  lemma ThreeBlockEntered()
    ensures Entered(ThreeBlockLoop(), [1, 2, 3], 0)
  {
    hide ThreeBlockLoop;
    ThreeBlockSize();
    forall a: nat, b: nat {
      ThreeBlockEdges(a, b);
    }
  }

  lemma ThreeBlockStarts()
    ensures Started(ThreeBlockLoop(), [1, 2, 3], 0)
  {
    var f := ThreeBlockLoop();
    forall i: nat, o | Takes(f, 1, 0, i, o) ensures Outside(f, [1, 2, 3], o) {
      assert f[1].phis[i].froms == [0, 3] && f[1].phis[i].vals == [Other(0), Def(6)];
    }
  }

  lemma ThreeBlockMatch()
    ensures PhisMatch(ThreeBlockLoop())
  {
    var f := ThreeBlockLoop();
    forall b: nat | b < |f| ensures PhisMatchAt(f, b) {
      if b == 1 {
        assert f[1].phis[0].froms == [0, 3];
        forall a: nat ensures a in f[1].phis[0].froms <==> Pred(f, a, 1) { ThreeBlockEdges(a, 1); }
      }
    }
  }

  lemma ThreeBlockChain()
    ensures Chain(ThreeBlockLoop(), [1, 2, 3], 0, 4) && BodyFirst(ThreeBlockLoop(), [1, 2, 3])
  {
    hide Entered, Started;
    ThreeBlockEntered();
    ThreeBlockStarts();
  }

  lemma ThreeBlockUse(v: nat, c: nat)
    requires c < 5 && UsedIn(v, ThreeBlockLoop()[c])
    ensures v == 1 || (v == 6 && c == 1)
  {
  }

  lemma ThreeBlockPrivate()
    ensures Private(ThreeBlockLoop(), [1, 2, 3])
    ensures forall scc :: Closed(ThreeBlockLoop(), [1, 2, 3], scc, map[])
  {
    var f, body := ThreeBlockLoop(), [1, 2, 3];
    forall k: nat, j: nat | Erasable(f, body, k, j)
      ensures k == 1 && ItemAt(f[body[k]], j).id !in {1, 6}
    {
      assert f[3].insts == [Instr(6, 3, [Def(1)])];
    }
    hide Erasable, ItemAt, ThreeBlockLoop;
    forall k: nat, j: nat | Erasable(f, body, k, j)
      ensures forall c: nat :: c < |f| ==> !UsedIn(ItemAt(f[body[k]], j).id, f[c])
    {
      ThreeBlockSize();
      forall c: nat | c < |f| && UsedIn(ItemAt(f[body[k]], j).id, f[c]) ensures false { ThreeBlockUse(ItemAt(f[body[k]], j).id, c); }
    }
    UnusedIsPrivate(f, body);
    ThreeBlockBare();
  }

  lemma ThreeBlockBare()
    ensures ThreeBlockLoop()[2].phis == [] && ThreeBlockLoop()[3].phis == [] && |ThreeBlockLoop()[3].insts| > 0
  {
  }

  /** What is not used at all is used only later. */
  lemma UnusedIsPrivate(blocks: seq<Block>, body: seq<nat>)
    requires InBounds(blocks, body) && |body| > 0 && forall c :: 0 <= c < |blocks| ==> blocks[c].ended
    requires forall k: nat, j: nat :: Erasable(blocks, body, k, j) ==> Unused(blocks, ItemAt(blocks[body[k]], j).id)
    ensures forall k: nat, j: nat :: Erasable(blocks, body, k, j) ==> PrivateAt(blocks, body, k, j)
    ensures forall scc :: Closed(blocks, body, scc, map[])
  {
    hide Erasable;
    forall l: nat, m: nat, v: nat | ItemUses(blocks, body, l, m, v) ensures UsedIn(v, blocks[body[l]]) {
    }
    hide ItemUses, UsedIn, ItemAt;
  }

  /** Nothing is wrong with the loop, and its planned groups are those of the five instructions after the header;
      but the branch of the block in the middle is in one of the three groups that get a loop only. */
  lemma ThreeBlockLoopLosesEnd()
    ensures var f, body, sccs: seq<seq<nat>> := ThreeBlockLoop(), [1, 2, 3], [[3], [4], [5], [6], [7]];
            && Chain(f, body, 0, 4) && WellFormed(f, 9) && Private(f, body) && BodyFirst(f, body)
            && (forall t :: 0 <= t < |sccs| - 2 ==> Closed(f, body, sccs[t], map[]))
            && !EndsKept(f, body, sccs, |sccs| - 2)
  {
    hide Chain, Private, BodyFirst, Closed, PhisMatch, ThreeBlockLoop, Numbered;
    ThreeBlockChain();
    ThreeBlockPrivate();
    ThreeBlockMatch();
    ThreeBlockNumbers();
    var f, body, sccs: seq<seq<nat>> := ThreeBlockLoop(), [1, 2, 3], [[3], [4], [5], [6], [7]];
    ThreeBlockSize();
    assert f[body[1]].branch.id !in sccs[0];
  }

  lemma ThreeBlockNumber(b: nat)
    requires b < |ThreeBlockLoop()|
    ensures BlockBelow(ThreeBlockLoop()[b], 9)
  {
    if b == 0 || b == 4 {
    } else if b == 1 {
      assert OperandsBelow([Other(0), Def(6)], 9);
    } else {
      assert OperandsBelow([Def(1)], 9);
    }
  }

  lemma ThreeBlockNumbers()
    ensures Numbered(ThreeBlockLoop(), 9) && |ThreeBlockLoop()| == 5 && ThreeBlockLoop()[2].branch.id == 5
  {
    ThreeBlockBranch();
    hide ThreeBlockLoop, BlockBelow;
    forall b: nat | b < |ThreeBlockLoop()| ensures BlockBelow(ThreeBlockLoop()[b], 9) { ThreeBlockNumber(b); }
  }

  lemma ThreeBlockBranch()
    ensures |ThreeBlockLoop()| == 5 && ThreeBlockLoop()[2].branch.id == 5
  {
  }
}
