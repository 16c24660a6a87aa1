/** The splitting pass: it clones a loop behind itself as often as needed, and erases from every copy the
    instructions that belong to the others. */
module SplitPass {
  import opened LoopSplit
  import opened LoopCopies

  /** remapInstruction, on one list of operands. */
  method RemapOperands(os: seq<Operand>, valueMap: map<nat, nat>, ghost ren: Renaming) returns (r: seq<Operand>)
    requires valueMap == Renumbered(ren.ids, ren.shift)
    ensures r == ren.OnOperands(os)
  {
    r := os;
    for i := 0 to |os|
      invariant |r| == |os|
      invariant forall j :: 0 <= j < |r| ==> r[j] == if j < i then ren.OnOperand(os[j]) else os[j]
    {
      match r[i]
      case Def(v) => if v in valueMap { r := r[i := Def(valueMap[v])]; }
      case Other(_) =>
    }
  }

  /** remapInstruction, on the blocks that a phi node or a branch names. */
  method RemapTargets(bs: seq<nat>, blockMap: map<nat, nat>, ghost ren: Renaming) returns (r: seq<nat>)
    requires blockMap.Keys == (set b | b in ren.body) && forall b :: b in blockMap ==> blockMap[b] == ren.OnBlock(b)
    ensures r == ren.OnBlocks(bs)
  {
    r := bs;
    for i := 0 to |bs|
      invariant |r| == |bs|
      invariant forall j :: 0 <= j < |r| ==> r[j] == if j < i then ren.OnBlock(bs[j]) else bs[j]
    {
      if r[i] in blockMap { r := r[i := blockMap[r[i]]]; }
    }
  }

  method RemapBlock(b: Block, valueMap: map<nat, nat>, blockMap: map<nat, nat>, ghost ren: Renaming) returns (r: Block)
    requires valueMap == Renumbered(ren.ids, ren.shift)
    requires blockMap.Keys == (set b | b in ren.body) && forall b :: b in blockMap ==> blockMap[b] == ren.OnBlock(b)
    ensures r == Remapped(b, ren)
  {
    var phis, insts := b.phis, b.insts;
    for i := 0 to |phis|
      invariant |phis| == |b.phis|
      invariant forall j :: 0 <= j < |phis| ==> phis[j] == if j < i then Remapped(b, ren).phis[j] else b.phis[j]
    {
      var froms := RemapTargets(phis[i].froms, blockMap, ren);
      var vals := RemapOperands(phis[i].vals, valueMap, ren);
      phis := phis[i := phis[i].(froms := froms, vals := vals)];
    }
    for i := 0 to |insts|
      invariant |insts| == |b.insts|
      invariant forall j :: 0 <= j < |insts| ==> insts[j] == if j < i then Remapped(b, ren).insts[j] else b.insts[j]
    {
      var args := RemapOperands(insts[i].args, valueMap, ren);
      insts := insts[i := insts[i].(args := args)];
    }
    var args := RemapOperands(b.branch.args, valueMap, ren);
    var succs := RemapTargets(b.succs, blockMap, ren);
    r := Block(phis, insts, b.branch.(args := args), succs, b.ended);
  }

  /** setIncomingBlock, for every phi node of a block. */
  method ReplaceIncoming(b: Block, was: nat, now: nat) returns (r: Block)
    ensures r == PhisMoved(b, was, now)
  {
    var phis := b.phis;
    for i := 0 to |phis|
      invariant |phis| == |b.phis|
      invariant forall j :: 0 <= j < |phis| ==> phis[j] == if j < i then PhisMoved(b, was, now).phis[j] else b.phis[j]
    {
      var froms := ReplaceTargets(phis[i].froms, was, now);
      phis := phis[i := phis[i].(froms := froms)];
    }
    r := b.(phis := phis);
  }

  method ReplaceTargets(xs: seq<nat>, was: nat, now: nat) returns (r: seq<nat>)
    ensures r == Replaced(xs, was, now)
  {
    r := xs;
    for i := 0 to |xs|
      invariant |r| == |xs|
      invariant forall j :: 0 <= j < |r| ==> r[j] == if j < i && xs[j] == was then now else xs[j]
    {
      if r[i] == was { r := r[i := now]; }
    }
  }

  class Function {
    var blocks: seq<Block>
    /** Values are numbered below limit. */
    var limit: nat

    /** getLoopPredecessor: the block outside the loop from which the header is reached. */
    method LoopPredecessor(body: seq<nat>, ghost pre: nat) returns (r: nat)
      requires |body| > 0 && Entered(blocks, body, pre)
      ensures r == pre
    {
      r := 0;
      for b := 0 to |blocks|
        invariant pre < b ==> r == pre
      {
        if b !in body && body[0] in blocks[b].succs {
          assert Pred(blocks, b, body[0]);
          r := b;
        }
        if b == pre {
          assert Pred(blocks, b, body[0]);
        }
      }
    }

    /** getExitBlock: the block outside the loop to which the loop leaves. */
    method ExitBlock(body: seq<nat>, ghost exit: nat) returns (r: nat)
      requires Shaped(blocks, body, exit)
      ensures r == exit
    {
      r := 0;
      for k := 0 to |body|
        invariant k > 0 ==> r == exit
      {
        var succs := blocks[body[k]].succs;
        OnlyExitOutside(blocks, body, exit, k);
        for i := 0 to |succs|
          invariant k > 0 || exit in succs[..i] ==> r == exit
        {
          assert succs[..i + 1] == succs[..i] + [succs[i]];
          if succs[i] !in body { r := succs[i]; }
        }
        assert succs[..|succs|] == succs;
      }
    }

    /** The first loop of CreateOneLoop: append a copy of every block, and remember what was copied to what. */
    method CloneBlocks(body: seq<nat>)
      returns (clone: seq<nat>, instMap: map<nat, nat>, valueMap: map<nat, nat>, blockMap: map<nat, nat>)
      requires InBounds(blocks, body) && Different(body)
      modifies this`blocks
      ensures blocks == old(blocks) + Copies(old(blocks), body, limit)
      ensures clone == CloneOf(old(blocks), body)
      ensures instMap == CloneBack(old(blocks), body, limit)
      ensures valueMap == Renumbered(DefinedIn(old(blocks), body), limit)
      ensures blockMap.Keys == set b | b in body
      ensures forall k :: 0 <= k < |body| ==> blockMap[body[k]] == old(|blocks|) + k
    {
      hide Defined, DefinedIn, Copied, Undo, Renumbered, CloneBack, CloneOf, Copies, Numbering, DefinedFirst;
      ghost var before := blocks;
      ghost var copies: seq<Block>, ids: set<nat> := [], {};
      var shift := limit;
      clone, blockMap, instMap, valueMap := [], map[], map[], map[];
      NothingDefined(before, body);
      UndoNothing(shift);
      NothingNumbered(body, |before|);
      for k := 0 to |body|
        invariant blocks == before + copies && |clone| == |copies| == k
        invariant forall i :: 0 <= i < k ==> copies[i] == Copied(before[body[i]], shift)
        invariant forall i :: 0 <= i < k ==> clone[i] == |before| + i
        invariant DefinedFirst(ids, before, body, k) && instMap == Undo(ids, shift) && valueMap == Renumbered(ids, shift)
        invariant Numbering(blockMap, body, k, |before|)
      {
        MoreNumbered(blockMap, body, k, |before|);
        var b := blocks[body[k]];
        assert b == before[body[k]];
        var c;
        c, instMap, valueMap := CloneBlock(b, shift, instMap, valueMap, ids);
        MoreDefined(ids, before, body, k);
        ids := ids + Defined(b);
        clone := clone + [|blocks|];
        blockMap := blockMap[body[k] := |blocks|];
        blocks := blocks + [c];
        copies := copies + [c];
      }
      AllNumbered(blockMap, body, |before|);
      AllDefined(ids, before, body, shift);
      assert copies == Copies(before, body, shift);
    }

    /** The second loop: rename the operands in the copies. */
    method RemapBlocks(clone: seq<nat>, ghost before: seq<Block>, ghost body: seq<nat>,
                       valueMap: map<nat, nat>, blockMap: map<nat, nat>, ghost ren: Renaming)
      requires InBounds(before, body) && clone == CloneOf(before, body) && blocks == before + Copies(before, body, ren.shift)
      requires valueMap == Renumbered(ren.ids, ren.shift)
      requires blockMap.Keys == (set b | b in ren.body) && forall b :: b in blockMap ==> blockMap[b] == ren.OnBlock(b)
      modifies this`blocks
      ensures blocks == before + RemappedCopies(before, body, ren)
    {
      hide Remapped, Copied, Renumbered, CloneOf, Copies, RemappedCopies;
      ghost var now := Copies(before, body, ren.shift);
      for k := 0 to |clone|
        invariant blocks == before + now && |now| == |body|
        invariant forall i :: 0 <= i < |body| ==>
          now[i] == (if i < k then Remapped(Copied(before[body[i]], ren.shift), ren) else Copied(before[body[i]], ren.shift))
      {
        var b := RemapBlock(blocks[clone[k]], valueMap, blockMap, ren);
        blocks := blocks[clone[k] := b];
        now := now[k := b];
      }
      assert now == RemappedCopies(before, body, ren);
    }

    /** CreateOneLoop: the clone's blocks, and from their instructions to the loop's own. */
    method CreateOneLoop(body: seq<nat>, ghost pre: nat, ghost exit: nat) returns (clone: seq<nat>, instMap: map<nat, nat>)
      requires Chain(blocks, body, pre, exit)
      modifies this
      ensures blocks == Splice(old(blocks), body, pre, exit, old(limit))
      ensures limit == old(limit) + old(limit)
      ensures clone == CloneOf(old(blocks), body) && instMap == CloneBack(old(blocks), body, old(limit))
    {
      hide *;
      ghost var before, shift, n := blocks, limit, |blocks|;
      ChainParts(before, body, pre, exit);
      ghost var ren := CloneRenaming(before, body, shift);
      var header := body[0];
      var preHeader := LoopPredecessor(body, pre);
      var exitBlock := ExitBlock(body, exit);
      var valueMap, blockMap;
      clone, instMap, valueMap, blockMap := CloneBlocks(body);
      RenamingIs(before, body, shift, blockMap);
      RemapBlocks(clone, before, body, valueMap, blockMap, ren);
      limit := limit + limit;
      FixPhis(clone, header, preHeader, exitBlock, before, body, shift);
      Link(clone, header, before, body, preHeader, exitBlock, shift);
      HeaderMissing(before, body, pre, exit, shift, blocks);
      var succs := ReplaceTargets(blocks[header].succs, exitBlock, clone[0]);
      blocks := blocks[header := blocks[header].(succs := succs)];
    }

    /** The phi nodes of the clone's header and of the exit. The branches are still missing. */
    method FixPhis(clone: seq<nat>, header: nat, preHeader: nat, exitBlock: nat,
                   ghost before: seq<Block>, ghost body: seq<nat>, ghost shift: nat)
      requires Shaped(before, body, exitBlock) && |body| >= 2 && InBounds(before, body)
      requires clone == CloneOf(before, body) && header == body[0]
      requires CloneRenaming(before, body, shift).shift == shift
      requires blocks == before + RemappedCopies(before, body, CloneRenaming(before, body, shift))
      modifies this`blocks
      ensures |blocks| == |before| + |body| && blocks[header] == before[header]
      ensures forall i :: 0 <= i < |blocks| && i != header ==> blocks[i] == BeforeLinks(before, body, preHeader, exitBlock, shift, i)
    {
      hide Copied, Remapped, CloneOf, CloneRenaming, PhisMoved, DefinedIn, Shaped, RemappedCopies;
      ShapedSize(before, body, exitBlock);
      assert header != exitBlock by { assert body[0] in body; }
      var b := ReplaceIncoming(blocks[clone[0]], preHeader, header);
      blocks := blocks[clone[0] := b];
      b := ReplaceIncoming(blocks[exitBlock], header, clone[0]);
      blocks := blocks[exitBlock := b];
    }

    /** The back edge of the clone and the branches inside it: the first successor of each block. */
    method Link(clone: seq<nat>, ghost header: nat, ghost before: seq<Block>, ghost body: seq<nat>, ghost pre: nat, ghost exit: nat, ghost shift: nat)
      requires Shaped(before, body, exit) && |body| >= 2 && InBounds(before, body) && clone == CloneOf(before, body) && header == body[0]
      requires |blocks| == |before| + |body| && blocks[header] == before[header]
      requires forall i :: 0 <= i < |blocks| && i != header ==> blocks[i] == BeforeLinks(before, body, pre, exit, shift, i)
      modifies this`blocks
      ensures |blocks| == |before| + |body| && blocks[header] == before[header]
      ensures forall i :: 0 <= i < |blocks| && i != header ==> blocks[i] == Splice(before, body, pre, exit, shift)[i]
    {
      hide Shaped, Splice, BeforeLinks, Spliced, Linked;
      ghost var n, last := |before|, |body| - 1;
      LinksSet(before, body, pre, exit, shift);
      SetFirstSuccessor(clone[|clone| - 1], clone[0]);
      for i := 0 to |clone| - 1
        invariant |blocks| == n + |body| && blocks[header] == before[header]
        invariant forall k :: 0 <= k < |blocks| && k != header ==>
          blocks[k] == if k < n || k < n + i || k == n + last then Splice(before, body, pre, exit, shift)[k]
                       else BeforeLinks(before, body, pre, exit, shift, k)
      {
        SetFirstSuccessor(clone[i], clone[i + 1]);
      }
    }

    /** setSuccessor(0, target) on the branch of block b. */
    method SetFirstSuccessor(b: nat, target: nat)
      requires b < |blocks|
      modifies this`blocks
      ensures blocks == old(blocks)[b := Linked(old(blocks[b]), target)]
    {
      var succs := blocks[b].succs;
      if succs != [] {
        blocks := blocks[b := blocks[b].(succs := succs[0 := target])];
      }
    }
  }

  /** Block i when the phi nodes have been fixed, and no branch yet. */
  function BeforeLinks(before: seq<Block>, body: seq<nat>, pre: nat, exit: nat, shift: nat, i: nat): Block
    requires |body| > 0 && InBounds(before, body) && i < |before| + |body|
  {
    if i < |before| then
      if i == exit then PhisMoved(before[i], body[0], |before|) else before[i]
    else
      var c := Remapped(Copied(before[body[i - |before|]], shift), CloneRenaming(before, body, shift));
      if i == |before| then PhisMoved(c, pre, body[0]) else c
  }

  lemma LinksSet(before: seq<Block>, body: seq<nat>, pre: nat, exit: nat, shift: nat)
    requires |body| > 0 && InBounds(before, body)
    ensures forall i :: 0 <= i < |before| && i != body[0] ==>
      Splice(before, body, pre, exit, shift)[i] == BeforeLinks(before, body, pre, exit, shift, i)
    ensures forall i :: |before| <= i < |before| + |body| ==>
      Splice(before, body, pre, exit, shift)[i]
      == Linked(BeforeLinks(before, body, pre, exit, shift, i), if i == |before| + |body| - 1 then |before| else i + 1)
  {
    hide DefinedIn, PhisMoved, Remapped, Copied, CloneRenaming, Linked;
  }

  lemma HeaderMissing(before: seq<Block>, body: seq<nat>, pre: nat, exit: nat, shift: nat, blocks: seq<Block>)
    requires Shaped(before, body, exit) && |body| >= 2 && InBounds(before, body)
    requires |blocks| == |before| + |body| && blocks[body[0]] == before[body[0]]
    requires forall i :: 0 <= i < |blocks| && i != body[0] ==> blocks[i] == Splice(before, body, pre, exit, shift)[i]
    ensures blocks[body[0] := blocks[body[0]].(succs := Replaced(blocks[body[0]].succs, exit, |before|))]
         == Splice(before, body, pre, exit, shift)
  {
    hide DefinedIn, Different, PhisMoved, Remapped, Copied, CloneRenaming, Replaced, Linked;
    assert body[0] in body;
  }

  lemma RenamingIs(blocks: seq<Block>, body: seq<nat>, shift: nat, blockMap: map<nat, nat>)
    requires InBounds(blocks, body) && Different(body) && blockMap.Keys == set b | b in body
    requires forall k :: 0 <= k < |body| ==> blockMap[body[k]] == |blocks| + k
    ensures var ren := CloneRenaming(blocks, body, shift);
            && ren.body == body && ren.ids == DefinedIn(blocks, body) && ren.shift == shift
            && forall b :: b in blockMap ==> blockMap[b] == ren.OnBlock(b)
  {
    hide DefinedIn;
    forall b | b in blockMap ensures blockMap[b] == CloneRenaming(blocks, body, shift).OnBlock(b) {
      PositionOf(body, Position(body, b));
    }
  }

  function Copies(blocks: seq<Block>, body: seq<nat>, shift: nat): (r: seq<Block>)
    requires InBounds(blocks, body)
    ensures |r| == |body| && forall k :: 0 <= k < |r| ==> r[k] == Copied(blocks[body[k]], shift)
  {
    seq(|body|, k requires 0 <= k < |body| => Copied(blocks[body[k]], shift))
  }

  function RemappedCopies(blocks: seq<Block>, body: seq<nat>, ren: Renaming): (r: seq<Block>)
    requires InBounds(blocks, body)
    ensures |r| == |body| && forall k :: 0 <= k < |r| ==> r[k] == Remapped(Copied(blocks[body[k]], ren.shift), ren)
  {
    seq(|body|, k requires 0 <= k < |body| => Remapped(Copied(blocks[body[k]], ren.shift), ren))
  }

  /** The first k blocks of body are mapped to base, base + 1, .. */
  ghost predicate Numbering(blockMap: map<nat, nat>, body: seq<nat>, k: nat, base: nat)
    requires k <= |body|
  {
    && blockMap.Keys == (set b | b in body[..k])
    && forall i :: 0 <= i < k ==> body[i] in blockMap && blockMap[body[i]] == base + i
  }

  lemma NothingNumbered(body: seq<nat>, base: nat)
    ensures Numbering(map[], body, 0, base)
  {
  }

  lemma MoreNumbered(blockMap: map<nat, nat>, body: seq<nat>, k: nat, base: nat)
    requires k < |body| && Different(body) && Numbering(blockMap, body, k, base)
    ensures Numbering(blockMap[body[k] := base + k], body, k + 1, base)
  {
    assert body[..k + 1] == body[..k] + [body[k]];
  }

  lemma AllNumbered(blockMap: map<nat, nat>, body: seq<nat>, base: nat)
    requires Numbering(blockMap, body, |body|, base)
    ensures blockMap.Keys == (set b | b in body) && forall k :: 0 <= k < |body| ==> blockMap[body[k]] == base + k
  {
    assert body[..|body|] == body;
  }

  /** ids are the values that the first k blocks of body define. */
  ghost predicate DefinedFirst(ids: set<nat>, blocks: seq<Block>, body: seq<nat>, k: nat)
    requires InBounds(blocks, body) && k <= |body|
  {
    ids == DefinedIn(blocks, body[..k])
  }

  lemma NothingDefined(blocks: seq<Block>, body: seq<nat>)
    requires InBounds(blocks, body)
    ensures DefinedFirst({}, blocks, body, 0)
  {
    assert DefinedIn(blocks, body[..0]) == {};
  }

  lemma AllDefined(ids: set<nat>, blocks: seq<Block>, body: seq<nat>, shift: nat)
    requires InBounds(blocks, body) && DefinedFirst(ids, blocks, body, |body|)
    ensures ids == DefinedIn(blocks, body) && Undo(ids, shift) == CloneBack(blocks, body, shift)
  {
    assert body[..|body|] == body;
  }

  lemma OnlyExitOutside(blocks: seq<Block>, body: seq<nat>, exit: nat, k: nat)
    requires Shaped(blocks, body, exit) && k < |body|
    ensures forall s :: s in blocks[body[k]].succs ==> s in body || s == exit
    ensures exit in blocks[body[0]].succs
  {
    if k > 0 { assert blocks[body[k]].succs == if k < |body| - 1 then [body[k + 1]] else [body[0]]; }
  }

  function Renumbered(ids: set<nat>, shift: nat): map<nat, nat> {
    map v | v in ids :: v + shift
  }

  lemma UndoNothing(shift: nat)
    ensures Undo({}, shift) == map[] && Renumbered({}, shift) == map[]
  {
  }

  lemma UndoMore(ids: set<nat>, v: nat, shift: nat)
    ensures Undo(ids + {v}, shift) == Undo(ids, shift)[v + shift := v]
    ensures Renumbered(ids + {v}, shift) == Renumbered(ids, shift)[v := v + shift]
  {
    hide Undo;
    var more, updated := Undo(ids + {v}, shift), Undo(ids, shift)[v + shift := v];
    forall w: nat ensures w in more <==> w in updated {
    }
  }

  lemma MoreDefined(ids: set<nat>, blocks: seq<Block>, body: seq<nat>, k: nat)
    requires InBounds(blocks, body) && k < |body| && DefinedFirst(ids, blocks, body, k)
    ensures DefinedFirst(ids + Defined(blocks[body[k]]), blocks, body, k + 1)
  {
    hide Defined;
    var more := body[..k + 1];
    assert more[k] == body[k] && forall i :: 0 <= i < k ==> more[i] == body[..k][i];
  }

  /** CloneBasicBlock, and the entries of its instructions in the two maps. */
  method CloneBlock(b: Block, shift: nat, instMap0: map<nat, nat>, valueMap0: map<nat, nat>, ghost ids: set<nat>)
    returns (c: Block, instMap: map<nat, nat>, valueMap: map<nat, nat>)
    requires instMap0 == Undo(ids, shift) && valueMap0 == Renumbered(ids, shift)
    ensures c == Copied(b, shift)
    ensures instMap == Undo(ids + Defined(b), shift) && valueMap == Renumbered(ids + Defined(b), shift)
  {
    hide Undo, Renumbered;
    var phis, insts, branch := [], [], b.branch.(id := b.branch.id + shift);
    instMap, valueMap := instMap0, valueMap0;
    ghost var all := ids;
    for i := 0 to |b.phis|
      invariant |phis| == i && forall j :: 0 <= j < i ==> phis[j] == b.phis[j].(id := b.phis[j].id + shift)
      invariant all == ids + (set j | 0 <= j < i :: b.phis[j].id)
      invariant instMap == Undo(all, shift) && valueMap == Renumbered(all, shift)
    {
      var v := b.phis[i].id;
      phis := phis + [b.phis[i].(id := v + shift)];
      UndoMore(all, v, shift);
      instMap, valueMap := instMap[v + shift := v], valueMap[v := v + shift];
      all := all + {v};
    }
    ghost var ofPhis := all;
    for i := 0 to |b.insts|
      invariant |insts| == i && forall j :: 0 <= j < i ==> insts[j] == b.insts[j].(id := b.insts[j].id + shift)
      invariant all == ofPhis + (set j | 0 <= j < i :: b.insts[j].id)
      invariant instMap == Undo(all, shift) && valueMap == Renumbered(all, shift)
    {
      var v := b.insts[i].id;
      insts := insts + [b.insts[i].(id := v + shift)];
      UndoMore(all, v, shift);
      instMap, valueMap := instMap[v + shift := v], valueMap[v := v + shift];
      all := all + {v};
    }
    var v := b.branch.id;
    UndoMore(all, v, shift);
    instMap, valueMap := instMap[v + shift := v], valueMap[v := v + shift];
    assert all + {v} == ids + Defined(b);
    assert phis == Copied(b, shift).phis && insts == Copied(b, shift).insts;
    c := Block(phis, insts, branch, b.succs, b.ended);
  }

  lemma ChainParts(blocks: seq<Block>, body: seq<nat>, pre: nat, exit: nat)
    requires Chain(blocks, body, pre, exit)
    ensures Shaped(blocks, body, exit) && |body| >= 2 && Entered(blocks, body, pre) && Different(body) && InBounds(blocks, body)
    ensures exit < |blocks| && exit !in body && pre < |blocks| && pre !in body
  {
  }
}
