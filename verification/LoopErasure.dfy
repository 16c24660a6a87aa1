/** Erasing from a copy of the loop what belongs to the other copies: block by block and instruction by
    instruction, from the last to the first. */
module LoopErasure {
  import opened LoopSplit
  import opened LoopCopies
  import opened SplitPass

  // ---------- what is left of a block ----------

  /** The instructions of the group, traced back. */
  function Kept(insts: seq<Instr>, scc: seq<nat>, back: map<nat, nat>): (r: seq<Instr>)
    ensures forall x :: x in r ==> x in insts && Origin(back, x.id) in scc
  {
    if insts == [] then []
    else (if Origin(back, insts[0].id) in scc then [insts[0]] else []) + Kept(insts[1..], scc, back)
  }

  /** The instructions that may be erased, but for the branch, and those behind them. */
  function Front(b: Block, latch: bool): seq<Instr> {
    if latch && b.insts != [] then b.insts[..|b.insts| - 1] else b.insts
  }

  function Rest(b: Block, latch: bool): seq<Instr> {
    if latch && b.insts != [] then [b.insts[|b.insts| - 1]] else []
  }

  /** The block when its instructions from j on have been looked at. */
  function Partly(b: Block, scc: seq<nat>, back: map<nat, nat>, latch: bool, j: nat): Block
    requires j <= Erasables(b, latch)
  {
    if j > |Front(b, latch)| then b
    else
      var r := b.(insts := Front(b, latch)[..j] + Kept(Front(b, latch)[j..], scc, back) + Rest(b, latch));
      if !latch && Origin(back, b.branch.id) !in scc then r.(succs := [], ended := false) else r
  }

  /** The block when all of them have been. */
  function Thin(b: Block, scc: seq<nat>, back: map<nat, nat>, latch: bool): Block {
    Partly(b, scc, back, latch, 0)
  }

  /** The function when the blocks of the loop from the k-th on have been thinned. */
  function EraseFrom(blocks: seq<Block>, body: seq<nat>, scc: seq<nat>, back: map<nat, nat>, k: nat): (r: seq<Block>)
    requires 0 < k <= |body|
    ensures |r| == |blocks|
    ensures forall i :: 0 <= i < |r| ==>
      r[i] == if i in body[k..] then Thin(blocks[i], scc, back, i == body[|body| - 1]) else blocks[i]
  {
    seq(|blocks|, i requires 0 <= i < |blocks| =>
      if i in body[k..] then Thin(blocks[i], scc, back, i == body[|body| - 1]) else blocks[i])
  }

  /** Instruction j of a block, without it. */
  function WithoutItem(b: Block, j: nat): Block
    requires j <= |b.insts|
  {
    if j < |b.insts| then b.(insts := b.insts[..j] + b.insts[j + 1..]) else b.(succs := [], ended := false)
  }

  lemma {:induction false} KeptJoined(a: seq<Instr>, c: seq<Instr>, scc: seq<nat>, back: map<nat, nat>)
    ensures Kept(a + c, scc, back) == Kept(a, scc, back) + Kept(c, scc, back)
  {
    if a == [] {
      assert a + c == c;
    } else {
      assert (a + c)[1..] == a[1..] + c;
      KeptJoined(a[1..], c, scc, back);
    }
  }

  lemma KeptStep(insts: seq<Instr>, scc: seq<nat>, back: map<nat, nat>, j: nat)
    requires j < |insts|
    ensures Kept(insts[j..], scc, back)
         == (if Origin(back, insts[j].id) in scc then [insts[j]] else []) + Kept(insts[j + 1..], scc, back)
  {
    assert insts[j..][1..] == insts[j + 1..];
  }

  lemma TakeOut(a: seq<Instr>, x: Instr, s: seq<Instr>, e: seq<Instr>)
    ensures var was := a + [x] + s + e;
            was[|a|] == x && was[..|a|] + was[|a| + 1..] == a + s + e && was == a + ([x] + s) + e
  {
  }

  lemma FrontSize(b: Block, latch: bool)
    ensures Front(b, latch) + Rest(b, latch) == b.insts
    ensures Erasables(b, latch) == if latch then |Front(b, latch)| else |b.insts| + 1
    ensures !latch ==> Front(b, latch) == b.insts
  {
  }

  /** What the test of instruction j does. */
  lemma PartlyStep(b: Block, scc: seq<nat>, back: map<nat, nat>, latch: bool, j: nat)
    requires j < Erasables(b, latch)
    ensures var was := Partly(b, scc, back, latch, j + 1);
            && j <= |was.insts| && ItemAt(was, j) == ItemAt(b, j)
            && Partly(b, scc, back, latch, j) == if Origin(back, ItemAt(b, j).id) in scc then was else WithoutItem(was, j)
  {
    hide Kept, Origin;
    FrontSize(b, latch);
    var front, rest := Front(b, latch), Rest(b, latch);
    if j < |front| {
      KeptStep(front, scc, back, j);
      assert front[..j + 1] == front[..j] + [front[j]];
      TakeOut(front[..j], front[j], Kept(front[j + 1..], scc, back), rest);
    } else {
      assert front[j..] == [];
      KeptNone(scc, back);
      assert front[..j] + [] + [] == b.insts;
    }
  }

  lemma KeptNone(scc: seq<nat>, back: map<nat, nat>)
    ensures Kept([], scc, back) == []
  {
  }

  lemma PartlyNone(b: Block, scc: seq<nat>, back: map<nat, nat>, latch: bool)
    ensures Partly(b, scc, back, latch, Erasables(b, latch)) == b
  {
    FrontSize(b, latch);
    var front := Front(b, latch);
    if latch { assert front[..|front|] + [] + Rest(b, latch) == b.insts; }
  }

  // ---------- nothing erased is still used ----------

  /** Instructions that use one another are in a group together or not at all. */
  ghost predicate Together(blocks: seq<Block>, body: seq<nat>, scc: seq<nat>, back: map<nat, nat>, k: nat, j: nat, l: nat, m: nat)
    requires InBounds(blocks, body) && Erasable(blocks, body, k, j) && Erasable(blocks, body, l, m)
  {
    ItemUses(blocks, body, l, m, ItemAt(blocks[body[k]], j).id) ==>
    (Origin(back, ItemAt(blocks[body[k]], j).id) in scc <==> Origin(back, ItemAt(blocks[body[l]], m).id) in scc)
  }

  ghost predicate Closed(blocks: seq<Block>, body: seq<nat>, scc: seq<nat>, back: map<nat, nat>)
    requires InBounds(blocks, body)
  {
    forall k: nat, j: nat, l: nat, m: nat {:trigger Together(blocks, body, scc, back, k, j, l, m)} ::
      Erasable(blocks, body, k, j) && Erasable(blocks, body, l, m) ==> Together(blocks, body, scc, back, k, j, l, m)
  }

  /** Nothing in the function uses v. */
  ghost predicate Unused(blocks: seq<Block>, v: nat) {
    forall c: nat :: c < |blocks| ==> !UsedIn(v, blocks[c])
  }

  /** Where an instruction that is left stood in the block. */
  lemma LeftFrom(b: Block, scc: seq<nat>, back: map<nat, nat>, latch: bool, j: nat, i: nat) returns (m: nat)
    requires j <= Erasables(b, latch) && i < |Partly(b, scc, back, latch, j).insts|
    ensures m < |b.insts| && b.insts[m] == Partly(b, scc, back, latch, j).insts[i]
    ensures j <= m < Erasables(b, latch) ==> Origin(back, b.insts[m].id) in scc
  {
    hide Kept, Origin;
    FrontSize(b, latch);
    var front, rest := Front(b, latch), Rest(b, latch);
    if j > |front| || i < j {
      m := i;
    } else {
      var kept := Kept(front[j..], scc, back);
      assert Partly(b, scc, back, latch, j).insts == front[..j] + kept + rest;
      if i < j + |kept| {
        assert Partly(b, scc, back, latch, j).insts[i] == kept[i - j];
        assert kept[i - j] in kept;
        var h :| 0 <= h < |front[j..]| && front[j..][h] == kept[i - j];
        m := j + h;
        assert b.insts[m] == front[m];
      } else {
        m := |b.insts| - 1;
      }
    }
  }

  /** Which instruction of the block a use that is left stands in. */
  lemma UseLeft(b: Block, scc: seq<nat>, back: map<nat, nat>, latch: bool, j: nat, v: nat) returns (m: nat)
    requires j <= Erasables(b, latch) && b.phis == [] && UsedIn(v, Partly(b, scc, back, latch, j))
    ensures m <= |b.insts| && Def(v) in ItemAt(b, m).args
    ensures j <= m < Erasables(b, latch) ==> Origin(back, ItemAt(b, m).id) in scc
  {
    BranchLeft(b, scc, back, latch, j);
    hide Partly, Origin;
    var now := Partly(b, scc, back, latch, j);
    if i: nat :| i < |now.insts| && Def(v) in now.insts[i].args {
      m := LeftFrom(b, scc, back, latch, j, i);
    } else {
      m := |b.insts|;
    }
  }

  lemma BranchLeft(b: Block, scc: seq<nat>, back: map<nat, nat>, latch: bool, j: nat)
    requires j <= Erasables(b, latch)
    ensures var now := Partly(b, scc, back, latch, j);
            && now.phis == b.phis && now.branch == b.branch
            && (now.ended && j <= |b.insts| < Erasables(b, latch) ==> Origin(back, b.branch.id) in scc)
  {
    hide Kept, Origin;
    FrontSize(b, latch);
  }

  /** The function while instruction j of block k is looked at: all later ones have been. */
  function During(blocks: seq<Block>, body: seq<nat>, scc: seq<nat>, back: map<nat, nat>, k: nat, j: nat): (r: seq<Block>)
    requires InBounds(blocks, body) && 0 < k < |body| && j <= Erasables(blocks[body[k]], k == |body| - 1)
    ensures |r| == |blocks|
  {
    EraseFrom(blocks, body, scc, back, k + 1)[body[k] := Partly(blocks[body[k]], scc, back, k == |body| - 1, j)]
  }

  lemma DuringBlock(blocks: seq<Block>, body: seq<nat>, scc: seq<nat>, back: map<nat, nat>, k: nat, j: nat, l: nat)
    requires InBounds(blocks, body) && Different(body) && 0 < k < |body| && j <= Erasables(blocks[body[k]], k == |body| - 1) && l < |body|
    ensures During(blocks, body, scc, back, k, j)[body[l]]
         == if l < k then blocks[body[l]] else Partly(blocks[body[l]], scc, back, l == |body| - 1, if l == k then j else 0)
  {
    hide Partly;
    if body[l] in body[k + 1..] {
      var i :| 0 <= i < |body[k + 1..]| && body[k + 1..][i] == body[l];
      assert body[k + 1 + i] == body[l];
    }
    if l > k { assert body[k + 1..][l - k - 1] == body[l]; }
  }

  lemma DuringOther(blocks: seq<Block>, body: seq<nat>, scc: seq<nat>, back: map<nat, nat>, k: nat, j: nat, c: nat)
    requires InBounds(blocks, body) && 0 < k < |body| && j <= Erasables(blocks[body[k]], k == |body| - 1)
    requires c < |blocks| && c !in body[1..]
    ensures During(blocks, body, scc, back, k, j)[c] == blocks[c]
  {
    assert body[k] == body[1..][k - 1];
    assert body[k + 1..] == body[1..][k..];
  }

  /** An instruction of another group has no use left when the erasing loop comes to it. */
  lemma NoUseLeft(blocks: seq<Block>, body: seq<nat>, scc: seq<nat>, back: map<nat, nat>, k: nat, j: nat)
    requires InBounds(blocks, body) && Different(body) && Private(blocks, body) && Closed(blocks, body, scc, back)
    requires Erasable(blocks, body, k, j) && Origin(back, ItemAt(blocks[body[k]], j).id) !in scc
    ensures Unused(During(blocks, body, scc, back, k, j + 1), ItemAt(blocks[body[k]], j).id)
  {
    hide During, Partly, UsedIn, Different, ItemAt, Origin, OnlyLater;
    var now, v := During(blocks, body, scc, back, k, j + 1), ItemAt(blocks[body[k]], j).id;
    assert PrivateAt(blocks, body, k, j);
    forall c: nat | c < |now| && UsedIn(v, now[c]) ensures false {
      if c in body[1..] {
        InTail(body, c);
        var l: nat :| 0 < l < |body| && body[l] == c;
        DuringBlock(blocks, body, scc, back, k, j + 1, l);
        UseLeftLater(blocks, body, scc, back, k, j, l, now[c]);
      } else {
        DuringOther(blocks, body, scc, back, k, j + 1, c);
      }
    }
  }

  lemma UsersTogether(blocks: seq<Block>, body: seq<nat>, scc: seq<nat>, back: map<nat, nat>, k: nat, j: nat, l: nat, m: nat)
    requires InBounds(blocks, body) && Closed(blocks, body, scc, back) && Erasable(blocks, body, k, j) && Erasable(blocks, body, l, m)
    requires ItemUses(blocks, body, l, m, ItemAt(blocks[body[k]], j).id)
    ensures Origin(back, ItemAt(blocks[body[k]], j).id) in scc <==> Origin(back, ItemAt(blocks[body[l]], m).id) in scc
  {
    assert Together(blocks, body, scc, back, k, j, l, m);
  }

  lemma UseLeftLater(blocks: seq<Block>, body: seq<nat>, scc: seq<nat>, back: map<nat, nat>, k: nat, j: nat, l: nat, now: Block)
    requires InBounds(blocks, body) && Private(blocks, body) && Closed(blocks, body, scc, back)
    requires Erasable(blocks, body, k, j) && Origin(back, ItemAt(blocks[body[k]], j).id) !in scc && 0 < l < |body|
    requires now == if l < k then blocks[body[l]] else Partly(blocks[body[l]], scc, back, l == |body| - 1, if l == k then j + 1 else 0)
    ensures !UsedIn(ItemAt(blocks[body[k]], j).id, now)
  {
    hide UsedIn, ItemAt, Origin, Partly;
    var b, latch, v := blocks[body[l]], l == |body| - 1, ItemAt(blocks[body[k]], j).id;
    assert PrivateAt(blocks, body, k, j);
    if UsedIn(v, now) {
      PartlyNone(b, scc, back, latch);
      var m := UseLeft(b, scc, back, latch, if l < k then Erasables(b, latch) else if l == k then j + 1 else 0, v);
      assert ItemUses(blocks, body, l, m, v);
      UsersTogether(blocks, body, scc, back, k, j, l, m);
    }
  }

  // ---------- the erasing loops ----------

  /** scc_contains. */
  method Contains(scc: seq<nat>, v: nat) returns (r: bool)
    ensures r <==> v in scc
  {
    for i := 0 to |scc|
      invariant v !in scc[..i]
    {
      if scc[i] == v { return true; }
    }
    assert scc[..|scc|] == scc;
    return false;
  }

  /** eraseFromParent, which wants no use to be left; without its branch a block has no end. */
  method EraseFromParent(f: Function, b: nat, j: nat)
    requires b < |f.blocks| && j <= |f.blocks[b].insts| && Unused(f.blocks, ItemAt(f.blocks[b], j).id)
    modifies f`blocks
    ensures f.blocks == old(f.blocks)[b := WithoutItem(old(f.blocks[b]), j)]
  {
    var was := f.blocks[b];
    if j < |was.insts| {
      f.blocks := f.blocks[b := was.(insts := was.insts[..j] + was.insts[j + 1..])];
    } else {
      f.blocks := f.blocks[b := was.(succs := [], ended := false)];
    }
  }

  ghost predicate Known(blocks: seq<Block>, body: seq<nat>, back: map<nat, nat>)
    requires InBounds(blocks, body)
  {
    forall k: nat, j: nat {:trigger Erasable(blocks, body, k, j)} :: Erasable(blocks, body, k, j) ==> ItemAt(blocks[body[k]], j).id in back
  }

  lemma DuringEnds(blocks: seq<Block>, body: seq<nat>, scc: seq<nat>, back: map<nat, nat>, k: nat)
    requires InBounds(blocks, body) && Different(body) && 0 < k < |body|
    ensures During(blocks, body, scc, back, k, Erasables(blocks[body[k]], k == |body| - 1)) == EraseFrom(blocks, body, scc, back, k + 1)
    ensures During(blocks, body, scc, back, k, 0) == EraseFrom(blocks, body, scc, back, k)
  {
    hide Partly, Different;
    var latch := k == |body| - 1;
    PartlyNone(blocks[body[k]], scc, back, latch);
    assert body[k..] == [body[k]] + body[k + 1..];
    NotLater(body, k);
    assert (body[k] == body[|body| - 1]) == latch by { if !latch { DifferentAt(body, k, |body| - 1); } }
  }

  lemma NotLater(body: seq<nat>, k: nat)
    requires Different(body) && k < |body|
    ensures body[k] !in body[k + 1..]
  {
  }

  lemma DuringStep(blocks: seq<Block>, body: seq<nat>, scc: seq<nat>, back: map<nat, nat>, k: nat, j: nat)
    requires InBounds(blocks, body) && Different(body) && Erasable(blocks, body, k, j)
    ensures var was := During(blocks, body, scc, back, k, j + 1);
            && |was| == |blocks| && j <= |was[body[k]].insts| && ItemAt(was[body[k]], j) == ItemAt(blocks[body[k]], j)
            && During(blocks, body, scc, back, k, j)
               == if Origin(back, ItemAt(blocks[body[k]], j).id) in scc then was else was[body[k] := WithoutItem(was[body[k]], j)]
  {
    hide Partly, Different, WithoutItem, ItemAt, Origin;
    PartlyStep(blocks[body[k]], scc, back, k == |body| - 1, j);
  }

  /** The reverse loop over one block, for the loop that keeps group scc. */
  method EraseInBlock(f: Function, body: seq<nat>, k: nat, scc: seq<nat>, cloned: bool, instMap: map<nat, nat>, ghost before: seq<Block>)
    requires InBounds(before, body) && Different(body) && 0 < k < |body|
    requires Private(before, body) && Closed(before, body, scc, instMap)
    requires if cloned then Known(before, body, instMap) else instMap == map[]
    requires f.blocks == EraseFrom(before, body, scc, instMap, k + 1)
    modifies f`blocks
    ensures f.blocks == EraseFrom(before, body, scc, instMap, k)
  {
    hide Unused, Closed, Private, Partly, During, EraseFrom, Different, ItemAt, WithoutItem;
    var b, latch := body[k], k == |body| - 1;
    DuringEnds(before, body, scc, instMap, k);
    PrivateSize(before, body);
    ThickBlock(before, body, scc, instMap, k);
    var j := if latch then |f.blocks[b].insts| - 1 else |f.blocks[b].insts| + 1;
    while j > 0
      invariant 0 <= j <= Erasables(before[b], latch)
      invariant f.blocks == During(before, body, scc, instMap, k, j)
    {
      j := j - 1;
      assert Erasable(before, body, k, j);
      DuringStep(before, body, scc, instMap, k, j);
      var v := ItemAt(f.blocks[b], j).id;
      var origin := if cloned then instMap[v] else v;
      var kept := Contains(scc, origin);
      if !kept {
        NoUseLeft(before, body, scc, instMap, k, j);
        EraseFromParent(f, b, j);
      }
    }
  }

  lemma PrivateSize(blocks: seq<Block>, body: seq<nat>)
    requires InBounds(blocks, body) && Private(blocks, body)
    ensures |body| > 1 && |blocks[body[|body| - 1]].insts| > 0
    ensures forall k :: 0 < k < |body| ==> blocks[body[k]].phis == []
  {
  }

  lemma ThickBlock(blocks: seq<Block>, body: seq<nat>, scc: seq<nat>, back: map<nat, nat>, k: nat)
    requires InBounds(blocks, body) && Different(body) && 0 < k < |body|
    ensures EraseFrom(blocks, body, scc, back, k + 1)[body[k]] == blocks[body[k]]
  {
    NotLater(body, k);
  }

  /** The loop over the blocks, from the last to the first, without the header. */
  method EraseOthers(f: Function, body: seq<nat>, scc: seq<nat>, cloned: bool, instMap: map<nat, nat>)
    requires InBounds(f.blocks, body) && Different(body) && Private(f.blocks, body) && Closed(f.blocks, body, scc, instMap)
    requires if cloned then Known(f.blocks, body, instMap) else instMap == map[]
    modifies f`blocks
    ensures f.blocks == EraseFrom(old(f.blocks), body, scc, instMap, 1)
  {
    hide Closed, Private, EraseFrom, Different, Known;
    ghost var before := f.blocks;
    PrivateSize(before, body);
    NothingThinned(before, body, scc, instMap);
    var head := body[0];
    for k := |body| downto 0
      invariant f.blocks == EraseFrom(before, body, scc, instMap, if k == 0 then 1 else k)
    {
      if body[k] != head {
        EraseInBlock(f, body, k, scc, cloned, instMap, before);
      } else {
        if k > 0 { DifferentAt(body, 0, k); }
      }
    }
  }

  lemma NothingThinned(blocks: seq<Block>, body: seq<nat>, scc: seq<nat>, back: map<nat, nat>)
    requires |body| > 0
    ensures EraseFrom(blocks, body, scc, back, |body|) == blocks
  {
  }
}
