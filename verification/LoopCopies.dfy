/** Clones as copies of the loop: every clone is the loop with its values moved, and what only later erasable
    instructions of the loop use is, in the clone, only used by later erasable instructions of the clone. */
module LoopCopies {
  import opened LoopSplit

  // ---------- copies and where they come from ----------

  /** The operands, with the values in ids moved up by shift. */
  function MovedArgs(os: seq<Operand>, ids: set<nat>, shift: nat): (r: seq<Operand>)
    ensures |r| == |os|
  {
    Renaming([], 0, ids, shift).OnOperands(os)
  }

  function Moved(x: Instr, ids: set<nat>, shift: nat): Instr {
    Instr(x.id + shift, x.opcode, MovedArgs(x.args, ids, shift))
  }

  /** Block c does what block b does, on values that are moved up by shift. */
  ghost predicate CopyBlock(c: Block, b: Block, ids: set<nat>, shift: nat) {
    && c.ended == b.ended && c.branch == Moved(b.branch, ids, shift)
    && |c.phis| == |b.phis|
    && (forall i :: 0 <= i < |c.phis| ==> c.phis[i].id == b.phis[i].id + shift && c.phis[i].vals == MovedArgs(b.phis[i].vals, ids, shift))
    && |c.insts| == |b.insts|
    && (forall i :: 0 <= i < |c.insts| ==> c.insts[i] == Moved(b.insts[i], ids, shift))
  }

  /** The blocks of copy are those that orig had in body, moved up by shift. */
  ghost predicate CopyOf(orig: seq<Block>, body: seq<nat>, blocks: seq<Block>, copy: seq<nat>, shift: nat)
    requires InBounds(orig, body)
  {
    && |copy| == |body| && InBounds(blocks, copy)
    && forall k {:trigger copy[k]} :: 0 <= k < |copy| ==> CopyBlock(blocks[copy[k]], orig[body[k]], DefinedIn(orig, body), shift)
  }

  /** Where a value comes from: instMap, for the values it knows. */
  function Origin(back: map<nat, nat>, v: nat): nat {
    if v in back then back[v] else v
  }

  function Shifted(ids: set<nat>, shift: nat): set<nat> {
    set v | v in ids :: v + shift
  }

  lemma ShiftedContent(ids: set<nat>, shift: nat, w: nat)
    ensures w in Shifted(ids, shift) <==> w >= shift && w - shift in ids
  {
    if w >= shift && w - shift in ids {
      var v: nat := w - shift;
      assert v in ids && v + shift == w;
    }
  }

  /** From the copies of the values in ids back to the values. */
  function Undo(ids: set<nat>, shift: nat): (r: map<nat, nat>)
    ensures forall w: nat {:trigger w in r} :: w in r <==> w >= shift && w - shift in ids
    ensures forall w: nat :: w in r ==> r[w] == w - shift
  {
    var r := map w | w in Shifted(ids, shift) :: if w >= shift then w - shift else 0;
    assert forall w: nat {:trigger w in r} :: w in r <==> w >= shift && w - shift in ids by {
      forall w: nat ensures w in r <==> w >= shift && w - shift in ids { ShiftedContent(ids, shift, w); }
    }
    r
  }

  /** The instMap of a new clone. */
  function CloneBack(blocks: seq<Block>, body: seq<nat>, shift: nat): map<nat, nat>
    requires InBounds(blocks, body)
  {
    Undo(DefinedIn(blocks, body), shift)
  }

  lemma NotMoved(os: seq<Operand>, ids: set<nat>)
    ensures MovedArgs(os, ids, 0) == os
  {
  }

  lemma RenamedIsMoved(ren: Renaming, os: seq<Operand>)
    ensures ren.OnOperands(os) == MovedArgs(os, ren.ids, ren.shift)
  {
    hide Renaming.OnOperand;
    forall i | 0 <= i < |os| ensures ren.OnOperand(os[i]) == Renaming([], 0, ren.ids, ren.shift).OnOperand(os[i]) {
      OperandMoved(ren, os[i]);
    }
  }

  lemma OperandMoved(ren: Renaming, o: Operand)
    ensures ren.OnOperand(o) == Renaming([], 0, ren.ids, ren.shift).OnOperand(o)
  {
  }

  lemma NotMovedBlock(c: Block, b: Block, ids: set<nat>)
    requires CopyBlock(c, b, ids, 0)
    ensures c.insts == b.insts && c.branch == b.branch && c.ended == b.ended && |c.phis| == |b.phis|
    ensures forall i :: 0 <= i < |c.phis| ==> c.phis[i].id == b.phis[i].id && c.phis[i].vals == b.phis[i].vals
  {
    hide MovedArgs;
    forall os ensures MovedArgs(os, ids, 0) == os { NotMoved(os, ids); }
  }

  lemma OwnCopy(blocks: seq<Block>, body: seq<nat>)
    requires InBounds(blocks, body)
    ensures CopyOf(blocks, body, blocks, body, 0)
  {
    hide MovedArgs, DefinedIn;
    forall os, ids ensures MovedArgs(os, ids, 0) == os { NotMoved(os, ids); }
  }

  lemma SameDefined(orig: seq<Block>, blocks: seq<Block>, body: seq<nat>)
    requires InBounds(orig, body) && CopyOf(orig, body, blocks, body, 0)
    ensures DefinedIn(blocks, body) == DefinedIn(orig, body)
  {
    hide CopyBlock;
    forall k | 0 <= k < |body| ensures Defined(blocks[body[k]]) == Defined(orig[body[k]]) {
      NotMovedBlock(blocks[body[k]], orig[body[k]], DefinedIn(orig, body));
    }
  }

  lemma RenamingParts(blocks: seq<Block>, body: seq<nat>, shift: nat)
    requires InBounds(blocks, body)
    ensures CloneRenaming(blocks, body, shift).ids == DefinedIn(blocks, body) && CloneRenaming(blocks, body, shift).shift == shift
  {
  }

  /** The new clone is the loop with its values moved. */
  lemma CloneIsCopy(blocks: seq<Block>, body: seq<nat>, pre: nat, exit: nat, shift: nat, k: nat)
    requires k < |body| && InBounds(blocks, body)
    ensures CopyBlock(Splice(blocks, body, pre, exit, shift)[|blocks| + k], blocks[body[k]], DefinedIn(blocks, body), shift)
  {
    hide DefinedIn, Spliced, Splice, CloneRenaming, MovedArgs, Renaming.OnOperands;
    CloneFields(blocks, body, pre, exit, shift, k);
    RenamingParts(blocks, body, shift);
    var ren := CloneRenaming(blocks, body, shift);
    forall os ensures ren.OnOperands(os) == MovedArgs(os, ren.ids, ren.shift) { RenamedIsMoved(ren, os); }
  }

  lemma KeptCopy(orig: seq<Block>, blocks: seq<Block>, body: seq<nat>, pre: nat, exit: nat, shift: nat, copy: seq<nat>, s: nat)
    requires |body| > 0 && InBounds(blocks, body) && InBounds(orig, body) && CopyOf(orig, body, blocks, copy, s)
    ensures CopyOf(orig, body, Splice(blocks, body, pre, exit, shift), copy, s)
  {
    hide DefinedIn, Spliced, Moved, MovedArgs;
    forall k | 0 <= k < |copy| ensures CopyBlock(Splice(blocks, body, pre, exit, shift)[copy[k]], orig[body[k]], DefinedIn(orig, body), s) {
      KeptFields(blocks, body, pre, exit, shift, copy[k]);
    }
  }

  /** After a splice the clone is a copy of the loop, and the earlier copies still are. */
  lemma SpliceKeepsCopies(orig: seq<Block>, blocks: seq<Block>, body: seq<nat>, pre: nat, exit: nat, shift: nat)
    requires |body| > 0 && InBounds(orig, body) && InBounds(blocks, body) && CopyOf(orig, body, blocks, body, 0)
    ensures CopyOf(orig, body, Splice(blocks, body, pre, exit, shift), CloneOf(blocks, body), shift)
    ensures CloneBack(blocks, body, shift) == Undo(DefinedIn(orig, body), shift)
    ensures forall copy, s :: CopyOf(orig, body, blocks, copy, s) ==> CopyOf(orig, body, Splice(blocks, body, pre, exit, shift), copy, s)
  {
    hide Spliced, Splice, DefinedIn, CopyBlock;
    var r, clone := Splice(blocks, body, pre, exit, shift), CloneOf(blocks, body);
    SameDefined(orig, blocks, body);
    forall k | 0 <= k < |body| ensures CopyBlock(r[clone[k]], orig[body[k]], DefinedIn(orig, body), shift) {
      CloneIsCopy(blocks, body, pre, exit, shift, k);
      SameCopy(r[clone[k]], blocks[body[k]], orig[body[k]], DefinedIn(orig, body), shift);
    }
    forall copy, s | CopyOf(orig, body, blocks, copy, s) ensures CopyOf(orig, body, r, copy, s) {
      KeptCopy(orig, blocks, body, pre, exit, shift, copy, s);
    }
  }

  lemma SameCopy(c: Block, b: Block, b': Block, ids: set<nat>, shift: nat)
    requires CopyBlock(c, b, ids, shift) && CopyBlock(b, b', ids, 0)
    ensures CopyBlock(c, b', ids, shift)
  {
    NotMovedBlock(b, b', ids);
  }

  // ---------- values that only later erasable instructions use ----------

  /** Instruction j of a block; the branch comes last. */
  function ItemAt(b: Block, j: nat): Instr
    requires j <= |b.insts|
  {
    if j < |b.insts| then b.insts[j] else b.branch
  }

  /** How many instructions of a block the splitting may erase: all, but in the latch all but the last two. */
  function Erasables(b: Block, latch: bool): nat {
    if latch then if |b.insts| == 0 then 0 else |b.insts| - 1 else |b.insts| + 1
  }

  /** Instruction j of block k of the loop may be erased. */
  predicate Erasable(blocks: seq<Block>, body: seq<nat>, k: nat, j: nat)
    requires InBounds(blocks, body)
  {
    0 < k < |body| && j < Erasables(blocks[body[k]], k == |body| - 1)
  }

  /** Instruction m of block l uses v. */
  predicate ItemUses(blocks: seq<Block>, body: seq<nat>, l: nat, m: nat, v: nat)
    requires InBounds(blocks, body)
  {
    l < |body| && m <= |blocks[body[l]].insts| && Def(v) in ItemAt(blocks[body[l]], m).args
  }

  ghost predicate UsedIn(v: nat, b: Block) {
    || (exists i :: 0 <= i < |b.phis| && Def(v) in b.phis[i].vals)
    || (exists i :: 0 <= i < |b.insts| && Def(v) in b.insts[i].args)
    || (b.ended && Def(v) in b.branch.args)
  }

  predicate Before(k: nat, j: nat, l: nat, m: nat) {
    k < l || (k == l && j < m)
  }

  /** Nothing outside the blocks after the header uses v. */
  ghost predicate OnlyInside(blocks: seq<Block>, body: seq<nat>, v: nat)
    requires |body| > 0
  {
    forall c: nat {:trigger UsedIn(v, blocks[c])} :: c < |blocks| && UsedIn(v, blocks[c]) ==> c in body[1..]
  }

  /** Only later erasable instructions of the loop use v. */
  ghost predicate OnlyLater(blocks: seq<Block>, body: seq<nat>, k: nat, j: nat, v: nat)
    requires InBounds(blocks, body)
  {
    forall l: nat, m: nat {:trigger ItemUses(blocks, body, l, m, v)} :: 0 < l && ItemUses(blocks, body, l, m, v) ==>
      Erasable(blocks, body, l, m) && Before(k, j, l, m)
  }

  ghost predicate PrivateAt(blocks: seq<Block>, body: seq<nat>, k: nat, j: nat)
    requires InBounds(blocks, body) && Erasable(blocks, body, k, j)
  {
    var v := ItemAt(blocks[body[k]], j).id;
    OnlyInside(blocks, body, v) && OnlyLater(blocks, body, k, j, v)
  }

  /** The blocks after the header: no phi nodes, a latch with an instruction before its branch, and no use of
      what may be erased but in later instructions that may be erased. */
  ghost predicate Private(blocks: seq<Block>, body: seq<nat>)
    requires InBounds(blocks, body)
  {
    && |body| > 1
    && (forall k :: 0 < k < |body| ==> blocks[body[k]].phis == [])
    && |blocks[body[|body| - 1]].insts| > 0
    && forall k: nat, j: nat {:trigger PrivateAt(blocks, body, k, j)} {:trigger Erasable(blocks, body, k, j)} ::
         Erasable(blocks, body, k, j) ==> PrivateAt(blocks, body, k, j)
  }

  lemma KeptUses(blocks: seq<Block>, body: seq<nat>, pre: nat, exit: nat, shift: nat, i: nat, v: nat)
    requires |body| > 0 && InBounds(blocks, body) && i < |blocks|
    ensures UsedIn(v, Splice(blocks, body, pre, exit, shift)[i]) <==> UsedIn(v, blocks[i])
  {
    hide DefinedIn, Spliced;
    KeptFields(blocks, body, pre, exit, shift, i);
  }

  /** What a moved operand was. */
  lemma MovedUse(os: seq<Operand>, ids: set<nat>, shift: nat, v: nat)
    requires Def(v) in MovedArgs(os, ids, shift)
    ensures (v !in ids && Def(v) in os) || (v >= shift && v - shift in ids && Def(v - shift) in os)
  {
    var ren := Renaming([], 0, ids, shift);
    var i :| 0 <= i < |os| && MovedArgs(os, ids, shift)[i] == Def(v);
    assert MovedArgs(os, ids, shift)[i] == ren.OnOperand(os[i]);
    assert os[i].Def?;
  }

  lemma UsedOperand(v: nat, b: Block) returns (os: seq<Operand>)
    requires UsedIn(v, b)
    ensures Def(v) in os
    ensures (exists i :: 0 <= i < |b.phis| && os == b.phis[i].vals) || (exists i :: 0 <= i < |b.insts| && os == b.insts[i].args) || (b.ended && os == b.branch.args)
  {
    if i :| 0 <= i < |b.phis| && Def(v) in b.phis[i].vals {
      os := b.phis[i].vals;
    } else if i :| 0 <= i < |b.insts| && Def(v) in b.insts[i].args {
      os := b.insts[i].args;
    } else {
      os := b.branch.args;
    }
  }

  /** What a copy of a block uses, the block used: moved, or not. */
  lemma CopyUses(c: Block, b: Block, ids: set<nat>, shift: nat, v: nat)
    requires CopyBlock(c, b, ids, shift) && UsedIn(v, c)
    ensures (v !in ids && UsedIn(v, b)) || (v >= shift && v - shift in ids && UsedIn(v - shift, b))
  {
    hide MovedArgs;
    if i :| 0 <= i < |c.phis| && Def(v) in c.phis[i].vals {
      MovedUse(b.phis[i].vals, ids, shift, v);
    } else if i :| 0 <= i < |c.insts| && Def(v) in c.insts[i].args {
      MovedUse(b.insts[i].args, ids, shift, v);
    } else {
      MovedUse(b.branch.args, ids, shift, v);
    }
  }

  lemma BelowAt(blocks: seq<Block>, limit: nat, b: nat)
    requires Numbered(blocks, limit) && b < |blocks|
    ensures BlockBelow(blocks[b], limit)
  {
  }

  lemma UsedBelow(blocks: seq<Block>, c: nat, v: nat, limit: nat)
    requires c < |blocks| && Numbered(blocks, limit) && UsedIn(v, blocks[c])
    ensures v < limit
  {
    BelowAt(blocks, limit, c);
    var os := UsedOperand(v, blocks[c]);
    ArgBelow(os, v, limit);
  }

  lemma ArgBelow(os: seq<Operand>, v: nat, limit: nat)
    requires OperandsBelow(os, limit) && Def(v) in os
    ensures v < limit
  {
    var i :| 0 <= i < |os| && os[i] == Def(v);
    assert OperandBelow(os[i], limit);
  }

  lemma ItemDefined(blocks: seq<Block>, body: seq<nat>, limit: nat, k: nat, j: nat)
    requires InBounds(blocks, body) && Erasable(blocks, body, k, j) && Numbered(blocks, limit)
    ensures ItemAt(blocks[body[k]], j).id in DefinedIn(blocks, body) && ItemAt(blocks[body[k]], j).id < limit
  {
    BelowAt(blocks, limit, body[k]);
    assert ItemAt(blocks[body[k]], j).id in Defined(blocks[body[k]]);
  }

  lemma KeptItem(blocks: seq<Block>, body: seq<nat>, pre: nat, exit: nat, shift: nat, c: nat)
    requires |body| > 0 && InBounds(blocks, body) && c < |blocks|
    ensures var r := Splice(blocks, body, pre, exit, shift);
            && |r[c].insts| == |blocks[c].insts| && (r[c].phis == [] <==> blocks[c].phis == [])
            && forall j: nat :: j <= |blocks[c].insts| ==> ItemAt(r[c], j) == ItemAt(blocks[c], j)
  {
    hide DefinedIn, Spliced;
    KeptFields(blocks, body, pre, exit, shift, c);
  }

  lemma NotInBoth(xs: seq<nat>, ys: seq<nat>, x: nat)
    requires Apart(xs, ys) && x in xs && |ys| > 0
    ensures x !in ys[1..]
  {
  }

  /** In the function after the splice nothing new uses v, a value of the loop or of one apart from it. */
  lemma KeptInside(blocks: seq<Block>, body: seq<nat>, pre: nat, exit: nat, shift: nat, copy: seq<nat>, v: nat)
    requires |body| > 0 && |copy| > 0 && InBounds(blocks, body) && v < shift
    requires OnlyInside(blocks, copy, v) && (Apart(body, copy) || v in DefinedIn(blocks, body))
    ensures OnlyInside(Splice(blocks, body, pre, exit, shift), copy, v)
  {
    hide DefinedIn, Spliced, Splice, UsedIn, CopyBlock;
    var r, n := Splice(blocks, body, pre, exit, shift), |blocks|;
    forall c: nat | c < |r| && UsedIn(v, r[c]) ensures c in copy[1..] {
      if c < n {
        KeptUses(blocks, body, pre, exit, shift, c, v);
      } else {
        CloneIsCopy(blocks, body, pre, exit, shift, c - n);
        CopyUses(r[c], blocks[body[c - n]], DefinedIn(blocks, body), shift, v);
        if Apart(body, copy) { NotInBoth(body, copy, body[c - n]); }
      }
    }
  }

  /** The loop that was cloned, and any other loop, stays private. */
  lemma KeptPrivate(blocks: seq<Block>, body: seq<nat>, pre: nat, exit: nat, shift: nat, copy: seq<nat>)
    requires |body| > 0 && InBounds(blocks, body) && InBounds(blocks, copy) && Numbered(blocks, shift) && Private(blocks, copy)
    requires Apart(body, copy) || copy == body
    ensures Private(Splice(blocks, body, pre, exit, shift), copy)
  {
    hide DefinedIn, Spliced, Splice, OnlyInside, OnlyLater, Numbered, ItemAt;
    var r := Splice(blocks, body, pre, exit, shift);
    forall k | 0 <= k < |copy|
      ensures |r[copy[k]].insts| == |blocks[copy[k]].insts| && (r[copy[k]].phis == [] <==> blocks[copy[k]].phis == [])
      ensures forall j: nat :: j <= |blocks[copy[k]].insts| ==> ItemAt(r[copy[k]], j) == ItemAt(blocks[copy[k]], j)
    {
      KeptItem(blocks, body, pre, exit, shift, copy[k]);
    }
    forall k: nat, j: nat | Erasable(r, copy, k, j) ensures PrivateAt(r, copy, k, j) {
      assert Erasable(blocks, copy, k, j);
      assert PrivateAt(blocks, copy, k, j);
      var v := ItemAt(blocks[copy[k]], j).id;
      ItemDefined(blocks, copy, shift, k, j);
      KeptInside(blocks, body, pre, exit, shift, copy, v);
      LaterKept(blocks, copy, r, copy, k, j, v, v);
    }
  }

  /** The same uses come later in both. */
  lemma LaterKept(blocks: seq<Block>, body: seq<nat>, now: seq<Block>, copy: seq<nat>, k: nat, j: nat, v: nat, w: nat)
    requires InBounds(blocks, body) && InBounds(now, copy) && |copy| == |body| && OnlyLater(blocks, body, k, j, v)
    requires forall l :: 0 <= l < |copy| ==> |now[copy[l]].insts| == |blocks[body[l]].insts|
    requires forall l: nat, m: nat :: ItemUses(now, copy, l, m, w) ==> ItemUses(blocks, body, l, m, v)
    ensures OnlyLater(now, copy, k, j, w)
  {
    hide ItemUses;
  }

  lemma InTail(xs: seq<nat>, x: nat)
    requires |xs| > 0 && x in xs[1..]
    ensures exists i :: 0 < i < |xs| && xs[i] == x
  {
    var i :| 0 <= i < |xs[1..]| && xs[1..][i] == x;
    assert xs[i + 1] == x;
  }

  /** Nothing outside the clone uses the copy of v. */
  lemma CloneInside(blocks: seq<Block>, body: seq<nat>, pre: nat, exit: nat, shift: nat, v: nat)
    requires |body| > 0 && InBounds(blocks, body) && Different(body) && Numbered(blocks, shift) && OnlyInside(blocks, body, v)
    ensures OnlyInside(Splice(blocks, body, pre, exit, shift), CloneOf(blocks, body), v + shift)
  {
    hide DefinedIn, Spliced, Splice, UsedIn, CopyBlock, Numbered;
    var r, n, clone := Splice(blocks, body, pre, exit, shift), |blocks|, CloneOf(blocks, body);
    forall c: nat | c < |r| && UsedIn(v + shift, r[c]) ensures c in clone[1..] {
      if c < n {
        KeptUses(blocks, body, pre, exit, shift, c, v + shift);
        UsedBelow(blocks, c, v + shift, shift);
      } else {
        CloneIsCopy(blocks, body, pre, exit, shift, c - n);
        CopyUses(r[c], blocks[body[c - n]], DefinedIn(blocks, body), shift, v + shift);
        if UsedIn(v + shift, blocks[body[c - n]]) { UsedBelow(blocks, body[c - n], v + shift, shift); }
        InTail(body, body[c - n]);
        assert clone[1..][c - n - 1] == c;
      }
    }
  }

  lemma CloneItem(blocks: seq<Block>, body: seq<nat>, pre: nat, exit: nat, shift: nat, k: nat)
    requires k < |body| && InBounds(blocks, body)
    ensures var c, b := Splice(blocks, body, pre, exit, shift)[|blocks| + k], blocks[body[k]];
            && |c.insts| == |b.insts| && (c.phis == [] <==> b.phis == [])
            && forall j: nat :: j <= |b.insts| ==> ItemAt(c, j) == Moved(ItemAt(b, j), DefinedIn(blocks, body), shift)
  {
    hide DefinedIn, Spliced, Splice, Moved;
    CloneIsCopy(blocks, body, pre, exit, shift, k);
  }

  lemma CloneItemUses(blocks: seq<Block>, body: seq<nat>, pre: nat, exit: nat, shift: nat, l: nat, m: nat, v: nat)
    requires |body| > 0 && InBounds(blocks, body) && Numbered(blocks, shift)
    requires ItemUses(Splice(blocks, body, pre, exit, shift), CloneOf(blocks, body), l, m, v + shift)
    ensures ItemUses(blocks, body, l, m, v)
  {
    hide DefinedIn, Spliced, Splice, CloneOf, Numbered, MovedArgs;
    CloneItem(blocks, body, pre, exit, shift, l);
    var os := ItemAt(blocks[body[l]], m).args;
    MovedUse(os, DefinedIn(blocks, body), shift, v + shift);
    BelowAt(blocks, shift, body[l]);
    if Def(v + shift) in os { ArgBelow(os, v + shift, shift); }
  }

  /** The clone of a private loop is private. */
  lemma ClonePrivate(blocks: seq<Block>, body: seq<nat>, pre: nat, exit: nat, shift: nat)
    requires InBounds(blocks, body) && Different(body) && Numbered(blocks, shift) && Private(blocks, body)
    ensures Private(Splice(blocks, body, pre, exit, shift), CloneOf(blocks, body))
  {
    hide DefinedIn, Spliced, Splice, OnlyInside, OnlyLater, Numbered, ItemAt, Different, ItemUses, MovedArgs;
    var r, n, clone := Splice(blocks, body, pre, exit, shift), |blocks|, CloneOf(blocks, body);
    forall k | 0 <= k < |body|
      ensures |r[clone[k]].insts| == |blocks[body[k]].insts| && (r[clone[k]].phis == [] <==> blocks[body[k]].phis == [])
      ensures forall j: nat :: j <= |blocks[body[k]].insts| ==>
                ItemAt(r[clone[k]], j) == Moved(ItemAt(blocks[body[k]], j), DefinedIn(blocks, body), shift)
    {
      CloneItem(blocks, body, pre, exit, shift, k);
    }
    forall k: nat, j: nat | Erasable(r, clone, k, j) ensures PrivateAt(r, clone, k, j) {
      assert Erasable(blocks, body, k, j);
      assert PrivateAt(blocks, body, k, j);
      var v := ItemAt(blocks[body[k]], j).id;
      CloneInside(blocks, body, pre, exit, shift, v);
      forall l: nat, m: nat | ItemUses(r, clone, l, m, v + shift) ensures ItemUses(blocks, body, l, m, v) {
        CloneItemUses(blocks, body, pre, exit, shift, l, m, v);
      }
      LaterKept(blocks, body, r, clone, k, j, v, v + shift);
    }
  }
}
