/** Cloning a loop in the control-flow graph and splicing the clone in behind it: what one splice does to the
    graph, and in which order control runs through the loops after any number of them. */
module LoopSplit {

  /** Instructions and phi nodes are known by number; an operand is the result of one, or something from
      outside the function body. Blocks are known by their position in the block list. A block whose branch
      was erased is no longer ended, and leads nowhere. */
  datatype Operand = Def(v: nat) | Other(n: nat)
  datatype Phi = Phi(id: nat, froms: seq<nat>, vals: seq<Operand>)
  datatype Instr = Instr(id: nat, opcode: nat, args: seq<Operand>)
  datatype Block = Block(phis: seq<Phi>, insts: seq<Instr>, branch: Instr, succs: seq<nat>, ended: bool)

  // ---------- renaming ----------

  /** What a clone of the blocks in body renames: values defined there move up by shift, and the blocks
      themselves become first, first + 1, .. */
  datatype Renaming = Renaming(body: seq<nat>, first: nat, ids: set<nat>, shift: nat) {
    function OnValue(v: nat): nat {
      if v in ids then v + shift else v
    }

    function OnOperand(o: Operand): Operand {
      match o
      case Def(v) => Def(OnValue(v))
      case Other(_) => o
    }

    function OnBlock(b: nat): nat {
      if b in body then first + Position(body, b) else b
    }

    function OnOperands(os: seq<Operand>): (r: seq<Operand>)
      ensures |r| == |os| && forall i :: 0 <= i < |r| ==> r[i] == OnOperand(os[i])
    {
      seq(|os|, i requires 0 <= i < |os| => OnOperand(os[i]))
    }

    function OnBlocks(bs: seq<nat>): (r: seq<nat>)
      ensures |r| == |bs| && forall i :: 0 <= i < |r| ==> r[i] == OnBlock(bs[i])
    {
      seq(|bs|, i requires 0 <= i < |bs| => OnBlock(bs[i]))
    }
  }

  /** The first position of b. */
  function Position(body: seq<nat>, b: nat): (r: nat)
    requires b in body
    ensures r < |body| && body[r] == b && b !in body[..r]
  {
    if body[0] == b then 0
    else
      assert b in body[1..];
      var r := 1 + Position(body[1..], b);
      assert body[..r] == [body[0]] + body[1..][..r - 1];
      r
  }

  ghost predicate Different(xs: seq<nat>) {
    forall i, j :: 0 <= i < j < |xs| ==> xs[i] != xs[j]
  }

  lemma PositionOf(body: seq<nat>, k: nat)
    requires Different(body) && k < |body|
    ensures Position(body, body[k]) == k
  {
  }

  /** The copy that CloneBasicBlock makes: new instructions, old operands. */
  function Copied(b: Block, shift: nat): Block {
    Block(seq(|b.phis|, i requires 0 <= i < |b.phis| => b.phis[i].(id := b.phis[i].id + shift)),
          seq(|b.insts|, i requires 0 <= i < |b.insts| => b.insts[i].(id := b.insts[i].id + shift)),
          b.branch.(id := b.branch.id + shift), b.succs, b.ended)
  }

  /** remapInstruction, for every instruction of a block; the successors are operands of the branch. */
  function Remapped(b: Block, r: Renaming): Block {
    Block(seq(|b.phis|, i requires 0 <= i < |b.phis| =>
                b.phis[i].(froms := r.OnBlocks(b.phis[i].froms), vals := r.OnOperands(b.phis[i].vals))),
          seq(|b.insts|, i requires 0 <= i < |b.insts| => b.insts[i].(args := r.OnOperands(b.insts[i].args))),
          b.branch.(args := r.OnOperands(b.branch.args)), r.OnBlocks(b.succs), b.ended)
  }

  function Replaced(xs: seq<nat>, was: nat, now: nat): (r: seq<nat>)
    ensures |r| == |xs| && forall i :: 0 <= i < |r| ==> r[i] == if xs[i] == was then now else xs[i]
  {
    seq(|xs|, i requires 0 <= i < |xs| => if xs[i] == was then now else xs[i])
  }

  /** Phi nodes that name block was as incoming name now instead. */
  function PhisMoved(b: Block, was: nat, now: nat): Block {
    b.(phis := seq(|b.phis|, i requires 0 <= i < |b.phis| => b.phis[i].(froms := Replaced(b.phis[i].froms, was, now))))
  }

  function BranchMoved(b: Block, was: nat, now: nat): Block {
    b.(succs := Replaced(b.succs, was, now))
  }

  /** setSuccessor(0, target). */
  function Linked(b: Block, target: nat): Block {
    if b.succs == [] then b else b.(succs := b.succs[0 := target])
  }

  /** The values defined in a block. */
  function Defined(b: Block): set<nat> {
    (set i | 0 <= i < |b.phis| :: b.phis[i].id) + (set i | 0 <= i < |b.insts| :: b.insts[i].id) + {b.branch.id}
  }

  predicate InBounds(blocks: seq<Block>, body: seq<nat>) {
    forall i :: 0 <= i < |body| ==> body[i] < |blocks|
  }

  function DefinedIn(blocks: seq<Block>, body: seq<nat>): (r: set<nat>)
    requires InBounds(blocks, body)
    ensures forall v: nat :: v in r <==> exists i :: 0 <= i < |body| && v in Defined(blocks[body[i]])
  {
    set i, v | 0 <= i < |body| && v in Defined(blocks[body[i]]) :: v
  }

  // ---------- one splice ----------

  function CloneRenaming(blocks: seq<Block>, body: seq<nat>, shift: nat): Renaming
    requires InBounds(blocks, body)
  {
    Renaming(body, |blocks|, DefinedIn(blocks, body), shift)
  }

  /** Block i of the function after the splice. */
  function Spliced(blocks: seq<Block>, body: seq<nat>, pre: nat, exit: nat, shift: nat, i: nat): Block
    requires |body| > 0 && InBounds(blocks, body) && i < |blocks| + |body|
  {
    if i < |blocks| then
      var b := if i == exit then PhisMoved(blocks[i], body[0], |blocks|) else blocks[i];
      if i == body[0] then BranchMoved(b, exit, |blocks|) else b
    else
      var k := i - |blocks|;
      var c := Remapped(Copied(blocks[body[k]], shift), CloneRenaming(blocks, body, shift));
      Linked(if k == 0 then PhisMoved(c, pre, body[0]) else c, if k == |body| - 1 then |blocks| else i + 1)
  }

  /** The function after one loop was cloned: the header of the loop leaves to the clone, the exit's phi nodes
      expect the clone's header, and the clone is the renamed body, entered from the header, with the first
      successor of each of its blocks set to the next one. */
  function Splice(blocks: seq<Block>, body: seq<nat>, pre: nat, exit: nat, shift: nat): (r: seq<Block>)
    requires |body| > 0 && InBounds(blocks, body)
    ensures |r| == |blocks| + |body|
    ensures forall i :: 0 <= i < |r| ==> r[i] == Spliced(blocks, body, pre, exit, shift, i)
  {
    seq(|blocks| + |body|, i requires 0 <= i < |blocks| + |body| => Spliced(blocks, body, pre, exit, shift, i))
  }

  /** The blocks of the clone. */
  function CloneOf(blocks: seq<Block>, body: seq<nat>): (r: seq<nat>)
    ensures |r| == |body| && forall i :: 0 <= i < |r| ==> r[i] == |blocks| + i
  {
    seq(|body|, i requires 0 <= i < |body| => |blocks| + i)
  }

  // ---------- loops and well-formed functions ----------

  ghost predicate Pred(blocks: seq<Block>, a: nat, b: nat) {
    a < |blocks| && b in blocks[a].succs
  }

  /** The blocks form a chain from the header to the latch, and only the header leaves, to exit. Its branch may
      name the exit first or second. */
  ghost predicate Shaped(blocks: seq<Block>, body: seq<nat>, exit: nat) {
    && |body| >= 2 && Different(body) && InBounds(blocks, body)
    && exit < |blocks| && exit !in body
    && (forall i :: 0 <= i < |body| ==> blocks[body[i]].ended)
    && (blocks[body[0]].succs == [body[1], exit] || blocks[body[0]].succs == [exit, body[1]])
    && (forall i :: 0 < i < |body| - 1 ==> blocks[body[i]].succs == [body[i + 1]])
    && blocks[body[|body| - 1]].succs == [body[0]]
  }

  /** The branch of the header names the next block of the loop first. */
  predicate BodyFirst(blocks: seq<Block>, body: seq<nat>)
    requires |body| > 1 && InBounds(blocks, body)
  {
    blocks[body[0]].succs != [] && blocks[body[0]].succs[0] == body[1]
  }

  /** The loop is entered only from pre, and only at its header. */
  ghost predicate Entered(blocks: seq<Block>, body: seq<nat>, pre: nat)
    requires |body| > 0
  {
    && pre < |blocks| && pre !in body
    && (forall a: nat {:trigger Pred(blocks, a, body[0])} :: Pred(blocks, a, body[0]) <==> a == pre || a == body[|body| - 1])
    && (forall a: nat, i: nat {:trigger Pred(blocks, a, body[i])} :: 0 < i < |body| ==>
          (Pred(blocks, a, body[i]) <==> a == body[i - 1]))
  }

  /** What phi node i of block b takes from predecessor a, if it has an entry for it. */
  ghost predicate Takes(blocks: seq<Block>, b: nat, a: nat, i: nat, o: Operand) {
    && b < |blocks| && i < |blocks[b].phis| && |blocks[b].phis[i].froms| == |blocks[b].phis[i].vals|
    && exists j :: 0 <= j < |blocks[b].phis[i].froms| && blocks[b].phis[i].froms[j] == a && blocks[b].phis[i].vals[j] == o
  }

  ghost predicate Outside(blocks: seq<Block>, body: seq<nat>, o: Operand)
    requires InBounds(blocks, body)
  {
    o.Def? ==> o.v !in DefinedIn(blocks, body)
  }

  /** The values with which the header's phi nodes start are not computed in the loop. */
  ghost predicate Started(blocks: seq<Block>, body: seq<nat>, pre: nat)
    requires |body| > 0 && InBounds(blocks, body)
  {
    forall i: nat, o {:trigger Takes(blocks, body[0], pre, i, o)} :: Takes(blocks, body[0], pre, i, o) ==> Outside(blocks, body, o)
  }

  ghost predicate Chain(blocks: seq<Block>, body: seq<nat>, pre: nat, exit: nat) {
    Shaped(blocks, body, exit) && Entered(blocks, body, pre) && Started(blocks, body, pre)
  }

  ghost predicate PhisMatchAt(blocks: seq<Block>, b: nat)
    requires b < |blocks|
  {
    forall i {:trigger blocks[b].phis[i]} :: 0 <= i < |blocks[b].phis| ==>
      && |blocks[b].phis[i].froms| == |blocks[b].phis[i].vals|
      && forall a: nat {:trigger Pred(blocks, a, b)} :: a in blocks[b].phis[i].froms <==> Pred(blocks, a, b)
  }

  /** Branches lead to blocks, and the incoming blocks of every phi node are the predecessors of its block. */
  ghost predicate PhisMatch(blocks: seq<Block>) {
    && (forall b: nat, i :: b < |blocks| && 0 <= i < |blocks[b].succs| ==> blocks[b].succs[i] < |blocks|)
    && (forall b: nat {:trigger PhisMatchAt(blocks, b)} :: b < |blocks| ==> PhisMatchAt(blocks, b))
  }

  predicate OperandBelow(o: Operand, limit: nat) {
    o.Def? ==> o.v < limit
  }

  predicate OperandsBelow(os: seq<Operand>, limit: nat) {
    forall i :: 0 <= i < |os| ==> OperandBelow(os[i], limit)
  }

  predicate BlockBelow(b: Block, limit: nat) {
    && (forall i :: 0 <= i < |b.phis| ==> b.phis[i].id < limit && OperandsBelow(b.phis[i].vals, limit))
    && (forall i :: 0 <= i < |b.insts| ==> b.insts[i].id < limit && OperandsBelow(b.insts[i].args, limit))
    && b.branch.id < limit && OperandsBelow(b.branch.args, limit)
  }

  /** All values are numbered below limit. */
  predicate Numbered(blocks: seq<Block>, limit: nat) {
    forall b :: 0 <= b < |blocks| ==> BlockBelow(blocks[b], limit)
  }

  ghost predicate WellFormed(blocks: seq<Block>, limit: nat) {
    PhisMatch(blocks) && Numbered(blocks, limit)
  }

  // ---------- what one splice does to the edges ----------

  lemma RenamedBlocks(ren: Renaming, k: nat)
    requires Different(ren.body) && k < |ren.body|
    ensures ren.OnBlocks([ren.body[k]]) == [ren.first + k]
    ensures forall x: nat :: x !in ren.body ==> ren.OnBlocks([ren.body[k], x]) == [ren.first + k, x]
    ensures forall x: nat :: x !in ren.body ==> ren.OnBlocks([x, ren.body[k]]) == [x, ren.first + k]
  {
    PositionOf(ren.body, k);
  }

  /** The way out of block k of the clone: if the header named the exit first, the clone's header has lost it. */
  lemma CloneSuccs(blocks: seq<Block>, body: seq<nat>, pre: nat, exit: nat, shift: nat, k: nat)
    requires Shaped(blocks, body, exit) && k < |body|
    ensures var c, n := Splice(blocks, body, pre, exit, shift)[|blocks| + k], |blocks|;
            && c.ended
            && c.succs == if k == 0 then [n + 1, if BodyFirst(blocks, body) then exit else n + 1]
                          else if k == |body| - 1 then [n] else [n + k + 1]
  {
    hide DefinedIn, Spliced;
    CloneFields(blocks, body, pre, exit, shift, k);
    var ren := CloneRenaming(blocks, body, shift);
    RenamedBlocks(ren, if k == |body| - 1 then 0 else k + 1);
  }

  lemma KeptSuccs(blocks: seq<Block>, body: seq<nat>, pre: nat, exit: nat, shift: nat, i: nat)
    requires Shaped(blocks, body, exit) && i < |blocks|
    ensures var c := Splice(blocks, body, pre, exit, shift)[i];
            && c.ended == blocks[i].ended
            && c.succs == if i != body[0] then blocks[i].succs
                          else if BodyFirst(blocks, body) then [body[1], |blocks|] else [|blocks|, body[1]]
  {
  }

  /** The fields of block k of the clone. */
  lemma CloneFields(blocks: seq<Block>, body: seq<nat>, pre: nat, exit: nat, shift: nat, k: nat)
    requires k < |body| && InBounds(blocks, body)
    ensures var c, b, ren := Spliced(blocks, body, pre, exit, shift, |blocks| + k), blocks[body[k]], CloneRenaming(blocks, body, shift);
            && c.succs == (if b.succs == [] then []
                           else ren.OnBlocks(b.succs)[0 := if k == |body| - 1 then |blocks| else |blocks| + k + 1])
            && c.ended == b.ended && |c.phis| == |b.phis| && |c.insts| == |b.insts|
            && (forall i :: 0 <= i < |c.phis| ==>
                  && c.phis[i].id == b.phis[i].id + shift && c.phis[i].vals == ren.OnOperands(b.phis[i].vals)
                  && c.phis[i].froms == if k == 0 then Replaced(ren.OnBlocks(b.phis[i].froms), pre, body[0])
                                        else ren.OnBlocks(b.phis[i].froms))
            && (forall i :: 0 <= i < |c.insts| ==>
                  c.insts[i] == Instr(b.insts[i].id + shift, b.insts[i].opcode, ren.OnOperands(b.insts[i].args)))
            && c.branch == Instr(b.branch.id + shift, b.branch.opcode, ren.OnOperands(b.branch.args))
  {
  }

  /** The fields of a block that was there before. */
  lemma KeptFields(blocks: seq<Block>, body: seq<nat>, pre: nat, exit: nat, shift: nat, i: nat)
    requires i < |blocks| && |body| > 0 && InBounds(blocks, body)
    ensures var c, b := Spliced(blocks, body, pre, exit, shift, i), blocks[i];
            && c.insts == b.insts && c.branch == b.branch && c.ended == b.ended && |c.phis| == |b.phis|
            && forall j :: 0 <= j < |c.phis| ==>
                 && c.phis[j].id == b.phis[j].id && c.phis[j].vals == b.phis[j].vals
                 && c.phis[j].froms == if i == exit then Replaced(b.phis[j].froms, body[0], |blocks|) else b.phis[j].froms
  {
  }

  /** Every edge of the function after the splice. */
  lemma SplicedPreds(blocks: seq<Block>, body: seq<nat>, pre: nat, exit: nat, shift: nat, a: nat, b: nat)
    requires Shaped(blocks, body, exit) && BodyFirst(blocks, body) && PhisMatch(blocks)
    ensures Pred(Splice(blocks, body, pre, exit, shift), a, b) <==>
            var n := |blocks|;
            if a < n then
              if b < n then Pred(blocks, a, b) && !(a == body[0] && b == exit) else a == body[0] && b == n
            else
              a < n + |body| && if b < n then a == n && b == exit
                                else if a == n + |body| - 1 then b == n else b == a + 1
  {
    hide Splice, Spliced, DefinedIn, Different;
    var n := |blocks|;
    if n <= a < n + |body| {
      CloneSuccs(blocks, body, pre, exit, shift, a - n);
    } else if a < n {
      KeptSuccs(blocks, body, pre, exit, shift, a);
      assert forall i :: 0 <= i < |blocks[a].succs| ==> blocks[a].succs[i] < n;
    }
  }

  // ---------- every splice keeps the function well-formed ----------

  lemma KeptMatch(blocks: seq<Block>, body: seq<nat>, pre: nat, exit: nat, shift: nat, b: nat)
    requires Shaped(blocks, body, exit) && BodyFirst(blocks, body) && PhisMatch(blocks) && b < |blocks|
    ensures PhisMatchAt(Splice(blocks, body, pre, exit, shift), b)
  {
    hide Spliced, DefinedIn, Different, Pred;
    var r, n := Splice(blocks, body, pre, exit, shift), |blocks|;
    KeptFields(blocks, body, pre, exit, shift, b);
    assert PhisMatchAt(blocks, b);
    forall i, a: nat | 0 <= i < |r[b].phis| ensures a in r[b].phis[i].froms <==> Pred(r, a, b) {
      SplicedPreds(blocks, body, pre, exit, shift, a, b);
      var froms := blocks[b].phis[i].froms;
      assert a in froms <==> Pred(blocks, a, b);
      PredBelow(blocks, a, b);
      if b == exit {
        HeaderLeaves(blocks, body, exit);
        assert body[0] in froms;
        ReplacedContent(froms, body[0], n, a);
      }
    }
  }

  lemma PredBelow(blocks: seq<Block>, a: nat, b: nat)
    ensures Pred(blocks, a, b) ==> a < |blocks|
  {
  }

  lemma HeaderLeaves(blocks: seq<Block>, body: seq<nat>, exit: nat)
    requires Shaped(blocks, body, exit)
    ensures Pred(blocks, body[0], exit)
  {
  }

  lemma ReplacedContent(xs: seq<nat>, was: nat, now: nat, a: nat)
    requires was in xs
    ensures a in Replaced(xs, was, now) <==> a == now || (a in xs && a != was)
  {
    var j :| 0 <= j < |xs| && xs[j] == was;
    assert Replaced(xs, was, now)[j] == now;
    if a in xs && a != was {
      var i :| 0 <= i < |xs| && xs[i] == a;
      assert Replaced(xs, was, now)[i] == a;
    }
  }

  lemma RenamedContent(ren: Renaming, xs: seq<nat>, a: nat)
    ensures a in ren.OnBlocks(xs) <==> exists x :: x in xs && ren.OnBlock(x) == a
  {
    if x :| x in xs && ren.OnBlock(x) == a {
      var i :| 0 <= i < |xs| && xs[i] == x;
      assert ren.OnBlocks(xs)[i] == a;
    }
  }

  /** Where the phi nodes of the clone come from, when those of the loop match its predecessors. */
  lemma CloneFroms(ren: Renaming, pre: nat, k: nat, froms: seq<nat>, a: nat)
    requires Different(ren.body) && |ren.body| >= 2 && k < |ren.body| && pre !in ren.body && pre < ren.first
    requires forall x: nat :: x in froms <==> if k == 0 then x == pre || x == ren.body[|ren.body| - 1] else x == ren.body[k - 1]
    ensures k == 0 ==> (a in Replaced(ren.OnBlocks(froms), pre, ren.body[0]) <==> a == ren.body[0] || a == ren.first + |ren.body| - 1)
    ensures k > 0 ==> (a in ren.OnBlocks(froms) <==> a == ren.first + k - 1)
  {
    hide Position, Replaced, Renaming.OnBlocks;
    RenamedContent(ren, froms, a);
    if k == 0 {
      var latch := ren.body[|ren.body| - 1];
      assert latch in froms && pre in froms;
      PositionOf(ren.body, |ren.body| - 1);
      assert ren.OnBlock(pre) == pre && ren.OnBlock(latch) == ren.first + |ren.body| - 1;
      RenamedContent(ren, froms, pre);
      ReplacedContent(ren.OnBlocks(froms), pre, ren.body[0], a);
    } else {
      assert ren.body[k - 1] in froms;
      PositionOf(ren.body, k - 1);
    }
  }

  lemma CloneMatch(blocks: seq<Block>, body: seq<nat>, pre: nat, exit: nat, shift: nat, k: nat)
    requires Chain(blocks, body, pre, exit) && BodyFirst(blocks, body) && PhisMatch(blocks) && k < |body|
    ensures PhisMatchAt(Splice(blocks, body, pre, exit, shift), |blocks| + k)
  {
    hide Spliced, DefinedIn, Different, Pred, Started;
    var r, n, ren := Splice(blocks, body, pre, exit, shift), |blocks|, CloneRenaming(blocks, body, shift);
    CloneFields(blocks, body, pre, exit, shift, k);
    assert PhisMatchAt(blocks, body[k]);
    var b := n + k;
    forall i, a: nat | 0 <= i < |r[b].phis| ensures a in r[b].phis[i].froms <==> Pred(r, a, b) {
      SplicedPreds(blocks, body, pre, exit, shift, a, b);
      var froms := blocks[body[k]].phis[i].froms;
      forall x: nat ensures x in froms <==> if k == 0 then x == pre || x == body[|body| - 1] else x == body[k - 1] {
        assert x in froms <==> Pred(blocks, x, body[k]);
      }
      CloneFroms(ren, pre, k, froms, a);
    }
  }

  lemma RenamedBelow(ren: Renaming, os: seq<Operand>, limit: nat)
    requires OperandsBelow(os, limit)
    ensures OperandsBelow(ren.OnOperands(os), limit + ren.shift)
  {
  }

  lemma SplicedNumbered(blocks: seq<Block>, body: seq<nat>, pre: nat, exit: nat, shift: nat)
    requires |body| > 0 && InBounds(blocks, body) && Numbered(blocks, shift)
    ensures Numbered(Splice(blocks, body, pre, exit, shift), shift + shift)
  {
    hide Spliced, DefinedIn;
    var r, n, ren := Splice(blocks, body, pre, exit, shift), |blocks|, CloneRenaming(blocks, body, shift);
    forall b | 0 <= b < |r| ensures BlockBelow(r[b], shift + shift) {
      if b < n {
        KeptFields(blocks, body, pre, exit, shift, b);
        assert BlockBelow(blocks[b], shift);
      } else {
        CloneFields(blocks, body, pre, exit, shift, b - n);
        var was := blocks[body[b - n]];
        assert BlockBelow(was, shift);
        forall i | 0 <= i < |was.phis| ensures OperandsBelow(r[b].phis[i].vals, shift + shift) {
          RenamedBelow(ren, was.phis[i].vals, shift);
        }
        forall i | 0 <= i < |was.insts| ensures OperandsBelow(r[b].insts[i].args, shift + shift) {
          RenamedBelow(ren, was.insts[i].args, shift);
        }
        RenamedBelow(ren, was.branch.args, shift);
      }
    }
  }

  /** After a splice the incoming blocks of every phi node are again the predecessors of its block. */
  lemma SpliceKeepsWellFormed(blocks: seq<Block>, body: seq<nat>, pre: nat, exit: nat, shift: nat)
    requires WellFormed(blocks, shift) && Chain(blocks, body, pre, exit) && BodyFirst(blocks, body)
    ensures WellFormed(Splice(blocks, body, pre, exit, shift), shift + shift)
  {
    hide Spliced, DefinedIn, Different, Pred, Entered, Started, PhisMatchAt, Numbered;
    var r, n := Splice(blocks, body, pre, exit, shift), |blocks|;
    SplicedNumbered(blocks, body, pre, exit, shift);
    forall b: nat | b < |r| ensures PhisMatchAt(r, b) {
      if b < n { KeptMatch(blocks, body, pre, exit, shift, b); } else { CloneMatch(blocks, body, pre, exit, shift, b - n); }
    }
    forall b: nat, i | b < |r| && 0 <= i < |r[b].succs| ensures r[b].succs[i] < |r| {
      if b < n { KeptSuccs(blocks, body, pre, exit, shift, b); } else { CloneSuccs(blocks, body, pre, exit, shift, b - n); }
    }
  }

  // ---------- the loops after a splice ----------

  lemma KeptDefined(blocks: seq<Block>, body: seq<nat>, pre: nat, exit: nat, shift: nat, other: seq<nat>)
    requires |body| > 0 && InBounds(blocks, body) && InBounds(blocks, other)
    ensures DefinedIn(Splice(blocks, body, pre, exit, shift), other) == DefinedIn(blocks, other)
  {
    hide Spliced;
    var r := Splice(blocks, body, pre, exit, shift);
    forall i | 0 <= i < |other| ensures Defined(r[other[i]]) == Defined(blocks[other[i]]) {
      KeptFields(blocks, body, pre, exit, shift, other[i]);
    }
  }

  lemma CloneDefined(blocks: seq<Block>, body: seq<nat>, pre: nat, exit: nat, shift: nat)
    requires |body| > 0 && InBounds(blocks, body)
    ensures forall v :: v in DefinedIn(Splice(blocks, body, pre, exit, shift), CloneOf(blocks, body)) ==> v >= shift
  {
    hide Spliced;
    var r, clone := Splice(blocks, body, pre, exit, shift), CloneOf(blocks, body);
    forall i, v | 0 <= i < |clone| && v in Defined(r[clone[i]]) ensures v >= shift {
      CloneFields(blocks, body, pre, exit, shift, i);
    }
  }

  lemma KeptTakes(blocks: seq<Block>, body: seq<nat>, pre: nat, exit: nat, shift: nat, b: nat, a: nat, i: nat, o: Operand)
    requires |body| > 0 && InBounds(blocks, body) && b < |blocks| && b != exit
    ensures Takes(Splice(blocks, body, pre, exit, shift), b, a, i, o) <==> Takes(blocks, b, a, i, o)
  {
    hide Spliced, DefinedIn;
    KeptFields(blocks, body, pre, exit, shift, b);
  }

  /** The exit takes from the clone what it took from the loop. */
  lemma ExitTakes(blocks: seq<Block>, body: seq<nat>, pre: nat, exit: nat, shift: nat, i: nat, o: Operand)
    requires Shaped(blocks, body, exit) && PhisMatch(blocks)
    ensures Takes(Splice(blocks, body, pre, exit, shift), exit, |blocks|, i, o) <==> Takes(blocks, exit, body[0], i, o)
  {
    hide Spliced, DefinedIn, Different;
    KeptFields(blocks, body, pre, exit, shift, exit);
    assert PhisMatchAt(blocks, exit);
    if i < |blocks[exit].phis| {
      PredBelow(blocks, |blocks|, exit);
      assert |blocks| in blocks[exit].phis[i].froms <==> Pred(blocks, |blocks|, exit);
    }
  }

  lemma RenamedSource(ren: Renaming, pre: nat, x: nat)
    requires |ren.body| > 0 && pre !in ren.body && pre < ren.first && ren.body[0] < ren.first
    ensures (if ren.OnBlock(x) == pre then ren.body[0] else ren.OnBlock(x)) == ren.body[0] <==> x == pre
  {
  }

  lemma OutsideStays(blocks: seq<Block>, body: seq<nat>, shift: nat, o: Operand)
    requires InBounds(blocks, body) && Outside(blocks, body, o)
    ensures CloneRenaming(blocks, body, shift).OnOperand(o) == o
  {
  }

  /** The clone starts with the values with which the loop starts. */
  lemma CloneTakes(blocks: seq<Block>, body: seq<nat>, pre: nat, exit: nat, shift: nat, i: nat, o: Operand)
    requires Chain(blocks, body, pre, exit)
    ensures Takes(Splice(blocks, body, pre, exit, shift), |blocks|, body[0], i, o) <==> Takes(blocks, body[0], pre, i, o)
  {
    hide Spliced, DefinedIn, Different, Outside, Pred;
    var r, n, ren := Splice(blocks, body, pre, exit, shift), |blocks|, CloneRenaming(blocks, body, shift);
    CloneFields(blocks, body, pre, exit, shift, 0);
    var b := blocks[body[0]];
    if i < |b.phis| && |b.phis[i].froms| == |b.phis[i].vals| {
      forall j | 0 <= j < |b.phis[i].froms|
        ensures r[n].phis[i].froms[j] == body[0] <==> b.phis[i].froms[j] == pre
        ensures b.phis[i].froms[j] == pre ==> r[n].phis[i].vals[j] == b.phis[i].vals[j]
      {
        RenamedSource(ren, pre, b.phis[i].froms[j]);
        if b.phis[i].froms[j] == pre {
          assert Takes(blocks, body[0], pre, i, b.phis[i].vals[j]);
          OutsideStays(blocks, body, shift, b.phis[i].vals[j]);
        }
      }
    }
  }

  lemma LoopPreds(blocks: seq<Block>, body: seq<nat>, pre: nat, exit: nat, shift: nat, a: nat, k: nat)
    requires Shaped(blocks, body, exit) && k < |body|
    ensures Pred(Splice(blocks, body, pre, exit, shift), a, body[k]) <==> Pred(blocks, a, body[k])
  {
    hide Splice, Spliced, DefinedIn, Different;
    var n := |blocks|;
    assert body[k] in body && body[k] != exit && body[k] < n;
    if n <= a < n + |body| {
      CloneSuccs(blocks, body, pre, exit, shift, a - n);
    } else if a < n {
      KeptSuccs(blocks, body, pre, exit, shift, a);
    }
  }

  /** The loop itself is still a loop, and now leaves to the clone. */
  lemma LoopStays(blocks: seq<Block>, body: seq<nat>, pre: nat, exit: nat, shift: nat)
    requires Chain(blocks, body, pre, exit)
    ensures Chain(Splice(blocks, body, pre, exit, shift), body, pre, |blocks|)
    ensures BodyFirst(Splice(blocks, body, pre, exit, shift), body) <==> BodyFirst(blocks, body)
  {
    hide Spliced, DefinedIn, Different, Pred, Takes, Outside;
    var r, n := Splice(blocks, body, pre, exit, shift), |blocks|;
    forall k | 0 <= k < |body|
      ensures r[body[k]].ended
      ensures r[body[k]].succs == if k > 0 then blocks[body[k]].succs else if BodyFirst(blocks, body) then [body[1], n] else [n, body[1]]
    {
      KeptSuccs(blocks, body, pre, exit, shift, body[k]);
      if k > 0 { DifferentAt(body, 0, k); }
    }
    forall k, a: nat | 0 <= k < |body| ensures Pred(r, a, body[k]) <==> Pred(blocks, a, body[k]) {
      LoopPreds(blocks, body, pre, exit, shift, a, k);
    }
    KeptDefined(blocks, body, pre, exit, shift, body);
    forall i: nat, o | Takes(r, body[0], pre, i, o) ensures Outside(r, body, o) {
      KeptTakes(blocks, body, pre, exit, shift, body[0], pre, i, o);
      OutsideSame(blocks, r, body, o);
    }
  }

  lemma DifferentAt(xs: seq<nat>, i: nat, j: nat)
    requires Different(xs) && i < |xs| && j < |xs| && i != j
    ensures xs[i] != xs[j]
  {
  }

  lemma OutsideSame(blocks: seq<Block>, r: seq<Block>, body: seq<nat>, o: Operand)
    requires InBounds(blocks, body) && InBounds(r, body) && DefinedIn(blocks, body) == DefinedIn(r, body)
    ensures Outside(blocks, body, o) == Outside(r, body, o)
  {
  }

  /** The clone is a loop, entered from the header of the first loop, and leaves to where that one left. */
  lemma CloneIsLoop(blocks: seq<Block>, body: seq<nat>, pre: nat, exit: nat, shift: nat)
    requires Chain(blocks, body, pre, exit) && BodyFirst(blocks, body) && WellFormed(blocks, shift)
    ensures Chain(Splice(blocks, body, pre, exit, shift), CloneOf(blocks, body), body[0], exit)
    ensures BodyFirst(Splice(blocks, body, pre, exit, shift), CloneOf(blocks, body))
  {
    hide Spliced, DefinedIn, Pred, Takes, Outside, Splice;
    var r, n, clone := Splice(blocks, body, pre, exit, shift), |blocks|, CloneOf(blocks, body);
    forall k | 0 <= k < |clone| ensures r[clone[k]].ended { CloneSuccs(blocks, body, pre, exit, shift, k); }
    CloneSuccs(blocks, body, pre, exit, shift, 0);
    CloneSuccs(blocks, body, pre, exit, shift, |body| - 1);
    forall k | 0 < k < |clone| - 1 ensures r[clone[k]].succs == [clone[k + 1]] {
      CloneSuccs(blocks, body, pre, exit, shift, k);
    }
    forall a: nat ensures Pred(r, a, clone[0]) <==> a == body[0] || a == clone[|clone| - 1] {
      SplicedPreds(blocks, body, pre, exit, shift, a, clone[0]);
    }
    forall a: nat, k: nat | 0 < k < |clone| ensures Pred(r, a, clone[k]) <==> a == clone[k - 1] {
      SplicedPreds(blocks, body, pre, exit, shift, a, clone[k]);
    }
    CloneDefined(blocks, body, pre, exit, shift);
    forall i: nat, o | Takes(r, clone[0], body[0], i, o) ensures Outside(r, clone, o) {
      CloneTakes(blocks, body, pre, exit, shift, i, o);
      TakenBelow(blocks, body[0], pre, i, o, shift);
      OutsideBelow(r, clone, shift, o);
    }
  }

  lemma TakenBelow(blocks: seq<Block>, b: nat, a: nat, i: nat, o: Operand, limit: nat)
    requires Numbered(blocks, limit) && Takes(blocks, b, a, i, o)
    ensures OperandBelow(o, limit)
  {
    assert BlockBelow(blocks[b], limit);
  }

  lemma OutsideBelow(blocks: seq<Block>, body: seq<nat>, limit: nat, o: Operand)
    requires InBounds(blocks, body) && OperandBelow(o, limit) && forall v :: v in DefinedIn(blocks, body) ==> v >= limit
    ensures Outside(blocks, body, o)
  {
  }

  ghost predicate Apart(xs: seq<nat>, ys: seq<nat>) {
    forall x :: x in xs ==> x !in ys
  }

  /** The first loop leads into another loop only at its header, and then is what it is entered from. */
  lemma LeadsToHeader(blocks: seq<Block>, body: seq<nat>, exit: nat, other: seq<nat>, pre': nat, exit': nat)
    requires Shaped(blocks, body, exit) && Chain(blocks, other, pre', exit') && Apart(body, other)
    ensures exit == other[0] ==> pre' == body[0]
    ensures forall k :: 0 < k < |other| ==> exit != other[k]
  {
    hide Shaped, Started, Different, Pred;
    HeaderLeaves(blocks, body, exit);
    assert |body| > 0 && |other| > 0 by { ShapedSize(blocks, body, exit); ShapedSize(blocks, other, exit'); }
    assert body[0] !in other;
    assert other[|other| - 1] in other;
    if exit == other[0] {
      assert Pred(blocks, body[0], other[0]);
    }
    forall k | 0 < k < |other| ensures exit != other[k] {
      assert Pred(blocks, body[0], other[k]) <==> body[0] == other[k - 1];
      assert other[k - 1] in other;
    }
  }

  lemma ShapedSize(blocks: seq<Block>, body: seq<nat>, exit: nat)
    requires Shaped(blocks, body, exit)
    ensures |body| >= 2 && InBounds(blocks, body) && Different(body) && exit < |blocks| && exit !in body
  {
  }

  lemma OtherEntered(blocks: seq<Block>, body: seq<nat>, pre: nat, exit: nat, shift: nat, other: seq<nat>, pre': nat, exit': nat)
    requires Shaped(blocks, body, exit) && BodyFirst(blocks, body) && Chain(blocks, other, pre', exit') && Apart(body, other) && PhisMatch(blocks)
    ensures |other| > 0 && Entered(Splice(blocks, body, pre, exit, shift), other, if exit == other[0] then |blocks| else pre')
  {
    hide Spliced, DefinedIn, Different, Pred, Splice, Shaped, Started, PhisMatch;
    ShapedSize(blocks, body, exit);
    ShapedSize(blocks, other, exit');
    LeadsToHeader(blocks, body, exit, other, pre', exit');
    var r, n := Splice(blocks, body, pre, exit, shift), |blocks|;
    var entry := if exit == other[0] then n else pre';
    assert body[0] in body && body[0] !in other && other[|other| - 1] in other;
    forall a: nat ensures Pred(r, a, other[0]) <==> a == entry || a == other[|other| - 1] {
      SplicedPreds(blocks, body, pre, exit, shift, a, other[0]);
      assert Pred(blocks, a, other[0]) <==> a == pre' || a == other[|other| - 1];
    }
    forall a: nat, k: nat | 0 < k < |other| ensures Pred(r, a, other[k]) <==> a == other[k - 1] {
      SplicedPreds(blocks, body, pre, exit, shift, a, other[k]);
      assert Pred(blocks, a, other[k]) <==> a == other[k - 1];
    }
  }

  /** Another loop stays a loop; if the first loop led to it, the clone now does. */
  lemma OtherLoopStays(blocks: seq<Block>, body: seq<nat>, pre: nat, exit: nat, shift: nat, other: seq<nat>, pre': nat, exit': nat)
    requires Shaped(blocks, body, exit) && BodyFirst(blocks, body) && Chain(blocks, other, pre', exit') && Apart(body, other) && WellFormed(blocks, shift)
    ensures |other| > 0 && Chain(Splice(blocks, body, pre, exit, shift), other, if exit == other[0] then |blocks| else pre', exit')
  {
    hide Spliced, DefinedIn, Different, Pred, Takes, Outside, Splice, Entered;
    var r, n := Splice(blocks, body, pre, exit, shift), |blocks|;
    OtherEntered(blocks, body, pre, exit, shift, other, pre', exit');
    LeadsToHeader(blocks, body, exit, other, pre', exit');
    assert body[0] in body && body[0] !in other;
    forall k | 0 <= k < |other| ensures r[other[k]].ended && r[other[k]].succs == blocks[other[k]].succs {
      KeptSuccs(blocks, body, pre, exit, shift, other[k]);
    }
    KeptDefined(blocks, body, pre, exit, shift, other);
    var entry := if exit == other[0] then n else pre';
    forall i: nat, o | Takes(r, other[0], entry, i, o) ensures Outside(r, other, o) {
      if exit == other[0] {
        ExitTakes(blocks, body, pre, exit, shift, i, o);
      } else {
        KeptTakes(blocks, body, pre, exit, shift, other[0], entry, i, o);
      }
      OutsideSame(blocks, r, other, o);
    }
  }
}
