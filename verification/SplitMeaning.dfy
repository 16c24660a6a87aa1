/** What the split function computes: run from the header of the loop, it comes to the exit exactly when the
    function did before, and with the same memory and the same values. */
module SplitMeaning {
  import D = Distribution
  import opened Options
  import opened LoopSplit
  import opened SplitOrder
  import opened LoopCopies
  import opened LoopErasure
  import opened SplitRun
  import opened SplitResult
  import opened SplitLoops
  import opened Execution
  import opened LoopCode
  import opened CodeFission

  // ---------- the code of a loop ----------

  /** The loop has an instruction before the branch of its latch. */
  predicate HasTail(blocks: seq<Block>, body: seq<nat>) {
    |body| > 1 && InBounds(blocks, body) && blocks[body[|body| - 1]].insts != []
  }

  lemma TailIsLast(blocks: seq<Block>, body: seq<nat>)
    requires HasTail(blocks, body)
    ensures BodyInsts(blocks, body, |body|) != []
    ensures var xs := BodyInsts(blocks, body, |body|);
            && xs[|xs| - 1] == blocks[body[|body| - 1]].insts[|blocks[body[|body| - 1]].insts| - 1]
            && xs[..|xs| - 1] == BodyInsts(blocks, body, |body| - 1) + Front(blocks[body[|body| - 1]], true)
  {
  }

  function NodesOf(b: Block, pre: nat, latch: nat): (r: seq<Node>)
    ensures |r| == |b.phis| && forall i :: 0 <= i < |r| ==> r[i] == Node(b.phis[i].id, Incoming(b.phis[i], pre), Incoming(b.phis[i], latch))
  {
    seq(|b.phis|, i requires 0 <= i < |b.phis| => Node(b.phis[i].id, Incoming(b.phis[i], pre), Incoming(b.phis[i], latch)))
  }

  /** The code of a loop that is entered from pre. */
  function CodeOf(blocks: seq<Block>, body: seq<nat>, pre: nat): Code
    requires HasTail(blocks, body)
  {
    TailIsLast(blocks, body);
    var xs := BodyInsts(blocks, body, |body|);
    Code(NodesOf(blocks[body[0]], pre, body[|body| - 1]), blocks[body[0]].insts, blocks[body[0]].branch, xs[..|xs| - 1], xs[|xs| - 1])
  }

  lemma LapIsCode(m: Meaning, blocks: seq<Block>, body: seq<nat>, pre: nat, s: State)
    requires HasTail(blocks, body)
    ensures Lap(m, blocks, body, s) == Exec(m, CodeOf(blocks, body, pre).tail, RunAll(m, CodeOf(blocks, body, pre).stmts, s))
  {
    TailIsLast(blocks, body);
  }

  lemma EnteringIsCode(m: Meaning, blocks: seq<Block>, body: seq<nat>, pre: nat, s: State)
    requires HasTail(blocks, body)
    ensures AfterBlock(m, blocks[body[0]], pre, s) == RunAll(m, CodeOf(blocks, body, pre).head, TakeAll(m, Inits(CodeOf(blocks, body, pre)), s))
    ensures AfterBlock(m, blocks[body[0]], body[|body| - 1], s)
         == RunAll(m, CodeOf(blocks, body, pre).head, TakeAll(m, Nexts(CodeOf(blocks, body, pre)), s))
  {
    hide RunAll, TakeAll, BodyInsts;
    var code, b := CodeOf(blocks, body, pre), blocks[body[0]];
    assert Inits(code) == Takings(b.phis, pre);
    assert Nexts(code) == Takings(b.phis, body[|body| - 1]);
  }

  /** Running the blocks of the loop is running its code. */
  lemma {:induction false} HeadsAreCode(m: Meaning, blocks: seq<Block>, body: seq<nat>, pre: nat, st: State, t: nat)
    requires HasTail(blocks, body)
    ensures HeadAt(m, blocks, body, pre, st, t) == HeadState(m, CodeOf(blocks, body, pre), st, t)
    decreases t
  {
    hide AfterBlock, Lap, RunAll, TakeAll, CodeOf;
    if t == 0 {
      EnteringIsCode(m, blocks, body, pre, st);
    } else {
      HeadsAreCode(m, blocks, body, pre, st, t - 1);
      var s := HeadAt(m, blocks, body, pre, st, t - 1);
      LapIsCode(m, blocks, body, pre, s);
      EnteringIsCode(m, blocks, body, pre, Lap(m, blocks, body, s));
    }
  }

  lemma StaysIsGoes(m: Meaning, blocks: seq<Block>, body: seq<nat>, pre: nat, out: nat, s: State)
    requires HasTail(blocks, body) && TwoWays(blocks, body, out) && BodyFirst(blocks, body)
    ensures Stays(m, blocks, body, s) <==> Goes(m, CodeOf(blocks, body, pre), s)
  {
    hide BodyInsts;
    assert blocks[body[0]].succs == [body[1], out];
  }

  lemma TripsAreCode(m: Meaning, blocks: seq<Block>, body: seq<nat>, pre: nat, out: nat, st: State, t: nat)
    requires HasTail(blocks, body) && TwoWays(blocks, body, out) && BodyFirst(blocks, body)
    ensures Trips(m, blocks, body, pre, st, t) <==> RunsFor(m, CodeOf(blocks, body, pre), st, t)
  {
    hide TwoWays, Stays, Goes, HeadAt, HeadState, CodeOf;
    forall u: nat ensures Stays(m, blocks, body, HeadAt(m, blocks, body, pre, st, u)) <==> Goes(m, CodeOf(blocks, body, pre), HeadState(m, CodeOf(blocks, body, pre), st, u)) {
      HeadsAreCode(m, blocks, body, pre, st, u);
      StaysIsGoes(m, blocks, body, pre, out, HeadAt(m, blocks, body, pre, st, u));
    }
  }

  // ---------- the code of a copy ----------

  lemma SameEntry(p: Phi, a: nat, q: Phi, b: nat)
    requires SameEntries(p, a, q, b)
    ensures Incoming(p, a) == Incoming(q, b)
  {
  }

  /** The phi node of a copy takes from the latch the copy of what that of the loop takes. */
  lemma MovedEntry(p: Phi, a: nat, q: Phi, b: nat, ids: set<nat>, shift: nat)
    requires |p.froms| == |q.froms| == |p.vals| && q.vals == MovedArgs(p.vals, ids, shift)
    requires forall j :: 0 <= j < |p.froms| ==> (p.froms[j] == a <==> q.froms[j] == b)
    ensures Incoming(q, b) == MovedOperand(Incoming(p, a), ids, shift)
  {
    MovedOperands(p.vals, ids, shift);
  }

  /** A value from outside the loop is the same in every copy. */
  lemma NotMovedEntry(o: Operand, ids: set<nat>, shift: nat)
    requires UsesOnly([o], ids, {})
    ensures MovedOperand(o, ids, shift) == o
  {
    assert [o][0] == o;
  }

  lemma EntersFrom(blocks: seq<Block>, body: seq<nat>, pre: nat, i: nat, j: nat)
    requires PhisMatch(blocks) && HeaderEntered(blocks, body, pre) && body[0] < |blocks| && i < |blocks[body[0]].phis|
    ensures |blocks[body[0]].phis[i].froms| == |blocks[body[0]].phis[i].vals|
    ensures j < |blocks[body[0]].phis[i].froms| ==>
              (blocks[body[0]].phis[i].froms[j] == body[|body| - 1] <==> blocks[body[0]].phis[i].froms[j] != pre)
  {
    hide Pred;
    assert PhisMatchAt(blocks, body[0]);
    var froms := blocks[body[0]].phis[i].froms;
    if j < |froms| {
      assert froms[j] in froms;
      assert Pred(blocks, froms[j], body[0]);
    }
  }

  lemma ChainEntered(blocks: seq<Block>, body: seq<nat>, pre: nat, exit: nat)
    requires Chain(blocks, body, pre, exit)
    ensures HeaderEntered(blocks, body, pre) && body[0] < |blocks|
  {
    hide Shaped, Started, Pred;
    ShapedSize(blocks, body, exit);
    assert body[|body| - 1] in body;
  }

  lemma NodeMoved(orig: seq<Block>, body: seq<nat>, pre: nat, exit: nat, now: seq<Block>, copy: seq<nat>, entry: nat, ids: set<nat>, shift: nat, i: nat)
    requires PhisMatch(orig) && Chain(orig, body, pre, exit) && i < |orig[body[0]].phis|
    requires PhisMatch(now) && HeaderEntered(now, copy, entry) && copy[0] < |now|
    requires CopyBlock(now[copy[0]], orig[body[0]], ids, shift) && SameStart(orig[body[0]], pre, now[copy[0]], entry)
    requires UsesOnly([Incoming(orig[body[0]].phis[i], pre)], ids, {})
    ensures var p, q := orig[body[0]].phis[i], now[copy[0]].phis[i];
            Node(q.id, Incoming(q, entry), Incoming(q, copy[|copy| - 1]))
            == Node(p.id + shift, MovedOperand(Incoming(p, pre), ids, shift), MovedOperand(Incoming(p, body[|body| - 1]), ids, shift))
  {
    hide PhisMatch, Chain, Incoming, MovedArgs, MovedOperand, Moved, UsesOnly;
    ChainEntered(orig, body, pre, exit);
    var p, q := orig[body[0]].phis[i], now[copy[0]].phis[i];
    assert SameEntries(p, pre, q, entry);
    SameEntry(p, pre, q, entry);
    NotMovedEntry(Incoming(p, pre), ids, shift);
    forall j | 0 <= j < |p.froms| ensures p.froms[j] == body[|body| - 1] <==> q.froms[j] == copy[|copy| - 1] {
      EntersFrom(orig, body, pre, i, j);
      EntersFrom(now, copy, entry, i, j);
    }
    EntersFrom(orig, body, pre, i, 0);
    MovedEntry(p, body[|body| - 1], q, copy[|copy| - 1], ids, shift);
  }

  lemma {:induction false} BodyMoved(orig: seq<Block>, body: seq<nat>, now: seq<Block>, copy: seq<nat>, scc: seq<nat>, shift: nat, k: nat)
    requires GroupCopy(orig, body, now, copy, scc, shift) && 0 < k < |body|
    ensures BodyInsts(now, copy, k) == MovedAll(Kept(BodyInsts(orig, body, k), scc, map[]), DefinedIn(orig, body), shift)
  {
    var ids := DefinedIn(orig, body);
    hide DefinedIn, Moved, MovedArgs, Kept, Different;
    if k == 1 {
      KeptNone(scc, map[]);
    } else {
      BodyMoved(orig, body, now, copy, scc, shift, k - 1);
      var b := orig[body[k - 1]];
      var c := ForGroup(orig, body, scc, k - 1);
      assert CopyBlock(now[copy[k - 1]], c, ids, shift);
      ThinParts(b, scc, map[], false);
      FrontSize(b, false);
      assert c.insts == Kept(b.insts, scc, map[]);
      assert now[copy[k - 1]].insts == MovedAll(c.insts, ids, shift);
      KeptJoined(BodyInsts(orig, body, k - 1), b.insts, scc, map[]);
      MovedJoined(Kept(BodyInsts(orig, body, k - 1), scc, map[]), Kept(b.insts, scc, map[]), ids, shift);
    }
  }

  lemma LatchMoved(orig: seq<Block>, body: seq<nat>, now: seq<Block>, copy: seq<nat>, scc: seq<nat>, shift: nat)
    requires GroupCopy(orig, body, now, copy, scc, shift) && HasTail(orig, body)
    ensures HasTail(now, copy)
    ensures var b, c, ids := orig[body[|body| - 1]], now[copy[|copy| - 1]], DefinedIn(orig, body);
            && Front(c, true) == MovedAll(Kept(Front(b, true), scc, map[]), ids, shift)
            && c.insts[|c.insts| - 1] == Moved(b.insts[|b.insts| - 1], ids, shift)
  {
    var ids, k := DefinedIn(orig, body), |body| - 1;
    hide DefinedIn, Moved, MovedArgs, Kept, Different, Thin;
    var b, c := orig[body[k]], now[copy[k]];
    assert CopyBlock(c, ForGroup(orig, body, scc, k), ids, shift);
    ThinParts(b, scc, map[], true);
    FrontSize(b, true);
    var kept := Kept(Front(b, true), scc, map[]);
    assert c.insts == MovedAll(kept + Rest(b, true), ids, shift);
    assert Front(c, true) == MovedAll(kept, ids, shift);
  }

  lemma StmtsMoved(orig: seq<Block>, body: seq<nat>, pre: nat, now: seq<Block>, copy: seq<nat>, entry: nat, scc: seq<nat>, shift: nat)
    requires GroupCopy(orig, body, now, copy, scc, shift) && HasTail(orig, body)
    ensures HasTail(now, copy)
    ensures var code, c, ids := CodeOf(orig, body, pre), CodeOf(now, copy, entry), DefinedIn(orig, body);
            c.stmts == MovedAll(Kept(code.stmts, scc, map[]), ids, shift) && c.tail == Moved(code.tail, ids, shift)
  {
    hide DefinedIn, Moved, Kept, BodyInsts, Front, NodesOf, Thin, CopyBlock;
    var ids, n := DefinedIn(orig, body), |body|;
    LatchMoved(orig, body, now, copy, scc, shift);
    BodyMoved(orig, body, now, copy, scc, shift, n - 1);
    TailIsLast(orig, body);
    TailIsLast(now, copy);
    var xs, f := BodyInsts(orig, body, n - 1), Front(orig[body[n - 1]], true);
    KeptJoined(xs, f, scc, map[]);
    MovedJoined(Kept(xs, scc, map[]), Kept(f, scc, map[]), ids, shift);
  }

  lemma HeaderMoved(orig: seq<Block>, body: seq<nat>, pre: nat, now: seq<Block>, copy: seq<nat>, entry: nat, scc: seq<nat>, shift: nat)
    requires GroupCopy(orig, body, now, copy, scc, shift) && HasTail(orig, body) && HasTail(now, copy)
    ensures CopyBlock(now[copy[0]], orig[body[0]], DefinedIn(orig, body), shift)
    ensures var code, c, ids := CodeOf(orig, body, pre), CodeOf(now, copy, entry), DefinedIn(orig, body);
            c.head == MovedAll(code.head, ids, shift) && c.test == Moved(code.test, ids, shift)
  {
    hide DefinedIn, Moved, BodyInsts, NodesOf;
    assert ForGroup(orig, body, scc, 0) == orig[body[0]];
  }

  /** The code of each copy is the loop's code with the statements of its group, moved. */
  lemma CopyIsCode(orig: seq<Block>, body: seq<nat>, pre: nat, exit: nat, now: seq<Block>, copy: seq<nat>, entry: nat, scc: seq<nat>, shift: nat)
    requires PhisMatch(orig) && Chain(orig, body, pre, exit) && PhisMatch(now) && HeaderEntered(now, copy, entry)
    requires HasTail(orig, body) && GroupCopy(orig, body, now, copy, scc, shift) && SameStart(orig[body[0]], pre, now[copy[0]], entry)
    requires forall i :: 0 <= i < |orig[body[0]].phis| ==> UsesOnly([Incoming(orig[body[0]].phis[i], pre)], DefinedIn(orig, body), {})
    ensures HasTail(now, copy)
    ensures CodeOf(now, copy, entry) == CopyCode(CodeOf(orig, body, pre), scc, DefinedIn(orig, body), shift)
  {
    hide DefinedIn, Moved, BodyInsts, PhisMatch, Chain, GroupCopy, UsesOnly, Incoming, MovedOperand, MovedArgs, Kept, HeaderEntered;
    StmtsMoved(orig, body, pre, now, copy, entry, scc, shift);
    HeaderMoved(orig, body, pre, now, copy, entry, scc, shift);
    var ids := DefinedIn(orig, body);
    var c, d := CodeOf(now, copy, entry), CopyCode(CodeOf(orig, body, pre), scc, ids, shift);
    forall i | 0 <= i < |orig[body[0]].phis| ensures c.nodes[i] == d.nodes[i] {
      NodeMoved(orig, body, pre, exit, now, copy, entry, ids, shift, i);
    }
    assert c.nodes == d.nodes;
  }

  // ---------- the loop is sensible ----------

  /** Every value is computed once, and before it is used; branches compute none. */
  ghost predicate Ssa(code: Code, ids: set<nat>) {
    && (forall i :: 0 <= i < |code.nodes| ==> UsesOnly([code.nodes[i].next], ids, HeaderIds(code) + InstrIds(code.stmts) + {code.tail.id}))
    && (forall j :: 0 <= j < |code.head| ==> UsesOnly(code.head[j].args, ids, HeadIds(code, j)))
    && UsesOnly(code.test.args, ids, HeaderIds(code))
    && (forall j {:trigger code.stmts[j]} :: 0 <= j < |code.stmts| ==>
          UsesOnly(code.stmts[j].args, ids, HeaderIds(code) + InstrIds(code.stmts[..j])))
    && UsesOnly(code.tail.args, ids, HeaderIds(code) + InstrIds(code.stmts))
    && (forall i, j :: 0 <= i < j < |code.stmts| ==> code.stmts[i].id != code.stmts[j].id)
    && HeaderIds(code) !! InstrIds(code.stmts) && code.tail.id !in InstrIds(code.stmts)
  }

  /** Which instruction of which block a statement is. */
  lemma {:induction false} BodyItem(blocks: seq<Block>, body: seq<nat>, k: nat, s: nat) returns (l: nat, j: nat)
    requires InBounds(blocks, body) && 0 < k <= |body| && s < |BodyInsts(blocks, body, k)|
    ensures 0 < l < k && j < |blocks[body[l]].insts| && blocks[body[l]].insts[j] == BodyInsts(blocks, body, k)[s]
    decreases k
  {
    var before := BodyInsts(blocks, body, k - 1);
    if s < |before| {
      l, j := BodyItem(blocks, body, k - 1, s);
    } else {
      l, j := k - 1, s - |before|;
    }
  }

  lemma StmtItem(blocks: seq<Block>, body: seq<nat>, pre: nat, s: nat) returns (k: nat, j: nat)
    requires HasTail(blocks, body) && s < |CodeOf(blocks, body, pre).stmts|
    ensures Erasable(blocks, body, k, j) && j < |blocks[body[k]].insts|
    ensures ItemAt(blocks[body[k]], j) == CodeOf(blocks, body, pre).stmts[s]
  {
    TailIsLast(blocks, body);
    hide BodyInsts;
    var n := |body|;
    var xs := BodyInsts(blocks, body, n - 1);
    if s < |xs| {
      k, j := BodyItem(blocks, body, n - 1, s);
    } else {
      k, j := n - 1, s - |xs|;
    }
  }

  /** Nothing else uses a statement's value but later statements, branches between the blocks, and nothing outside. */
  lemma StmtIsPrivate(blocks: seq<Block>, body: seq<nat>, pre: nat, v: nat)
    requires HasTail(blocks, body) && Private(blocks, body) && Different(body) && v in InstrIds(CodeOf(blocks, body, pre).stmts)
    ensures OnlyInside(blocks, body, v)
    ensures Def(v) !in CodeOf(blocks, body, pre).tail.args
    ensures !UsedIn(v, blocks[body[0]])
    ensures v in DefinedIn(blocks, body)
  {
    var code := CodeOf(blocks, body, pre);
    var s: nat :| s < |code.stmts| && code.stmts[s].id == v;
    var k, j := StmtItem(blocks, body, pre, s);
    assert PrivateAt(blocks, body, k, j);
    TailIsLast(blocks, body);
    var n := |body| - 1;
    var last := |blocks[body[n]].insts| - 1;
    assert ItemAt(blocks[body[n]], last) == code.tail;
    assert ItemUses(blocks, body, n, last, v) <==> Def(v) in code.tail.args;
    assert body[0] !in body[1..] by { InLoop(body, 0); }
    assert v in Defined(blocks[body[k]]);
  }

  lemma InstrUses(v: nat, b: Block, i: nat, a: nat)
    requires i < |b.phis| && Incoming(b.phis[i], a) == Def(v)
    ensures UsedIn(v, b)
  {
  }

  lemma DefinedBelow(blocks: seq<Block>, body: seq<nat>, limit: nat)
    requires InBounds(blocks, body) && Numbered(blocks, limit)
    ensures forall v :: v in DefinedIn(blocks, body) ==> v < limit
  {
    forall v | v in DefinedIn(blocks, body) ensures v < limit {
      var i :| 0 <= i < |body| && v in Defined(blocks[body[i]]);
      BelowAt(blocks, limit, body[i]);
    }
  }

  lemma InitOutside(blocks: seq<Block>, body: seq<nat>, pre: nat, exit: nat, i: nat)
    requires Chain(blocks, body, pre, exit) && PhisMatch(blocks) && i < |blocks[body[0]].phis|
    ensures UsesOnly([Incoming(blocks[body[0]].phis[i], pre)], DefinedIn(blocks, body), {})
  {
    hide Shaped, Pred, DefinedIn;
    ShapedSize(blocks, body, exit);
    var p := blocks[body[0]].phis[i];
    assert PhisMatchAt(blocks, body[0]);
    assert pre in p.froms <==> Pred(blocks, pre, body[0]);
    assert Pred(blocks, pre, body[0]);
    assert Takes(blocks, body[0], pre, i, Incoming(p, pre));
  }

  lemma CodeBelow(blocks: seq<Block>, body: seq<nat>, pre: nat, limit: nat)
    requires HasTail(blocks, body) && Numbered(blocks, limit)
    ensures AllBelow(CodeOf(blocks, body, pre), DefinedIn(blocks, body), limit)
  {
    var code := CodeOf(blocks, body, pre);
    DefinedBelow(blocks, body, limit);
    hide DefinedIn, CodeOf, Numbered, InBounds;
    assert code == CodeOf(blocks, body, pre);
    CodeParts(blocks, body, pre);
    BelowAt(blocks, limit, body[0]);
    forall s: nat | s < |code.stmts| ensures OperandsBelow(code.stmts[s].args, limit) {
      var k, j := StmtItem(blocks, body, pre, s);
      BelowAt(blocks, limit, body[k]);
    }
    BelowAt(blocks, limit, body[|body| - 1]);
    forall i | 0 <= i < |code.nodes| ensures OperandBelow(code.nodes[i].init, limit) && OperandBelow(code.nodes[i].next, limit) {
      IncomingBelow(blocks[body[0]].phis[i], pre, limit);
      IncomingBelow(blocks[body[0]].phis[i], body[|body| - 1], limit);
    }
  }

  lemma IncomingBelow(p: Phi, a: nat, limit: nat)
    requires OperandsBelow(p.vals, limit)
    ensures OperandBelow(Incoming(p, a), limit)
  {
  }

  lemma CodeParts(blocks: seq<Block>, body: seq<nat>, pre: nat)
    requires HasTail(blocks, body)
    ensures var code, h, l := CodeOf(blocks, body, pre), blocks[body[0]], blocks[body[|body| - 1]];
            && code.head == h.insts && code.test == h.branch && code.tail == l.insts[|l.insts| - 1]
            && code.nodes == NodesOf(h, pre, body[|body| - 1])
  {
    TailIsLast(blocks, body);
  }

  lemma CodeDefined(blocks: seq<Block>, body: seq<nat>, pre: nat)
    requires HasTail(blocks, body)
    ensures var code, ids := CodeOf(blocks, body, pre), DefinedIn(blocks, body);
            HeaderIds(code) <= ids && InstrIds(code.stmts) <= ids && code.tail.id in ids
  {
    hide CodeOf;
    var code, ids := CodeOf(blocks, body, pre), DefinedIn(blocks, body);
    CodeParts(blocks, body, pre);
    assert code.head[..|code.head|] == code.head;
    assert HeaderIds(code) <= Defined(blocks[body[0]]);
    assert code.tail.id in Defined(blocks[body[|body| - 1]]);
    forall s | 0 <= s < |code.stmts| ensures code.stmts[s].id in ids {
      var k, j := StmtItem(blocks, body, pre, s);
      assert code.stmts[s].id in Defined(blocks[body[k]]);
    }
  }

  /** A single-assignment loop that the splitting accepts. */
  lemma LoopIsSensible(m: Meaning, blocks: seq<Block>, body: seq<nat>, pre: nat, exit: nat, limit: nat)
    requires Chain(blocks, body, pre, exit) && WellFormed(blocks, limit) && Private(blocks, body)
    ensures HasTail(blocks, body)
    ensures Ssa(CodeOf(blocks, body, pre), DefinedIn(blocks, body)) && PureFrame(m, CodeOf(blocks, body, pre)) ==>
              Sensible(m, CodeOf(blocks, body, pre), DefinedIn(blocks, body), limit)
  {
    hide DefinedIn, CodeOf, Numbered, PhisMatch, Entered, Started, Incoming, PureFrame, InstrIds, NodeIds, HeadIds, Private, UsedIn, AllBelow;
    PrivateSize(blocks, body);
    var code, ids := CodeOf(blocks, body, pre), DefinedIn(blocks, body);
    if Ssa(code, ids) && PureFrame(m, code) {
      CodeParts(blocks, body, pre);
      CodeDefined(blocks, body, pre);
      CodeBelow(blocks, body, pre, limit);
      var frame := HeaderIds(code) + {code.tail.id};
      forall i | 0 <= i < |code.nodes|
        ensures UsesOnly([code.nodes[i].init], ids, {}) && UsesOnly([code.nodes[i].next], ids, frame)
      {
        InitOutside(blocks, body, pre, exit, i);
        NotAStmt(blocks, body, pre, i);
        UsesLess([code.nodes[i].next], ids, InstrIds(code.stmts), frame);
      }
      forall v: nat | Def(v) in code.tail.args && v in InstrIds(code.stmts) ensures false {
        StmtIsPrivate(blocks, body, pre, v);
      }
      UsesLess(code.tail.args, ids, InstrIds(code.stmts), HeaderIds(code));
    }
  }

  lemma UsesLess(os: seq<Operand>, ids: set<nat>, not: set<nat>, from: set<nat>)
    requires (forall v: nat :: Def(v) in os ==> v !in not) && (UsesOnly(os, ids, from + not))
    ensures UsesOnly(os, ids, from)
  {
  }

  lemma NotAStmt(blocks: seq<Block>, body: seq<nat>, pre: nat, i: nat)
    requires HasTail(blocks, body) && Private(blocks, body) && Different(body) && i < |blocks[body[0]].phis|
    ensures forall v: nat :: Def(v) in [CodeOf(blocks, body, pre).nodes[i].next] ==> v !in InstrIds(CodeOf(blocks, body, pre).stmts)
  {
    hide Private, DefinedIn, CodeOf, InstrIds, Different, UsedIn, Incoming;
    var code := CodeOf(blocks, body, pre);
    CodeParts(blocks, body, pre);
    var o := code.nodes[i].next;
    if o.Def? && o.v in InstrIds(code.stmts) {
      StmtIsPrivate(blocks, body, pre, o.v);
      InstrUses(o.v, blocks[body[0]], i, body[|body| - 1]);
    }
    assert forall v: nat :: Def(v) in [o] ==> o == Def(v);
  }

  // ---------- running the split function ----------

  /** A loop, and what SplitLoop leaves of it if its header names the body first. */
  ghost predicate IsSplit(orig: seq<Block>, limit: nat, body: seq<nat>, pre: nat, exit: nat,
                          now: seq<Block>, loops: seq<seq<nat>>, shifts: seq<nat>, sccs: seq<seq<nat>>) {
    && Chain(orig, body, pre, exit) && WellFormed(orig, limit) && Private(orig, body) && BodyFirst(orig, body)
    && SplitInto(orig, limit, body, now, loops, shifts, sccs) && RowKept(orig, body, now, loops, pre, exit)
    && forall t {:trigger sccs[t]} :: 0 <= t < |loops| ==> Closed(orig, body, sccs[t], map[])
  }

  /** Every statement is in exactly one of the first count groups. */
  ghost predicate OneGroupEach(code: Code, sccs: seq<seq<nat>>, count: nat, group: nat -> nat)
    requires count <= |sccs|
  {
    && (forall s: nat :: s < |code.stmts| ==> group(s) < count)
    && forall s: nat, t: nat {:trigger code.stmts[s], sccs[t]} :: s < |code.stmts| && t < count ==>
         (code.stmts[s].id in sccs[t] <==> group(s) == t)
  }

  function FissionOf(m: Meaning, orig: seq<Block>, body: seq<nat>, pre: nat, limit: nat, sccs: seq<seq<nat>>, shifts: seq<nat>, group: nat -> nat): Fission
    requires HasTail(orig, body)
  {
    Fission(m, CodeOf(orig, body, pre), DefinedIn(orig, body), limit, sccs, shifts, group)
  }

  lemma ErasableSize(orig: seq<Block>, body: seq<nat>, l: nat, i: nat)
    requires HasTail(orig, body) && Erasable(orig, body, l, i)
    ensures 0 < l < |body| && i <= |orig[body[l]].insts|
  {
  }

  /** A statement and what it uses are in the same group. */
  lemma UsersInGroup(orig: seq<Block>, body: seq<nat>, pre: nat, scc: seq<nat>, u: nat, s: nat)
    requires HasTail(orig, body) && Closed(orig, body, scc, map[])
    requires u < |CodeOf(orig, body, pre).stmts| && s < |CodeOf(orig, body, pre).stmts|
    requires Def(CodeOf(orig, body, pre).stmts[u].id) in CodeOf(orig, body, pre).stmts[s].args
    ensures CodeOf(orig, body, pre).stmts[u].id in scc <==> CodeOf(orig, body, pre).stmts[s].id in scc
  {
    hide Closed, CodeOf, Erasable, ItemAt;
    var k, j := StmtItem(orig, body, pre, u);
    var l, i := StmtItem(orig, body, pre, s);
    ErasableSize(orig, body, k, j);
    ErasableSize(orig, body, l, i);
    assert ItemUses(orig, body, l, i, ItemAt(orig[body[k]], j).id);
    UsersTogether(orig, body, scc, map[], k, j, l, i);
  }

  /** What the results below are about: a split loop in single-assignment form whose header and last instruction
      keep away from memory, with each statement in one group. */
  ghost predicate Runs(m: Meaning, orig: seq<Block>, limit: nat, body: seq<nat>, pre: nat, exit: nat,
                       now: seq<Block>, loops: seq<seq<nat>>, shifts: seq<nat>, sccs: seq<seq<nat>>, group: nat -> nat) {
    && IsSplit(orig, limit, body, pre, exit, now, loops, shifts, sccs) && HasTail(orig, body)
    && Ssa(CodeOf(orig, body, pre), DefinedIn(orig, body)) && PureFrame(m, CodeOf(orig, body, pre))
    && |loops| <= |sccs| && OneGroupEach(CodeOf(orig, body, pre), sccs, |loops|, group)
  }

  lemma RunsSplits(m: Meaning, orig: seq<Block>, limit: nat, body: seq<nat>, pre: nat, exit: nat,
                   now: seq<Block>, loops: seq<seq<nat>>, shifts: seq<nat>, sccs: seq<seq<nat>>, group: nat -> nat)
    requires Runs(m, orig, limit, body, pre, exit, now, loops, shifts, sccs, group)
    ensures HasTail(orig, body) && Splits(FissionOf(m, orig, body, pre, limit, sccs, shifts, group))
  {
    hide Ssa, PureFrame, DefinedIn, CodeOf, Closed, Chain, WellFormed, Private, RowKept, Sensible, GroupCopy, AllApart, BodyFirst;
    LoopIsSensible(m, orig, body, pre, exit, limit);
    var code := CodeOf(orig, body, pre);
    forall u: nat, s: nat | u < |code.stmts| && s < |code.stmts| && Def(code.stmts[u].id) in code.stmts[s].args
      ensures group(u) == group(s)
    {
      assert group(u) < |loops|;
      var scc := sccs[group(u)];
      UsersInGroup(orig, body, pre, scc, u, s);
    }
  }

  lemma RunsParts(m: Meaning, orig: seq<Block>, limit: nat, body: seq<nat>, pre: nat, exit: nat,
                  now: seq<Block>, loops: seq<seq<nat>>, shifts: seq<nat>, sccs: seq<seq<nat>>, group: nat -> nat)
    requires Runs(m, orig, limit, body, pre, exit, now, loops, shifts, sccs, group)
    ensures |body| > 1 && InBounds(orig, body) && NoPhis(orig, body) && HasTail(orig, body) && exit !in body && Shaped(orig, body, exit)
    ensures BodyFirst(orig, body) && Different(body) && Private(orig, body) && Numbered(orig, limit) && exit < |orig| && exit < |now|
    ensures 0 < |loops| == |shifts| <= |sccs| && Headed(loops) && loops[0] == body && Around(orig, body, exit, now, LastHeader(loops))
  {
    hide Ssa, PureFrame, DefinedIn, Closed, GroupCopy, AllApart, CodeOf, Entered, Started;
    PrivateSize(orig, body);
  }

  lemma SplitParts(m: Meaning, orig: seq<Block>, limit: nat, body: seq<nat>, pre: nat, exit: nat,
                   now: seq<Block>, loops: seq<seq<nat>>, shifts: seq<nat>, sccs: seq<seq<nat>>, group: nat -> nat, t: nat)
    requires Runs(m, orig, limit, body, pre, exit, now, loops, shifts, sccs, group) && t < |loops|
    ensures Headed(loops) && |loops| == |shifts| <= |sccs|
    ensures HasTail(orig, body) && PhisMatch(orig) && Chain(orig, body, pre, exit) && PhisMatch(now)
    ensures OpenAt(now, loops, pre, exit, t)
    ensures GroupCopy(orig, body, now, loops[t], sccs[t], shifts[t])
    ensures RestartAt(now, loops, pre, t) && body[0] < |now| && body[0] < |orig| && now[body[0]].phis == orig[body[0]].phis
  {
    hide DefinedIn, Closed, Chain, GroupCopy, AllApart, BodyFirst, SameStart, Ssa, PureFrame, OpenAt;
    PrivateSize(orig, body);
  }

  /** What is known of loop t from where its blocks lead. */
  lemma OpenParts(now: seq<Block>, loops: seq<seq<nat>>, pre: nat, exit: nat, t: nat)
    requires Headed(loops) && t < |loops| && OpenAt(now, loops, pre, exit, t)
    ensures |loops[t]| > 1 && InBounds(now, loops[t]) && exit !in loops[t] && HeaderEntered(now, loops[t], EntryOf(loops, pre, t))
    ensures TwoWays(now, loops[t], ExitOf(loops, exit, t)) && BodyFirst(now, loops[t])
    ensures NoPhis(now, loops[t]) ==> forall k: nat :: 0 < k < |loops[t]| && now[loops[t][k]].ended ==> Forward(now, loops[t], k)
  {
    hide Different, HeaderEntered;
    var loop := loops[t];
    assert loop[1] in loop;
    if NoPhis(now, loop) {
      forall k: nat | 0 < k < |loop| && now[loop[k]].ended ensures Forward(now, loop, k) {
        assert StepsOn(now, loop, k);
      }
    }
  }

  lemma OpenShaped(now: seq<Block>, loops: seq<seq<nat>>, pre: nat, exit: nat, t: nat)
    requires Headed(loops) && t < |loops| && OpenAt(now, loops, pre, exit, t) && Different(loops[t]) && AllEnded(now, loops[t])
    ensures Shaped(now, loops[t], ExitOf(loops, exit, t))
  {
    hide OpenLoop, AllEnded, Shaped, Different;
    OpenEnded(now, loops[t], ExitOf(loops, exit, t));
  }

  lemma OpenEnded(now: seq<Block>, loop: seq<nat>, out: nat)
    requires OpenLoop(now, loop, out) && Different(loop) && AllEnded(now, loop)
    ensures Shaped(now, loop, out)
  {
    hide Different;
    forall k: nat | 0 < k < |loop| ensures StepsOn(now, loop, k) && now[loop[k]].ended {
    }
    var last: nat := |loop| - 1;
    assert StepsOn(now, loop, last);
  }

  lemma CopyNoPhis(orig: seq<Block>, body: seq<nat>, now: seq<Block>, copy: seq<nat>, scc: seq<nat>, shift: nat)
    requires GroupCopy(orig, body, now, copy, scc, shift) && NoPhis(orig, body)
    ensures NoPhis(now, copy) && Different(copy)
  {
    hide DefinedIn, MovedArgs, Thin;
    forall k: nat | 0 < k < |copy| ensures now[copy[k]].phis == [] {
      GroupEnds(orig, body, scc, k);
      assert CopyBlock(now[copy[k]], ForGroup(orig, body, scc, k), DefinedIn(orig, body), shift);
    }
  }

  /** The code of the t-th loop that runs. */
  lemma LoopCodeIs(m: Meaning, orig: seq<Block>, limit: nat, body: seq<nat>, pre: nat, exit: nat,
                   now: seq<Block>, loops: seq<seq<nat>>, shifts: seq<nat>, sccs: seq<seq<nat>>, group: nat -> nat, t: nat)
    requires Runs(m, orig, limit, body, pre, exit, now, loops, shifts, sccs, group) && t < |loops|
    ensures Headed(loops) && HasTail(now, loops[t]) && HasTail(orig, body) && |loops| == |shifts| <= |sccs|
    ensures CodeOf(now, loops[t], EntryOf(loops, pre, t)) == CodeFor(FissionOf(m, orig, body, pre, limit, sccs, shifts, group), t)
  {
    hide Runs, Chain, GroupCopy, CodeOf, CopyCode, DefinedIn, PhisMatch, SameStart, UsesOnly, Incoming, BodyFirst, OpenAt, HeaderEntered, TwoWays;
    SplitParts(m, orig, limit, body, pre, exit, now, loops, shifts, sccs, group, t);
    ChainFacts(orig, body, pre, exit);
    OpenParts(now, loops, pre, exit, t);
    var header := now[loops[t][0]];
    assert loops[0] == body by { RunsParts(m, orig, limit, body, pre, exit, now, loops, shifts, sccs, group); }
    SamePhis(now[body[0]], orig[body[0]], pre, header, header, EntryOf(loops, pre, t));
    forall i | 0 <= i < |orig[body[0]].phis| ensures UsesOnly([Incoming(orig[body[0]].phis[i], pre)], DefinedIn(orig, body), {}) {
      InitOutside(orig, body, pre, exit, i);
    }
    CopyIsCode(orig, body, pre, exit, now, loops[t], EntryOf(loops, pre, t), sccs[t], shifts[t]);
  }

  /** When control enters the t-th loop, or has left the last one. */
  function Stage(f: Fission, loops: seq<seq<nat>>, pre: nat, exit: nat, st: State, trips: nat, t: nat): Config
    requires Headed(loops) && |loops| > 0 && t <= |loops| && |loops| == |f.shifts| <= |f.sccs|
  {
    if t < |loops| then Config(EntryOf(loops, pre, t), loops[t][0], EntryState(f, st, trips, t))
    else Config(LastHeader(loops), exit, EntryState(f, st, trips, t))
  }

  lemma StageSteps(f: Fission, loops: seq<seq<nat>>, pre: nat, exit: nat, st: State, trips: nat, t: nat)
    requires Headed(loops) && t < |loops| == |f.shifts| <= |f.sccs|
    ensures Stage(f, loops, pre, exit, st, trips, t) == Config(EntryOf(loops, pre, t), loops[t][0], EntryState(f, st, trips, t))
    ensures Stage(f, loops, pre, exit, st, trips, t + 1)
         == Config(loops[t][0], ExitOf(loops, exit, t), HeadState(f.m, CodeFor(f, t), EntryState(f, st, trips, t), trips))
  {
    hide HeadState, CopyCode;
  }

  lemma FissionParts(m: Meaning, orig: seq<Block>, body: seq<nat>, pre: nat, limit: nat, sccs: seq<seq<nat>>, shifts: seq<nat>, group: nat -> nat)
    requires HasTail(orig, body)
    ensures var f := FissionOf(m, orig, body, pre, limit, sccs, shifts, group);
            f.m == m && f.code == CodeOf(orig, body, pre) && f.shifts == shifts && f.sccs == sccs && f.group == group && f.limit == limit
            && f.ids == DefinedIn(orig, body)
  {
  }

  /** The header of the t-th loop, in its first iteration. */
  lemma FirstHeader(m: Meaning, orig: seq<Block>, limit: nat, body: seq<nat>, pre: nat, exit: nat,
                    now: seq<Block>, loops: seq<seq<nat>>, shifts: seq<nat>, sccs: seq<seq<nat>>, group: nat -> nat, t: nat, s: State)
    requires Runs(m, orig, limit, body, pre, exit, now, loops, shifts, sccs, group) && t < |loops|
    ensures Headed(loops) && |loops| == |shifts| <= |sccs| && HasTail(orig, body) && HasTail(now, loops[t])
    ensures var c, code := AfterBlock(m, now[loops[t][0]], EntryOf(loops, pre, t), s), CodeFor(FissionOf(m, orig, body, pre, limit, sccs, shifts, group), t);
            c == HeadState(m, code, s, 0) && (Stays(m, now, loops[t], c) <==> Goes(m, code, c))
  {
    hide *;
    SplitParts(m, orig, limit, body, pre, exit, now, loops, shifts, sccs, group, t);
    LoopCodeIs(m, orig, limit, body, pre, exit, now, loops, shifts, sccs, group, t);
    OpenParts(now, loops, pre, exit, t);
    var a := EntryOf(loops, pre, t);
    HeadsAreCode(m, now, loops[t], a, s, 0);
    FirstHead(m, now, loops[t], a, s);
    StaysIsGoes(m, now, loops[t], a, ExitOf(loops, exit, t), AfterBlock(m, now[loops[t][0]], a, s));
  }

  lemma FirstHead(m: Meaning, blocks: seq<Block>, body: seq<nat>, a: nat, st: State)
    requires InBounds(blocks, body) && |body| > 1
    ensures body[0] < |blocks| && HeadAt(m, blocks, body, a, st, 0) == AfterBlock(m, blocks[body[0]], a, st)
  {
  }

  /** One loop of the split function, if all its blocks have kept their ends or it does not run. */
  lemma StageNext(m: Meaning, orig: seq<Block>, limit: nat, body: seq<nat>, pre: nat, exit: nat,
                  now: seq<Block>, loops: seq<seq<nat>>, shifts: seq<nat>, sccs: seq<seq<nat>>, group: nat -> nat,
                  st: State, trips: nat, t: nat, e: Config)
    requires Runs(m, orig, limit, body, pre, exit, now, loops, shifts, sccs, group) && t < |loops|
    requires HasTail(orig, body) && RunsFor(m, CodeOf(orig, body, pre), st, trips) && (trips == 0 || AllEnded(now, loops[t]))
    ensures Headed(loops) && |loops| == |shifts| <= |sccs|
    ensures var f := FissionOf(m, orig, body, pre, limit, sccs, shifts, group);
            Reaches(m, now, Stage(f, loops, pre, exit, st, trips, t), exit, e) <==> Reaches(m, now, Stage(f, loops, pre, exit, st, trips, t + 1), exit, e)
  {
    hide *;
    SplitParts(m, orig, limit, body, pre, exit, now, loops, shifts, sccs, group, t);
    RunsParts(m, orig, limit, body, pre, exit, now, loops, shifts, sccs, group);
    RunsSplits(m, orig, limit, body, pre, exit, now, loops, shifts, sccs, group);
    LoopCodeIs(m, orig, limit, body, pre, exit, now, loops, shifts, sccs, group, t);
    OpenParts(now, loops, pre, exit, t);
    CopyNoPhis(orig, body, now, loops[t], sccs[t], shifts[t]);
    var f := FissionOf(m, orig, body, pre, limit, sccs, shifts, group);
    FissionParts(m, orig, body, pre, limit, sccs, shifts, group);
    var a, out, entry := EntryOf(loops, pre, t), ExitOf(loops, exit, t), EntryState(f, st, trips, t);
    CopiesRunEqually(f, st, trips, t, trips);
    StageSteps(f, loops, pre, exit, st, trips, t);
    if trips == 0 {
      FirstHeader(m, orig, limit, body, pre, exit, now, loops, shifts, sccs, group, t, entry);
      NoTrips(m, CodeFor(f, t), entry);
      LeftAtOnce(m, now, loops[t], out, a, entry, exit, e);
    } else {
      OpenShaped(now, loops, pre, exit, t);
      TripsAreCode(m, now, loops[t], a, out, entry, trips);
      HeadsAreCode(m, now, loops[t], a, entry, trips);
      ThroughTrips(m, now, loops[t], out, a, entry, exit, e, trips);
    }
  }

  lemma NoTrips(m: Meaning, code: Code, st: State)
    ensures RunsFor(m, code, st, 0) <==> !Goes(m, code, HeadState(m, code, st, 0))
  {
  }

  lemma SomeTrip(m: Meaning, code: Code, st: State, trips: nat)
    requires RunsFor(m, code, st, trips) && trips > 0
    ensures Goes(m, code, HeadState(m, code, st, 0))
  {
  }

  /** The first n loops have kept all ends. */
  ghost predicate EndedUpTo(now: seq<Block>, loops: seq<seq<nat>>, n: nat)
    requires n <= |loops|
  {
    forall t :: 0 <= t < n ==> AllEnded(now, loops[t])
  }

  lemma EndedAt(now: seq<Block>, loops: seq<seq<nat>>, n: nat, t: nat)
    requires n <= |loops| && EndedUpTo(now, loops, n) && t < n
    ensures AllEnded(now, loops[t])
  {
  }

  /** Control passes the first n loops, one after the other. */
  lemma {:induction false} Stages(m: Meaning, orig: seq<Block>, limit: nat, body: seq<nat>, pre: nat, exit: nat,
                                  now: seq<Block>, loops: seq<seq<nat>>, shifts: seq<nat>, sccs: seq<seq<nat>>, group: nat -> nat,
                                  st: State, trips: nat, n: nat, e: Config)
    requires Runs(m, orig, limit, body, pre, exit, now, loops, shifts, sccs, group) && n <= |loops|
    requires HasTail(orig, body) && RunsFor(m, CodeOf(orig, body, pre), st, trips) && (trips == 0 || EndedUpTo(now, loops, n))
    ensures 0 < |loops| == |shifts| <= |sccs| && Headed(loops) && |body| > 0
    ensures var f := FissionOf(m, orig, body, pre, limit, sccs, shifts, group);
            Reaches(m, now, Config(pre, body[0], st), exit, e) <==> Reaches(m, now, Stage(f, loops, pre, exit, st, trips, n), exit, e)
    decreases n
  {
    hide *;
    RunsParts(m, orig, limit, body, pre, exit, now, loops, shifts, sccs, group);
    FissionParts(m, orig, body, pre, limit, sccs, shifts, group);
    if n == 0 {
      FirstStage(FissionOf(m, orig, body, pre, limit, sccs, shifts, group), loops, pre, exit, st, trips);
    } else {
      if trips > 0 {
        EndedAt(now, loops, n, n - 1);
        EndedFewer(now, loops, n);
      }
      Stages(m, orig, limit, body, pre, exit, now, loops, shifts, sccs, group, st, trips, n - 1, e);
      StageNext(m, orig, limit, body, pre, exit, now, loops, shifts, sccs, group, st, trips, n - 1, e);
    }
  }

  lemma EndedFewer(now: seq<Block>, loops: seq<seq<nat>>, n: nat)
    requires 0 < n <= |loops| && EndedUpTo(now, loops, n)
    ensures EndedUpTo(now, loops, n - 1)
  {
  }

  lemma FirstStage(f: Fission, loops: seq<seq<nat>>, pre: nat, exit: nat, st: State, trips: nat)
    requires Headed(loops) && |loops| > 0 && |loops| == |f.shifts| <= |f.sccs|
    ensures Stage(f, loops, pre, exit, st, trips, 0) == Config(pre, loops[0][0], st)
  {
  }

  lemma LastStage(f: Fission, loops: seq<seq<nat>>, pre: nat, exit: nat, st: State, trips: nat)
    requires Headed(loops) && |loops| > 0 && |loops| == |f.shifts| <= |f.sccs|
    ensures Stage(f, loops, pre, exit, st, trips, |loops|) == Config(LastHeader(loops), exit, EntryState(f, st, trips, |loops|))
  {
  }

  lemma AtExit(m: Meaning, blocks: seq<Block>, c: Config, exit: nat, d: Config)
    requires c.block == exit
    ensures Reaches(m, blocks, c, exit, d) <==> d == c
  {
    assert After(m, blocks, c, exit, 0) == Some(c);
  }

  /** What the function does from the header of the loop on, when the loop runs trips times. */
  lemma OrigRuns(m: Meaning, orig: seq<Block>, limit: nat, body: seq<nat>, pre: nat, exit: nat,
                 now: seq<Block>, loops: seq<seq<nat>>, shifts: seq<nat>, sccs: seq<seq<nat>>, group: nat -> nat,
                 st: State, trips: nat, d: Config)
    requires Runs(m, orig, limit, body, pre, exit, now, loops, shifts, sccs, group)
    requires HasTail(orig, body) && RunsFor(m, CodeOf(orig, body, pre), st, trips)
    ensures |body| > 0 && (Reaches(m, orig, Config(pre, body[0], st), exit, d)
                           <==> d == Config(body[0], exit, HeadState(m, CodeOf(orig, body, pre), st, trips)))
  {
    hide *;
    RunsParts(m, orig, limit, body, pre, exit, now, loops, shifts, sccs, group);
    ShapedWays(orig, body, exit);
    TripsAreCode(m, orig, body, pre, exit, st, trips);
    HeadsAreCode(m, orig, body, pre, st, trips);
    ThroughTrips(m, orig, body, exit, pre, st, exit, d, trips);
    AtExit(m, orig, Config(body[0], exit, HeadState(m, CodeOf(orig, body, pre), st, trips)), exit, d);
  }

  /** What the split function does, if all ends are kept or the loop does not run. */
  lemma SplitRuns(m: Meaning, orig: seq<Block>, limit: nat, body: seq<nat>, pre: nat, exit: nat,
                  now: seq<Block>, loops: seq<seq<nat>>, shifts: seq<nat>, sccs: seq<seq<nat>>, group: nat -> nat,
                  st: State, trips: nat, d: Config)
    requires Runs(m, orig, limit, body, pre, exit, now, loops, shifts, sccs, group)
    requires HasTail(orig, body) && RunsFor(m, CodeOf(orig, body, pre), st, trips) && (trips == 0 || EndedUpTo(now, loops, |loops|))
    ensures 0 < |loops| == |shifts| <= |sccs| && Headed(loops) && |body| > 0
    ensures Reaches(m, now, Config(pre, body[0], st), exit, d)
            <==> d == Config(LastHeader(loops), exit, EntryState(FissionOf(m, orig, body, pre, limit, sccs, shifts, group), st, trips, |loops|))
  {
    hide *;
    RunsParts(m, orig, limit, body, pre, exit, now, loops, shifts, sccs, group);
    FissionParts(m, orig, body, pre, limit, sccs, shifts, group);
    var f := FissionOf(m, orig, body, pre, limit, sccs, shifts, group);
    Stages(m, orig, limit, body, pre, exit, now, loops, shifts, sccs, group, st, trips, |loops|, d);
    LastStage(f, loops, pre, exit, st, trips);
    AtExit(m, now, Stage(f, loops, pre, exit, st, trips, |loops|), exit, d);
  }

  /** Where a loop has lost an end, control that goes on into its body never comes to the exit. */
  lemma StuckInLoop(m: Meaning, orig: seq<Block>, limit: nat, body: seq<nat>, pre: nat, exit: nat,
                    now: seq<Block>, loops: seq<seq<nat>>, shifts: seq<nat>, sccs: seq<seq<nat>>, group: nat -> nat, t: nat, s: State, e: Config)
    requires Runs(m, orig, limit, body, pre, exit, now, loops, shifts, sccs, group) && t < |loops| && !AllEnded(now, loops[t])
    requires |shifts| == |loops| <= |sccs| && HasTail(orig, body)
    requires Goes(m, CodeFor(FissionOf(m, orig, body, pre, limit, sccs, shifts, group), t),
                  HeadState(m, CodeFor(FissionOf(m, orig, body, pre, limit, sccs, shifts, group), t), s, 0))
    ensures Headed(loops) && !Reaches(m, now, Config(EntryOf(loops, pre, t), loops[t][0], s), exit, e)
  {
    hide *;
    SplitParts(m, orig, limit, body, pre, exit, now, loops, shifts, sccs, group, t);
    RunsParts(m, orig, limit, body, pre, exit, now, loops, shifts, sccs, group);
    OpenParts(now, loops, pre, exit, t);
    CopyNoPhis(orig, body, now, loops[t], sccs[t], shifts[t]);
    FirstHeader(m, orig, limit, body, pre, exit, now, loops, shifts, sccs, group, t, s);
    var k := FirstWithoutEnd(now, loops[t], ExitOf(loops, exit, t));
    NeverLeft(m, now, loops[t], ExitOf(loops, exit, t), EntryOf(loops, pre, t), s, exit, k, e);
  }

  lemma FirstWithoutEnd(blocks: seq<Block>, body: seq<nat>, out: nat) returns (k: nat)
    requires InBounds(blocks, body) && TwoWays(blocks, body, out) && !AllEnded(blocks, body)
    ensures 0 < k < |body| && !blocks[body[k]].ended && forall j: nat :: 0 < j < k ==> blocks[body[j]].ended
  {
    k := 1;
    while k < |body| && blocks[body[k]].ended
      invariant 0 < k <= |body| && forall j: nat :: 0 < j < k ==> blocks[body[j]].ended
      decreases |body| - k
    {
      k := k + 1;
    }
  }

  /** The first of the loops that has lost an end. */
  lemma FirstLost(now: seq<Block>, loops: seq<seq<nat>>) returns (n: nat)
    requires !EndedUpTo(now, loops, |loops|)
    ensures n < |loops| && !AllEnded(now, loops[n]) && EndedUpTo(now, loops, n)
  {
    hide AllEnded;
    n := 0;
    while n < |loops| && AllEnded(now, loops[n])
      invariant n <= |loops| && EndedUpTo(now, loops, n)
      decreases |loops| - n
    {
      n := n + 1;
    }
  }

  /** So with an end lost, and a loop that runs at least once, the exit is never reached. */
  lemma NeverThrough(m: Meaning, orig: seq<Block>, limit: nat, body: seq<nat>, pre: nat, exit: nat,
                     now: seq<Block>, loops: seq<seq<nat>>, shifts: seq<nat>, sccs: seq<seq<nat>>, group: nat -> nat,
                     st: State, trips: nat, e: Config)
    requires Runs(m, orig, limit, body, pre, exit, now, loops, shifts, sccs, group)
    requires HasTail(orig, body) && RunsFor(m, CodeOf(orig, body, pre), st, trips) && trips > 0 && !EndedUpTo(now, loops, |loops|)
    ensures |body| > 0 && !Reaches(m, now, Config(pre, body[0], st), exit, e)
  {
    hide *;
    RunsParts(m, orig, limit, body, pre, exit, now, loops, shifts, sccs, group);
    RunsSplits(m, orig, limit, body, pre, exit, now, loops, shifts, sccs, group);
    var f := FissionOf(m, orig, body, pre, limit, sccs, shifts, group);
    FissionParts(m, orig, body, pre, limit, sccs, shifts, group);
    var n := FirstLost(now, loops);
    Stages(m, orig, limit, body, pre, exit, now, loops, shifts, sccs, group, st, trips, n, e);
    StageSteps(f, loops, pre, exit, st, trips, n);
    var s := EntryState(f, st, trips, n);
    CopiesRunEqually(f, st, trips, n, trips);
    SomeTrip(m, CodeFor(f, n), s, trips);
    StuckInLoop(m, orig, limit, body, pre, exit, now, loops, shifts, sccs, group, n, s, e);
  }

  lemma ReachesTrips(m: Meaning, blocks: seq<Block>, body: seq<nat>, out: nat, a: nat, st: State, exit: nat, d: Config) returns (t: nat)
    requires Shaped(blocks, body, out) && InBounds(blocks, body) && NoPhis(blocks, body) && exit !in body && |body| > 1
    requires Reaches(m, blocks, Config(a, body[0], st), exit, d)
    ensures Trips(m, blocks, body, a, st, t)
  {
    hide Shaped, NoPhis, After, Trips;
    var steps: nat :| After(m, blocks, Config(a, body[0], st), exit, steps) == Some(d);
    t := LoopIsLeft(m, blocks, body, out, a, st, exit, d, steps);
  }

  /** Either function comes to the exit only if the loop is left after some number of iterations. */
  lemma SomeTrips(m: Meaning, orig: seq<Block>, limit: nat, body: seq<nat>, pre: nat, exit: nat,
                  now: seq<Block>, loops: seq<seq<nat>>, shifts: seq<nat>, sccs: seq<seq<nat>>, group: nat -> nat, st: State, d: Config) returns (trips: nat)
    requires Runs(m, orig, limit, body, pre, exit, now, loops, shifts, sccs, group) && HasTail(orig, body)
    requires Reaches(m, orig, Config(pre, body[0], st), exit, d) || Reaches(m, now, Config(pre, body[0], st), exit, d)
    ensures RunsFor(m, CodeOf(orig, body, pre), st, trips)
  {
    hide *;
    RunsParts(m, orig, limit, body, pre, exit, now, loops, shifts, sccs, group);
    if Reaches(m, orig, Config(pre, body[0], st), exit, d) {
      ShapedWays(orig, body, exit);
      trips := ReachesTrips(m, orig, body, exit, pre, st, exit, d);
      TripsAreCode(m, orig, body, pre, exit, st, trips);
    } else {
      trips := SplitTrips(m, orig, limit, body, pre, exit, now, loops, shifts, sccs, group, st, d);
    }
  }

  lemma SplitTrips(m: Meaning, orig: seq<Block>, limit: nat, body: seq<nat>, pre: nat, exit: nat,
                   now: seq<Block>, loops: seq<seq<nat>>, shifts: seq<nat>, sccs: seq<seq<nat>>, group: nat -> nat, st: State, d: Config) returns (trips: nat)
    requires Runs(m, orig, limit, body, pre, exit, now, loops, shifts, sccs, group) && HasTail(orig, body)
    requires Reaches(m, now, Config(pre, body[0], st), exit, d)
    ensures RunsFor(m, CodeOf(orig, body, pre), st, trips)
  {
    hide *;
    RunsParts(m, orig, limit, body, pre, exit, now, loops, shifts, sccs, group);
    RunsSplits(m, orig, limit, body, pre, exit, now, loops, shifts, sccs, group);
    var f := FissionOf(m, orig, body, pre, limit, sccs, shifts, group);
    FissionParts(m, orig, body, pre, limit, sccs, shifts, group);
    SplitParts(m, orig, limit, body, pre, exit, now, loops, shifts, sccs, group, 0);
    LoopCodeIs(m, orig, limit, body, pre, exit, now, loops, shifts, sccs, group, 0);
    OpenParts(now, loops, pre, exit, 0);
    CopyNoPhis(orig, body, now, loops[0], sccs[0], shifts[0]);
    var a, out := EntryOf(loops, pre, 0), ExitOf(loops, exit, 0);
    StageSteps(f, loops, pre, exit, st, 0, 0);
    FirstStage(f, loops, pre, exit, st, 0);
    if AllEnded(now, loops[0]) {
      OpenShaped(now, loops, pre, exit, 0);
      trips := ReachesTrips(m, now, loops[0], out, a, st, exit, d);
      TripsAreCode(m, now, loops[0], a, out, st, trips);
    } else {
      trips := 0;
      if Goes(m, CodeFor(f, 0), HeadState(m, CodeFor(f, 0), st, 0)) {
        StuckInLoop(m, orig, limit, body, pre, exit, now, loops, shifts, sccs, group, 0, st, d);
      }
      NoTrips(m, CodeFor(f, 0), st);
    }
    CopiesRunEqually(f, st, 0, 0, trips);
  }

  // ---------- the result ----------

  /** The same memory, and the same values but for those in hidden. */
  ghost predicate Alike(a: State, b: State, limit: nat, hidden: set<nat>) {
    SameMemory(a, b) && forall v: nat :: v < limit && v !in hidden ==> Reg(a, v) == Reg(b, v)
  }

  lemma {:induction false} TakingAlike(m: Meaning, ts: seq<Take>, a: State, b: State, limit: nat, hidden: set<nat>)
    requires Alike(a, b, limit, hidden)
    requires forall i :: 0 <= i < |ts| ==> OperandBelow(ts[i].from, limit) && (ts[i].from.Def? ==> ts[i].from.v !in hidden)
    ensures Alike(TakeAll(m, ts, a), TakeAll(m, ts, b), limit, hidden)
    decreases |ts|
  {
    if ts != [] {
      var n := |ts| - 1;
      TakingAlike(m, ts[..n], a, b, limit, hidden);
      assert Val(m, ts[n].from, a) == Val(m, ts[n].from, b);
    }
  }

  /** The phi nodes of the exit take the same. */
  lemma ExitAlike(m: Meaning, orig: seq<Block>, limit: nat, body: seq<nat>, exit: nat, now: seq<Block>, last: nat,
                  a: State, b: State, hidden: set<nat>)
    requires Around(orig, body, exit, now, last) && Numbered(orig, limit) && Alike(a, b, limit, hidden)
    requires forall v :: v in hidden ==> !UsedIn(v, orig[exit])
    ensures Alike(Entering(m, orig[exit], body[0], a), Entering(m, now[exit], last, b), limit, hidden)
  {
    hide UsedIn, Alike, Incoming;
    var p, q := orig[exit], now[exit];
    assert SameStart(p, body[0], q, last);
    forall i | 0 <= i < |p.phis| ensures Takings(p.phis, body[0])[i] == Takings(q.phis, last)[i] {
      assert SameEntries(p.phis[i], body[0], q.phis[i], last);
      SameEntry(p.phis[i], body[0], q.phis[i], last);
    }
    assert Takings(p.phis, body[0]) == Takings(q.phis, last);
    var ts := Takings(p.phis, body[0]);
    BelowAt(orig, limit, exit);
    forall i | 0 <= i < |ts| ensures OperandBelow(ts[i].from, limit) && (ts[i].from.Def? ==> ts[i].from.v !in hidden) {
      IncomingBelow(p.phis[i], body[0], limit);
      if ts[i].from.Def? { InstrUses(ts[i].from.v, p, i, body[0]); }
    }
    TakingAlike(m, ts, a, b, limit, hidden);
  }

  lemma StmtsHidden(orig: seq<Block>, body: seq<nat>, pre: nat, exit: nat)
    requires HasTail(orig, body) && Private(orig, body) && Different(body) && exit < |orig| && exit !in body
    ensures forall v :: v in InstrIds(CodeOf(orig, body, pre).stmts) ==> !UsedIn(v, orig[exit])
  {
    hide UsedIn, Private, CodeOf, Different, DefinedIn, InstrIds;
    forall v | v in InstrIds(CodeOf(orig, body, pre).stmts) ensures !UsedIn(v, orig[exit]) {
      StmtIsPrivate(orig, body, pre, v);
      if exit in body[1..] { InTail(body, exit); }
    }
  }

  /** No memory dependence of the loop's run leads to an earlier group. */
  ghost predicate MemorySafe(m: Meaning, code: Code, st: State, group: nat -> nat) {
    forall trips: nat :: RunsFor(m, code, st, trips) ==> D.Legal(Trace(m, code, st), trips, group)
  }

  /** From the header of the loop on, both functions come to the exit or neither does, and they come there with
      the same memory and values, also in the phi nodes of the exit, but for the values of statements, which nothing
      outside uses. */
  ghost predicate SameRuns(m: Meaning, orig: seq<Block>, limit: nat, body: seq<nat>, pre: nat, exit: nat, now: seq<Block>, st: State)
    requires HasTail(orig, body)
  {
    && ((exists d :: Reaches(m, orig, Config(pre, body[0], st), exit, d)) <==> (exists e :: Reaches(m, now, Config(pre, body[0], st), exit, e)))
    && forall d, e :: Reaches(m, orig, Config(pre, body[0], st), exit, d) && Reaches(m, now, Config(pre, body[0], st), exit, e) ==>
         SameOutcome(m, orig, limit, body, pre, exit, now, d, e)
  }

  ghost predicate SameOutcome(m: Meaning, orig: seq<Block>, limit: nat, body: seq<nat>, pre: nat, exit: nat, now: seq<Block>, d: Config, e: Config)
    requires HasTail(orig, body)
  {
    var hidden := InstrIds(CodeOf(orig, body, pre).stmts);
    && exit < |orig| && exit < |now| && d.block == e.block == exit
    && Alike(d.state, e.state, limit, hidden)
    && Alike(Entering(m, orig[exit], d.a, d.state), Entering(m, now[exit], e.a, e.state), limit, hidden)
  }

  lemma SafeAt(m: Meaning, code: Code, st: State, group: nat -> nat, trips: nat)
    requires MemorySafe(m, code, st, group) && RunsFor(m, code, st, trips)
    ensures D.Legal(Trace(m, code, st), trips, group)
  {
  }

  lemma AlikeIf(a: State, b: State, limit: nat, hidden: set<nat>)
    requires SameMemory(a, b) && forall v: nat :: v < limit && v !in hidden ==> Reg(a, v) == Reg(b, v)
    ensures Alike(a, b, limit, hidden)
  {
  }

  /** Where both functions come to the exit. */
  lemma BothOutcomes(m: Meaning, orig: seq<Block>, limit: nat, body: seq<nat>, pre: nat, exit: nat,
                     now: seq<Block>, loops: seq<seq<nat>>, shifts: seq<nat>, sccs: seq<seq<nat>>, group: nat -> nat, st: State, trips: nat)
    requires Runs(m, orig, limit, body, pre, exit, now, loops, shifts, sccs, group) && HasTail(orig, body)
    requires MemorySafe(m, CodeOf(orig, body, pre), st, group) && RunsFor(m, CodeOf(orig, body, pre), st, trips)
    requires trips == 0 || EndedUpTo(now, loops, |loops|)
    ensures SameRuns(m, orig, limit, body, pre, exit, now, st)
  {
    hide *;
    RunsParts(m, orig, limit, body, pre, exit, now, loops, shifts, sccs, group);
    RunsSplits(m, orig, limit, body, pre, exit, now, loops, shifts, sccs, group);
    var f, code, hidden := FissionOf(m, orig, body, pre, limit, sccs, shifts, group), CodeOf(orig, body, pre), InstrIds(CodeOf(orig, body, pre).stmts);
    FissionParts(m, orig, body, pre, limit, sccs, shifts, group);
    SafeAt(m, code, st, group, trips);
    var d0 := Config(body[0], exit, HeadState(m, code, st, trips));
    var e0 := Config(LastHeader(loops), exit, EntryState(f, st, trips, |loops|));
    forall c ensures Reaches(m, orig, Config(pre, body[0], st), exit, c) <==> c == d0 {
      OrigRuns(m, orig, limit, body, pre, exit, now, loops, shifts, sccs, group, st, trips, c);
    }
    forall c ensures Reaches(m, now, Config(pre, body[0], st), exit, c) <==> c == e0 {
      SplitRuns(m, orig, limit, body, pre, exit, now, loops, shifts, sccs, group, st, trips, c);
    }
    MemoryPreserved(f, st, trips);
    ValuesKept(f, st, trips, |loops|);
    AlikeIf(d0.state, e0.state, limit, hidden);
    StmtsHidden(orig, body, pre, exit);
    ExitAlike(m, orig, limit, body, exit, now, LastHeader(loops), d0.state, e0.state, hidden);
    OutcomeIf(m, orig, limit, body, pre, exit, now, d0, e0);
    OnlyOutcome(m, orig, limit, body, pre, exit, now, st, d0, e0);
  }

  lemma OutcomeIf(m: Meaning, orig: seq<Block>, limit: nat, body: seq<nat>, pre: nat, exit: nat, now: seq<Block>, d: Config, e: Config)
    requires HasTail(orig, body) && exit < |orig| && exit < |now| && d.block == e.block == exit
    requires Alike(d.state, e.state, limit, InstrIds(CodeOf(orig, body, pre).stmts))
    requires Alike(Entering(m, orig[exit], d.a, d.state), Entering(m, now[exit], e.a, e.state), limit, InstrIds(CodeOf(orig, body, pre).stmts))
    ensures SameOutcome(m, orig, limit, body, pre, exit, now, d, e)
  {
  }

  lemma OnlyOutcome(m: Meaning, orig: seq<Block>, limit: nat, body: seq<nat>, pre: nat, exit: nat, now: seq<Block>, st: State, d0: Config, e0: Config)
    requires HasTail(orig, body) && SameOutcome(m, orig, limit, body, pre, exit, now, d0, e0)
    requires forall d :: Reaches(m, orig, Config(pre, body[0], st), exit, d) <==> d == d0
    requires forall e :: Reaches(m, now, Config(pre, body[0], st), exit, e) <==> e == e0
    ensures SameRuns(m, orig, limit, body, pre, exit, now, st)
  {
    hide Reaches, SameOutcome;
    assert Reaches(m, orig, Config(pre, body[0], st), exit, d0) && Reaches(m, now, Config(pre, body[0], st), exit, e0);
  }

  lemma NeitherReaches(m: Meaning, orig: seq<Block>, limit: nat, body: seq<nat>, pre: nat, exit: nat, now: seq<Block>, st: State)
    requires HasTail(orig, body)
    requires forall d :: !Reaches(m, orig, Config(pre, body[0], st), exit, d) && !Reaches(m, now, Config(pre, body[0], st), exit, d)
    ensures SameRuns(m, orig, limit, body, pre, exit, now, st)
  {
    hide Reaches, SameOutcome;
  }

  lemma OnlyOneReaches(m: Meaning, orig: seq<Block>, limit: nat, body: seq<nat>, pre: nat, exit: nat, now: seq<Block>, st: State, d: Config)
    requires HasTail(orig, body) && Reaches(m, orig, Config(pre, body[0], st), exit, d)
    requires forall e :: !Reaches(m, now, Config(pre, body[0], st), exit, e)
    ensures !SameRuns(m, orig, limit, body, pre, exit, now, st)
  {
    hide Reaches, SameOutcome;
  }

  /** The loop completes at least one iteration, and ends. */
  ghost predicate Iterates(m: Meaning, code: Code, st: State) {
    exists trips: nat :: trips > 0 && RunsFor(m, code, st, trips)
  }

  /** The split function computes what the function computed, exactly where all blocks have kept their ends or the
      loop does not complete an iteration: for every meaning of the opcodes in which header and last instruction
      keep away from memory, and every state at the header of the loop in which the groups are safe. */
  lemma SplitComputesLoopIff(m: Meaning, orig: seq<Block>, limit: nat, body: seq<nat>, pre: nat, exit: nat,
                             now: seq<Block>, loops: seq<seq<nat>>, shifts: seq<nat>, sccs: seq<seq<nat>>, group: nat -> nat, st: State)
    requires Runs(m, orig, limit, body, pre, exit, now, loops, shifts, sccs, group) && HasTail(orig, body)
    requires MemorySafe(m, CodeOf(orig, body, pre), st, group)
    ensures SameRuns(m, orig, limit, body, pre, exit, now, st)
            <==> EndedUpTo(now, loops, |loops|) || !Iterates(m, CodeOf(orig, body, pre), st)
  {
    hide *;
    RunsParts(m, orig, limit, body, pre, exit, now, loops, shifts, sccs, group);
    var code := CodeOf(orig, body, pre);
    if d :| Reaches(m, orig, Config(pre, body[0], st), exit, d) || Reaches(m, now, Config(pre, body[0], st), exit, d) {
      var trips := SomeTrips(m, orig, limit, body, pre, exit, now, loops, shifts, sccs, group, st, d);
      IteratesIff(m, code, st, trips);
      if trips == 0 || EndedUpTo(now, loops, |loops|) {
        BothOutcomes(m, orig, limit, body, pre, exit, now, loops, shifts, sccs, group, st, trips);
      } else {
        var d0 := Config(body[0], exit, HeadState(m, code, st, trips));
        OrigRuns(m, orig, limit, body, pre, exit, now, loops, shifts, sccs, group, st, trips, d0);
        forall e ensures !Reaches(m, now, Config(pre, body[0], st), exit, e) {
          NeverThrough(m, orig, limit, body, pre, exit, now, loops, shifts, sccs, group, st, trips, e);
        }
        OnlyOneReaches(m, orig, limit, body, pre, exit, now, st, d0);
      }
    } else {
      NeitherReaches(m, orig, limit, body, pre, exit, now, st);
      if Iterates(m, code, st) {
        var trips := SomeIterations(m, code, st);
        OrigRuns(m, orig, limit, body, pre, exit, now, loops, shifts, sccs, group, st, trips, Config(body[0], exit, HeadState(m, code, st, trips)));
      }
    }
  }

  lemma SomeIterations(m: Meaning, code: Code, st: State) returns (trips: nat)
    requires Iterates(m, code, st)
    ensures trips > 0 && RunsFor(m, code, st, trips)
  {
    trips :| trips > 0 && RunsFor(m, code, st, trips);
  }

  lemma IteratesIff(m: Meaning, code: Code, st: State, trips: nat)
    requires RunsFor(m, code, st, trips)
    ensures Iterates(m, code, st) <==> trips > 0
  {
    if Iterates(m, code, st) {
      var u := SomeIterations(m, code, st);
      SomeTrip(m, code, st, u);
    }
  }

  /** A loop whose header named the exit first is left for its latest copy, and that never: once it is split, the
      function computes what it computed only where it did not come to the exit either. */
  lemma CaughtComputesIff(m: Meaning, orig: seq<Block>, limit: nat, body: seq<nat>, pre: nat, exit: nat, now: seq<Block>, st: State)
    requires HasTail(orig, body) && Caught(now, body[0], exit)
    ensures SameRuns(m, orig, limit, body, pre, exit, now, st) <==> forall d :: !Reaches(m, orig, Config(pre, body[0], st), exit, d)
  {
    hide SameOutcome, After, CodeOf;
    var s: set<nat> :| body[0] in s && exit !in s && LeadsOnlyTo(now, s);
    forall e ensures !Reaches(m, now, Config(pre, body[0], st), exit, e) {
      forall steps: nat ensures After(m, now, Config(pre, body[0], st), exit, steps) == None {
        NeverOut(m, now, s, Config(pre, body[0], st), exit, steps);
      }
    }
  }
}
