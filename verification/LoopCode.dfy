/** A loop as straight code: what its header takes and computes, what its body does, and how a copy of it that
    leaves out statements runs beside it. */
module LoopCode {
  import opened LoopSplit
  import opened LoopCopies
  import opened LoopErasure
  import opened SplitResult
  import opened Execution

  /** A phi node of the header: what it takes at first, and what it takes from the latch. */
  datatype Node = Node(id: nat, init: Operand, next: Operand)

  /** The header, the statements, and the instruction before the branch of the latch. */
  datatype Code = Code(nodes: seq<Node>, head: seq<Instr>, test: Instr, stmts: seq<Instr>, tail: Instr)

  function Inits(code: Code): (r: seq<Take>)
    ensures |r| == |code.nodes| && forall i :: 0 <= i < |r| ==> r[i] == Take(code.nodes[i].id, code.nodes[i].init)
  {
    seq(|code.nodes|, i requires 0 <= i < |code.nodes| => Take(code.nodes[i].id, code.nodes[i].init))
  }

  function Nexts(code: Code): (r: seq<Take>)
    ensures |r| == |code.nodes| && forall i :: 0 <= i < |r| ==> r[i] == Take(code.nodes[i].id, code.nodes[i].next)
  {
    seq(|code.nodes|, i requires 0 <= i < |code.nodes| => Take(code.nodes[i].id, code.nodes[i].next))
  }

  /** Behind the header, in iteration t. */
  function HeadState(m: Meaning, code: Code, st: State, t: nat): State {
    if t == 0 then RunAll(m, code.head, TakeAll(m, Inits(code), st))
    else RunAll(m, code.head, TakeAll(m, Nexts(code), Exec(m, code.tail, RunAll(m, code.stmts, HeadState(m, code, st, t - 1)))))
  }

  /** The branch of the header chooses its first successor, the body. */
  predicate Goes(m: Meaning, code: Code, s: State) {
    m.choose(code.test.opcode, Vals(m, code.test.args, s)) % 2 == 0
  }

  /** The loop runs t times. */
  ghost predicate RunsFor(m: Meaning, code: Code, st: State, t: nat) {
    (forall u: nat :: u < t ==> Goes(m, code, HeadState(m, code, st, u))) && !Goes(m, code, HeadState(m, code, st, t))
  }

  // ---------- what a loop may use ----------

  function NodeIds(code: Code): set<nat> {
    set i | 0 <= i < |code.nodes| :: code.nodes[i].id
  }

  function InstrIds(xs: seq<Instr>): set<nat> {
    set i | 0 <= i < |xs| :: xs[i].id
  }

  /** What is computed in the header before its j-th instruction. */
  function HeadIds(code: Code, j: nat): set<nat>
    requires j <= |code.head|
  {
    NodeIds(code) + InstrIds(code.head[..j])
  }

  function HeaderIds(code: Code): set<nat> {
    HeadIds(code, |code.head|)
  }

  /** Of the values in ids only those in from are used. */
  ghost predicate UsesOnly(os: seq<Operand>, ids: set<nat>, from: set<nat>) {
    forall i :: 0 <= i < |os| && os[i].Def? && os[i].v in ids ==> os[i].v in from
  }

  /** Every value of the loop is computed before it is used: by the header or, for a statement, an earlier
      statement; and the header, the last instruction and the next iteration use no statement's value. */
  ghost predicate Dominated(code: Code, ids: set<nat>) {
    && (forall i :: 0 <= i < |code.nodes| ==> UsesOnly([code.nodes[i].init], ids, {}))
    && (forall i :: 0 <= i < |code.nodes| ==> UsesOnly([code.nodes[i].next], ids, HeaderIds(code) + {code.tail.id}))
    && (forall j :: 0 <= j < |code.head| ==> UsesOnly(code.head[j].args, ids, HeadIds(code, j)))
    && UsesOnly(code.test.args, ids, HeaderIds(code))
    && (forall j {:trigger code.stmts[j]} :: 0 <= j < |code.stmts| ==>
          UsesOnly(code.stmts[j].args, ids, HeaderIds(code) + InstrIds(code.stmts[..j])))
    && UsesOnly(code.tail.args, ids, HeaderIds(code))
  }

  /** The values are those of the loop, and no two instructions compute the same. */
  ghost predicate Single(code: Code, ids: set<nat>) {
    && HeaderIds(code) <= ids && InstrIds(code.stmts) <= ids && code.tail.id in ids
    && (forall i, j :: 0 <= i < j < |code.stmts| ==> code.stmts[i].id != code.stmts[j].id)
    && HeaderIds(code) !! InstrIds(code.stmts) && code.tail.id !in InstrIds(code.stmts)
  }

  ghost predicate AllBelow(code: Code, ids: set<nat>, limit: nat) {
    && (forall v :: v in ids ==> v < limit)
    && (forall i :: 0 <= i < |code.nodes| ==> OperandBelow(code.nodes[i].init, limit) && OperandBelow(code.nodes[i].next, limit))
    && (forall i :: 0 <= i < |code.head| ==> OperandsBelow(code.head[i].args, limit))
    && (forall i :: 0 <= i < |code.stmts| ==> OperandsBelow(code.stmts[i].args, limit))
    && OperandsBelow(code.test.args, limit) && OperandsBelow(code.tail.args, limit)
  }

  /** Whatever its operands, the instruction only computes a value. */
  ghost predicate Pure(m: Meaning, x: Instr) {
    forall vs :: m.effect(x.opcode, vs).Value?
  }

  /** The header and the last instruction do not touch memory. */
  ghost predicate PureFrame(m: Meaning, code: Code) {
    (forall i :: 0 <= i < |code.head| ==> Pure(m, code.head[i])) && Pure(m, code.tail)
  }

  ghost predicate Sensible(m: Meaning, code: Code, ids: set<nat>, limit: nat) {
    Dominated(code, ids) && Single(code, ids) && AllBelow(code, ids, limit) && PureFrame(m, code)
  }

  // ---------- copies ----------

  function MovedOperand(o: Operand, ids: set<nat>, shift: nat): Operand {
    match o
    case Def(v) => if v in ids then Def(v + shift) else o
    case Other(_) => o
  }

  lemma MovedOperands(os: seq<Operand>, ids: set<nat>, shift: nat)
    ensures |MovedArgs(os, ids, shift)| == |os|
    ensures forall i :: 0 <= i < |os| ==> MovedArgs(os, ids, shift)[i] == MovedOperand(os[i], ids, shift)
  {
  }

  /** The copy for one group: the statements of the group only, and all values moved. */
  function CopyCode(code: Code, scc: seq<nat>, ids: set<nat>, shift: nat): (r: Code)
    ensures |r.nodes| == |code.nodes|
    ensures forall i :: 0 <= i < |r.nodes| ==>
      r.nodes[i] == Node(code.nodes[i].id + shift, MovedOperand(code.nodes[i].init, ids, shift), MovedOperand(code.nodes[i].next, ids, shift))
    ensures r.head == MovedAll(code.head, ids, shift) && r.test == Moved(code.test, ids, shift) && r.tail == Moved(code.tail, ids, shift)
    ensures r.stmts == MovedAll(Kept(code.stmts, scc, map[]), ids, shift)
  {
    Code(seq(|code.nodes|, i requires 0 <= i < |code.nodes| =>
               Node(code.nodes[i].id + shift, MovedOperand(code.nodes[i].init, ids, shift), MovedOperand(code.nodes[i].next, ids, shift))),
         MovedAll(code.head, ids, shift), Moved(code.test, ids, shift),
         MovedAll(Kept(code.stmts, scc, map[]), ids, shift), Moved(code.tail, ids, shift))
  }

  // ---------- side by side ----------

  /** The values in vs are in b, moved, what they are in a; and so is everything that the loop does not compute. */
  ghost predicate Same(vs: set<nat>, ids: set<nat>, limit: nat, shift: nat, a: State, b: State) {
    && (forall v :: v in vs ==> Reg(a, v) == Reg(b, v + shift))
    && (forall v: nat :: v < limit && v !in ids ==> Reg(a, v) == Reg(b, v))
  }

  /** The values of the copy are new, or those of the loop itself. */
  ghost predicate Fresh(vs: set<nat>, ids: set<nat>, limit: nat, shift: nat) {
    vs <= ids && (forall v :: v in ids ==> v < limit) && (shift == 0 || shift >= limit)
  }

  lemma SameVal(m: Meaning, o: Operand, vs: set<nat>, ids: set<nat>, limit: nat, shift: nat, a: State, b: State)
    requires Same(vs, ids, limit, shift, a, b) && OperandBelow(o, limit) && (o.Def? && o.v in ids ==> o.v in vs)
    ensures Val(m, o, a) == Val(m, MovedOperand(o, ids, shift), b)
  {
  }

  lemma SameVals(m: Meaning, os: seq<Operand>, vs: set<nat>, ids: set<nat>, limit: nat, shift: nat, a: State, b: State)
    requires Same(vs, ids, limit, shift, a, b) && OperandsBelow(os, limit) && UsesOnly(os, ids, vs)
    ensures Vals(m, os, a) == Vals(m, MovedArgs(os, ids, shift), b)
  {
    hide Same;
    MovedOperands(os, ids, shift);
    forall i | 0 <= i < |os| ensures Val(m, os[i], a) == Val(m, MovedOperand(os[i], ids, shift), b) {
      assert OperandBelow(os[i], limit);
      SameVal(m, os[i], vs, ids, limit, shift, a, b);
    }
  }

  function Write(st: State, v: nat, n: int): State {
    st.(regs := st.regs[v := n])
  }

  lemma BothWrite(v: nat, n: int, vs: set<nat>, ids: set<nat>, limit: nat, shift: nat, a: State, b: State)
    requires Fresh(vs, ids, limit, shift) && Same(vs, ids, limit, shift, a, b) && v in ids
    ensures Same(vs + {v}, ids, limit, shift, Write(a, v, n), Write(b, v + shift, n))
  {
  }

  lemma OneWrites(v: nat, n: int, vs: set<nat>, ids: set<nat>, limit: nat, shift: nat, a: State, b: State)
    requires Fresh(vs, ids, limit, shift) && Same(vs, ids, limit, shift, a, b) && v in ids && v !in vs
    ensures Same(vs, ids, limit, shift, Write(a, v, n), b) && Same(vs, ids, limit, shift, a, Write(b, v + shift, n))
  {
  }

  lemma SameFewer(vs: set<nat>, ws: set<nat>, ids: set<nat>, limit: nat, shift: nat, a: State, b: State)
    requires Same(vs, ids, limit, shift, a, b) && ws <= vs
    ensures Same(ws, ids, limit, shift, a, b)
  {
  }

  lemma SameRegs(vs: set<nat>, ids: set<nat>, limit: nat, shift: nat, a: State, b: State, a': State, b': State)
    requires Same(vs, ids, limit, shift, a, b) && a'.regs == a.regs && b'.regs == b.regs
    ensures Same(vs, ids, limit, shift, a', b')
  {
  }

  /** An instruction that only computes a value, in both. */
  lemma PureStep(m: Meaning, x: Instr, vs: set<nat>, ids: set<nat>, limit: nat, shift: nat, a: State, b: State)
    requires Fresh(vs, ids, limit, shift) && Same(vs, ids, limit, shift, a, b)
    requires Pure(m, x) && x.id in ids && OperandsBelow(x.args, limit) && UsesOnly(x.args, ids, vs)
    ensures Same(vs + {x.id}, ids, limit, shift, Exec(m, x, a), Exec(m, Moved(x, ids, shift), b))
    ensures Exec(m, x, a).memory == a.memory && Exec(m, Moved(x, ids, shift), b).memory == b.memory
  {
    hide Same, Fresh, UsesOnly, MovedArgs;
    SameVals(m, x.args, vs, ids, limit, shift, a, b);
    var e := EffectOf(m, x, a);
    BothWrite(x.id, e.v, vs, ids, limit, shift, a, b);
  }

  /** Any instruction, in both, if what it may load is the same. */
  lemma SameStep(m: Meaning, x: Instr, vs: set<nat>, ids: set<nat>, limit: nat, shift: nat, a: State, b: State)
    requires Fresh(vs, ids, limit, shift) && Same(vs, ids, limit, shift, a, b)
    requires x.id in ids && OperandsBelow(x.args, limit) && UsesOnly(x.args, ids, vs)
    requires EffectOf(m, x, a).Load? ==> At(a.memory, EffectOf(m, x, a).address) == At(b.memory, EffectOf(m, x, a).address)
    ensures Same(vs + {x.id}, ids, limit, shift, Exec(m, x, a), Exec(m, Moved(x, ids, shift), b))
    ensures Exec(m, Moved(x, ids, shift), b) == Perform(EffectOf(m, x, a), x.id + shift, b)
  {
    hide Same, Fresh, UsesOnly, MovedArgs;
    SameVals(m, x.args, vs, ids, limit, shift, a, b);
    var n := Result(EffectOf(m, x, a), a.memory);
    BothWrite(x.id, n, vs, ids, limit, shift, a, b);
    SameRegs(vs + {x.id}, ids, limit, shift, Write(a, x.id, n), Write(b, x.id + shift, n), Exec(m, x, a), Exec(m, Moved(x, ids, shift), b));
  }

  function TakeIds(ts: seq<Take>): set<nat> {
    set i | 0 <= i < |ts| :: ts[i].id
  }

  ghost predicate MovedTakes(ts: seq<Take>, us: seq<Take>, ids: set<nat>, shift: nat) {
    |us| == |ts| && forall i :: 0 <= i < |ts| ==> us[i] == Take(ts[i].id + shift, MovedOperand(ts[i].from, ids, shift))
  }

  ghost predicate TakesFrom(ts: seq<Take>, ids: set<nat>, limit: nat, vs: set<nat>) {
    forall i :: 0 <= i < |ts| ==> ts[i].id in ids && OperandBelow(ts[i].from, limit) && UsesOnly([ts[i].from], ids, vs)
  }

  lemma {:induction false} TakesSame(m: Meaning, ts: seq<Take>, us: seq<Take>, vs: set<nat>, ids: set<nat>, limit: nat, shift: nat, a: State, b: State)
    requires Fresh(vs, ids, limit, shift) && Same(vs, ids, limit, shift, a, b)
    requires MovedTakes(ts, us, ids, shift) && TakesFrom(ts, ids, limit, vs)
    ensures Same(vs + TakeIds(ts), ids, limit, shift, TakeAll(m, ts, a), TakeAll(m, us, b))
    ensures TakeAll(m, ts, a).memory == a.memory && TakeAll(m, us, b).memory == b.memory
    decreases |ts|
  {
    if ts == [] {
      assert vs + TakeIds(ts) == vs;
    } else {
      var n := |ts| - 1;
      hide Same;
      TakesSame(m, ts[..n], us[..n], vs, ids, limit, shift, a, b);
      var last := ts[n];
      assert UsesOnly([last.from], ids, vs);
      assert [last.from][0] == last.from;
      SameVal(m, last.from, vs, ids, limit, shift, a, b);
      var before, copied := TakeAll(m, ts[..n], a), TakeAll(m, us[..n], b);
      var all := vs + TakeIds(ts[..n]);
      BothWrite(last.id, Val(m, last.from, a), all, ids, limit, shift, before, copied);
      assert all + {last.id} == vs + TakeIds(ts);
    }
  }

  lemma {:induction false} HeadSame(m: Meaning, code: Code, j: nat, vs: set<nat>, ids: set<nat>, limit: nat, shift: nat, a: State, b: State)
    requires Sensible(m, code, ids, limit) && j <= |code.head| && Fresh(vs, ids, limit, shift) && NodeIds(code) <= vs
    requires Same(vs, ids, limit, shift, a, b)
    ensures var r, c := RunAll(m, code.head[..j], a), RunAll(m, MovedAll(code.head[..j], ids, shift), b);
            Same(vs + InstrIds(code.head[..j]), ids, limit, shift, r, c) && r.memory == a.memory && c.memory == b.memory
  {
    if j == 0 {
      assert vs + InstrIds(code.head[..0]) == vs;
    } else {
      hide *;
      HeadSame(m, code, j - 1, vs, ids, limit, shift, a, b);
      var x, all := code.head[j - 1], vs + InstrIds(code.head[..j - 1]);
      var heads := code.head[..j];
      assert heads[..j - 1] == code.head[..j - 1];
      NodesFirst(code, j - 1, vs);
      HeadUse(m, code, j - 1, all, ids, limit);
      RunLastOf(m, heads, j - 1, a);
      RunMoved(m, heads, j - 1, ids, shift, b);
      FreshMore(vs, InstrIds(code.head[..j - 1]), ids, limit, shift);
      PureStep(m, x, all, ids, limit, shift, RunAll(m, code.head[..j - 1], a), RunAll(m, MovedAll(code.head[..j - 1], ids, shift), b));
      InstrIdsMore(code.head, j - 1);
      assert all + {x.id} == vs + InstrIds(heads);
    }
  }

  lemma NodesFirst(code: Code, j: nat, vs: set<nat>)
    requires j <= |code.head| && NodeIds(code) <= vs
    ensures HeadIds(code, j) <= vs + InstrIds(code.head[..j])
  {
  }

  lemma RunLastOf(m: Meaning, xs: seq<Instr>, n: nat, a: State)
    requires |xs| == n + 1
    ensures RunAll(m, xs, a) == Exec(m, xs[n], RunAll(m, xs[..n], a))
  {
  }

  lemma FreshMore(vs: set<nat>, ws: set<nat>, ids: set<nat>, limit: nat, shift: nat)
    requires Fresh(vs, ids, limit, shift) && ws <= ids
    ensures Fresh(vs + ws, ids, limit, shift)
  {
  }

  lemma InstrIdsMore(xs: seq<Instr>, j: nat)
    requires j < |xs|
    ensures InstrIds(xs[..j + 1]) == InstrIds(xs[..j]) + {xs[j].id}
    ensures xs[j].id in InstrIds(xs)
    ensures InstrIds(xs[..j]) <= InstrIds(xs)
  {
    assert xs[..j + 1] == xs[..j] + [xs[j]];
    assert forall i :: 0 <= i < j ==> xs[..j + 1][i] == xs[..j][i];
    assert xs[..j + 1][j] == xs[j];
  }

  lemma HeadUse(m: Meaning, code: Code, j: nat, vs: set<nat>, ids: set<nat>, limit: nat)
    requires Sensible(m, code, ids, limit) && j < |code.head| && HeadIds(code, j) <= vs
    ensures Pure(m, code.head[j]) && code.head[j].id in ids && OperandsBelow(code.head[j].args, limit) && UsesOnly(code.head[j].args, ids, vs)
    ensures InstrIds(code.head[..j]) <= ids
  {
    InstrIdsMore(code.head, j);
    assert code.head[..|code.head|] == code.head;
    assert UsesOnly(code.head[j].args, ids, HeadIds(code, j));
  }

  /** A statement that only one of the two runs. */
  lemma OtherStep(m: Meaning, x: Instr, vs: set<nat>, ids: set<nat>, limit: nat, shift: nat, a: State, b: State)
    requires Fresh(vs, ids, limit, shift) && Same(vs, ids, limit, shift, a, b) && x.id in ids && x.id !in vs
    ensures Same(vs, ids, limit, shift, Exec(m, x, a), b)
  {
    hide Same, Fresh;
    var n := Result(EffectOf(m, x, a), a.memory);
    OneWrites(x.id, n, vs, ids, limit, shift, a, b);
    SameRegs(vs, ids, limit, shift, Write(a, x.id, n), b, Exec(m, x, a), b);
  }

  lemma CopyStep(m: Meaning, x: Instr, vs: set<nat>, ids: set<nat>, limit: nat, shift: nat, a: State, b: State)
    requires Fresh(vs, ids, limit, shift) && Same(vs, ids, limit, shift, a, b) && x.id in ids && x.id !in vs
    ensures Same(vs, ids, limit, shift, a, Exec(m, Moved(x, ids, shift), b))
  {
    hide Same, Fresh, MovedArgs;
    var y := Moved(x, ids, shift);
    var n := Result(EffectOf(m, y, b), b.memory);
    OneWrites(x.id, n, vs, ids, limit, shift, a, b);
    SameRegs(vs, ids, limit, shift, a, Write(b, y.id, n), a, Exec(m, y, b));
  }

  lemma {:induction false} OthersRun(m: Meaning, xs: seq<Instr>, vs: set<nat>, ids: set<nat>, limit: nat, shift: nat, a: State, b: State)
    requires Fresh(vs, ids, limit, shift) && Same(vs, ids, limit, shift, a, b) && InstrIds(xs) <= ids && InstrIds(xs) !! vs
    ensures Same(vs, ids, limit, shift, RunAll(m, xs, a), b)
    decreases |xs|
  {
    if xs != [] {
      hide Same, Fresh, Exec, InstrIds;
      var n := |xs| - 1;
      InstrIdsMore(xs, n);
      OthersRun(m, xs[..n], vs, ids, limit, shift, a, b);
      OtherStep(m, xs[n], vs, ids, limit, shift, RunAll(m, xs[..n], a), b);
    }
  }

  lemma {:induction false} CopiesRun(m: Meaning, xs: seq<Instr>, vs: set<nat>, ids: set<nat>, limit: nat, shift: nat, a: State, b: State)
    requires Fresh(vs, ids, limit, shift) && Same(vs, ids, limit, shift, a, b) && InstrIds(xs) <= ids && InstrIds(xs) !! vs
    ensures Same(vs, ids, limit, shift, a, RunAll(m, MovedAll(xs, ids, shift), b))
    decreases |xs|
  {
    if xs != [] {
      hide Same, Fresh, Exec, InstrIds, Moved;
      var n := |xs| - 1;
      InstrIdsMore(xs, n);
      CopiesRun(m, xs[..n], vs, ids, limit, shift, a, b);
      RunMoved(m, xs, n, ids, shift, b);
      CopyStep(m, xs[n], vs, ids, limit, shift, a, RunAll(m, MovedAll(xs[..n], ids, shift), b));
    }
  }

  lemma RunMoved(m: Meaning, xs: seq<Instr>, n: nat, ids: set<nat>, shift: nat, b: State)
    requires |xs| == n + 1
    ensures RunAll(m, MovedAll(xs, ids, shift), b) == Exec(m, Moved(xs[n], ids, shift), RunAll(m, MovedAll(xs[..n], ids, shift), b))
  {
    hide Moved, Exec;
    assert MovedAll(xs, ids, shift)[..n] == MovedAll(xs[..n], ids, shift);
  }

  lemma KeptIds(xs: seq<Instr>, scc: seq<nat>)
    ensures InstrIds(Kept(xs, scc, map[])) <= InstrIds(xs)
  {
    forall i | 0 <= i < |Kept(xs, scc, map[])| ensures Kept(xs, scc, map[])[i].id in InstrIds(xs) {
      var x := Kept(xs, scc, map[])[i];
      assert x in xs;
      var j :| 0 <= j < |xs| && xs[j] == x;
    }
  }

  lemma SensibleParts(m: Meaning, code: Code, ids: set<nat>, limit: nat)
    requires Sensible(m, code, ids, limit)
    ensures HeaderIds(code) <= ids && NodeIds(code) <= HeaderIds(code) && InstrIds(code.stmts) <= ids && code.tail.id in ids
    ensures HeaderIds(code) !! InstrIds(code.stmts) && code.tail.id !in InstrIds(code.stmts)
    ensures forall v :: v in ids ==> v < limit
    ensures Pure(m, code.tail) && OperandsBelow(code.tail.args, limit) && UsesOnly(code.tail.args, ids, HeaderIds(code))
    ensures OperandsBelow(code.test.args, limit) && UsesOnly(code.test.args, ids, HeaderIds(code))
    ensures HeaderIds(code) == NodeIds(code) + InstrIds(code.head)
    ensures TakesFrom(Inits(code), ids, limit, {}) && TakesFrom(Nexts(code), ids, limit, HeaderIds(code) + {code.tail.id})
    ensures TakeIds(Inits(code)) == NodeIds(code) == TakeIds(Nexts(code))
  {
    assert code.head[..|code.head|] == code.head;
    assert forall i :: 0 <= i < |code.nodes| ==> code.nodes[i].id in NodeIds(code);
    assert NodeIds(code) <= ids;
  }

  lemma UsesMore(os: seq<Operand>, ids: set<nat>, vs: set<nat>, ws: set<nat>)
    requires UsesOnly(os, ids, vs) && vs <= ws
    ensures UsesOnly(os, ids, ws)
  {
  }

  lemma TakesMore(ts: seq<Take>, ids: set<nat>, limit: nat, vs: set<nat>, ws: set<nat>)
    requires TakesFrom(ts, ids, limit, vs) && vs <= ws
    ensures TakesFrom(ts, ids, limit, ws)
  {
  }

  /** Nodes and header, in both. */
  lemma FrameSame(m: Meaning, code: Code, ts: seq<Take>, us: seq<Take>, vs: set<nat>, ids: set<nat>, limit: nat, shift: nat, a: State, b: State)
    requires Sensible(m, code, ids, limit) && Fresh(vs, ids, limit, shift) && Same(vs, ids, limit, shift, a, b)
    requires MovedTakes(ts, us, ids, shift) && TakesFrom(ts, ids, limit, vs) && TakeIds(ts) == NodeIds(code)
    ensures var r, c := RunAll(m, code.head, TakeAll(m, ts, a)), RunAll(m, MovedAll(code.head, ids, shift), TakeAll(m, us, b));
            Same(vs + HeaderIds(code), ids, limit, shift, r, c) && r.memory == a.memory && c.memory == b.memory
  {
    hide Sensible, Same, HeaderIds, NodeIds, InstrIds, MovedTakes, TakesFrom, TakeIds;
    SensibleParts(m, code, ids, limit);
    TakesSame(m, ts, us, vs, ids, limit, shift, a, b);
    var all := vs + NodeIds(code);
    HeadSame(m, code, |code.head|, all, ids, limit, shift, TakeAll(m, ts, a), TakeAll(m, us, b));
    assert code.head[..|code.head|] == code.head;
    assert all + InstrIds(code.head) == vs + HeaderIds(code);
  }

  lemma CopyTakes(code: Code, scc: seq<nat>, ids: set<nat>, shift: nat)
    ensures MovedTakes(Inits(code), Inits(CopyCode(code, scc, ids, shift)), ids, shift)
    ensures MovedTakes(Nexts(code), Nexts(CopyCode(code, scc, ids, shift)), ids, shift)
  {
    hide CopyCode, MovedOperand;
  }

  /** The headers of the loop and of a copy compute the same in every iteration, whatever statements the copy
      leaves out, and so does everything in vs, in which there is no statement's value. */
  lemma {:induction false} HeadersSame(m: Meaning, code: Code, scc: seq<nat>, vs: set<nat>, ids: set<nat>, limit: nat, shift: nat, a: State, b: State, t: nat)
    requires Sensible(m, code, ids, limit) && Fresh(vs, ids, limit, shift) && Same(vs, ids, limit, shift, a, b) && vs !! InstrIds(code.stmts)
    ensures Same(vs + HeaderIds(code), ids, limit, shift, HeadState(m, code, a, t), HeadState(m, CopyCode(code, scc, ids, shift), b, t))
    decreases t
  {
    hide Sensible, Same, HeaderIds, InstrIds, MovedTakes, TakesFrom, TakeIds, UsesOnly, Pure, MovedArgs, CopyCode, NodeIds, Kept, RunAll, Exec, Moved;
    SensibleParts(m, code, ids, limit);
    var copy := CopyCode(code, scc, ids, shift);
    if t == 0 {
      CopyTakes(code, scc, ids, shift);
      TakesMore(Inits(code), ids, limit, {}, vs);
      FrameSame(m, code, Inits(code), Inits(copy), vs, ids, limit, shift, a, b);
    } else {
      HeadersSame(m, code, scc, vs, ids, limit, shift, a, b, t - 1);
      var all := vs + HeaderIds(code);
      IterationSame(m, code, scc, all, ids, limit, shift, HeadState(m, code, a, t - 1), HeadState(m, copy, b, t - 1));
    }
  }

  /** From one header to the next. */
  lemma IterationSame(m: Meaning, code: Code, scc: seq<nat>, vs: set<nat>, ids: set<nat>, limit: nat, shift: nat, r: State, c: State)
    requires Sensible(m, code, ids, limit) && Fresh(vs, ids, limit, shift) && Same(vs, ids, limit, shift, r, c)
    requires HeaderIds(code) <= vs && vs !! InstrIds(code.stmts)
    ensures var copy := CopyCode(code, scc, ids, shift);
            Same(vs, ids, limit, shift, RunAll(m, code.head, TakeAll(m, Nexts(code), Exec(m, code.tail, RunAll(m, code.stmts, r)))),
                 RunAll(m, copy.head, TakeAll(m, Nexts(copy), Exec(m, copy.tail, RunAll(m, copy.stmts, c)))))
  {
    hide Sensible, Same, HeaderIds, InstrIds, MovedTakes, TakesFrom, TakeIds, UsesOnly, Pure, MovedArgs, CopyCode, NodeIds, Kept, RunAll, Exec, Moved;
    SensibleParts(m, code, ids, limit);
    CopyTakes(code, scc, ids, shift);
    var copy := CopyCode(code, scc, ids, shift);
    OthersRun(m, code.stmts, vs, ids, limit, shift, r, c);
    KeptIds(code.stmts, scc);
    CopiesRun(m, Kept(code.stmts, scc, map[]), vs, ids, limit, shift, RunAll(m, code.stmts, r), c);
    var r', c' := RunAll(m, code.stmts, r), RunAll(m, copy.stmts, c);
    TailSame(m, code, copy, vs, ids, limit, shift, r', c');
    NextSame(m, code, copy, vs, ids, limit, shift, Exec(m, code.tail, r'), Exec(m, copy.tail, c'));
  }

  lemma NextSame(m: Meaning, code: Code, copy: Code, vs: set<nat>, ids: set<nat>, limit: nat, shift: nat, r: State, c: State)
    requires Sensible(m, code, ids, limit) && Fresh(vs, ids, limit, shift) && Same(vs + {code.tail.id}, ids, limit, shift, r, c)
    requires HeaderIds(code) <= vs && MovedTakes(Nexts(code), Nexts(copy), ids, shift) && copy.head == MovedAll(code.head, ids, shift)
    ensures var r', c' := RunAll(m, code.head, TakeAll(m, Nexts(code), r)), RunAll(m, copy.head, TakeAll(m, Nexts(copy), c));
            Same(vs, ids, limit, shift, r', c') && r'.memory == r.memory && c'.memory == c.memory
  {
    hide Sensible, Same, HeaderIds, InstrIds, MovedTakes, TakesFrom, TakeIds, UsesOnly, Pure, NodeIds, RunAll, Exec, Moved;
    SensibleParts(m, code, ids, limit);
    var more := vs + {code.tail.id};
    TakesMore(Nexts(code), ids, limit, HeaderIds(code) + {code.tail.id}, more);
    FrameSame(m, code, Nexts(code), Nexts(copy), more, ids, limit, shift, r, c);
    var r', c' := RunAll(m, code.head, TakeAll(m, Nexts(code), r)), RunAll(m, copy.head, TakeAll(m, Nexts(copy), c));
    SameFewer(more + HeaderIds(code), vs, ids, limit, shift, r', c');
  }

  lemma TailSame(m: Meaning, code: Code, copy: Code, vs: set<nat>, ids: set<nat>, limit: nat, shift: nat, a: State, b: State)
    requires Sensible(m, code, ids, limit) && Fresh(vs, ids, limit, shift) && Same(vs, ids, limit, shift, a, b)
    requires copy.tail == Moved(code.tail, ids, shift) && HeaderIds(code) <= vs
    ensures Same(vs + {code.tail.id}, ids, limit, shift, Exec(m, code.tail, a), Exec(m, copy.tail, b))
    ensures Exec(m, code.tail, a).memory == a.memory && Exec(m, copy.tail, b).memory == b.memory
  {
    hide Sensible, Same, HeaderIds, InstrIds, UsesOnly, Pure, MovedArgs, Fresh;
    SensibleParts(m, code, ids, limit);
    UsesMore(code.tail.args, ids, HeaderIds(code), vs);
    PureStep(m, code.tail, vs, ids, limit, shift, a, b);
  }

  /** So loop and copy run equally often. */
  lemma TripsSame(m: Meaning, code: Code, scc: seq<nat>, ids: set<nat>, limit: nat, shift: nat, a: State, b: State, t: nat)
    requires Sensible(m, code, ids, limit) && Fresh({}, ids, limit, shift) && Same({}, ids, limit, shift, a, b)
    ensures RunsFor(m, code, a, t) <==> RunsFor(m, CopyCode(code, scc, ids, shift), b, t)
  {
    hide Sensible, Same, HeaderIds, InstrIds, UsesOnly, MovedArgs, CopyCode, HeadState;
    SensibleParts(m, code, ids, limit);
    var copy := CopyCode(code, scc, ids, shift);
    forall u: nat ensures Goes(m, code, HeadState(m, code, a, u)) <==> Goes(m, copy, HeadState(m, copy, b, u)) {
      HeadersSame(m, code, scc, {}, ids, limit, shift, a, b, u);
      assert {} + HeaderIds(code) == HeaderIds(code);
      SameVals(m, code.test.args, HeaderIds(code), ids, limit, shift, HeadState(m, code, a, u), HeadState(m, copy, b, u));
    }
  }
}
