/** Running a function: instructions compute on registers and memory, phi nodes take the value of the edge by
    which their block is entered, branches choose where to go on. */
module Execution {
  import opened Options
  import opened LoopSplit
  import opened LoopCopies

  /** What an instruction does when its operands have given values. */
  datatype Effect = Value(v: int) | Load(address: int) | Store(address: int, v: int)

  /** What opcodes do, which of its successors a branch chooses, and what the operands are that no instruction
      of the function computes. */
  datatype Meaning = Meaning(effect: (nat, seq<int>) -> Effect, choose: (nat, seq<int>) -> nat, other: nat -> int)

  /** Registers and cells that were never written hold 0. */
  datatype State = State(regs: map<nat, int>, memory: map<int, int>)

  function Reg(st: State, v: nat): int {
    if v in st.regs then st.regs[v] else 0
  }

  function At(memory: map<int, int>, a: int): int {
    if a in memory then memory[a] else 0
  }

  function Val(m: Meaning, o: Operand, st: State): int {
    match o
    case Def(v) => Reg(st, v)
    case Other(n) => m.other(n)
  }

  function Vals(m: Meaning, os: seq<Operand>, st: State): (r: seq<int>)
    ensures |r| == |os| && forall i :: 0 <= i < |r| ==> r[i] == Val(m, os[i], st)
  {
    seq(|os|, i requires 0 <= i < |os| => Val(m, os[i], st))
  }

  function EffectOf(m: Meaning, x: Instr, st: State): Effect {
    m.effect(x.opcode, Vals(m, x.args, st))
  }

  /** What the register of the instruction holds afterwards; that of a store, which nothing can use, holds 0. */
  function Result(e: Effect, memory: map<int, int>): int {
    match e
    case Value(n) => n
    case Load(a) => At(memory, a)
    case Store(_, _) => 0
  }

  function Remember(e: Effect, memory: map<int, int>): map<int, int> {
    if e.Store? then memory[e.address := e.v] else memory
  }

  function Perform(e: Effect, v: nat, st: State): State {
    State(st.regs[v := Result(e, st.memory)], Remember(e, st.memory))
  }

  function Exec(m: Meaning, x: Instr, st: State): State {
    Perform(EffectOf(m, x, st), x.id, st)
  }

  function RunAll(m: Meaning, xs: seq<Instr>, st: State): State {
    if xs == [] then st else Exec(m, xs[|xs| - 1], RunAll(m, xs[..|xs| - 1], st))
  }

  // ---------- blocks ----------

  /** The entry of a phi node for the edge from block a: the first one. */
  function EntryFor(froms: seq<nat>, a: nat): (r: nat)
    ensures r <= |froms| && (forall j :: 0 <= j < r ==> froms[j] != a) && (r < |froms| ==> froms[r] == a)
  {
    if froms == [] || froms[0] == a then 0 else
      var r := 1 + EntryFor(froms[1..], a);
      assert forall j :: 0 < j < r ==> froms[j] == froms[1..][j - 1];
      r
  }

  function Incoming(p: Phi, a: nat): Operand {
    if EntryFor(p.froms, a) < |p.vals| then p.vals[EntryFor(p.froms, a)] else Other(0)
  }

  /** A register and the operand it takes. */
  datatype Take = Take(id: nat, from: Operand)

  /** All phi nodes of a block take their values at once, from the registers as they were. */
  function TakeAll(m: Meaning, ts: seq<Take>, st: State): State {
    if ts == [] then st
    else
      var last := ts[|ts| - 1];
      var before := TakeAll(m, ts[..|ts| - 1], st);
      before.(regs := before.regs[last.id := Val(m, last.from, st)])
  }

  function Takings(phis: seq<Phi>, a: nat): (r: seq<Take>)
    ensures |r| == |phis| && forall i :: 0 <= i < |r| ==> r[i] == Take(phis[i].id, Incoming(phis[i], a))
  {
    seq(|phis|, i requires 0 <= i < |phis| => Take(phis[i].id, Incoming(phis[i], a)))
  }

  function Entering(m: Meaning, b: Block, a: nat, st: State): State {
    TakeAll(m, Takings(b.phis, a), st)
  }

  function AfterBlock(m: Meaning, b: Block, a: nat, st: State): State {
    RunAll(m, b.insts, Entering(m, b, a, st))
  }

  function Target(m: Meaning, b: Block, st: State): Option<nat> {
    if !b.ended || b.succs == [] then None
    else Some(b.succs[m.choose(b.branch.opcode, Vals(m, b.branch.args, st)) % |b.succs|])
  }

  // ---------- the laws of the machine ----------

  /** What opcode and operands mean: the effect of the values that the operands have. */
  lemma EffectLaw(m: Meaning, x: Instr, st: State, vs: seq<int>)
    requires |vs| == |x.args|
    requires forall i :: 0 <= i < |vs| ==> vs[i] == match x.args[i] case Def(v) => Reg(st, v) case Other(n) => m.other(n)
    ensures EffectOf(m, x, st) == m.effect(x.opcode, vs)
  {
    assert Vals(m, x.args, st) == vs;
  }

  /** An instruction that computes a value leaves it in its register, and everything else as it was. */
  lemma ValueLaw(m: Meaning, x: Instr, st: State, n: int)
    requires EffectOf(m, x, st) == Value(n)
    ensures var r := Exec(m, x, st);
            Reg(r, x.id) == n && (forall v: nat :: v != x.id ==> Reg(r, v) == Reg(st, v)) && forall a :: At(r.memory, a) == At(st.memory, a)
  {
  }

  /** A load leaves in its register what the cell holds, and everything else as it was. */
  lemma LoadLaw(m: Meaning, x: Instr, st: State, a: int)
    requires EffectOf(m, x, st) == Load(a)
    ensures var r := Exec(m, x, st);
            Reg(r, x.id) == At(st.memory, a) && (forall v: nat :: v != x.id ==> Reg(r, v) == Reg(st, v)) && forall b :: At(r.memory, b) == At(st.memory, b)
  {
  }

  /** A store changes its cell only, and no register but its own. */
  lemma StoreLaw(m: Meaning, x: Instr, st: State, a: int, n: int)
    requires EffectOf(m, x, st) == Store(a, n)
    ensures var r := Exec(m, x, st);
            At(r.memory, a) == n && (forall b :: b != a ==> At(r.memory, b) == At(st.memory, b)) && forall v: nat :: v != x.id ==> Reg(r, v) == Reg(st, v)
  {
  }

  /** A load from the cell last stored to finds what was stored. */
  lemma StoreThenLoad(m: Meaning, x: Instr, y: Instr, st: State, a: int, n: int)
    requires EffectOf(m, x, st) == Store(a, n) && EffectOf(m, y, Exec(m, x, st)) == Load(a)
    ensures Reg(RunAll(m, [x, y], st), y.id) == n
  {
    RunTwo(m, x, y, st);
    StoreLaw(m, x, st, a, n);
    LoadLaw(m, y, Exec(m, x, st), a);
  }

  /** A store to another cell makes no difference to a load. */
  lemma StoreElsewhere(m: Meaning, x: Instr, y: Instr, st: State, a: int, n: int, b: int)
    requires EffectOf(m, x, st) == Store(a, n) && EffectOf(m, y, Exec(m, x, st)) == Load(b) && EffectOf(m, y, st) == Load(b) && a != b
    ensures Reg(RunAll(m, [x, y], st), y.id) == Reg(RunAll(m, [y], st), y.id) == At(st.memory, b)
  {
    RunTwo(m, x, y, st);
    assert [y][..0] == [];
    StoreLaw(m, x, st, a, n);
    LoadLaw(m, y, Exec(m, x, st), b);
    LoadLaw(m, y, st, b);
  }

  lemma RunTwo(m: Meaning, x: Instr, y: Instr, st: State)
    ensures RunAll(m, [x, y], st) == Exec(m, y, Exec(m, x, st))
  {
    assert [x, y][..1] == [x] && [x][..0] == [];
    assert RunAll(m, [x], st) == Exec(m, x, st);
    hide Exec;
  }

  /** Instructions run from the first to the last. */
  lemma {:induction false} RunsInTurn(m: Meaning, xs: seq<Instr>, st: State)
    requires xs != []
    ensures RunAll(m, xs, st) == RunAll(m, xs[1..], Exec(m, xs[0], st))
    decreases |xs|
  {
    var n := |xs| - 1;
    if n == 0 {
      assert xs[..0] == [] && xs[1..] == [];
    } else {
      RunsInTurn(m, xs[..n], st);
      assert xs[..n][1..] == xs[1..][..n - 1];
    }
  }

  lemma {:induction false} TakingKeeps(m: Meaning, ts: seq<Take>, st: State, v: nat)
    requires forall i :: 0 <= i < |ts| ==> ts[i].id != v
    ensures Reg(TakeAll(m, ts, st), v) == Reg(st, v)
    decreases |ts|
  {
    if ts != [] { TakingKeeps(m, ts[..|ts| - 1], st, v); }
  }

  lemma {:induction false} TakingLaw(m: Meaning, ts: seq<Take>, st: State, i: nat)
    requires i < |ts| && forall j, k :: 0 <= j < k < |ts| ==> ts[j].id != ts[k].id
    ensures Reg(TakeAll(m, ts, st), ts[i].id) == Val(m, ts[i].from, st)
    decreases |ts|
  {
    var n := |ts| - 1;
    if i < n { TakingLaw(m, ts[..n], st, i); }
  }

  /** On entering a block by an edge every phi node takes the value that its operand for that edge had before any of
      them was changed; other registers and memory stay. */
  lemma {:induction false} EnteringLaw(m: Meaning, b: Block, a: nat, st: State)
    requires forall i, j :: 0 <= i < j < |b.phis| ==> b.phis[i].id != b.phis[j].id
    ensures forall i, j :: 0 <= i < |b.phis| && 0 <= j < |b.phis[i].froms| && |b.phis[i].vals| == |b.phis[i].froms|
                           && b.phis[i].froms[j] == a && a !in b.phis[i].froms[..j] ==>
              Reg(Entering(m, b, a, st), b.phis[i].id) == match b.phis[i].vals[j] case Def(v) => Reg(st, v) case Other(n) => m.other(n)
    ensures forall v: nat :: (forall i :: 0 <= i < |b.phis| ==> b.phis[i].id != v) ==> Reg(Entering(m, b, a, st), v) == Reg(st, v)
    ensures Entering(m, b, a, st).memory == st.memory
  {
    var ts := Takings(b.phis, a);
    hide TakeAll;
    forall i, j | 0 <= i < |b.phis| && 0 <= j < |b.phis[i].froms| && |b.phis[i].vals| == |b.phis[i].froms|
                  && b.phis[i].froms[j] == a && a !in b.phis[i].froms[..j]
      ensures Reg(Entering(m, b, a, st), b.phis[i].id) == match b.phis[i].vals[j] case Def(v) => Reg(st, v) case Other(n) => m.other(n)
    {
      TakingLaw(m, ts, st, i);
      FirstEntry(b.phis[i].froms, a, j);
    }
    forall v: nat | forall i :: 0 <= i < |b.phis| ==> b.phis[i].id != v ensures Reg(Entering(m, b, a, st), v) == Reg(st, v) {
      TakingKeeps(m, ts, st, v);
    }
    TakingMemory(m, ts, st);
  }

  lemma FirstEntry(froms: seq<nat>, a: nat, j: nat)
    requires j < |froms| && froms[j] == a && a !in froms[..j]
    ensures EntryFor(froms, a) == j
  {
    assert froms[..j + 1] == froms[..j] + [froms[j]];
    assert forall k :: 0 <= k < j ==> froms[..j][k] == froms[k];
  }

  lemma {:induction false} TakingMemory(m: Meaning, ts: seq<Take>, st: State)
    ensures TakeAll(m, ts, st).memory == st.memory
    decreases |ts|
  {
    if ts != [] { TakingMemory(m, ts[..|ts| - 1], st); }
  }

  // ---------- control ----------

  /** About to enter block from a. */
  datatype Config = Config(a: nat, block: nat, state: State)

  function Next(m: Meaning, blocks: seq<Block>, c: Config): Option<Config> {
    if c.block >= |blocks| then None
    else
      var s := AfterBlock(m, blocks[c.block], c.a, c.state);
      match Target(m, blocks[c.block], s)
      case None => None
      case Some(b) => Some(Config(c.block, b, s))
  }

  /** A block that has ended leads to the successor that its branch chooses, when its phi nodes and its instructions
      have run; one without end leads nowhere. */
  lemma NextLaw(m: Meaning, blocks: seq<Block>, c: Config, vs: seq<int>)
    requires c.block < |blocks|
    requires var b := blocks[c.block]; var s := RunAll(m, b.insts, Entering(m, b, c.a, c.state));
             |vs| == |b.branch.args| && forall i :: 0 <= i < |vs| ==> vs[i] == match b.branch.args[i] case Def(v) => Reg(s, v) case Other(n) => m.other(n)
    ensures var b := blocks[c.block]; var s := RunAll(m, b.insts, Entering(m, b, c.a, c.state));
            Next(m, blocks, c) == if b.ended && b.succs != [] then Some(Config(c.block, b.succs[m.choose(b.branch.opcode, vs) % |b.succs|], s)) else None
  {
    hide RunAll, Entering;
    var b := blocks[c.block];
    assert Vals(m, b.branch.args, RunAll(m, b.insts, Entering(m, b, c.a, c.state))) == vs;
  }

  /** Where control first comes to exit, in no more than the given number of steps. */
  function After(m: Meaning, blocks: seq<Block>, c: Config, exit: nat, steps: nat): Option<Config>
    decreases steps
  {
    if c.block == exit then Some(c)
    else if steps == 0 then None
    else
      match Next(m, blocks, c)
      case None => None
      case Some(d) => After(m, blocks, d, exit, steps - 1)
  }

  ghost predicate Reaches(m: Meaning, blocks: seq<Block>, c: Config, exit: nat, d: Config) {
    exists steps: nat :: After(m, blocks, c, exit, steps) == Some(d)
  }

  /** Every block leads to the next, and the last, and only the last, is the exit. */
  ghost predicate IsRun(m: Meaning, blocks: seq<Block>, cs: seq<Config>, exit: nat) {
    && cs != [] && cs[|cs| - 1].block == exit
    && forall i :: 0 <= i < |cs| - 1 ==> cs[i].block != exit && Next(m, blocks, cs[i]) == Some(cs[i + 1])
  }

  lemma {:induction false} RunFrom(m: Meaning, blocks: seq<Block>, c: Config, exit: nat, steps: nat, d: Config) returns (cs: seq<Config>)
    requires After(m, blocks, c, exit, steps) == Some(d)
    ensures IsRun(m, blocks, cs, exit) && cs[0] == c && cs[|cs| - 1] == d
    decreases steps
  {
    hide Next;
    if c.block == exit {
      cs := [c];
    } else {
      var rest := RunFrom(m, blocks, Next(m, blocks, c).value, exit, steps - 1, d);
      cs := [c] + rest;
      assert forall i :: 0 < i < |cs| ==> cs[i] == rest[i - 1];
    }
  }

  lemma {:induction false} RunReaches(m: Meaning, blocks: seq<Block>, cs: seq<Config>, exit: nat)
    requires IsRun(m, blocks, cs, exit)
    ensures After(m, blocks, cs[0], exit, |cs| - 1) == Some(cs[|cs| - 1])
    decreases |cs|
  {
    hide Next;
    if |cs| > 1 { RunReaches(m, blocks, cs[1..], exit); }
  }

  /** Control comes from c to the exit as d exactly if some run leads from c to d. */
  lemma ReachesIffRun(m: Meaning, blocks: seq<Block>, c: Config, exit: nat, d: Config)
    ensures Reaches(m, blocks, c, exit, d) <==> exists cs :: IsRun(m, blocks, cs, exit) && cs[0] == c && cs[|cs| - 1] == d
  {
    hide After;
    if steps: nat :| After(m, blocks, c, exit, steps) == Some(d) {
      var cs := RunFrom(m, blocks, c, exit, steps, d);
    }
    if cs :| IsRun(m, blocks, cs, exit) && cs[0] == c && cs[|cs| - 1] == d {
      RunReaches(m, blocks, cs, exit);
    }
  }

  lemma {:induction false} MoreSteps(m: Meaning, blocks: seq<Block>, c: Config, exit: nat, steps: nat, more: nat, d: Config)
    requires After(m, blocks, c, exit, steps) == Some(d) && steps <= more
    ensures After(m, blocks, c, exit, more) == Some(d)
    decreases steps
  {
    if c.block != exit {
      MoreSteps(m, blocks, Next(m, blocks, c).value, exit, steps - 1, more - 1, d);
    }
  }

  /** Control comes to the exit in one state only. */
  lemma ReachesOnce(m: Meaning, blocks: seq<Block>, c: Config, exit: nat, d: Config, e: Config)
    requires Reaches(m, blocks, c, exit, d) && Reaches(m, blocks, c, exit, e)
    ensures d == e
  {
    var i: nat :| After(m, blocks, c, exit, i) == Some(d);
    var j: nat :| After(m, blocks, c, exit, j) == Some(e);
    if i <= j { MoreSteps(m, blocks, c, exit, i, j, d); } else { MoreSteps(m, blocks, c, exit, j, i, e); }
  }

  /** Control comes from c to e in n steps, and not to exit before. */
  ghost predicate Leads(m: Meaning, blocks: seq<Block>, c: Config, e: Config, exit: nat, n: nat) {
    && (forall steps: nat :: After(m, blocks, c, exit, steps + n) == After(m, blocks, e, exit, steps))
    && forall steps: nat :: steps < n ==> After(m, blocks, c, exit, steps) == None
  }

  lemma OneStep(m: Meaning, blocks: seq<Block>, c: Config, e: Config, exit: nat)
    requires Next(m, blocks, c) == Some(e) && c.block != exit
    ensures Leads(m, blocks, c, e, exit, 1)
  {
    hide Next;
  }

  lemma LeadsOn(m: Meaning, blocks: seq<Block>, c: Config, e: Config, f: Config, exit: nat, n: nat, k: nat)
    requires Leads(m, blocks, c, e, exit, n) && Leads(m, blocks, e, f, exit, k)
    ensures Leads(m, blocks, c, f, exit, n + k)
  {
    hide After;
    forall steps: nat ensures After(m, blocks, c, exit, steps + (n + k)) == After(m, blocks, f, exit, steps) {
      assert After(m, blocks, c, exit, (steps + k) + n) == After(m, blocks, e, exit, steps + k);
    }
    forall steps: nat | steps < n + k ensures After(m, blocks, c, exit, steps) == None {
      if steps >= n {
        var less: nat := steps - n;
        assert After(m, blocks, c, exit, less + n) == After(m, blocks, e, exit, less);
      }
    }
  }

  lemma LeadsReaches(m: Meaning, blocks: seq<Block>, c: Config, e: Config, exit: nat, n: nat, d: Config)
    requires Leads(m, blocks, c, e, exit, n)
    ensures Reaches(m, blocks, c, exit, d) <==> Reaches(m, blocks, e, exit, d)
  {
    hide After;
    if steps: nat :| After(m, blocks, c, exit, steps) == Some(d) {
      var less: nat := StepsLeft(m, blocks, c, e, exit, n, steps, d);
    }
    if steps: nat :| After(m, blocks, e, exit, steps) == Some(d) {
      assert After(m, blocks, c, exit, steps + n) == Some(d);
    }
  }

  lemma StepsLeft(m: Meaning, blocks: seq<Block>, c: Config, e: Config, exit: nat, n: nat, steps: nat, d: Config) returns (less: nat)
    requires Leads(m, blocks, c, e, exit, n) && After(m, blocks, c, exit, steps) == Some(d)
    ensures After(m, blocks, e, exit, less) == Some(d) && steps == less + n
  {
    hide After;
    assert steps >= n;
    less := steps - n;
    assert After(m, blocks, c, exit, less + n) == After(m, blocks, e, exit, less);
  }

  // ---------- one loop ----------

  ghost predicate NoPhis(blocks: seq<Block>, body: seq<nat>)
    requires InBounds(blocks, body)
  {
    forall k :: 0 < k < |body| ==> blocks[body[k]].phis == []
  }

  /** The instructions of the blocks after the header, up to block k. */
  function BodyInsts(blocks: seq<Block>, body: seq<nat>, k: nat): seq<Instr>
    requires InBounds(blocks, body) && 0 < k <= |body|
  {
    if k == 1 then [] else BodyInsts(blocks, body, k - 1) + blocks[body[k - 1]].insts
  }

  lemma {:induction false} RunConcat(m: Meaning, a: seq<Instr>, b: seq<Instr>, st: State)
    ensures RunAll(m, a + b, st) == RunAll(m, b, RunAll(m, a, st))
  {
    if b == [] {
      assert a + b == a;
    } else {
      assert (a + b)[..|a + b| - 1] == a + b[..|b| - 1];
      RunConcat(m, a, b[..|b| - 1], st);
    }
  }

  /** The rest of an iteration, from the state behind the header. */
  function Lap(m: Meaning, blocks: seq<Block>, body: seq<nat>, s: State): State
    requires InBounds(blocks, body) && |body| > 1
  {
    RunAll(m, BodyInsts(blocks, body, |body|), s)
  }

  /** Behind the header, in iteration t of a loop that is entered from a. */
  function HeadAt(m: Meaning, blocks: seq<Block>, body: seq<nat>, a: nat, st: State, t: nat): State
    requires InBounds(blocks, body) && |body| > 1
  {
    if t == 0 then AfterBlock(m, blocks[body[0]], a, st)
    else AfterBlock(m, blocks[body[0]], body[|body| - 1], Lap(m, blocks, body, HeadAt(m, blocks, body, a, st, t - 1)))
  }

  /** The header goes on into the body. */
  predicate Stays(m: Meaning, blocks: seq<Block>, body: seq<nat>, s: State)
    requires InBounds(blocks, body) && |body| > 1
  {
    Target(m, blocks[body[0]], s) == Some(body[1])
  }

  /** The loop runs its body t times. */
  ghost predicate Trips(m: Meaning, blocks: seq<Block>, body: seq<nat>, a: nat, st: State, t: nat)
    requires InBounds(blocks, body) && |body| > 1
  {
    && (forall u: nat :: u < t ==> Stays(m, blocks, body, HeadAt(m, blocks, body, a, st, u)))
    && !Stays(m, blocks, body, HeadAt(m, blocks, body, a, st, t))
  }

  /** Behind the first k blocks of the body. */
  function Behind(m: Meaning, blocks: seq<Block>, body: seq<nat>, k: nat, s: State): Config
    requires InBounds(blocks, body) && |body| > 1 && 0 < k <= |body|
  {
    Config(body[k - 1], if k < |body| then body[k] else body[0], RunAll(m, BodyInsts(blocks, body, k), s))
  }

  /** Block k has an end, and leads to the next block of the loop only. */
  ghost predicate Forward(blocks: seq<Block>, body: seq<nat>, k: nat)
    requires InBounds(blocks, body)
  {
    && 0 < k < |body| && blocks[body[k]].phis == [] && blocks[body[k]].ended
    && blocks[body[k]].succs == [if k + 1 < |body| then body[k + 1] else body[0]]
  }

  /** The header leads into the body and to out. */
  ghost predicate TwoWays(blocks: seq<Block>, body: seq<nat>, out: nat) {
    && |body| > 1 && InBounds(blocks, body) && body[1] != out && blocks[body[0]].ended
    && (blocks[body[0]].succs == [body[1], out] || blocks[body[0]].succs == [out, body[1]])
  }

  lemma ShapedWays(blocks: seq<Block>, body: seq<nat>, out: nat)
    requires Shaped(blocks, body, out) && NoPhis(blocks, body)
    ensures TwoWays(blocks, body, out) && forall k: nat :: 0 < k < |body| ==> Forward(blocks, body, k)
  {
    hide Different;
    assert body[1] in body;
  }

  lemma BehindNext(m: Meaning, blocks: seq<Block>, body: seq<nat>, k: nat, s: State)
    requires InBounds(blocks, body) && Forward(blocks, body, k)
    ensures Next(m, blocks, Behind(m, blocks, body, k, s)) == Some(Behind(m, blocks, body, k + 1, s))
  {
    hide RunAll;
    var b := blocks[body[k]];
    RunConcat(m, BodyInsts(blocks, body, k), b.insts, s);
    assert Takings(b.phis, body[k - 1]) == [];
  }

  lemma {:induction false} ThroughBody(m: Meaning, blocks: seq<Block>, body: seq<nat>, k: nat, s: State, exit: nat)
    requires InBounds(blocks, body) && |body| > 1 && exit !in body && 0 < k <= |body|
    requires forall j: nat :: 0 < j < k ==> Forward(blocks, body, j)
    ensures Leads(m, blocks, Behind(m, blocks, body, 1, s), Behind(m, blocks, body, k, s), exit, k - 1)
  {
    hide *;
    if k > 1 {
      ThroughBody(m, blocks, body, k - 1, s, exit);
      BehindNext(m, blocks, body, k - 1, s);
      BehindAt(m, blocks, body, k - 1, s);
      OneStep(m, blocks, Behind(m, blocks, body, k - 1, s), Behind(m, blocks, body, k, s), exit);
      LeadsOn(m, blocks, Behind(m, blocks, body, 1, s), Behind(m, blocks, body, k - 1, s), Behind(m, blocks, body, k, s), exit, k - 2, 1);
    } else {
      NoStep(m, blocks, Behind(m, blocks, body, 1, s), exit);
    }
  }

  lemma NoStep(m: Meaning, blocks: seq<Block>, c: Config, exit: nat)
    ensures Leads(m, blocks, c, c, exit, 0)
  {
  }

  lemma BehindAt(m: Meaning, blocks: seq<Block>, body: seq<nat>, k: nat, s: State)
    requires InBounds(blocks, body) && |body| > 1 && 0 < k < |body|
    ensures Behind(m, blocks, body, k, s).block == body[k] && body[k] in body
  {
  }

  lemma HeaderNext(m: Meaning, blocks: seq<Block>, body: seq<nat>, out: nat, a: nat, st: State)
    requires TwoWays(blocks, body, out)
    ensures var s := AfterBlock(m, blocks[body[0]], a, st);
            Next(m, blocks, Config(a, body[0], st)) == Some(if Stays(m, blocks, body, s) then Behind(m, blocks, body, 1, s) else Config(body[0], out, s))
  {
  }

  lemma WaysSize(blocks: seq<Block>, body: seq<nat>, out: nat)
    requires TwoWays(blocks, body, out)
    ensures |body| > 1 && InBounds(blocks, body) && body[0] in body
  {
  }

  /** One turn, or the way out. */
  lemma Turn(m: Meaning, blocks: seq<Block>, body: seq<nat>, out: nat, a: nat, st: State, exit: nat) returns (n: nat)
    requires Shaped(blocks, body, out) && NoPhis(blocks, body) && exit !in body
    ensures n > 0
    ensures var s := AfterBlock(m, blocks[body[0]], a, st);
            var c := if Stays(m, blocks, body, s) then Config(body[|body| - 1], body[0], Lap(m, blocks, body, s)) else Config(body[0], out, s);
            Leads(m, blocks, Config(a, body[0], st), c, exit, n)
  {
    hide *;
    ShapedWays(blocks, body, out);
    WaysSize(blocks, body, out);
    HeaderNext(m, blocks, body, out, a, st);
    var s := AfterBlock(m, blocks[body[0]], a, st);
    var c := Config(a, body[0], st);
    if Stays(m, blocks, body, s) {
      n := |body|;
      OneStep(m, blocks, c, Behind(m, blocks, body, 1, s), exit);
      ThroughBody(m, blocks, body, |body|, s, exit);
      LeadsOn(m, blocks, c, Behind(m, blocks, body, 1, s), Behind(m, blocks, body, |body|, s), exit, 1, |body| - 1);
      BehindAll(m, blocks, body, s);
    } else {
      n := 1;
      OneStep(m, blocks, c, Config(body[0], out, s), exit);
    }
  }

  lemma BehindAll(m: Meaning, blocks: seq<Block>, body: seq<nat>, s: State)
    requires InBounds(blocks, body) && |body| > 1
    ensures Behind(m, blocks, body, |body|, s) == Config(body[|body| - 1], body[0], Lap(m, blocks, body, s))
  {
  }

  lemma TurnReaches(m: Meaning, blocks: seq<Block>, body: seq<nat>, out: nat, a: nat, st: State, exit: nat, d: Config)
    requires Shaped(blocks, body, out) && NoPhis(blocks, body) && exit !in body
    ensures var s := AfterBlock(m, blocks[body[0]], a, st);
            var c := if Stays(m, blocks, body, s) then Config(body[|body| - 1], body[0], Lap(m, blocks, body, s)) else Config(body[0], out, s);
            Reaches(m, blocks, Config(a, body[0], st), exit, d) <==> Reaches(m, blocks, c, exit, d)
  {
    hide *;
    ShapedSize(blocks, body, out);
    var n := Turn(m, blocks, body, out, a, st, exit);
    var s := AfterBlock(m, blocks[body[0]], a, st);
    var c := if Stays(m, blocks, body, s) then Config(body[|body| - 1], body[0], Lap(m, blocks, body, s)) else Config(body[0], out, s);
    LeadsReaches(m, blocks, Config(a, body[0], st), c, exit, n, d);
  }

  /** A loop that does not run at all is left, whatever its body is like. */
  lemma LeftAtOnce(m: Meaning, blocks: seq<Block>, body: seq<nat>, out: nat, a: nat, st: State, exit: nat, d: Config)
    requires TwoWays(blocks, body, out) && exit !in body && !Stays(m, blocks, body, AfterBlock(m, blocks[body[0]], a, st))
    ensures Reaches(m, blocks, Config(a, body[0], st), exit, d)
            <==> Reaches(m, blocks, Config(body[0], out, AfterBlock(m, blocks[body[0]], a, st)), exit, d)
  {
    hide *;
    WaysSize(blocks, body, out);
    HeaderNext(m, blocks, body, out, a, st);
    var e := Config(body[0], out, AfterBlock(m, blocks[body[0]], a, st));
    OneStep(m, blocks, Config(a, body[0], st), e, exit);
    LeadsReaches(m, blocks, Config(a, body[0], st), e, exit, 1, d);
  }

  /** A loop that runs, and in which a block has no end, is never left. */
  lemma NeverLeft(m: Meaning, blocks: seq<Block>, body: seq<nat>, out: nat, a: nat, st: State, exit: nat, k: nat, d: Config)
    requires TwoWays(blocks, body, out) && exit !in body && Stays(m, blocks, body, AfterBlock(m, blocks[body[0]], a, st))
    requires 0 < k < |body| && !blocks[body[k]].ended && forall j: nat :: 0 < j < k ==> Forward(blocks, body, j)
    ensures !Reaches(m, blocks, Config(a, body[0], st), exit, d)
  {
    hide *;
    WaysSize(blocks, body, out);
    HeaderNext(m, blocks, body, out, a, st);
    var s := AfterBlock(m, blocks[body[0]], a, st);
    var c, e, f := Config(a, body[0], st), Behind(m, blocks, body, 1, s), Behind(m, blocks, body, k, s);
    OneStep(m, blocks, c, e, exit);
    ThroughBody(m, blocks, body, k, s, exit);
    LeadsOn(m, blocks, c, e, f, exit, 1, k - 1);
    LeadsReaches(m, blocks, c, f, exit, 1 + (k - 1), d);
    BehindAt(m, blocks, body, k, s);
    NoEnd(m, blocks, f, exit, d);
  }

  lemma NoEnd(m: Meaning, blocks: seq<Block>, c: Config, exit: nat, d: Config)
    requires c.block != exit && c.block < |blocks| && !blocks[c.block].ended
    ensures !Reaches(m, blocks, c, exit, d)
  {
  }

  /** Control that starts in blocks that lead only to one another never comes out. */
  lemma {:induction false} NeverOut(m: Meaning, blocks: seq<Block>, s: set<nat>, c: Config, exit: nat, steps: nat)
    requires c.block in s && exit !in s
    requires forall b: nat, i :: b in s && b < |blocks| && 0 <= i < |blocks[b].succs| ==> blocks[b].succs[i] in s
    ensures After(m, blocks, c, exit, steps) == None
    decreases steps
  {
    if steps > 0 && Next(m, blocks, c).Some? {
      assert Next(m, blocks, c).value.block in blocks[c.block].succs;
      NeverOut(m, blocks, s, Next(m, blocks, c).value, exit, steps - 1);
    }
  }

  lemma {:induction false} HeadShift(m: Meaning, blocks: seq<Block>, body: seq<nat>, a: nat, st: State, t: nat)
    requires InBounds(blocks, body) && |body| > 1
    ensures HeadAt(m, blocks, body, a, st, t + 1)
         == HeadAt(m, blocks, body, body[|body| - 1], Lap(m, blocks, body, AfterBlock(m, blocks[body[0]], a, st)), t)
  {
    if t > 0 { HeadShift(m, blocks, body, a, st, t - 1); }
  }

  /** A loop that is left after t iterations leads to what comes behind it, in the state behind its header. */
  lemma {:induction false} ThroughTrips(m: Meaning, blocks: seq<Block>, body: seq<nat>, out: nat, a: nat, st: State, exit: nat, d: Config, t: nat)
    requires Shaped(blocks, body, out) && NoPhis(blocks, body) && exit !in body && Trips(m, blocks, body, a, st, t)
    ensures Reaches(m, blocks, Config(a, body[0], st), exit, d)
            <==> Reaches(m, blocks, Config(body[0], out, HeadAt(m, blocks, body, a, st, t)), exit, d)
    decreases t
  {
    hide Shaped, NoPhis, Reaches, AfterBlock, Stays;
    ShapedSize(blocks, body, out);
    TurnReaches(m, blocks, body, out, a, st, exit, d);
    if t > 0 {
      assert Stays(m, blocks, body, HeadAt(m, blocks, body, a, st, 0));
      LaterTrips(m, blocks, body, a, st, t - 1);
      HeadShift(m, blocks, body, a, st, t - 1);
      ThroughTrips(m, blocks, body, out, body[|body| - 1], Lap(m, blocks, body, AfterBlock(m, blocks[body[0]], a, st)), exit, d, t - 1);
    }
  }

  lemma LaterTrips(m: Meaning, blocks: seq<Block>, body: seq<nat>, a: nat, st: State, t: nat)
    requires InBounds(blocks, body) && |body| > 1 && Stays(m, blocks, body, HeadAt(m, blocks, body, a, st, 0))
    ensures Trips(m, blocks, body, a, st, t + 1)
            <==> Trips(m, blocks, body, body[|body| - 1], Lap(m, blocks, body, AfterBlock(m, blocks[body[0]], a, st)), t)
  {
    hide Stays, HeadAt, Lap, AfterBlock;
    var l, s := body[|body| - 1], Lap(m, blocks, body, AfterBlock(m, blocks[body[0]], a, st));
    forall u: nat ensures HeadAt(m, blocks, body, a, st, u + 1) == HeadAt(m, blocks, body, l, s, u) {
      HeadShift(m, blocks, body, a, st, u);
    }
    if Trips(m, blocks, body, l, s, t) {
      forall u: nat | u < t + 1 ensures Stays(m, blocks, body, HeadAt(m, blocks, body, a, st, u)) {
        if u > 0 { assert Stays(m, blocks, body, HeadAt(m, blocks, body, l, s, u - 1)); }
      }
    }
    if Trips(m, blocks, body, a, st, t + 1) {
      forall u: nat | u < t ensures Stays(m, blocks, body, HeadAt(m, blocks, body, l, s, u)) {
        assert Stays(m, blocks, body, HeadAt(m, blocks, body, a, st, u + 1));
      }
    }
  }

  /** Control that gets to the exit has left the loop. */
  lemma {:induction false} LoopIsLeft(m: Meaning, blocks: seq<Block>, body: seq<nat>, out: nat, a: nat, st: State, exit: nat, d: Config, steps: nat) returns (t: nat)
    requires Shaped(blocks, body, out) && NoPhis(blocks, body) && exit !in body
    requires After(m, blocks, Config(a, body[0], st), exit, steps) == Some(d)
    ensures |body| > 1 && InBounds(blocks, body) && Trips(m, blocks, body, a, st, t)
    decreases steps
  {
    hide Shaped, NoPhis, After, AfterBlock, Stays, Leads, Lap;
    ShapedSize(blocks, body, out);
    var n := Turn(m, blocks, body, out, a, st, exit);
    var s := AfterBlock(m, blocks[body[0]], a, st);
    var c := if Stays(m, blocks, body, s) then Config(body[|body| - 1], body[0], Lap(m, blocks, body, s)) else Config(body[0], out, s);
    var less := StepsLeft(m, blocks, Config(a, body[0], st), c, exit, n, steps, d);
    if Stays(m, blocks, body, s) {
      t := LoopIsLeft(m, blocks, body, out, body[|body| - 1], Lap(m, blocks, body, s), exit, d, less);
      LaterTrips(m, blocks, body, a, st, t);
      t := t + 1;
    } else {
      t := 0;
    }
  }
}
