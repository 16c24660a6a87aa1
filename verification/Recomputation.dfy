/** Splitting a loop whose scalar statements are recomputed in several of the new loops, each loop with
    scalar registers of its own. */
module Recomputation {
  import opened Options
  import opened Digraph
  import opened StatementGraph
  import D = Distribution
  import opened Distribution

  /** A statement in static single assignment form: it combines the values of earlier statements and of the
      memory cells it loads, and either stores the result or keeps it in its register. */
  datatype Statement = Statement(operands: seq<nat>, loads: nat -> seq<int>, store: nat -> Option<int>,
                                 compute: (nat, seq<int>) -> int)

  function Regs(k: nat, us: seq<nat>): (r: seq<Cell>)
    ensures |r| == |us| && forall j :: 0 <= j < |r| ==> r[j] == Reg(k, us[j])
  {
    seq(|us|, j requires 0 <= j < |us| => Reg(k, us[j]))
  }

  function Mems(addresses: seq<int>): (r: seq<Cell>)
    ensures |r| == |addresses| && forall j :: 0 <= j < |r| ==> r[j] == Mem(addresses[j])
  {
    seq(|addresses|, j requires 0 <= j < |addresses| => Mem(addresses[j]))
  }

  /** Statement s of the program, run in iteration i with the registers of loop k. */
  function OpFor(prog: seq<Statement>, s: nat, k: nat, i: nat): Op
    requires s < |prog|
  {
    var p := prog[s];
    Op(Regs(k, p.operands) + Mems(p.loads(i)),
       Some(match p.store(i) case Some(a) => Mem(a) case None => Reg(k, s)),
       (values: seq<int>) => p.compute(i, values))
  }

  /** A statement of loop k combines the registers of its operands in that loop and the cells that it loads, in this
      order, and puts the result into the cell that it stores to or else into its own register in that loop. */
  lemma StatementLaw(prog: seq<Statement>, s: nat, k: nat, i: nat, st: Store, values: seq<int>)
    requires s < |prog| && |values| == |prog[s].operands| + |prog[s].loads(i)|
    requires forall j :: 0 <= j < |prog[s].operands| ==> values[j] == Get(st, Reg(k, prog[s].operands[j]))
    requires forall j :: 0 <= j < |prog[s].loads(i)| ==> values[|prog[s].operands| + j] == Get(st, Mem(prog[s].loads(i)[j]))
    ensures forall c :: Get(Step(OpFor(prog, s, k, i), st), c)
              == if c == (match prog[s].store(i) case Some(a) => Mem(a) case None => Reg(k, s)) then prog[s].compute(i, values) else Get(st, c)
  {
    assert Fetch(st, OpFor(prog, s, k, i).uses) == values;
  }

  /** The dependence graph tells the truth about the program: operands are scalar dependences on earlier
      statements that do not store, statements without array reference leave memory alone, and whenever two executions touch a
      common address, one of them storing, there is a data dependence from the earlier to the later. */
  ghost predicate Describes(b: StatementGraph.Body, prog: seq<Statement>, trips: nat) {
    && b.Wf() && |prog| == |b.hasRef|
    && (forall s, j :: 0 <= s < |prog| && 0 <= j < |prog[s].operands| ==>
          prog[s].operands[j] < s && Dep(prog[s].operands[j], s, true) in b.deps)
    && (forall s, j, i: nat :: 0 <= s < |prog| && 0 <= j < |prog[s].operands| ==>
          prog[s].operands[j] < |prog| && prog[prog[s].operands[j]].store(i) == None)
    && (forall s, i: nat :: 0 <= s < |prog| && !b.hasRef[s] ==> prog[s].loads(i) == [] && prog[s].store(i) == None)
    && (forall s: nat, t: nat, i: nat, j: nat {:trigger Touch(prog, s, i, t, j)} ::
          s < |prog| && t < |prog| && s != t && i < trips && j < trips && Earlier(Inst(s, i), Inst(t, j)) && Touch(prog, s, i, t, j) ==>
          Dep(s, t, false) in b.deps)
  }

  /** The two executions touch a common address and one of them stores to it. */
  ghost predicate Touch(prog: seq<Statement>, s: nat, i: nat, t: nat, j: nat)
    requires s < |prog| && t < |prog|
  {
    var x, y := prog[s], prog[t];
    || (x.store(i).Some? && (x.store(i).value in y.loads(j) || y.store(j) == x.store(i)))
    || (y.store(j).Some? && y.store(j).value in x.loads(i))
  }

  // ---------- the copies ----------

  /** Which statement a copy is of, and which loop runs it. */
  datatype Copy = Copy(s: nat, k: nat)

  /** The copies of statement s for loops 0..m-1. */
  function CopiesOf(s: nat, m: nat, holds: (nat, nat) -> bool): seq<Copy> {
    if m == 0 then [] else CopiesOf(s, m - 1, holds) + (if holds(s, m - 1) then [Copy(s, m - 1)] else [])
  }

  /** All copies of statements 0..n-1, in body order. */
  function Copies(n: nat, m: nat, holds: (nat, nat) -> bool): seq<Copy> {
    if n == 0 then [] else Copies(n - 1, m, holds) + CopiesOf(n - 1, m, holds)
  }

  ghost predicate Proper(prog: seq<Statement>, cs: seq<Copy>, m: nat, holds: (nat, nat) -> bool) {
    forall c :: 0 <= c < |cs| ==> cs[c].s < |prog| && cs[c].k < m && holds(cs[c].s, cs[c].k)
  }

  lemma {:induction false} CopiesOfProper(prog: seq<Statement>, s: nat, m: nat, holds: (nat, nat) -> bool)
    requires s < |prog|
    ensures Proper(prog, CopiesOf(s, m, holds), m, holds)
  {
    if m > 0 { CopiesOfProper(prog, s, m - 1, holds); }
  }

  lemma {:induction false} CopiesProper(prog: seq<Statement>, n: nat, m: nat, holds: (nat, nat) -> bool)
    requires n <= |prog|
    ensures Proper(prog, Copies(n, m, holds), m, holds)
  {
    if n > 0 {
      CopiesProper(prog, n - 1, m, holds);
      CopiesOfProper(prog, n - 1, m, holds);
    }
  }

  /** The loop body made of the copies, each with the registers of its own loop. */
  function CopyBody(prog: seq<Statement>, cs: seq<Copy>): (r: D.Body)
    requires forall c :: 0 <= c < |cs| ==> cs[c].s < |prog|
    ensures |r| == |cs| && forall c, i: nat :: 0 <= c < |cs| ==> r[c](i) == OpFor(prog, cs[c].s, cs[c].k, i)
  {
    seq(|cs|, c requires 0 <= c < |cs| => (i: nat) => OpFor(prog, cs[c].s, cs[c].k, i))
  }

  /** The original body: every statement once, with the registers of loop 0. */
  function PlainBody(prog: seq<Statement>): (r: D.Body)
    ensures |r| == |prog| && forall s, i: nat :: 0 <= s < |prog| ==> r[s](i) == OpFor(prog, s, 0, i)
  {
    seq(|prog|, s requires 0 <= s < |prog| => (i: nat) => OpFor(prog, s, 0, i))
  }

  ghost predicate SameMemory(x: Store, y: Store) {
    forall a: int :: Get(x, Mem(a)) == Get(y, Mem(a))
  }

  /** Loop k has everything needed to compute statement u. */
  ghost predicate Good(b: StatementGraph.Body, holds: (nat, nat) -> bool, k: nat, u: nat) {
    forall w: nat :: Reach(Scalars(b), w, u) ==> holds(w, k)
  }

  /** What a distribution must satisfy: an array statement is in exactly one loop, and that loop has all its
      scalar ancestors. */
  ghost predicate Sound(b: StatementGraph.Body, m: nat, holds: (nat, nat) -> bool) {
    && (forall s: nat :: s < |b.hasRef| && b.hasRef[s] ==> HasLoop(s, m, holds))
    && (forall s: nat, k: nat, l: nat :: s < |b.hasRef| && b.hasRef[s] && holds(s, k) && holds(s, l) && k < m && l < m ==> k == l)
    && (forall s: nat, k: nat :: s < |b.hasRef| && b.hasRef[s] && k < m && holds(s, k) ==> Good(b, holds, k, s))
  }

  ghost predicate HasLoop(s: nat, m: nat, holds: (nat, nat) -> bool) {
    exists k: nat :: k < m && holds(s, k)
  }

  lemma GoodOperand(b: StatementGraph.Body, holds: (nat, nat) -> bool, k: nat, u: nat, w: nat)
    requires Good(b, holds, k, u) && Dep(w, u, true) in b.deps
    ensures Good(b, holds, k, w)
  {
    ReachEdge(Scalars(b), w, u);
    forall x: nat | Reach(Scalars(b), x, w) ensures holds(x, k) {
      ReachTrans(Scalars(b), x, w, u);
    }
  }

  lemma GoodHolds(b: StatementGraph.Body, holds: (nat, nat) -> bool, k: nat, u: nat)
    requires Good(b, holds, k, u)
    ensures holds(u, k)
  {
    ReachSelf(Scalars(b), u);
  }

  /** After the first n statements of iteration i the registers that matter agree: those of statements that
      keep their result, in loops that can compute them. */
  ghost predicate SameRegisters(b: StatementGraph.Body, prog: seq<Statement>, m: nat, holds: (nat, nat) -> bool, n: nat, i: nat, x: Store, y: Store) {
    forall u: nat, k: nat {:trigger Good(b, holds, k, u)} ::
      u < n && u < |prog| && k < m && prog[u].store(i) == None && Good(b, holds, k, u) ==>
      Get(y, Reg(k, u)) == Get(x, Reg(0, u))
  }

  /** A copy whose operands agree with the original's, over the same memory, computes the same value. */
  lemma SameValue(b: StatementGraph.Body, prog: seq<Statement>, trips: nat, m: nat, holds: (nat, nat) -> bool, s: nat, k: nat, i: nat, x: Store, y: Store)
    requires Describes(b, prog, trips) && s < |prog| && k < m && Good(b, holds, k, s)
    requires SameRegisters(b, prog, m, holds, s, i, x, y) && SameMemory(x, y)
    ensures Fetch(y, OpFor(prog, s, k, i).uses) == Fetch(x, OpFor(prog, s, 0, i).uses)
  {
    var p := prog[s];
    forall j | 0 <= j < |p.operands| ensures Get(y, Reg(k, p.operands[j])) == Get(x, Reg(0, p.operands[j])) {
      GoodOperand(b, holds, k, s, p.operands[j]);
    }
    var u, v := OpFor(prog, s, k, i).uses, OpFor(prog, s, 0, i).uses;
    forall j | 0 <= j < |u| ensures Get(y, u[j]) == Get(x, v[j]) {
      if j >= |p.operands| {
        assert u[j] == Mem(p.loads(i)[j - |p.operands|]);
      }
    }
  }

  /** x before and x1 after the original executes statement s; y after the copies for loops 0..q-1. */
  ghost predicate Midway(b: StatementGraph.Body, prog: seq<Statement>, m: nat, holds: (nat, nat) -> bool, s: nat, q: nat, i: nat, x: Store, x1: Store, y: Store)
    requires s < |prog|
  {
    && SameRegisters(b, prog, m, holds, s, i, x, y)
    && (prog[s].store(i) == None ==>
          forall k: nat {:trigger Good(b, holds, k, s)} :: k < q && Good(b, holds, k, s) ==> Get(y, Reg(k, s)) == Get(x1, Reg(0, s)))
    && (if prog[s].store(i).Some? && HasLoop(s, q, holds) then SameMemory(x1, y) else SameMemory(x, y))
  }

  /** A copy that keeps its result. */
  lemma KeptCopy(b: StatementGraph.Body, prog: seq<Statement>, trips: nat, m: nat, holds: (nat, nat) -> bool, s: nat, q: nat, i: nat, x: Store, y: Store)
    requires Describes(b, prog, trips) && s < |prog| && q < m && prog[s].store(i) == None
    requires Midway(b, prog, m, holds, s, q, i, x, Step(OpFor(prog, s, 0, i), x), y)
    ensures Midway(b, prog, m, holds, s, q + 1, i, x, Step(OpFor(prog, s, 0, i), x), Step(OpFor(prog, s, q, i), y))
  {
    if Good(b, holds, q, s) {
      SameValue(b, prog, trips, m, holds, s, q, i, x, y);
    }
  }

  /** The one copy that stores. */
  lemma StoringCopy(b: StatementGraph.Body, prog: seq<Statement>, trips: nat, m: nat, holds: (nat, nat) -> bool, s: nat, q: nat, i: nat, x: Store, y: Store)
    requires Describes(b, prog, trips) && Sound(b, m, holds) && s < |prog| && q < m && prog[s].store(i).Some? && holds(s, q)
    requires Midway(b, prog, m, holds, s, q, i, x, Step(OpFor(prog, s, 0, i), x), y)
    ensures Midway(b, prog, m, holds, s, q + 1, i, x, Step(OpFor(prog, s, 0, i), x), Step(OpFor(prog, s, q, i), y))
  {
    assert b.hasRef[s];
    assert !HasLoop(s, q, holds);
    assert HasLoop(s, q + 1, holds);
    SameValue(b, prog, trips, m, holds, s, q, i, x, y);
  }

  lemma NoCopy(b: StatementGraph.Body, prog: seq<Statement>, m: nat, holds: (nat, nat) -> bool, s: nat, q: nat, i: nat, x: Store, x1: Store, y: Store)
    requires s < |prog| && q < m && !holds(s, q) && Midway(b, prog, m, holds, s, q, i, x, x1, y)
    ensures Midway(b, prog, m, holds, s, q + 1, i, x, x1, y)
  {
    if Good(b, holds, q, s) { GoodHolds(b, holds, q, s); }
    assert HasLoop(s, q + 1, holds) ==> HasLoop(s, q, holds);
  }

  lemma AllCopiesDone(b: StatementGraph.Body, prog: seq<Statement>, trips: nat, m: nat, holds: (nat, nat) -> bool, s: nat, i: nat, x: Store, y: Store)
    requires Describes(b, prog, trips) && Sound(b, m, holds) && s < |prog|
    requires Midway(b, prog, m, holds, s, m, i, x, Step(OpFor(prog, s, 0, i), x), y)
    ensures var x1 := Step(OpFor(prog, s, 0, i), x); SameMemory(x1, y) && SameRegisters(b, prog, m, holds, s + 1, i, x1, y)
  {
    if prog[s].store(i).Some? {
      assert b.hasRef[s];
      assert HasLoop(s, m, holds);
    }
  }

  // ---------- running the copies ----------

  function RunCopies(prog: seq<Statement>, cs: seq<Copy>, i: nat, st: Store): Store
    requires forall c :: 0 <= c < |cs| ==> cs[c].s < |prog|
  {
    if cs == [] then st
    else Step(OpFor(prog, cs[|cs| - 1].s, cs[|cs| - 1].k, i), RunCopies(prog, cs[..|cs| - 1], i, st))
  }

  lemma {:induction false} RunCopiesConcat(prog: seq<Statement>, cs: seq<Copy>, ds: seq<Copy>, i: nat, st: Store)
    requires forall c :: 0 <= c < |cs| ==> cs[c].s < |prog|
    requires forall c :: 0 <= c < |ds| ==> ds[c].s < |prog|
    ensures RunCopies(prog, cs + ds, i, st) == RunCopies(prog, ds, i, RunCopies(prog, cs, i, st))
    decreases |ds|
  {
    if ds == [] {
      assert cs + ds == cs;
    } else {
      var n := |ds| - 1;
      assert (cs + ds)[..|cs + ds| - 1] == cs + ds[..n];
      RunCopiesConcat(prog, cs, ds[..n], i, st);
    }
  }

  lemma {:induction false} CopyRowRuns(prog: seq<Statement>, cs: seq<Copy>, n: nat, i: nat, st: Store)
    requires forall c :: 0 <= c < |cs| ==> cs[c].s < |prog|
    requires n <= |cs|
    ensures RunRow(CopyBody(prog, cs), n, i, st) == RunCopies(prog, cs[..n], i, st)
  {
    if n > 0 {
      CopyRowRuns(prog, cs, n - 1, i, st);
      assert cs[..n][..n - 1] == cs[..n - 1];
    }
  }

  lemma {:induction false} CopiesOfFollow(b: StatementGraph.Body, prog: seq<Statement>, trips: nat, m: nat, holds: (nat, nat) -> bool, s: nat, q: nat, i: nat, x: Store, y: Store)
    requires Describes(b, prog, trips) && Sound(b, m, holds) && s < |prog| && q <= m
    requires SameMemory(x, y) && SameRegisters(b, prog, m, holds, s, i, x, y)
    ensures Proper(prog, CopiesOf(s, q, holds), q, holds)
    ensures Midway(b, prog, m, holds, s, q, i, x, Step(OpFor(prog, s, 0, i), x), RunCopies(prog, CopiesOf(s, q, holds), i, y))
  {
    hide Describes, Sound, SameRegisters, SameMemory, Midway;
    CopiesOfProper(prog, s, q, holds);
    if q == 0 {
      MidwayStarts(b, prog, m, holds, s, i, x, Step(OpFor(prog, s, 0, i), x), y);
    } else {
      CopiesOfFollow(b, prog, trips, m, holds, s, q - 1, i, x, y);
      var cs := CopiesOf(s, q - 1, holds);
      var y1 := RunCopies(prog, cs, i, y);
      if holds(s, q - 1) {
        assert CopiesOf(s, q, holds) == cs + [Copy(s, q - 1)];
        assert (cs + [Copy(s, q - 1)])[..|cs|] == cs;
        if prog[s].store(i) == None {
          KeptCopy(b, prog, trips, m, holds, s, q - 1, i, x, y1);
        } else {
          StoringCopy(b, prog, trips, m, holds, s, q - 1, i, x, y1);
        }
      } else {
        assert CopiesOf(s, q, holds) == cs;
        NoCopy(b, prog, m, holds, s, q - 1, i, x, Step(OpFor(prog, s, 0, i), x), y1);
      }
    }
  }

  lemma MidwayStarts(b: StatementGraph.Body, prog: seq<Statement>, m: nat, holds: (nat, nat) -> bool, s: nat, i: nat, x: Store, x1: Store, y: Store)
    requires s < |prog| && SameMemory(x, y) && SameRegisters(b, prog, m, holds, s, i, x, y)
    ensures Midway(b, prog, m, holds, s, 0, i, x, x1, y)
  {
    assert !HasLoop(s, 0, holds);
  }

  lemma RowStarts(b: StatementGraph.Body, prog: seq<Statement>, m: nat, holds: (nat, nat) -> bool, i: nat, x: Store, y: Store)
    ensures Copies(0, m, holds) == [] && RunCopies(prog, [], i, y) == y && RunRow(PlainBody(prog), 0, i, x) == x
    ensures SameRegisters(b, prog, m, holds, 0, i, x, y)
  {
  }

  lemma RowUnfolds(prog: seq<Statement>, m: nat, holds: (nat, nat) -> bool, n: nat, i: nat, x: Store, y: Store)
    requires n < |prog|
    ensures RunRow(PlainBody(prog), n + 1, i, x) == Step(OpFor(prog, n, 0, i), RunRow(PlainBody(prog), n, i, x))
    ensures Proper(prog, Copies(n + 1, m, holds), m, holds) && Proper(prog, Copies(n, m, holds), m, holds)
    ensures Proper(prog, CopiesOf(n, m, holds), m, holds)
    ensures RunCopies(prog, Copies(n + 1, m, holds), i, y)
         == RunCopies(prog, CopiesOf(n, m, holds), i, RunCopies(prog, Copies(n, m, holds), i, y))
  {
    hide Step, OpFor;
    CopiesProper(prog, n, m, holds);
    CopiesProper(prog, n + 1, m, holds);
    CopiesOfProper(prog, n, m, holds);
    RunCopiesConcat(prog, Copies(n, m, holds), CopiesOf(n, m, holds), i, y);
  }

  lemma {:induction false} RowFollows(b: StatementGraph.Body, prog: seq<Statement>, trips: nat, m: nat, holds: (nat, nat) -> bool, n: nat, i: nat, x: Store, y: Store)
    requires Describes(b, prog, trips) && Sound(b, m, holds) && n <= |prog| && SameMemory(x, y)
    ensures Proper(prog, Copies(n, m, holds), m, holds)
    ensures var x1, y1 := RunRow(PlainBody(prog), n, i, x), RunCopies(prog, Copies(n, m, holds), i, y);
            SameMemory(x1, y1) && SameRegisters(b, prog, m, holds, n, i, x1, y1)
  {
    hide Describes, Sound, SameMemory, SameRegisters, RunRow, RunCopies, Copies, CopiesOf, Step, OpFor;
    CopiesProper(prog, n, m, holds);
    if n == 0 {
      RowStarts(b, prog, m, holds, i, x, y);
    } else {
      RowFollows(b, prog, trips, m, holds, n - 1, i, x, y);
      RowUnfolds(prog, m, holds, n - 1, i, x, y);
      var x1, y1 := RunRow(PlainBody(prog), n - 1, i, x), RunCopies(prog, Copies(n - 1, m, holds), i, y);
      CopiesOfFollow(b, prog, trips, m, holds, n - 1, m, i, x1, y1);
      AllCopiesDone(b, prog, trips, m, holds, n - 1, i, x1, RunCopies(prog, CopiesOf(n - 1, m, holds), i, y1));
    }
  }

  lemma WholeRow(prog: seq<Statement>, cs: seq<Copy>, i: nat, st: Store)
    requires forall c :: 0 <= c < |cs| ==> cs[c].s < |prog|
    ensures RunRow(CopyBody(prog, cs), |cs|, i, st) == RunCopies(prog, cs, i, st)
  {
    CopyRowRuns(prog, cs, |cs|, i, st);
    assert cs[..|cs|] == cs;
  }

  lemma {:induction false} LoopFollows(b: StatementGraph.Body, prog: seq<Statement>, trips: nat, m: nat, holds: (nat, nat) -> bool, t: nat, st: Store)
    requires Describes(b, prog, trips) && Sound(b, m, holds)
    ensures Proper(prog, Copies(|prog|, m, holds), m, holds)
    ensures var x, y := RunLoop(PlainBody(prog), t, st), RunLoop(CopyBody(prog, Copies(|prog|, m, holds)), t, st);
            SameMemory(x, y) && (t > 0 ==> SameRegisters(b, prog, m, holds, |prog|, t - 1, x, y))
  {
    hide Describes, Sound, SameRegisters, RunRow, RunCopies, Copies, Step, OpFor;
    CopiesProper(prog, |prog|, m, holds);
    if t > 0 {
      var cs := Copies(|prog|, m, holds);
      LoopFollows(b, prog, trips, m, holds, t - 1, st);
      var x, y := RunLoop(PlainBody(prog), t - 1, st), RunLoop(CopyBody(prog, cs), t - 1, st);
      RowFollows(b, prog, trips, m, holds, |prog|, t - 1, x, y);
      WholeRow(prog, cs, t - 1, y);
    }
  }

  // ---------- the split loops ----------

  ghost predicate Placed(b: StatementGraph.Body, prog: seq<Statement>, m: nat, holds: (nat, nat) -> bool) {
    && |prog| == |b.hasRef|
    && forall d, k: nat, l: nat :: d in b.deps && !d.scalar && holds(d.source, k) && holds(d.sink, l) && k < m && l < m ==> k <= l
  }

  /** The loop that runs copy c. */
  function LoopOf(cs: seq<Copy>): nat -> nat {
    (c: nat) => if c < |cs| then cs[c].k else 0
  }

  ghost predicate InBodyOrder(cs: seq<Copy>, n: nat) {
    && (forall c :: 0 <= c < |cs| ==> cs[c].s < n)
    && (forall c, d :: 0 <= c < d < |cs| ==> cs[c].s <= cs[d].s)
  }

  lemma {:induction false} CopiesOrdered(n: nat, m: nat, holds: (nat, nat) -> bool)
    ensures InBodyOrder(Copies(n, m, holds), n)
  {
    if n > 0 {
      CopiesOrdered(n - 1, m, holds);
      CopiesOfOne(n - 1, m, holds);
      var cs, ds := Copies(n - 1, m, holds), CopiesOf(n - 1, m, holds);
      var all: seq<Copy> := cs + ds;
      assert forall c :: 0 <= c < |all| ==> all[c] == if c < |cs| then cs[c] else ds[c - |cs|];
    }
  }

  lemma {:induction false} CopiesOfOne(s: nat, m: nat, holds: (nat, nat) -> bool)
    ensures forall c :: 0 <= c < |CopiesOf(s, m, holds)| ==> CopiesOf(s, m, holds)[c].s == s
  {
    if m > 0 { CopiesOfOne(s, m - 1, holds); }
  }

  lemma OneLoopOnly(b: StatementGraph.Body, prog: seq<Statement>, trips: nat, m: nat, holds: (nat, nat) -> bool, s: nat, i: nat, j: nat, k: nat, l: nat)
    requires Describes(b, prog, trips) && Sound(b, m, holds) && s < |prog| && Touch(prog, s, i, s, j)
    requires holds(s, k) && holds(s, l) && k < m && l < m
    ensures k == l
  {
    assert b.hasRef[s];
  }

  lemma ConflictTouches(prog: seq<Statement>, s: nat, k: nat, i: nat, t: nat, l: nat, j: nat)
    requires s < |prog| && t < |prog| && k != l && Conflict(OpFor(prog, s, k, i), OpFor(prog, t, l, j))
    ensures Touch(prog, s, i, t, j)
  {
  }

  lemma CopiesLegal(b: StatementGraph.Body, prog: seq<Statement>, trips: nat, m: nat, holds: (nat, nat) -> bool)
    requires Describes(b, prog, trips) && Sound(b, m, holds) && Placed(b, prog, m, holds)
    ensures var cs := Copies(|prog|, m, holds);
            Proper(prog, cs, m, holds) && Legal(CopyBody(prog, cs), trips, LoopOf(cs))
  {
    var cs := Copies(|prog|, m, holds);
    CopiesProper(prog, |prog|, m, holds);
    CopiesOrdered(|prog|, m, holds);
    var body := CopyBody(prog, cs);
    forall c: nat, d: nat | c < |body| && d < |body| && Depends(body, trips, c, d) ensures cs[c].k <= cs[d].k {
      var i: nat, j: nat :| i < trips && j < trips && Earlier(Inst(c, i), Inst(d, j)) && Conflict(body[c](i), body[d](j));
      var x, y := cs[c], cs[d];
      if x.k != y.k {
        ConflictTouches(prog, x.s, x.k, i, y.s, y.k, j);
        if x.s == y.s {
          OneLoopOnly(b, prog, trips, m, holds, x.s, i, j, x.k, y.k);
        } else {
          assert Earlier(Inst(x.s, i), Inst(y.s, j));
          assert Dep(x.s, y.s, false) in b.deps;
        }
      }
    }
  }

  /** Splitting with recomputation preserves meaning: when every array statement is in one loop with all its
      scalar ancestors, and no data dependence leads to an earlier loop, running the loops one after the other,
      each with registers of its own, leaves the memory that the original loop leaves. */
  lemma RecomputationPreserves(b: StatementGraph.Body, prog: seq<Statement>, trips: nat, m: nat, holds: (nat, nat) -> bool, st: Store)
    requires Describes(b, prog, trips) && Sound(b, m, holds) && Placed(b, prog, m, holds)
    ensures var cs := Copies(|prog|, m, holds);
            && Proper(prog, cs, m, holds)
            && var plain, split := PlainBody(prog), CopyBody(prog, cs);
               && Within(plain, Original(|prog|, trips)) && Within(split, Loops(|cs|, trips, LoopOf(cs), m))
               && SameMemory(Run(Ops(plain, Original(|prog|, trips)), st), Run(Ops(split, Loops(|cs|, trips, LoopOf(cs), m)), st))
  {
    hide Describes, Sound, Placed, Copies, SameMemory, RunLoop, Run, Ops, Loops, Original, OpFor, Legal, Step;
    var cs := Copies(|prog|, m, holds);
    CopiesLegal(b, prog, trips, m, holds);
    var plain, split := PlainBody(prog), CopyBody(prog, cs);
    LoopRuns(plain, trips, st);
    LoopRuns(split, trips, st);
    LoopFollows(b, prog, trips, m, holds, trips, st);
    DistributionPreserves(split, trips, LoopOf(cs), m, st);
  }
}
