/** Running the copies of a loop one after the other, each with its group of statements, leaves what the loop
    leaves: the loop's run is taken apart into operations on fixed cells, these are reordered, and the copies
    are seen to perform them in the new order. */
module CodeFission {
  import D = Distribution
  import opened Options
  import opened LoopSplit
  import opened LoopCopies
  import opened LoopErasure
  import opened SplitResult
  import opened Execution
  import opened LoopCode

  // ---------- the run of the loop as operations ----------

  /** In iteration i of the loop, before statement s. */
  function During(m: Meaning, code: Code, st: State, i: nat, s: nat): State
    requires s <= |code.stmts|
  {
    RunAll(m, code.stmts[..s], HeadState(m, code, st, i))
  }

  /** What statement s does to memory in iteration i; what it loads goes to a register of its own. */
  function OpFor(e: Effect, s: nat, i: nat): D.Op {
    match e
    case Value(_) => D.Op([], None, xs => 0)
    case Load(a) => D.Op([D.Mem(a)], Some(D.Reg(i, s)), (xs: seq<int>) => if xs == [] then 0 else xs[0])
    case Store(a, v) => D.Op([], Some(D.Mem(a)), xs => v)
  }

  function EffectAt(m: Meaning, code: Code, st: State, i: nat, s: nat): Effect
    requires s < |code.stmts|
  {
    EffectOf(m, code.stmts[s], During(m, code, st, i, s))
  }

  /** The memory accesses of the loop, when it starts in st. */
  function Trace(m: Meaning, code: Code, st: State): (r: D.Body)
    ensures |r| == |code.stmts| && forall s, i: nat :: 0 <= s < |r| ==> r[s](i) == OpFor(EffectAt(m, code, st, i, s), s, i)
  {
    seq(|code.stmts|, s requires 0 <= s < |code.stmts| => (i: nat) => OpFor(EffectAt(m, code, st, i, s), s, i))
  }

  ghost predicate MemoryIs(memory: map<int, int>, store: D.Store) {
    forall a :: At(memory, a) == D.Get(store, D.Mem(a))
  }

  function AsStore(memory: map<int, int>): D.Store {
    map a | a in memory :: D.Mem(a) := memory[a]
  }

  lemma StoreIsMemory(memory: map<int, int>)
    ensures MemoryIs(memory, AsStore(memory))
  {
  }

  lemma OpStep(e: Effect, s: nat, i: nat, v: nat, st: State, store: D.Store)
    requires MemoryIs(st.memory, store)
    ensures MemoryIs(Perform(e, v, st).memory, D.Step(OpFor(e, s, i), store))
  {
  }

  // ---------- how far a run has come ----------

  /** What has been executed before statement s in iteration i of loop t. */
  function Prefix(n: nat, trips: nat, group: nat -> nat, t: nat, i: nat, s: nat): (r: seq<D.Inst>)
    requires s <= n
    ensures forall k :: 0 <= k < |r| ==> r[k].s < n
  {
    D.LoopsContent(n, trips, group, t);
    D.LoopContent(n, i, group, t);
    D.RowContent(s, i, group, t);
    var a, b, c := D.Loops(n, trips, group, t), D.Loop(n, i, group, t), D.Row(s, i, group, t);
    assert forall k :: 0 <= k < |a| ==> a[k] in a;
    assert forall k :: 0 <= k < |b| ==> b[k] in b;
    assert forall k :: 0 <= k < |c| ==> c[k] in c;
    a + b + c
  }

  lemma PrefixStep(n: nat, trips: nat, group: nat -> nat, t: nat, i: nat, s: nat)
    requires s < n
    ensures Prefix(n, trips, group, t, i, s + 1) == Prefix(n, trips, group, t, i, s) + (if group(s) == t then [D.Inst(s, i)] else [])
  {
    hide D.Loops, D.Loop;
    Reassociate(D.Loops(n, trips, group, t) + D.Loop(n, i, group, t), D.Row(s, i, group, t), if group(s) == t then [D.Inst(s, i)] else []);
  }

  lemma Reassociate<T>(a: seq<T>, b: seq<T>, c: seq<T>)
    ensures a + (b + c) == (a + b) + c
  {
  }

  lemma PrefixRow(n: nat, trips: nat, group: nat -> nat, t: nat, i: nat)
    ensures Prefix(n, trips, group, t, i + 1, 0) == Prefix(n, trips, group, t, i, n)
  {
    hide D.Loops;
    Reassociate(D.Loops(n, trips, group, t), D.Loop(n, i, group, t), D.Row(n, i, group, t));
    assert D.Row(0, i + 1, group, t) == [];
  }

  lemma PrefixLoop(n: nat, trips: nat, group: nat -> nat, t: nat)
    ensures Prefix(n, trips, group, t + 1, 0, 0) == Prefix(n, trips, group, t, trips, 0) == D.Loops(n, trips, group, t + 1)
    ensures Prefix(n, trips, group, 0, 0, 0) == []
  {
  }

  function Stored(b: D.Body, trips: nat, group: nat -> nat, st: D.Store, t: nat, i: nat, s: nat): D.Store
    requires s <= |b|
  {
    D.Run(D.Ops(b, Prefix(|b|, trips, group, t, i, s)), st)
  }

  lemma RunLast(b: D.Body, xs: seq<D.Inst>, x: D.Inst, st: D.Store)
    requires (forall k :: 0 <= k < |xs| ==> xs[k].s < |b|) && x.s < |b|
    ensures D.Run(D.Ops(b, xs + [x]), st) == D.Step(D.OpOf(b, x), D.Run(D.Ops(b, xs), st))
  {
    D.SplitOps(b, xs, [x]);
    D.RunConcat(D.Ops(b, xs), D.Ops(b, [x]), st);
    assert D.Ops(b, [x])[1..] == [];
    assert D.Run(D.Ops(b, [x])[1..], D.Step(D.OpOf(b, x), D.Run(D.Ops(b, xs), st))) == D.Step(D.OpOf(b, x), D.Run(D.Ops(b, xs), st));
  }

  lemma StoredStep(b: D.Body, trips: nat, group: nat -> nat, st: D.Store, t: nat, i: nat, s: nat)
    requires s < |b|
    ensures Stored(b, trips, group, st, t, i, s + 1)
         == if group(s) == t then D.Step(b[s](i), Stored(b, trips, group, st, t, i, s)) else Stored(b, trips, group, st, t, i, s)
  {
    hide Prefix, D.Run;
    PrefixStep(|b|, trips, group, t, i, s);
    var p := Prefix(|b|, trips, group, t, i, s);
    if group(s) == t { RunLast(b, p, D.Inst(s, i), st); } else { assert p + [] == p; }
  }

  // ---------- what a load finds is what remains in its register ----------

  lemma {:induction false} RowRest(n: nat, s: nat, i: nat, group: nat -> nat, k: nat) returns (rest: seq<D.Inst>)
    requires s <= n
    ensures D.Row(n, i, group, k) == D.Row(s, i, group, k) + rest
    decreases n
  {
    if s == n {
      rest := [];
    } else {
      var less := RowRest(n - 1, s, i, group, k);
      var last := if group(n - 1) == k then [D.Inst(n - 1, i)] else [];
      rest := less + last;
      Reassociate(D.Row(s, i, group, k), less, last);
    }
  }

  lemma {:induction false} LoopRest(n: nat, trips: nat, i: nat, group: nat -> nat, k: nat) returns (rest: seq<D.Inst>)
    requires i <= trips
    ensures D.Loop(n, trips, group, k) == D.Loop(n, i, group, k) + rest
    decreases trips
  {
    if i == trips {
      rest := [];
    } else {
      var less := LoopRest(n, trips - 1, i, group, k);
      rest := less + D.Row(n, trips - 1, group, k);
      Reassociate(D.Loop(n, i, group, k), less, D.Row(n, trips - 1, group, k));
    }
  }

  lemma {:induction false} LoopsRest(n: nat, trips: nat, group: nat -> nat, m: nat, t: nat) returns (rest: seq<D.Inst>)
    requires t <= m
    ensures D.Loops(n, trips, group, m) == D.Loops(n, trips, group, t) + rest
    decreases m
  {
    if t == m {
      rest := [];
    } else {
      var less := LoopsRest(n, trips, group, m - 1, t);
      rest := less + D.Loop(n, trips, group, m - 1);
      Reassociate(D.Loops(n, trips, group, t), less, D.Loop(n, trips, group, m - 1));
    }
  }

  lemma Assemble<T>(l: seq<T>, p: seq<T>, r: seq<T>, x: seq<T>, a: seq<T>, b: seq<T>, c: seq<T>)
    ensures l + ((p + ((r + x) + a)) + b) + c == (l + p + r) + x + (a + b + c)
  {
    Reassociate(r, x, a);
    Reassociate(p, r, x + a);
    Reassociate(p + r, x + a, b);
    Reassociate(x, a, b);
    Reassociate(l, p + r, x + (a + b));
    Reassociate(l, p, r);
    Reassociate(l + (p + r), x + (a + b), c);
    Reassociate(x, a + b, c);
    Reassociate(l + p + r, x, a + b + c);
  }

  lemma Unfoldings(n: nat, trips: nat, group: nat -> nat, i: nat, s: nat)
    requires s < n && i < trips
    ensures var t := group(s);
            && D.Row(s + 1, i, group, t) == D.Row(s, i, group, t) + [D.Inst(s, i)]
            && D.Loop(n, i + 1, group, t) == D.Loop(n, i, group, t) + D.Row(n, i, group, t)
            && D.Loops(n, trips, group, t + 1) == D.Loops(n, trips, group, t) + D.Loop(n, trips, group, t)
            && Prefix(n, trips, group, t, i, s) == D.Loops(n, trips, group, t) + D.Loop(n, i, group, t) + D.Row(s, i, group, t)
  {
  }

  /** Where a statement stands in the whole run. */
  lemma WholeRun(n: nat, trips: nat, group: nat -> nat, m: nat, i: nat, s: nat) returns (rest: seq<D.Inst>)
    requires s < n && i < trips && group(s) < m
    ensures D.Loops(n, trips, group, m) == Prefix(n, trips, group, group(s), i, s) + [D.Inst(s, i)] + rest
    ensures D.Inst(s, i) !in rest && forall k :: 0 <= k < |rest| ==> rest[k].s < n
  {
    hide *;
    var t := group(s);
    var a := RowRest(n, s + 1, i, group, t);
    var b := LoopRest(n, trips, i + 1, group, t);
    var c := LoopsRest(n, trips, group, m, t + 1);
    rest := a + b + c;
    Unfoldings(n, trips, group, i, s);
    Assemble(D.Loops(n, trips, group, t), D.Loop(n, i, group, t), D.Row(s, i, group, t), [D.Inst(s, i)], a, b, c);
    var ys := D.Loops(n, trips, group, m);
    D.LoopsContent(n, trips, group, m);
    D.SortedHasNoDuplicates(ys, (x, y) => D.EarlierIn(group, x, y));
    OnceOnly(ys, Prefix(n, trips, group, t, i, s), D.Inst(s, i), rest);
  }

  lemma OnceOnly(ys: seq<D.Inst>, p: seq<D.Inst>, x: D.Inst, rest: seq<D.Inst>)
    requires D.NoDuplicates(ys) && ys == p + [x] + rest
    ensures x !in rest
    ensures forall k :: 0 <= k < |rest| ==> rest[k] in ys
  {
    forall k | 0 <= k < |rest| ensures rest[k] != x && rest[k] in ys {
      assert ys[|p|] == x && ys[|p| + 1 + k] == rest[k];
    }
  }

  lemma {:induction false} NotWritten(ops: seq<D.Op>, c: D.Cell, st: D.Store)
    requires forall k :: 0 <= k < |ops| ==> ops[k].write != Some(c)
    ensures D.Get(D.Run(ops, st), c) == D.Get(st, c)
  {
    if ops != [] { NotWritten(ops[1..], c, D.Step(ops[0], st)); }
  }

  /** What a statement loads in its iteration is what its register holds in the end, in whatever order the
      statements are run. */
  lemma LoadStays(m: Meaning, code: Code, st: State, trips: nat, group: nat -> nat, count: nat, i: nat, s: nat)
    requires s < |code.stmts| && i < trips && group(s) < count && EffectAt(m, code, st, i, s).Load?
    ensures var b, n, st0 := Trace(m, code, st), |code.stmts|, AsStore(st.memory);
            && D.Within(b, D.Loops(n, trips, group, count))
            && D.Get(D.Run(D.Ops(b, D.Loops(n, trips, group, count)), st0), D.Reg(i, s))
               == D.Get(Stored(b, trips, group, st0, group(s), i, s), D.Mem(EffectAt(m, code, st, i, s).address))
  {
    hide EffectAt, AsStore, D.Loops, Prefix, D.Run;
    var b, n, st0 := Trace(m, code, st), |code.stmts|, AsStore(st.memory);
    var rest := WholeRun(n, trips, group, count, i, s);
    D.LoopsWithin(b, trips, group, count);
    var p, x := Prefix(n, trips, group, group(s), i, s), D.Inst(s, i);
    var before := D.Run(D.Ops(b, p), st0);
    var after := D.Run(D.Ops(b, p + [x]), st0);
    RunLast(b, p, x, st0);
    D.SplitOps(b, p + [x], rest);
    D.RunConcat(D.Ops(b, p + [x]), D.Ops(b, rest), st0);
    forall k | 0 <= k < |rest| ensures D.Ops(b, rest)[k].write != Some(D.Reg(i, s)) {
      assert rest[k] in rest;
      assert D.Ops(b, rest)[k] == OpFor(EffectAt(m, code, st, rest[k].i, rest[k].s), rest[k].s, rest[k].i);
    }
    NotWritten(D.Ops(b, rest), D.Reg(i, s), after);
    LoadedNow(EffectAt(m, code, st, i, s), s, i, before);
  }

  lemma LoadedNow(e: Effect, s: nat, i: nat, store: D.Store)
    requires e.Load?
    ensures D.Get(D.Step(OpFor(e, s, i), store), D.Reg(i, s)) == D.Get(store, D.Mem(e.address))
  {
    var cs := [D.Mem(e.address)];
    assert D.Fetch(store, cs) == [D.Get(store, cs[0])];
  }

  // ---------- the loop itself ----------

  lemma {:induction false} PureRun(m: Meaning, xs: seq<Instr>, st: State)
    requires forall i :: 0 <= i < |xs| ==> Pure(m, xs[i])
    ensures RunAll(m, xs, st).memory == st.memory
    decreases |xs|
  {
    if xs != [] { PureRun(m, xs[..|xs| - 1], st); }
  }

  /** The header leaves memory as the statements left it. */
  lemma FrameMemory(m: Meaning, code: Code, st: State, t: nat)
    requires PureFrame(m, code)
    ensures HeadState(m, code, st, 0).memory == st.memory
    ensures HeadState(m, code, st, t + 1).memory == RunAll(m, code.stmts, HeadState(m, code, st, t)).memory
  {
    hide Pure;
    PureRun(m, code.head, TakeAll(m, Inits(code), st));
    TakingMemory(m, Inits(code), st);
    var s := RunAll(m, code.stmts, HeadState(m, code, st, t));
    assert Exec(m, code.tail, s).memory == s.memory by { PureExec(m, code.tail, s); }
    PureRun(m, code.head, TakeAll(m, Nexts(code), Exec(m, code.tail, s)));
    TakingMemory(m, Nexts(code), Exec(m, code.tail, s));
  }

  lemma PureExec(m: Meaning, x: Instr, st: State)
    requires Pure(m, x)
    ensures Exec(m, x, st).memory == st.memory
  {
  }

  lemma DuringStep(m: Meaning, code: Code, st: State, i: nat, s: nat)
    requires s < |code.stmts|
    ensures During(m, code, st, i, s + 1) == Exec(m, code.stmts[s], During(m, code, st, i, s))
    ensures During(m, code, st, i, 0) == HeadState(m, code, st, i)
    ensures During(m, code, st, i, |code.stmts|) == RunAll(m, code.stmts, HeadState(m, code, st, i))
  {
    assert code.stmts[..s + 1][..s] == code.stmts[..s];
    assert code.stmts[..|code.stmts|] == code.stmts;
  }

  lemma DuringEnds(m: Meaning, code: Code, st: State, i: nat)
    ensures During(m, code, st, i, 0) == HeadState(m, code, st, i)
    ensures During(m, code, st, i, |code.stmts|) == RunAll(m, code.stmts, HeadState(m, code, st, i))
  {
    assert code.stmts[..|code.stmts|] == code.stmts;
  }

  /** The operations follow the loop's memory, step by step. */
  lemma {:induction false} LoopFollowed(m: Meaning, code: Code, st: State, trips: nat, i: nat, s: nat)
    requires PureFrame(m, code) && s <= |code.stmts|
    ensures MemoryIs(During(m, code, st, i, s).memory, Stored(Trace(m, code, st), trips, D.OneGroup, AsStore(st.memory), 0, i, s))
    decreases i, s
  {
    hide MemoryIs, Stored, OpFor, EffectAt, During, AsStore, PureFrame, Exec;
    var b, st0 := Trace(m, code, st), AsStore(st.memory);
    DuringEnds(m, code, st, i);
    if s > 0 {
      LoopFollowed(m, code, st, trips, i, s - 1);
      DuringStep(m, code, st, i, s - 1);
      StoredStep(b, trips, D.OneGroup, st0, 0, i, s - 1);
      ExecIs(m, code, st, i, s - 1, During(m, code, st, i, s - 1));
      OpStep(EffectAt(m, code, st, i, s - 1), s - 1, i, code.stmts[s - 1].id, During(m, code, st, i, s - 1),
             Stored(b, trips, D.OneGroup, st0, 0, i, s - 1));
    } else if i > 0 {
      LoopFollowed(m, code, st, trips, i - 1, |code.stmts|);
      DuringEnds(m, code, st, i - 1);
      FrameMemory(m, code, st, i - 1);
      StoredRow(b, trips, D.OneGroup, st0, 0, i - 1);
    } else {
      FrameMemory(m, code, st, 0);
      StoreIsMemory(st.memory);
      StoredNothing(b, trips, D.OneGroup, st0);
    }
  }

  lemma ExecIs(m: Meaning, code: Code, st: State, i: nat, s: nat, now: State)
    requires s < |code.stmts| && now == During(m, code, st, i, s)
    ensures Exec(m, code.stmts[s], now) == Perform(EffectAt(m, code, st, i, s), code.stmts[s].id, now)
  {
  }

  lemma StoredRow(b: D.Body, trips: nat, group: nat -> nat, st: D.Store, t: nat, i: nat)
    ensures Stored(b, trips, group, st, t, i + 1, 0) == Stored(b, trips, group, st, t, i, |b|)
  {
    PrefixRow(|b|, trips, group, t, i);
  }

  lemma StoredNothing(b: D.Body, trips: nat, group: nat -> nat, st: D.Store)
    ensures Stored(b, trips, group, st, 0, 0, 0) == st
  {
    PrefixLoop(|b|, trips, group, 0);
  }

  lemma StoredLoop(b: D.Body, trips: nat, group: nat -> nat, st: D.Store, t: nat)
    ensures Stored(b, trips, group, st, t + 1, 0, 0) == Stored(b, trips, group, st, t, trips, 0)
    ensures D.Within(b, D.Loops(|b|, trips, group, t))
    ensures Stored(b, trips, group, st, t, 0, 0) == D.Run(D.Ops(b, D.Loops(|b|, trips, group, t)), st)
  {
    PrefixLoop(|b|, trips, group, t);
    if t > 0 { PrefixLoop(|b|, trips, group, t - 1); }
    assert Prefix(|b|, trips, group, t, 0, 0) == D.Loops(|b|, trips, group, t);
  }

  // ---------- the copies ----------

  /** A loop, and for each of its copies the group and the distance by which its values are moved. */
  datatype Fission = Fission(m: Meaning, code: Code, ids: set<nat>, limit: nat, sccs: seq<seq<nat>>, shifts: seq<nat>, group: nat -> nat)

  /** Every statement is in the group of exactly one copy, together with what it uses. */
  ghost predicate Splits(f: Fission) {
    && Sensible(f.m, f.code, f.ids, f.limit)
    && 0 < |f.shifts| <= |f.sccs| && f.shifts[0] == 0 && (forall t :: 0 < t < |f.shifts| ==> f.shifts[t] >= f.limit)
    && (forall s: nat :: s < |f.code.stmts| ==> f.group(s) < |f.shifts|)
    && (forall s: nat, t: nat {:trigger f.code.stmts[s], f.sccs[t]} :: s < |f.code.stmts| && t < |f.shifts| ==>
          (f.code.stmts[s].id in f.sccs[t] <==> f.group(s) == t))
    && forall u: nat, s: nat {:trigger f.code.stmts[u], f.code.stmts[s]} ::
         u < |f.code.stmts| && s < |f.code.stmts| && Def(f.code.stmts[u].id) in f.code.stmts[s].args ==> f.group(u) == f.group(s)
  }

  function CodeFor(f: Fission, t: nat): Code
    requires t < |f.shifts| <= |f.sccs|
  {
    CopyCode(f.code, f.sccs[t], f.ids, f.shifts[t])
  }

  /** When copy t is entered, each copy before it having run the same number of times. */
  function EntryState(f: Fission, st: State, trips: nat, t: nat): State
    requires t <= |f.shifts| <= |f.sccs|
  {
    if t == 0 then st else HeadState(f.m, CodeFor(f, t - 1), EntryState(f, st, trips, t - 1), trips)
  }

  function CodeIds(code: Code): set<nat> {
    NodeIds(code) + InstrIds(code.head) + InstrIds(code.stmts) + {code.tail.id}
  }

  lemma {:induction false} RunUntouched(m: Meaning, xs: seq<Instr>, v: nat, st: State)
    requires v !in InstrIds(xs)
    ensures Reg(RunAll(m, xs, st), v) == Reg(st, v)
    decreases |xs|
  {
    if xs != [] {
      var n := |xs| - 1;
      InstrIdsMore(xs, n);
      hide InstrIds, EffectOf;
      RunUntouched(m, xs[..n], v, st);
    }
  }

  lemma {:induction false} TakeUntouched(m: Meaning, ts: seq<Take>, v: nat, st: State)
    requires v !in TakeIds(ts)
    ensures Reg(TakeAll(m, ts, st), v) == Reg(st, v)
    decreases |ts|
  {
    if ts != [] {
      var n := |ts| - 1;
      assert forall i :: 0 <= i < n ==> ts[..n][i] == ts[i];
      TakeUntouched(m, ts[..n], v, st);
    }
  }

  lemma {:induction false} CodeUntouched(m: Meaning, code: Code, v: nat, st: State, t: nat)
    requires v !in CodeIds(code)
    ensures Reg(HeadState(m, code, st, t), v) == Reg(st, v)
    decreases t
  {
    assert TakeIds(Inits(code)) == NodeIds(code) == TakeIds(Nexts(code));
    hide InstrIds, RunAll, TakeAll, NodeIds, TakeIds, EffectOf;
    if t == 0 {
      TakeUntouched(m, Inits(code), v, st);
      RunUntouched(m, code.head, v, TakeAll(m, Inits(code), st));
    } else {
      CodeUntouched(m, code, v, st, t - 1);
      var s := HeadState(m, code, st, t - 1);
      RunUntouched(m, code.stmts, v, s);
      var e := Exec(m, code.tail, RunAll(m, code.stmts, s));
      assert Reg(e, v) == Reg(s, v);
      TakeUntouched(m, Nexts(code), v, e);
      RunUntouched(m, code.head, v, TakeAll(m, Nexts(code), e));
    }
  }

  lemma CopyNodeIds(m: Meaning, code: Code, scc: seq<nat>, ids: set<nat>, limit: nat, shift: nat, w: nat)
    requires Sensible(m, code, ids, limit) && w in NodeIds(CopyCode(code, scc, ids, shift))
    ensures w >= shift && w - shift in ids
  {
    hide Sensible, CopyCode, MovedOperand, InstrIds, HeadIds;
    SensibleParts(m, code, ids, limit);
    var copy := CopyCode(code, scc, ids, shift);
    var i :| 0 <= i < |copy.nodes| && copy.nodes[i].id == w;
    assert code.nodes[i].id in NodeIds(code);
  }

  lemma MovedIds(xs: seq<Instr>, ids: set<nat>, shift: nat, w: nat)
    requires w in InstrIds(MovedAll(xs, ids, shift)) && InstrIds(xs) <= ids
    ensures w >= shift && w - shift in ids
  {
    hide MovedArgs;
    var i :| 0 <= i < |xs| && MovedAll(xs, ids, shift)[i].id == w;
    assert xs[i].id in InstrIds(xs);
  }

  lemma CopyIds(m: Meaning, code: Code, scc: seq<nat>, ids: set<nat>, limit: nat, shift: nat, w: nat)
    requires Sensible(m, code, ids, limit) && w in CodeIds(CopyCode(code, scc, ids, shift))
    ensures w >= shift && w - shift in ids
  {
    hide Sensible, Kept, CopyCode, MovedArgs, InstrIds, NodeIds, HeaderIds, MovedAll, MovedOperand;
    var copy := CopyCode(code, scc, ids, shift);
    SensibleParts(m, code, ids, limit);
    KeptIds(code.stmts, scc);
    if w in NodeIds(copy) {
      CopyNodeIds(m, code, scc, ids, limit, shift, w);
    } else if w in InstrIds(copy.head) {
      MovedIds(code.head, ids, shift, w);
    } else if w in InstrIds(copy.stmts) {
      MovedIds(Kept(code.stmts, scc, map[]), ids, shift, w);
    }
  }

  lemma CopyFresh(f: Fission, t: nat)
    requires Splits(f) && t < |f.shifts|
    ensures Fresh({}, f.ids, f.limit, f.shifts[t]) && Fresh(HeaderIds(f.code), f.ids, f.limit, f.shifts[t])
    ensures Sensible(f.m, f.code, f.ids, f.limit)
  {
    hide Sensible;
    SensibleParts(f.m, f.code, f.ids, f.limit);
  }

  lemma EntryStep(f: Fission, st: State, trips: nat, t: nat)
    requires 0 < t <= |f.shifts| <= |f.sccs|
    ensures EntryState(f, st, trips, t) == HeadState(f.m, CodeFor(f, t - 1), EntryState(f, st, trips, t - 1), trips)
    ensures EntryState(f, st, trips, 0) == st
  {
  }

  /** A copy changes no value that was there before it, but for those of the loop. */
  lemma CopyLeaves(f: Fission, st: State, trips: nat, t: nat, v: nat)
    requires Splits(f) && 0 < t <= |f.shifts| <= |f.sccs| && v < f.limit && (v in f.ids ==> f.shifts[t - 1] >= f.limit)
    ensures Reg(EntryState(f, st, trips, t - 1), v) == Reg(EntryState(f, st, trips, t), v)
  {
    hide *;
    EntryStep(f, st, trips, t);
    if v in CodeIds(CodeFor(f, t - 1)) { OwnIds(f, t - 1, v); }
    CodeUntouched(f.m, CodeFor(f, t - 1), v, EntryState(f, st, trips, t - 1), trips);
  }

  lemma OwnIds(f: Fission, t: nat, v: nat)
    requires Splits(f) && t < |f.shifts| <= |f.sccs| && v in CodeIds(CodeFor(f, t))
    ensures v >= f.shifts[t] && v - f.shifts[t] in f.ids && (f.shifts[t] == 0 || f.shifts[t] >= f.limit)
  {
    hide *;
    CopyFresh(f, t);
    FreshShift({}, f.ids, f.limit, f.shifts[t]);
    CodeForIs(f, t);
    CopyIds(f.m, f.code, f.sccs[t], f.ids, f.limit, f.shifts[t], v);
  }

  lemma FreshShift(vs: set<nat>, ids: set<nat>, limit: nat, shift: nat)
    requires Fresh(vs, ids, limit, shift)
    ensures shift == 0 || shift >= limit
  {
  }

  lemma CodeForIs(f: Fission, t: nat)
    requires t < |f.shifts| <= |f.sccs|
    ensures CodeFor(f, t) == CopyCode(f.code, f.sccs[t], f.ids, f.shifts[t])
  {
  }

  /** What the loop does not compute stays as it is. */
  lemma {:induction false} OutsideSame(f: Fission, st: State, trips: nat, t: nat)
    requires Splits(f) && t <= |f.shifts|
    ensures |f.shifts| <= |f.sccs|
    ensures forall v: nat :: v < f.limit && v !in f.ids ==> Reg(st, v) == Reg(EntryState(f, st, trips, t), v)
  {
    hide *;
    SplitSize(f);
    if t > 0 {
      OutsideSame(f, st, trips, t - 1);
      forall v: nat | v < f.limit && v !in f.ids ensures Reg(st, v) == Reg(EntryState(f, st, trips, t), v) {
        CopyLeaves(f, st, trips, t, v);
      }
    } else {
      EntryNothing(f, st, trips);
    }
  }

  lemma EntryNothing(f: Fission, st: State, trips: nat)
    requires |f.shifts| <= |f.sccs|
    ensures EntryState(f, st, trips, 0) == st
  {
  }

  lemma EntrySame(f: Fission, st: State, trips: nat, t: nat)
    requires Splits(f) && t < |f.shifts|
    ensures Same({}, f.ids, f.limit, f.shifts[t], st, EntryState(f, st, trips, t))
  {
    OutsideSame(f, st, trips, t);
  }

  /** Every copy runs as often as the loop. */
  lemma CopiesRunEqually(f: Fission, st: State, trips: nat, t: nat, u: nat)
    requires Splits(f) && t < |f.shifts|
    ensures RunsFor(f.m, f.code, st, u) <==> RunsFor(f.m, CodeFor(f, t), EntryState(f, st, trips, t), u)
  {
    hide Splits, RunsFor, Sensible, Fresh, Same, CopyCode;
    SplitSize(f);
    CopyFresh(f, t);
    EntrySame(f, st, trips, t);
    TripsSame(f.m, f.code, f.sccs[t], f.ids, f.limit, f.shifts[t], st, EntryState(f, st, trips, t), u);
  }

  lemma SplitSize(f: Fission)
    requires Splits(f)
    ensures 0 < |f.shifts| <= |f.sccs| && f.shifts[0] == 0
  {
  }

  // ---------- the copies perform the reordered operations ----------

  /** A load finds in its copy, among the reordered operations, what it found in the loop. */
  ghost predicate LoadAgrees(f: Fission, st: State, trips: nat, i: nat, s: nat)
    requires s < |f.code.stmts|
  {
    EffectAt(f.m, f.code, st, i, s).Load? ==>
      At(During(f.m, f.code, st, i, s).memory, EffectAt(f.m, f.code, st, i, s).address)
      == D.Get(Stored(Trace(f.m, f.code, st), trips, f.group, AsStore(st.memory), f.group(s), i, s), D.Mem(EffectAt(f.m, f.code, st, i, s).address))
  }

  lemma OneLoop(b: D.Body, trips: nat)
    ensures D.Loops(|b|, trips, D.OneGroup, 1) == D.Original(|b|, trips)
  {
    assert D.Loops(|b|, trips, D.OneGroup, 0) == [];
    assert [] + D.Loop(|b|, trips, D.OneGroup, 0) == D.Loop(|b|, trips, D.OneGroup, 0);
  }

  lemma LoadsAgree(f: Fission, st: State, trips: nat, i: nat, s: nat)
    requires Splits(f) && D.Legal(Trace(f.m, f.code, st), trips, f.group) && i < trips && s < |f.code.stmts|
    ensures LoadAgrees(f, st, trips, i, s)
  {
    if EffectAt(f.m, f.code, st, i, s).Load? {
      var b, st0 := Trace(f.m, f.code, st), AsStore(st.memory);
      assert PureFrame(f.m, f.code) && forall s: nat :: s < |b| ==> f.group(s) < |f.shifts|;
      hide *;
      LoadStays(f.m, f.code, st, trips, f.group, |f.shifts|, i, s);
      assert D.OneGroup(s) == 0 by { Zero(s); }
      LoadStays(f.m, f.code, st, trips, D.OneGroup, 1, i, s);
      OneLoop(b, trips);
      D.DistributionPreserves(b, trips, f.group, |f.shifts|, st0);
      LoopFollowed(f.m, f.code, st, trips, i, s);
      MemoryAt(During(f.m, f.code, st, i, s).memory, Stored(b, trips, D.OneGroup, st0, 0, i, s), EffectAt(f.m, f.code, st, i, s).address);
      LoadAgreesIf(f, st, trips, i, s);
    }
  }

  lemma LoadAgreesIf(f: Fission, st: State, trips: nat, i: nat, s: nat)
    requires s < |f.code.stmts| && EffectAt(f.m, f.code, st, i, s).Load?
    ensures LoadAgrees(f, st, trips, i, s)
            <==> At(During(f.m, f.code, st, i, s).memory, EffectAt(f.m, f.code, st, i, s).address)
                 == D.Get(Stored(Trace(f.m, f.code, st), trips, f.group, AsStore(st.memory), f.group(s), i, s), D.Mem(EffectAt(f.m, f.code, st, i, s).address))
  {
    hide EffectAt, Stored, During, AsStore;
  }

  lemma Zero(s: nat)
    ensures D.OneGroup(s) == 0
  {
  }

  lemma MemoryAt(memory: map<int, int>, store: D.Store, a: int)
    requires MemoryIs(memory, store)
    ensures At(memory, a) == D.Get(store, D.Mem(a))
  {
  }

  /** The values of the first s statements that copy t keeps. */
  function KeptVals(f: Fission, t: nat, s: nat): set<nat>
    requires s <= |f.code.stmts|
  {
    set u | 0 <= u < s && f.group(u) == t :: f.code.stmts[u].id
  }

  /** What copy t has run of an iteration, before statement s. */
  function KeptRun(f: Fission, t: nat, s: nat, now: State): State
    requires t < |f.shifts| <= |f.sccs| && s <= |f.code.stmts|
  {
    RunAll(f.m, MovedAll(Kept(f.code.stmts[..s], f.sccs[t], map[]), f.ids, f.shifts[t]), now)
  }

  lemma KeptRunStep(f: Fission, t: nat, s: nat, now: State)
    requires Splits(f) && t < |f.shifts| && s < |f.code.stmts|
    ensures KeptRun(f, t, s + 1, now)
         == if f.group(s) == t then Exec(f.m, Moved(f.code.stmts[s], f.ids, f.shifts[t]), KeptRun(f, t, s, now)) else KeptRun(f, t, s, now)
  {
    var x, scc := f.code.stmts[s], f.sccs[t];
    assert x.id in f.sccs[t] <==> f.group(s) == t;
    assert f.code.stmts[..s + 1] == f.code.stmts[..s] + [x];
    hide Moved, Exec, Splits;
    KeptJoined(f.code.stmts[..s], [x], scc, map[]);
    KeptOne(x, scc);
    var kept := Kept(f.code.stmts[..s], scc, map[]);
    if f.group(s) == t {
      var more := kept + [x];
      assert more[..|kept|] == kept;
      RunMoved(f.m, more, |kept|, f.ids, f.shifts[t], now);
    } else {
      assert kept + [] == kept;
    }
  }

  lemma KeptOne(x: Instr, scc: seq<nat>)
    ensures Kept([x], scc, map[]) == if x.id in scc then [x] else []
  {
    assert [x][1..] == [];
  }

  lemma KeptValsStep(f: Fission, t: nat, s: nat)
    requires Splits(f) && s < |f.code.stmts|
    ensures KeptVals(f, t, s + 1) == KeptVals(f, t, s) + (if f.group(s) == t then {f.code.stmts[s].id} else {})
    ensures f.code.stmts[s].id !in KeptVals(f, t, s) && f.code.stmts[s].id !in HeaderIds(f.code) && f.code.stmts[s].id in f.ids
    ensures KeptVals(f, t, s) <= f.ids && HeaderIds(f.code) <= f.ids
  {
    hide HeaderIds, Dominated, AllBelow, PureFrame;
    assert forall u :: 0 <= u <= s ==> f.code.stmts[u].id in InstrIds(f.code.stmts);
  }

  /** A statement of copy t uses only values that the copy has computed. */
  lemma KeptUses(f: Fission, t: nat, s: nat)
    requires Splits(f) && s < |f.code.stmts| && f.group(s) == t
    ensures UsesOnly(f.code.stmts[s].args, f.ids, HeaderIds(f.code) + KeptVals(f, t, s))
    ensures OperandsBelow(f.code.stmts[s].args, f.limit)
  {
    hide HeaderIds, Single, PureFrame;
    var os, earlier := f.code.stmts[s].args, f.code.stmts[..s];
    assert UsesOnly(os, f.ids, HeaderIds(f.code) + InstrIds(earlier));
    forall i | 0 <= i < |os| && os[i].Def? && os[i].v in f.ids ensures os[i].v in HeaderIds(f.code) + KeptVals(f, t, s) {
      if os[i].v in InstrIds(earlier) {
        var u: nat :| u < s && earlier[u].id == os[i].v;
        assert Def(f.code.stmts[u].id) in os;
        assert f.group(u) == f.group(s);
      }
    }
  }

  /** Copy and loop, before statement s of an iteration. */
  ghost predicate Beside(f: Fission, st: State, trips: nat, t: nat, i: nat, s: nat, now: State)
    requires t < |f.shifts| && s <= |f.code.stmts|
  {
    && Same(HeaderIds(f.code) + KeptVals(f, t, s), f.ids, f.limit, f.shifts[t], During(f.m, f.code, st, i, s), now)
    && MemoryIs(now.memory, Stored(Trace(f.m, f.code, st), trips, f.group, AsStore(st.memory), t, i, s))
  }

  lemma LoadedSame(f: Fission, st: State, trips: nat, i: nat, s: nat, now: State)
    requires s < |f.code.stmts| && LoadAgrees(f, st, trips, i, s)
    requires MemoryIs(now.memory, Stored(Trace(f.m, f.code, st), trips, f.group, AsStore(st.memory), f.group(s), i, s))
    ensures var e := EffectAt(f.m, f.code, st, i, s);
            e.Load? ==> At(During(f.m, f.code, st, i, s).memory, e.address) == At(now.memory, e.address)
  {
    hide EffectAt, Stored, During, AsStore;
  }

  lemma ValsFresh(f: Fission, t: nat, s: nat)
    requires Splits(f) && t < |f.shifts| && s < |f.code.stmts|
    ensures Fresh(HeaderIds(f.code) + KeptVals(f, t, s), f.ids, f.limit, f.shifts[t])
  {
    KeptValsStep(f, t, s);
    CopyFresh(f, t);
    hide Splits, HeaderIds, KeptVals;
  }

  /** The copy runs the statement: it has the same effect, and loads the same. */
  lemma GroupStep(f: Fission, st: State, trips: nat, t: nat, i: nat, s: nat, now: State)
    requires Splits(f) && t < |f.shifts| && s < |f.code.stmts| && f.group(s) == t
    requires Beside(f, st, trips, t, i, s, now) && LoadAgrees(f, st, trips, i, s)
    ensures Beside(f, st, trips, t, i, s + 1, Exec(f.m, Moved(f.code.stmts[s], f.ids, f.shifts[t]), now))
  {
    hide *;
    var m, x, vs := f.m, f.code.stmts[s], HeaderIds(f.code) + KeptVals(f, t, s);
    var was, shift := During(m, f.code, st, i, s), f.shifts[t];
    var then' := Exec(m, Moved(x, f.ids, shift), now);
    BesideParts(f, st, trips, t, i, s, now);
    KeptUses(f, t, s);
    KeptValsStep(f, t, s);
    ValsFresh(f, t, s);
    LoadedSame(f, st, trips, i, s, now);
    EffectIs(m, f.code, st, i, s);
    SameStep(m, x, vs, f.ids, f.limit, shift, was, now);
    DuringStep(m, f.code, st, i, s);
    assert vs + {x.id} == HeaderIds(f.code) + KeptVals(f, t, s + 1);
    var store := Stored(Trace(m, f.code, st), trips, f.group, AsStore(st.memory), t, i, s);
    OpStep(EffectOf(m, x, was), s, i, x.id + shift, now, store);
    StoredStep(Trace(m, f.code, st), trips, f.group, AsStore(st.memory), t, i, s);
    BesideIf(f, st, trips, t, i, s + 1, then');
  }

  lemma BesideParts(f: Fission, st: State, trips: nat, t: nat, i: nat, s: nat, now: State)
    requires t < |f.shifts| && s <= |f.code.stmts| && Beside(f, st, trips, t, i, s, now)
    ensures Same(HeaderIds(f.code) + KeptVals(f, t, s), f.ids, f.limit, f.shifts[t], During(f.m, f.code, st, i, s), now)
    ensures MemoryIs(now.memory, Stored(Trace(f.m, f.code, st), trips, f.group, AsStore(st.memory), t, i, s))
  {
  }

  lemma BesideIf(f: Fission, st: State, trips: nat, t: nat, i: nat, s: nat, now: State)
    requires t < |f.shifts| && s <= |f.code.stmts|
    requires Same(HeaderIds(f.code) + KeptVals(f, t, s), f.ids, f.limit, f.shifts[t], During(f.m, f.code, st, i, s), now)
    requires MemoryIs(now.memory, Stored(Trace(f.m, f.code, st), trips, f.group, AsStore(st.memory), t, i, s))
    ensures Beside(f, st, trips, t, i, s, now)
  {
  }

  lemma EffectIs(m: Meaning, code: Code, st: State, i: nat, s: nat)
    requires s < |code.stmts|
    ensures EffectAt(m, code, st, i, s) == EffectOf(m, code.stmts[s], During(m, code, st, i, s))
  {
  }

  /** The copy leaves the statement out. */
  lemma LeftOutStep(f: Fission, st: State, trips: nat, t: nat, i: nat, s: nat, now: State)
    requires Splits(f) && t < |f.shifts| && s < |f.code.stmts| && f.group(s) != t && Beside(f, st, trips, t, i, s, now)
    ensures Beside(f, st, trips, t, i, s + 1, now)
  {
    hide *;
    var m, x, vs := f.m, f.code.stmts[s], HeaderIds(f.code) + KeptVals(f, t, s);
    BesideParts(f, st, trips, t, i, s, now);
    KeptValsStep(f, t, s);
    ValsFresh(f, t, s);
    OtherStep(m, x, vs, f.ids, f.limit, f.shifts[t], During(m, f.code, st, i, s), now);
    DuringStep(m, f.code, st, i, s);
    assert vs == HeaderIds(f.code) + KeptVals(f, t, s + 1);
    StoredStep(Trace(m, f.code, st), trips, f.group, AsStore(st.memory), t, i, s);
    BesideIf(f, st, trips, t, i, s + 1, now);
  }

  lemma {:induction false} RowFollows(f: Fission, st: State, trips: nat, t: nat, i: nat, s: nat, now: State)
    requires Splits(f) && t < |f.shifts| && s <= |f.code.stmts| && Beside(f, st, trips, t, i, 0, now)
    requires forall u: nat :: u < |f.code.stmts| ==> LoadAgrees(f, st, trips, i, u)
    ensures Beside(f, st, trips, t, i, s, KeptRun(f, t, s, now))
  {
    hide Splits, Beside, LoadAgrees, Exec;
    SplitSize(f);
    if s == 0 {
      NothingRun(f, t, now);
    } else {
      RowFollows(f, st, trips, t, i, s - 1, now);
      KeptRunStep(f, t, s - 1, now);
      if f.group(s - 1) == t {
        GroupStep(f, st, trips, t, i, s - 1, KeptRun(f, t, s - 1, now));
      } else {
        LeftOutStep(f, st, trips, t, i, s - 1, KeptRun(f, t, s - 1, now));
      }
    }
  }

  lemma NothingRun(f: Fission, t: nat, now: State)
    requires t < |f.shifts| <= |f.sccs|
    ensures KeptRun(f, t, 0, now) == now
  {
  }

  lemma WholeRow(f: Fission, t: nat, now: State)
    requires t < |f.shifts| <= |f.sccs|
    ensures KeptRun(f, t, |f.code.stmts|, now) == RunAll(f.m, CodeFor(f, t).stmts, now)
  {
    assert f.code.stmts[..|f.code.stmts|] == f.code.stmts;
  }

  lemma CopyPure(f: Fission, t: nat)
    requires Splits(f) && t < |f.shifts|
    ensures PureFrame(f.m, CodeFor(f, t)) && PureFrame(f.m, f.code)
  {
    hide Dominated, Single, AllBelow, MovedArgs;
  }

  lemma BesideAtFirst(f: Fission, st: State, trips: nat, t: nat, i: nat, now: State)
    requires t < |f.shifts| && Same(HeaderIds(f.code), f.ids, f.limit, f.shifts[t], HeadState(f.m, f.code, st, i), now)
    requires MemoryIs(now.memory, Stored(Trace(f.m, f.code, st), trips, f.group, AsStore(st.memory), t, i, 0))
    ensures Beside(f, st, trips, t, i, 0, now)
  {
    assert HeaderIds(f.code) + KeptVals(f, t, 0) == HeaderIds(f.code);
    DuringEnds(f.m, f.code, st, i);
  }

  ghost predicate AllAgree(f: Fission, st: State, trips: nat) {
    forall i: nat, s: nat {:trigger LoadAgrees(f, st, trips, i, s)} :: i < trips && s < |f.code.stmts| ==> LoadAgrees(f, st, trips, i, s)
  }

  lemma AgreeIn(f: Fission, st: State, trips: nat, i: nat)
    requires AllAgree(f, st, trips) && i < trips
    ensures forall u: nat :: u < |f.code.stmts| ==> LoadAgrees(f, st, trips, i, u)
  {
    hide LoadAgrees;
  }

  /** Behind its header, in every iteration, the memory of copy t is that of the reordered operations. */
  lemma {:induction false} CopyFollows(f: Fission, st: State, trips: nat, t: nat, i: nat)
    requires Splits(f) && t < |f.shifts| <= |f.sccs| && i <= trips && AllAgree(f, st, trips)
    requires MemoryIs(EntryState(f, st, trips, t).memory, Stored(Trace(f.m, f.code, st), trips, f.group, AsStore(st.memory), t, 0, 0))
    ensures MemoryIs(HeadState(f.m, CodeFor(f, t), EntryState(f, st, trips, t), i).memory,
                     Stored(Trace(f.m, f.code, st), trips, f.group, AsStore(st.memory), t, i, 0))
  {
    hide *;
    CopyPure(f, t);
    var copy, entry := CodeFor(f, t), EntryState(f, st, trips, t);
    FrameMemory(f.m, copy, entry, if i == 0 then 0 else i - 1);
    if i > 0 {
      CopyFollows(f, st, trips, t, i - 1);
      IterationFollows(f, st, trips, t, i - 1, HeadState(f.m, copy, entry, i - 1));
    }
  }

  lemma IterationFollows(f: Fission, st: State, trips: nat, t: nat, i: nat, now: State)
    requires Splits(f) && t < |f.shifts| <= |f.sccs| && i < trips && AllAgree(f, st, trips)
    requires now == HeadState(f.m, CodeFor(f, t), EntryState(f, st, trips, t), i)
    requires MemoryIs(now.memory, Stored(Trace(f.m, f.code, st), trips, f.group, AsStore(st.memory), t, i, 0))
    ensures MemoryIs(RunAll(f.m, CodeFor(f, t).stmts, now).memory,
                     Stored(Trace(f.m, f.code, st), trips, f.group, AsStore(st.memory), t, i + 1, 0))
  {
    hide *;
    CopyBeside(f, st, trips, t, i, |f.code.stmts|, now);
    BesideParts(f, st, trips, t, i, |f.code.stmts|, KeptRun(f, t, |f.code.stmts|, now));
    WholeRow(f, t, now);
    StoredRow(Trace(f.m, f.code, st), trips, f.group, AsStore(st.memory), t, i);
  }

  /** Copy and loop stay beside each other from the header on. */
  lemma CopyBeside(f: Fission, st: State, trips: nat, t: nat, i: nat, s: nat, now: State)
    requires Splits(f) && t < |f.shifts| <= |f.sccs| && i < trips && AllAgree(f, st, trips) && s <= |f.code.stmts|
    requires now == HeadState(f.m, CodeFor(f, t), EntryState(f, st, trips, t), i)
    requires MemoryIs(now.memory, Stored(Trace(f.m, f.code, st), trips, f.group, AsStore(st.memory), t, i, 0))
    ensures Beside(f, st, trips, t, i, s, KeptRun(f, t, s, now))
  {
    hide *;
    HeadersBeside(f, st, trips, t, i);
    BesideAtFirst(f, st, trips, t, i, now);
    AgreeIn(f, st, trips, i);
    RowFollows(f, st, trips, t, i, s, now);
  }

  lemma HeadersBeside(f: Fission, st: State, trips: nat, t: nat, i: nat)
    requires Splits(f) && t < |f.shifts|
    ensures Same(HeaderIds(f.code), f.ids, f.limit, f.shifts[t], HeadState(f.m, f.code, st, i), HeadState(f.m, CodeFor(f, t), EntryState(f, st, trips, t), i))
  {
    hide Splits, HeadState, CopyCode, EntryState, Same, Fresh, Sensible, HeaderIds;
    SplitSize(f);
    CopyFresh(f, t);
    EntrySame(f, st, trips, t);
    HeadersSame(f.m, f.code, f.sccs[t], {}, f.ids, f.limit, f.shifts[t], st, EntryState(f, st, trips, t), i);
    assert {} + HeaderIds(f.code) == HeaderIds(f.code);
  }

  lemma {:induction false} EntriesFollow(f: Fission, st: State, trips: nat, t: nat)
    requires Splits(f) && t <= |f.shifts| <= |f.sccs| && AllAgree(f, st, trips)
    ensures MemoryIs(EntryState(f, st, trips, t).memory, Stored(Trace(f.m, f.code, st), trips, f.group, AsStore(st.memory), t, 0, 0))
  {
    hide *;
    var b, st0 := Trace(f.m, f.code, st), AsStore(st.memory);
    if t == 0 {
      EntryNothing(f, st, trips);
      StoreIsMemory(st.memory);
      StoredNothing(b, trips, f.group, st0);
    } else {
      EntriesFollow(f, st, trips, t - 1);
      CopyFollows(f, st, trips, t - 1, trips);
      EntryStep(f, st, trips, t);
      StoredLoop(b, trips, f.group, st0, t - 1);
    }
  }

  ghost predicate LoopReads(f: Fission, st: State, trips: nat, i: nat, s: nat, a: int)
    requires s < |f.code.stmts|
  {
    Reg(During(f.m, f.code, st, i, s + 1), f.code.stmts[s].id)
    == D.Get(Stored(Trace(f.m, f.code, st), trips, D.OneGroup, AsStore(st.memory), 0, i, s), D.Mem(a))
  }

  ghost predicate CopyReads(f: Fission, st: State, trips: nat, i: nat, s: nat, a: int)
    requires s < |f.code.stmts|
  {
    var t := f.group(s);
    && t < |f.shifts| <= |f.sccs|
    && var now := HeadState(f.m, CodeFor(f, t), EntryState(f, st, trips, t), i);
       Reg(KeptRun(f, t, s + 1, now), f.code.stmts[s].id + f.shifts[t])
       == D.Get(Stored(Trace(f.m, f.code, st), trips, f.group, AsStore(st.memory), t, i, s), D.Mem(a))
  }

  /** Loads read memory: after a load in iteration i its register holds, in the loop, what the cell holds in the store
      that the operations before it leave; and in the copy that keeps it, what the cell holds in the store that the
      reordered operations before it leave. */
  lemma LoadsReadMemory(f: Fission, st: State, trips: nat, i: nat, s: nat, a: int)
    requires Splits(f) && D.Legal(Trace(f.m, f.code, st), trips, f.group) && i < trips && s < |f.code.stmts|
    requires EffectOf(f.m, f.code.stmts[s], During(f.m, f.code, st, i, s)) == Load(a)
    ensures LoopReads(f, st, trips, i, s, a) && CopyReads(f, st, trips, i, s, a)
  {
    assert PureFrame(f.m, f.code) && f.group(s) < |f.shifts|;
    SplitSize(f);
    hide *;
    LoopLoad(f, st, trips, i, s, a);
    CopyLoad(f, st, trips, i, s, a);
  }

  lemma LoopLoad(f: Fission, st: State, trips: nat, i: nat, s: nat, a: int)
    requires PureFrame(f.m, f.code) && s < |f.code.stmts| && EffectOf(f.m, f.code.stmts[s], During(f.m, f.code, st, i, s)) == Load(a)
    ensures LoopReads(f, st, trips, i, s, a)
  {
    hide PureFrame, During, Stored, Trace, AsStore, MemoryIs, Exec, EffectOf;
    LoopFollowed(f.m, f.code, st, trips, i, s);
    DuringStep(f.m, f.code, st, i, s);
    LoadLaw(f.m, f.code.stmts[s], During(f.m, f.code, st, i, s), a);
    MemoryAt(During(f.m, f.code, st, i, s).memory, Stored(Trace(f.m, f.code, st), trips, D.OneGroup, AsStore(st.memory), 0, i, s), a);
  }

  lemma CopyLoad(f: Fission, st: State, trips: nat, i: nat, s: nat, a: int)
    requires Splits(f) && D.Legal(Trace(f.m, f.code, st), trips, f.group) && i < trips && s < |f.code.stmts|
    requires f.group(s) < |f.shifts| <= |f.sccs| && EffectOf(f.m, f.code.stmts[s], During(f.m, f.code, st, i, s)) == Load(a)
    ensures CopyReads(f, st, trips, i, s, a)
  {
    hide Splits, D.Legal, During, Stored, Trace, AsStore, MemoryIs, Exec, EffectOf, HeadState, CodeFor, EntryState, KeptRun, AllAgree, LoadAgrees, Beside, Moved;
    var t := f.group(s);
    var now := HeadState(f.m, CodeFor(f, t), EntryState(f, st, trips, t), i);
    Agreed(f, st, trips);
    EntriesFollow(f, st, trips, t);
    CopyFollows(f, st, trips, t, i);
    CopyBeside(f, st, trips, t, i, s, now);
    KeptRunStep(f, t, s, now);
    LoadsAgree(f, st, trips, i, s);
    KeptLoad(f, st, trips, i, s, KeptRun(f, t, s, now), a);
  }

  lemma KeptLoad(f: Fission, st: State, trips: nat, i: nat, s: nat, now: State, a: int)
    requires Splits(f) && s < |f.code.stmts| && f.group(s) < |f.shifts| && Beside(f, st, trips, f.group(s), i, s, now)
    requires EffectOf(f.m, f.code.stmts[s], During(f.m, f.code, st, i, s)) == Load(a) && LoadAgrees(f, st, trips, i, s)
    ensures Reg(Exec(f.m, Moved(f.code.stmts[s], f.ids, f.shifts[f.group(s)]), now), f.code.stmts[s].id + f.shifts[f.group(s)])
            == D.Get(Stored(Trace(f.m, f.code, st), trips, f.group, AsStore(st.memory), f.group(s), i, s), D.Mem(a))
  {
    hide *;
    var x, t := f.code.stmts[s], f.group(s);
    BesideParts(f, st, trips, t, i, s, now);
    KeptUses(f, t, s);
    KeptValsStep(f, t, s);
    ValsFresh(f, t, s);
    LoadedSame(f, st, trips, i, s, now);
    EffectIs(f.m, f.code, st, i, s);
    var y := Moved(x, f.ids, f.shifts[t]);
    SameEffect(f.m, x, HeaderIds(f.code) + KeptVals(f, t, s), f.ids, f.limit, f.shifts[t], During(f.m, f.code, st, i, s), now);
    LoadLaw(f.m, y, now, a);
    MemoryAt(now.memory, Stored(Trace(f.m, f.code, st), trips, f.group, AsStore(st.memory), t, i, s), a);
  }

  lemma SameEffect(m: Meaning, x: Instr, vs: set<nat>, ids: set<nat>, limit: nat, shift: nat, a: State, b: State)
    requires Fresh(vs, ids, limit, shift) && Same(vs, ids, limit, shift, a, b)
    requires OperandsBelow(x.args, limit) && UsesOnly(x.args, ids, vs)
    ensures EffectOf(m, Moved(x, ids, shift), b) == EffectOf(m, x, a) && Moved(x, ids, shift).id == x.id + shift
  {
    hide Same, Fresh, UsesOnly, MovedArgs;
    SameVals(m, x.args, vs, ids, limit, shift, a, b);
  }

  // ---------- the result ----------

  ghost predicate SameMemory(a: State, b: State) {
    forall x :: At(a.memory, x) == At(b.memory, x)
  }

  /** The loop and its copies, run one after the other, leave the same memory. */
  lemma MemoryPreserved(f: Fission, st: State, trips: nat)
    requires Splits(f) && D.Legal(Trace(f.m, f.code, st), trips, f.group)
    ensures |f.shifts| <= |f.sccs| && SameMemory(HeadState(f.m, f.code, st, trips), EntryState(f, st, trips, |f.shifts|))
  {
    var b, st0 := Trace(f.m, f.code, st), AsStore(st.memory);
    assert PureFrame(f.m, f.code) && forall s: nat :: s < |b| ==> f.group(s) < |f.shifts|;
    SplitSize(f);
    hide *;
    Agreed(f, st, trips);
    EntriesFollow(f, st, trips, |f.shifts|);
    StoredLoop(b, trips, f.group, st0, |f.shifts|);
    D.DistributionPreserves(b, trips, f.group, |f.shifts|, st0);
    LoopFollowed(f.m, f.code, st, trips, trips, 0);
    DuringEnds(f.m, f.code, st, trips);
    StoredLoop(b, trips, D.OneGroup, st0, 0);
    StoredLoop(b, trips, D.OneGroup, st0, 1);
    OneLoop(b, trips);
    BothMemories(HeadState(f.m, f.code, st, trips), EntryState(f, st, trips, |f.shifts|), D.Run(D.Ops(b, D.Original(|b|, trips)), st0));
  }

  lemma BothMemories(a: State, b: State, store: D.Store)
    requires MemoryIs(a.memory, store) && MemoryIs(b.memory, store)
    ensures SameMemory(a, b)
  {
  }

  lemma Agreed(f: Fission, st: State, trips: nat)
    requires Splits(f) && D.Legal(Trace(f.m, f.code, st), trips, f.group)
    ensures AllAgree(f, st, trips)
  {
    hide Splits, D.Legal, LoadAgrees;
    forall i: nat, s: nat | i < trips && s < |f.code.stmts| ensures LoadAgrees(f, st, trips, i, s) {
      LoadsAgree(f, st, trips, i, s);
    }
  }

  /** Once the loop itself has run, the values it computes, but for those of statements, are the loop's. */
  lemma {:induction false} ValuesKept(f: Fission, st: State, trips: nat, t: nat)
    requires Splits(f) && 0 < t <= |f.shifts|
    ensures forall v: nat :: v < f.limit && v !in InstrIds(f.code.stmts) ==>
              Reg(HeadState(f.m, f.code, st, trips), v) == Reg(EntryState(f, st, trips, t), v)
  {
    SplitSize(f);
    if t == 1 {
      FirstCopyValues(f, st, trips);
    } else {
      ValuesKept(f, st, trips, t - 1);
      assert f.shifts[t - 1] >= f.limit;
      hide *;
      forall v: nat | v < f.limit ensures Reg(EntryState(f, st, trips, t - 1), v) == Reg(EntryState(f, st, trips, t), v) {
        CopyLeaves(f, st, trips, t, v);
      }
    }
  }

  lemma FirstCopyValues(f: Fission, st: State, trips: nat)
    requires Splits(f)
    ensures |f.shifts| <= |f.sccs| && forall v: nat :: v < f.limit && v !in InstrIds(f.code.stmts) ==>
              Reg(HeadState(f.m, f.code, st, trips), v) == Reg(EntryState(f, st, trips, 1), v)
  {
    CopyFresh(f, 0);
    assert |f.shifts| <= |f.sccs| && f.shifts[0] == 0;
    hide Sensible, HeadState, CopyCode, InstrIds, Splits;
    var vs := f.ids - InstrIds(f.code.stmts);
    assert Same(vs, f.ids, f.limit, 0, st, st);
    HeadersSame(f.m, f.code, f.sccs[0], vs, f.ids, f.limit, 0, st, st, trips);
    var a, b := HeadState(f.m, f.code, st, trips), HeadState(f.m, CodeFor(f, 0), st, trips);
    assert EntryState(f, st, trips, 1) == b by { assert EntryState(f, st, trips, 0) == st; }
    forall v: nat | v < f.limit && v !in InstrIds(f.code.stmts) ensures Reg(a, v) == Reg(b, v) {
      if v in f.ids { assert v in vs && v in vs + HeaderIds(f.code); }
    }
  }
}
