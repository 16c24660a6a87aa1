/** When running the statements of a loop body in several loops, one after the other, leaves the same
    memory as running them in one. */
module Distribution {
  import opened Options

  /** A memory cell, or a scalar register of one of the loops or of one iteration. */
  datatype Cell = Mem(address: int) | Reg(scope: nat, name: nat)

  /** One execution of a statement: it may write one cell, with a value computed from the cells it reads. */
  datatype Op = Op(uses: seq<Cell>, write: Option<Cell>, compute: seq<int> -> int)

  /** Cells that were never written hold 0. */
  type Store = map<Cell, int>

  function Get(st: Store, c: Cell): int {
    if c in st then st[c] else 0
  }

  function Fetch(st: Store, cs: seq<Cell>): seq<int> {
    seq(|cs|, i requires 0 <= i < |cs| => Get(st, cs[i]))
  }

  function Step(op: Op, st: Store): Store {
    match op.write
    case None => st
    case Some(c) => st[c := op.compute(Fetch(st, op.uses))]
  }

  function Run(ops: seq<Op>, st: Store): Store {
    if ops == [] then st else Run(ops[1..], Step(ops[0], st))
  }

  /** A step puts what the operation computes, from the values of its cells in their order, into the cell that it writes,
      and leaves every other cell as it was; a run takes the steps from the first to the last. */
  lemma StepLaw(ops: seq<Op>, op: Op, st: Store, values: seq<int>)
    requires |values| == |op.uses| && forall i :: 0 <= i < |values| ==> values[i] == Get(Run(ops, st), op.uses[i])
    ensures forall c :: Get(Run(ops + [op], st), c) == if op.write == Some(c) then op.compute(values) else Get(Run(ops, st), c)
    ensures Run([], st) == st
  {
    RunConcat(ops, [op], st);
    var now := Run(ops, st);
    assert [op][1..] == [];
    assert Run([op], now) == Step(op, now);
    assert Fetch(now, op.uses) == values;
  }

  /** x and y touch a common cell and at least one of them writes it. */
  ghost predicate Conflict(x: Op, y: Op) {
    || (x.write.Some? && (x.write.value in y.uses || y.write == x.write))
    || (y.write.Some? && y.write.value in x.uses)
  }

  lemma FetchKept(st: Store, cs: seq<Cell>, c: Cell, v: int)
    requires c !in cs
    ensures Fetch(st[c := v], cs) == Fetch(st, cs)
  {
  }

  lemma Commute(x: Op, y: Op, st: Store)
    requires !Conflict(x, y)
    ensures Step(y, Step(x, st)) == Step(x, Step(y, st))
  {
    if x.write.Some? && y.write.Some? {
      var a, b := x.write.value, y.write.value;
      FetchKept(st, y.uses, a, x.compute(Fetch(st, x.uses)));
      FetchKept(st, x.uses, b, y.compute(Fetch(st, y.uses)));
    }
  }

  lemma {:induction false} RunConcat(a: seq<Op>, b: seq<Op>, st: Store)
    ensures Run(a + b, st) == Run(b, Run(a, st))
  {
    if a == [] {
      assert a + b == b;
    } else {
      assert (a + b)[1..] == a[1..] + b;
      RunConcat(a[1..], b, Step(a[0], st));
    }
  }

  lemma {:induction false} MoveToFront(a: seq<Op>, x: Op, st: Store)
    requires forall i :: 0 <= i < |a| ==> !Conflict(a[i], x)
    ensures Run(a + [x], st) == Run(a, Step(x, st))
  {
    if a == [] {
      assert a + [x] == [x] && [x][1..] == [];
    } else {
      assert (a + [x])[1..] == a[1..] + [x];
      Commute(a[0], x, st);
      MoveToFront(a[1..], x, Step(a[0], st));
    }
  }

  // ---------- instances of the statements of a loop ----------

  /** Statement s in iteration i. */
  datatype Inst = Inst(s: nat, i: nat)

  /** What statement s of the body does in iteration i. */
  type Body = seq<nat -> Op>

  function OpOf(b: Body, x: Inst): Op
    requires x.s < |b|
  {
    b[x.s](x.i)
  }

  function Ops(b: Body, xs: seq<Inst>): (r: seq<Op>)
    requires forall k :: 0 <= k < |xs| ==> xs[k].s < |b|
    ensures |r| == |xs| && forall k :: 0 <= k < |xs| ==> r[k] == OpOf(b, xs[k])
  {
    seq(|xs|, k requires 0 <= k < |xs| => OpOf(b, xs[k]))
  }

  ghost predicate Within(b: Body, xs: seq<Inst>) {
    forall k :: 0 <= k < |xs| ==> xs[k].s < |b|
  }

  ghost predicate NoDuplicates(xs: seq<Inst>) {
    forall j, k :: 0 <= j < k < |xs| ==> xs[j] != xs[k]
  }

  /** Conflicting instances of xs come in the order that rank gives them. */
  ghost predicate KeepsOrder(b: Body, xs: seq<Inst>, less: (Inst, Inst) -> bool)
    requires Within(b, xs)
  {
    forall j, k :: 0 <= j < k < |xs| && Conflict(OpOf(b, xs[j]), OpOf(b, xs[k])) ==> less(xs[j], xs[k])
  }

  ghost predicate SortedBy(xs: seq<Inst>, less: (Inst, Inst) -> bool) {
    forall j, k :: 0 <= j < k < |xs| ==> less(xs[j], xs[k]) && !less(xs[k], xs[j])
  }

  lemma SplitOps(b: Body, xs: seq<Inst>, ys: seq<Inst>)
    requires Within(b, xs) && Within(b, ys)
    ensures Within(b, xs + ys) && Ops(b, xs + ys) == Ops(b, xs) + Ops(b, ys)
  {
  }

  lemma PullOut(b: Body, xs: seq<Inst>, k: nat, less: (Inst, Inst) -> bool, ys: seq<Inst>, st: Store)
    requires Within(b, xs) && k < |xs| && ys != [] && ys[0] == xs[k]
    requires SortedBy(ys, less) && KeepsOrder(b, xs, less) && NoDuplicates(xs)
    requires forall x :: x in xs <==> x in ys
    ensures Within(b, xs[..k] + xs[k + 1..])
    ensures Run(Ops(b, xs), st) == Run(Ops(b, xs[..k] + xs[k + 1..]), Step(OpOf(b, xs[k]), st))
  {
    var before, after, x := xs[..k], xs[k + 1..], xs[k];
    forall i | 0 <= i < |before| ensures !Conflict(Ops(b, before)[i], OpOf(b, x)) {
      assert before[i] == xs[i] && xs[i] in ys && xs[i] != x;
      var j :| 0 <= j < |ys| && ys[j] == xs[i];
      assert 0 < j;
    }
    var ox := OpOf(b, x);
    assert Ops(b, xs) == (Ops(b, before) + [ox]) + Ops(b, after);
    RunConcat(Ops(b, before) + [ox], Ops(b, after), st);
    MoveToFront(Ops(b, before), ox, st);
    SplitOps(b, before, after);
    RunConcat(Ops(b, before), Ops(b, after), Step(ox, st));
  }

  lemma WithoutElement(xs: seq<Inst>, k: nat)
    requires k < |xs| && NoDuplicates(xs)
    ensures forall x :: x in xs[..k] + xs[k + 1..] <==> x in xs && x != xs[k]
  {
    var rest := xs[..k] + xs[k + 1..];
    assert xs == xs[..k] + [xs[k]] + xs[k + 1..];
    forall x | x in rest ensures x != xs[k] {
      var j :| 0 <= j < |rest| && rest[j] == x;
      assert x == if j < k then xs[j] else xs[j + 1];
    }
  }

  lemma FirstElement(xs: seq<Inst>)
    ensures xs == [] || xs[0] in xs
  {
  }

  lemma NoElements(xs: seq<Inst>)
    requires forall x :: x !in xs
    ensures xs == []
  {
    FirstElement(xs);
  }

  lemma RestKeeps(b: Body, xs: seq<Inst>, k: nat, less: (Inst, Inst) -> bool)
    requires Within(b, xs) && k < |xs| && KeepsOrder(b, xs, less) && NoDuplicates(xs)
    ensures var rest := xs[..k] + xs[k + 1..]; Within(b, rest) && NoDuplicates(rest) && KeepsOrder(b, rest, less)
  {
    var rest := xs[..k] + xs[k + 1..];
    assert forall j :: 0 <= j < |rest| ==> rest[j] == if j < k then xs[j] else xs[j + 1];
  }

  lemma RestOrdered(b: Body, xs: seq<Inst>, k: nat, less: (Inst, Inst) -> bool, ys: seq<Inst>)
    requires Within(b, xs) && k < |xs| && ys != [] && ys[0] == xs[k]
    requires SortedBy(ys, less) && KeepsOrder(b, xs, less) && NoDuplicates(xs)
    requires forall x :: x in xs <==> x in ys
    ensures var rest := xs[..k] + xs[k + 1..];
            && Within(b, rest) && NoDuplicates(rest) && KeepsOrder(b, rest, less)
            && SortedBy(ys[1..], less) && forall x :: x in rest <==> x in ys[1..]
  {
    hide Within, NoDuplicates, KeepsOrder;
    RestKeeps(b, xs, k, less);
    WithoutElement(xs, k);
    SortedHasNoDuplicates(ys, less);
    WithoutElement(ys, 0);
    var rest, tail := xs[..k] + xs[k + 1..], ys[..0] + ys[1..];
    assert tail == ys[1..];
    forall x ensures x in rest <==> x in tail {
      assert x in rest <==> x in xs && x != xs[k];
      assert x in tail <==> x in ys && x != ys[0];
    }
  }

  lemma SortedHasNoDuplicates(ys: seq<Inst>, less: (Inst, Inst) -> bool)
    requires SortedBy(ys, less)
    ensures NoDuplicates(ys)
  {
  }

  /** Two orders of the same instances that agree on every conflicting pair compute the same store. */
  lemma {:induction false} Reorder(b: Body, xs: seq<Inst>, ys: seq<Inst>, less: (Inst, Inst) -> bool, st: Store)
    requires Within(b, xs) && Within(b, ys) && NoDuplicates(xs)
    requires SortedBy(ys, less) && KeepsOrder(b, xs, less)
    requires forall x :: x in xs <==> x in ys
    ensures Run(Ops(b, xs), st) == Run(Ops(b, ys), st)
    decreases |ys|
  {
    if ys == [] {
      NoElements(xs);
    } else {
      var x := ys[0];
      assert x in xs;
      var k :| 0 <= k < |xs| && xs[k] == x;
      PullOut(b, xs, k, less, ys, st);
      RestOrdered(b, xs, k, less, ys);
      Reorder(b, xs[..k] + xs[k + 1..], ys[1..], less, Step(OpOf(b, x), st));
      assert Ops(b, ys)[1..] == Ops(b, ys[1..]);
    }
  }

  // ---------- the loop, and the loops it is split into ----------

  /** The statements of one iteration that loop k keeps, in body order. */
  function Row(n: nat, i: nat, group: nat -> nat, k: nat): (r: seq<Inst>) {
    if n == 0 then []
    else Row(n - 1, i, group, k) + (if group(n - 1) == k then [Inst(n - 1, i)] else [])
  }

  /** Loop k: all its iterations. */
  function Loop(n: nat, trips: nat, group: nat -> nat, k: nat): seq<Inst> {
    if trips == 0 then [] else Loop(n, trips - 1, group, k) + Row(n, trips - 1, group, k)
  }

  /** Loops 0, 1, .., m - 1, each run to its end before the next. */
  function Loops(n: nat, trips: nat, group: nat -> nat, m: nat): seq<Inst> {
    if m == 0 then [] else Loops(n, trips, group, m - 1) + Loop(n, trips, group, m - 1)
  }

  function OneGroup(s: nat): nat {
    0
  }

  /** The loop before it is split: one group. */
  function Original(n: nat, trips: nat): seq<Inst> {
    Loop(n, trips, OneGroup, 0)
  }

  predicate Earlier(x: Inst, y: Inst) {
    x.i < y.i || (x.i == y.i && x.s < y.s)
  }

  predicate EarlierIn(group: nat -> nat, x: Inst, y: Inst) {
    group(x.s) < group(y.s) || (group(x.s) == group(y.s) && Earlier(x, y))
  }

  lemma {:induction false} RowContent(n: nat, i: nat, group: nat -> nat, k: nat)
    ensures forall x :: x in Row(n, i, group, k) <==> x.s < n && x.i == i && group(x.s) == k
    ensures SortedBy(Row(n, i, group, k), Earlier)
  {
    if n > 0 { RowContent(n - 1, i, group, k); }
  }

  lemma SortedJoined(xs: seq<Inst>, ys: seq<Inst>, less: (Inst, Inst) -> bool)
    requires SortedBy(xs, less) && SortedBy(ys, less)
    requires forall x, y :: x in xs && y in ys ==> less(x, y) && !less(y, x)
    ensures SortedBy(xs + ys, less)
  {
    var all := xs + ys;
    forall j, k | 0 <= j < k < |all| ensures less(all[j], all[k]) && !less(all[k], all[j]) {
      if j < |xs| <= k { assert xs[j] in xs && ys[k - |xs|] in ys; }
    }
  }

  lemma {:induction false} LoopContent(n: nat, trips: nat, group: nat -> nat, k: nat)
    ensures forall x :: x in Loop(n, trips, group, k) <==> x.s < n && x.i < trips && group(x.s) == k
    ensures SortedBy(Loop(n, trips, group, k), Earlier)
  {
    hide Row, SortedBy;
    if trips == 0 {
      NothingSorted(Earlier);
    } else {
      LoopContent(n, trips - 1, group, k);
      RowContent(n, trips - 1, group, k);
      SortedJoined(Loop(n, trips - 1, group, k), Row(n, trips - 1, group, k), Earlier);
    }
  }

  lemma NothingSorted(less: (Inst, Inst) -> bool)
    ensures SortedBy([], less)
  {
  }

  lemma {:induction false} LoopsContent(n: nat, trips: nat, group: nat -> nat, m: nat)
    ensures forall x :: x in Loops(n, trips, group, m) <==> x.s < n && x.i < trips && group(x.s) < m
    ensures SortedBy(Loops(n, trips, group, m), (x, y) => EarlierIn(group, x, y))
  {
    var less := (x, y) => EarlierIn(group, x, y);
    hide Loop, SortedBy;
    if m == 0 {
      NothingSorted(less);
    } else {
      LoopsContent(n, trips, group, m - 1);
      LoopContent(n, trips, group, m - 1);
      SortedInGroup(Loop(n, trips, group, m - 1), group);
      SortedJoined(Loops(n, trips, group, m - 1), Loop(n, trips, group, m - 1), less);
    }
  }

  lemma SortedInGroup(xs: seq<Inst>, group: nat -> nat)
    requires SortedBy(xs, Earlier) && forall x, y :: x in xs && y in xs ==> group(x.s) == group(y.s)
    ensures SortedBy(xs, (x, y) => EarlierIn(group, x, y))
  {
    forall j, k | 0 <= j < k < |xs| ensures EarlierIn(group, xs[j], xs[k]) && !EarlierIn(group, xs[k], xs[j]) {
      assert xs[j] in xs && xs[k] in xs;
    }
  }

  /** Statement s must not be moved past statement t: an execution of s conflicts with a later one of t, in
      a later iteration, or in the same one when s comes first in the body. */
  ghost predicate Depends(b: Body, trips: nat, s: nat, t: nat)
    requires s < |b| && t < |b|
  {
    exists i: nat, j: nat :: i < trips && j < trips && Earlier(Inst(s, i), Inst(t, j)) && Conflict(b[s](i), b[t](j))
  }

  /** No dependence leads from a later group to an earlier one. */
  ghost predicate Legal(b: Body, trips: nat, group: nat -> nat) {
    forall s: nat, t: nat {:trigger Depends(b, trips, s, t)} ::
      s < |b| && t < |b| && Depends(b, trips, s, t) ==> group(s) <= group(t)
  }

  lemma LoopsWithin(b: Body, trips: nat, group: nat -> nat, m: nat)
    ensures Within(b, Loops(|b|, trips, group, m)) && Within(b, Original(|b|, trips))
  {
    LoopsContent(|b|, trips, group, m);
    LoopContent(|b|, trips, OneGroup, 0);
    var xs, ys := Loops(|b|, trips, group, m), Original(|b|, trips);
    assert forall k :: 0 <= k < |xs| ==> xs[k] in xs;
    assert forall k :: 0 <= k < |ys| ==> ys[k] in ys;
  }

  lemma LegalKeepsOrder(b: Body, trips: nat, group: nat -> nat, less: (Inst, Inst) -> bool)
    requires Legal(b, trips, group) && forall x, y :: less(x, y) == EarlierIn(group, x, y)
    ensures Within(b, Original(|b|, trips)) && KeepsOrder(b, Original(|b|, trips), less)
  {
    LoopsWithin(b, trips, group, 0);
    LoopContent(|b|, trips, OneGroup, 0);
    var xs := Original(|b|, trips);
    forall j, k | 0 <= j < k < |xs| && Conflict(OpOf(b, xs[j]), OpOf(b, xs[k])) ensures less(xs[j], xs[k]) {
      assert xs[j] in xs && xs[k] in xs;
      assert xs[j] == Inst(xs[j].s, xs[j].i) && xs[k] == Inst(xs[k].s, xs[k].i);
      assert Earlier(xs[j], xs[k]);
      assert Depends(b, trips, xs[j].s, xs[k].s);
    }
  }

  /** Distribution preserves meaning: for every body, trip count and initial store, running the groups as
      consecutive full loops ends in the same store as the original loop, when no dependence goes from a
      later group to an earlier one. */
  lemma DistributionPreserves(b: Body, trips: nat, group: nat -> nat, m: nat, st: Store)
    requires forall s: nat :: s < |b| ==> group(s) < m
    requires Legal(b, trips, group)
    ensures Within(b, Original(|b|, trips)) && Within(b, Loops(|b|, trips, group, m))
    ensures Run(Ops(b, Original(|b|, trips)), st) == Run(Ops(b, Loops(|b|, trips, group, m)), st)
  {
    var less := (x, y) => EarlierIn(group, x, y);
    var xs, ys := Original(|b|, trips), Loops(|b|, trips, group, m);
    LoopsWithin(b, trips, group, m);
    LegalKeepsOrder(b, trips, group, less);
    LoopContent(|b|, trips, OneGroup, 0);
    SortedHasNoDuplicates(xs, Earlier);
    LoopsContent(|b|, trips, group, m);
    assert SortedBy(ys, less);
    Reorder(b, xs, ys, less, st);
  }

  // ---------- the original loop, iteration by iteration ----------

  /** The first n statements of the body, in iteration i. */
  function RunRow(b: Body, n: nat, i: nat, st: Store): Store
    requires n <= |b|
  {
    if n == 0 then st else Step(b[n - 1](i), RunRow(b, n - 1, i, st))
  }

  function RunLoop(b: Body, trips: nat, st: Store): Store {
    if trips == 0 then st else RunRow(b, |b|, trips - 1, RunLoop(b, trips - 1, st))
  }

  lemma {:induction false} RowRuns(b: Body, n: nat, i: nat, st: Store)
    requires n <= |b|
    ensures var xs := Row(n, i, OneGroup, 0); Within(b, xs) && Run(Ops(b, xs), st) == RunRow(b, n, i, st)
  {
    if n > 0 {
      RowRuns(b, n - 1, i, st);
      var xs, last := Row(n - 1, i, OneGroup, 0), [Inst(n - 1, i)];
      SplitOps(b, xs, last);
      RunConcat(Ops(b, xs), Ops(b, last), st);
      assert Ops(b, last)[1..] == [];
      assert Run(Ops(b, last), RunRow(b, n - 1, i, st)) == Step(b[n - 1](i), RunRow(b, n - 1, i, st));
    }
  }

  lemma LoopUnfolds(b: Body, trips: nat, st: Store)
    requires trips > 0
    ensures Original(|b|, trips) == Original(|b|, trips - 1) + Row(|b|, trips - 1, OneGroup, 0)
    ensures RunLoop(b, trips, st) == RunRow(b, |b|, trips - 1, RunLoop(b, trips - 1, st))
  {
  }

  lemma NoTrips(b: Body, st: Store)
    ensures Original(|b|, 0) == [] && RunLoop(b, 0, st) == st && Run(Ops(b, []), st) == st
  {
  }

  lemma {:induction false} LoopRuns(b: Body, trips: nat, st: Store)
    ensures Within(b, Original(|b|, trips)) && Run(Ops(b, Original(|b|, trips)), st) == RunLoop(b, trips, st)
  {
    hide Row, Run, RunRow, RunLoop, Original, Ops;
    if trips == 0 {
      NoTrips(b, st);
    } else {
      LoopRuns(b, trips - 1, st);
      LoopUnfolds(b, trips, st);
      var xs, row := Original(|b|, trips - 1), Row(|b|, trips - 1, OneGroup, 0);
      RowRuns(b, |b|, trips - 1, RunLoop(b, trips - 1, st));
      SplitOps(b, xs, row);
      RunConcat(Ops(b, xs), Ops(b, row), st);
    }
  }
}
