/** Grouping the instructions of a loop body that are connected through registers. */
module RegisterPartitions {
  import opened Digraph

  type Inst = nat

  /** Targets of the edges that leave an instruction. */
  type Adjacency = map<Inst, set<Inst>>

  function Next(m: Adjacency, x: Inst): set<Inst> {
    if x in m then m[x] else {}
  }

  ghost function Listed(s: set<Edge>): (r: seq<Edge>)
    ensures forall e :: e in r <==> e in s
  {
    if s == {} then []
    else
      var e :| e in s;
      [e] + Listed(s - {e})
  }

  ghost function EdgeSet(m: Adjacency): (r: set<Edge>)
    ensures forall x: Inst, y: Inst :: Edge(x, y) in r <==> y in Next(m, x)
  {
    set x: Inst, y: Inst | x in m && y in m[x] :: Edge(x, y)
  }

  /** The map as a graph. */
  ghost function AsGraph(m: Adjacency): (g: Graph)
    ensures forall x: Inst, y: Inst :: Edge(x, y) in g.edges <==> y in Next(m, x)
  {
    Graph(0, Listed(EdgeSet(m)))
  }

  ghost predicate SymmetricMap(m: Adjacency) {
    forall x: Inst, y: Inst :: y in Next(m, x) ==> x in Next(m, y)
  }

  /** Every target is a key. */
  ghost predicate KeysClosed(m: Adjacency) {
    forall x, y :: x in m && y in m[x] ==> y in m
  }

  // ---------- the symmetric closure ----------

  /** The least key above every key visited so far, the place where the iterator over the map stands. */
  predicate IsLeast(k: Inst, s: set<Inst>) {
    k in s && forall x :: x in s ==> k <= x
  }

  lemma LeastExists(s: set<Inst>)
    requires s != {}
    ensures exists k: Inst :: IsLeast(k, s)
    decreases s
  {
    var x :| x in s;
    var rest := s - {x};
    assert forall y :: y in s ==> y == x || y in rest;
    if rest == {} {
      assert IsLeast(x, s);
    } else {
      LeastExists(rest);
      var k: Inst :| IsLeast(k, rest);
      var l: Inst := if k < x then k else x;
      assert IsLeast(l, s);
    }
  }

  /** What has been reached once the keys in done have been visited: nothing but edges of m0 and their
      reverses, with every edge that leaves a visited key turned around. */
  ghost predicate Closing(m0: Adjacency, m: Adjacency, done: set<Inst>) {
    && (forall x: Inst, y: Inst :: y in Next(m0, x) ==> y in Next(m, x))
    && (forall x: Inst, y: Inst :: y in Next(m, x) ==> y in Next(m0, x) || x in Next(m0, y))
    && (forall x: Inst, y: Inst :: x in done && y in Next(m, x) ==> x in Next(m, y))
    && m0.Keys <= m.Keys
    && (forall x: Inst :: x in m && x !in m0 ==> Next(m, x) != {})
  }

  lemma ReverseAdded(m0: Adjacency, m: Adjacency, done: set<Inst>, x: Inst, y: Inst)
    requires Closing(m0, m, done) && y in Next(m, x)
    ensures Closing(m0, m[y := Next(m, y) + {x}], done)
  {
    var m1 := m[y := Next(m, y) + {x}];
    assert forall a: Inst :: Next(m1, a) == if a == y then Next(m, y) + {x} else Next(m, a);
    forall a: Inst, c: Inst | a in done && c in Next(m1, a) ensures a in Next(m1, c) {
      if c in Next(m, a) {
        assert a in Next(m, c);
      }
    }
  }

  ghost function Universe(m: Adjacency): set<Inst> {
    m.Keys + set x, y | x in m && y in m[x] :: y
  }

  lemma NewKeyIsTarget(m0: Adjacency, m: Adjacency, done: set<Inst>, x: Inst)
    requires Closing(m0, m, done) && x in m && x !in m0
    ensures exists y :: y in m0 && x in m0[y]
  {
    var y :| y in Next(m, x);
    assert y !in Next(m0, x);
    assert x in Next(m0, y);
  }

  lemma InUniverse(m0: Adjacency, m: Adjacency, done: set<Inst>, x: Inst)
    requires Closing(m0, m, done) && x in m
    ensures x in Universe(m0)
  {
    if x !in m0 { NewKeyIsTarget(m0, m, done, x); }
  }

  /** The inner loop of dual_dg_map, over a copy of the targets of k. */
  method ReverseEdges(ghost m0: Adjacency, m: Adjacency, k: Inst, ghost done: set<Inst>) returns (r: Adjacency)
    requires Closing(m0, m, done) && k in m
    ensures Closing(m0, r, done + {k}) && m.Keys <= r.Keys
  {
    hide Closing;
    r := m;
    var rest := m[k];
    while rest != {}
      invariant rest <= m[k] <= Next(r, k) && Closing(m0, r, done) && m.Keys <= r.Keys
      invariant forall y :: y in Next(r, k) && y !in rest ==> k in Next(r, y)
    {
      var y :| y in rest;
      ReverseAdded(m0, r, done, k, y);
      r := r[y := Next(r, y) + {k}];
      rest := rest - {y};
    }
    KeyDone(m0, r, done, k);
  }

  lemma KeyDone(m0: Adjacency, m: Adjacency, done: set<Inst>, k: Inst)
    requires Closing(m0, m, done) && forall y :: y in Next(m, k) ==> k in Next(m, y)
    ensures Closing(m0, m, done + {k})
  {
  }

  lemma EdgeClosed(m0: Adjacency, m: Adjacency, done: set<Inst>, x: Inst, y: Inst)
    requires Closing(m0, m, done) && m0.Keys <= done
    ensures y in Next(m, x) <==> y in Next(m0, x) || x in Next(m0, y)
  {
    if x in Next(m0, y) {
      assert x in Next(m, y);
    }
  }

  lemma ClosureDone(m0: Adjacency, m: Adjacency, done: set<Inst>)
    requires Closing(m0, m, done) && m0.Keys <= done
    ensures SymmetricMap(m) && KeysClosed(m) && (KeysClosed(m0) ==> m.Keys == m0.Keys)
  {
    forall x: Inst, y: Inst ensures y in Next(m, x) <==> y in Next(m0, x) || x in Next(m0, y) {
      EdgeClosed(m0, m, done, x, y);
    }
    forall x, y | x in m && y in m[x] ensures y in m {
      assert y in Next(m, x);
      assert x in Next(m, y);
    }
    forall x: Inst | KeysClosed(m0) && x in m ensures x in m0 {
      if x !in m0 { NewKeyIsTarget(m0, m, done, x); }
    }
  }

  lemma ClosureStarts(m: Adjacency)
    ensures Closing(m, m, {})
  {
  }

  /** dual_dg_map: adds the reverse of every edge while iterating over the map it changes; keys added behind
      the iterator are not visited, keys added ahead of it are. The result is the symmetric closure. */
  method DualMap(m0: Adjacency) returns (m: Adjacency)
    ensures forall x: Inst, y: Inst :: y in Next(m, x) <==> y in Next(m0, x) || x in Next(m0, y)
    ensures SymmetricMap(m) && KeysClosed(m) && (KeysClosed(m0) ==> m.Keys == m0.Keys)
  {
    m := m0;
    ghost var done: set<Inst> := {};
    ClosureStarts(m0);
    var ahead := m.Keys;
    while ahead != {}
      invariant Closing(m0, m, done)
      invariant ahead <= m.Keys && m0.Keys <= done + ahead && done !! ahead
      invariant forall x, y :: x in done && y in ahead ==> x < y
      decreases Universe(m0) - done
    {
      LeastExists(ahead);
      var k: Inst :| IsLeast(k, ahead);
      InUniverse(m0, m, done, k);
      m := ReverseEdges(m0, m, k, done);
      done := done + {k};
      ahead := set x | x in m && k < x;
      MoreKeys(m0, m, done);
    }
    ClosureDone(m0, m, done);
    forall x: Inst, y: Inst ensures y in Next(m, x) <==> y in Next(m0, x) || x in Next(m0, y) {
      EdgeClosed(m0, m, done, x, y);
    }
  }

  lemma MoreKeys(m0: Adjacency, m: Adjacency, done: set<Inst>)
    requires Closing(m0, m, done)
    ensures m0.Keys <= m.Keys
  {
  }

  // ---------- connected components ----------

  /** The map of marks that the recursion shares. */
  class Visits {
    var marks: map<Inst, bool>

    constructor ()
      ensures marks == map[]
    {
      marks := map[];
    }

    ghost function Set(): (r: set<Inst>)
      reads this
      ensures forall x: Inst :: x in r <==> x in marks && marks[x]
    {
      set x | x in marks && marks[x]
    }

    predicate Has(x: Inst)
      reads this
    {
      x in marks && marks[x]
    }

    /** Assigns the whole map. */
    method CopyFrom(other: Visits)
      modifies this
      ensures Set() == old(other.Set())
    {
      marks := other.marks;
    }

    method Mark(x: Inst, value: bool)
      modifies this
      ensures Set() == if value then old(Set()) + {x} else old(Set()) - {x}
    {
      marks := marks[x := value];
    }
  }

  ghost predicate Unique(xs: seq<Inst>) {
    forall i, j :: 0 <= i < j < |xs| ==> xs[i] != xs[j]
  }

  /** Deletes the entries of xs that group has as well: their positions are collected first and erased one
      after the other, which is only right because there is at most one. */
  method RemoveDuplicates(xs: seq<Inst>, group: seq<Inst>, ghost start: Inst) returns (r: seq<Inst>)
    requires Unique(xs) && forall x :: x in xs && x in group ==> x == start
    ensures Unique(r) && forall x :: x in r <==> x in xs && x !in group
  {
    var toRemove: seq<nat> := [];
    for i := 0 to |xs|
      invariant |toRemove| <= 1
      invariant |toRemove| == 0 ==> forall j :: 0 <= j < i ==> xs[j] !in group
      invariant |toRemove| == 1 ==> toRemove[0] < i && xs[toRemove[0]] in group
      invariant |toRemove| == 1 ==> forall j :: 0 <= j < i && j != toRemove[0] ==> xs[j] !in group
    {
      var inGroup := InList(xs[i], group);
      assert xs[i] in xs;
      assert |toRemove| == 1 ==> xs[toRemove[0]] in xs && xs[toRemove[0]] != xs[i];
      if inGroup {
        toRemove := toRemove + [i];
      }
    }
    r := xs;
    if |toRemove| > 0 {
      r := EraseAt(xs, toRemove[0], group);
    } else {
      forall x | x in xs ensures x !in group {
        var j :| 0 <= j < |xs| && xs[j] == x;
      }
    }
  }

  method InList(x: Inst, xs: seq<Inst>) returns (found: bool)
    ensures found <==> x in xs
  {
    for i := 0 to |xs|
      invariant x !in xs[..i]
    {
      if xs[i] == x { return true; }
    }
    return false;
  }

  method EraseAt(xs: seq<Inst>, k: nat, ghost group: seq<Inst>) returns (r: seq<Inst>)
    requires Unique(xs) && k < |xs| && xs[k] in group
    requires forall j :: 0 <= j < |xs| && j != k ==> xs[j] !in group
    ensures Unique(r) && forall x :: x in r <==> x in xs && x !in group
  {
    r := xs[..k] + xs[k + 1..];
    assert forall j :: 0 <= j < |r| ==> r[j] == if j < k then xs[j] else xs[j + 1];
    forall x ensures x in r <==> x in xs && x !in group {
      if x in r {
        var j :| 0 <= j < |r| && r[j] == x;
      }
      if x in xs && x !in group {
        var j :| 0 <= j < |xs| && xs[j] == x;
        assert x == if j < k then r[j] else r[j - 1];
      }
    }
  }

  /** What a search from start has done between the marked sets v0 and v1: it returns start and everything
      newly marked, each once; the new marks are reachable from start, and no edge leads from start or a new
      mark to anything unmarked. */
  ghost predicate Searched(m: Adjacency, start: Inst, v0: set<Inst>, v1: set<Inst>, group: seq<Inst>) {
    && v0 <= v1
    && Unique(group) && (forall x :: x in group <==> x == start || (x in v1 && x !in v0))
    && (forall x :: x in v1 && x !in v0 ==> Next(m, x) <= v1 && Reach(AsGraph(m), start, x))
    && Next(m, start) <= v1
  }

  /** The same with the targets in rest still to be looked at. */
  ghost predicate Searching(m: Adjacency, start: Inst, v0: set<Inst>, v1: set<Inst>, group: seq<Inst>, rest: set<Inst>) {
    && v0 <= v1
    && Unique(group) && (forall x :: x in group <==> x == start || (x in v1 && x !in v0))
    && (forall x :: x in v1 && x !in v0 ==> (Next(m, x) <= v1 || x == start) && Reach(AsGraph(m), start, x))
    && rest <= Next(m, start) <= v1 + rest
  }

  lemma SearchStarts(m: Adjacency, start: Inst, v: set<Inst>)
    ensures Searching(m, start, v, v, [start], Next(m, start))
  {
  }

  lemma TargetSeen(m: Adjacency, start: Inst, v0: set<Inst>, v1: set<Inst>, group: seq<Inst>, rest: set<Inst>, y: Inst)
    requires Searching(m, start, v0, v1, group, rest) && y in v1
    ensures Searching(m, start, v0, v1, group, rest - {y})
  {
  }

  lemma TargetSearched(m: Adjacency, start: Inst, v0: set<Inst>, v1: set<Inst>, group: seq<Inst>, rest: set<Inst>, y: Inst, v2: set<Inst>, found: seq<Inst>, added: seq<Inst>)
    requires Searching(m, start, v0, v1, group, rest) && y in rest && y !in v1
    requires Searched(m, y, v1 + {y}, v2, found)
    requires Unique(added) && forall x :: x in added <==> x in found && x !in group
    ensures Searching(m, start, v0, v2, group + added, rest - {y})
  {
    var g := AsGraph(m);
    ReachEdge(g, start, y);
    forall x | x in v2 && x !in v0 ensures (Next(m, x) <= v2 || x == start) && Reach(g, start, x) {
      if x !in v1 {
        if x == y { ReachSelf(g, y); }
        assert Reach(g, y, x);
        ReachTrans(g, start, y, x);
      }
    }
    UniqueConcat(group, added);
    forall x ensures x in group + added <==> x == start || (x in v2 && x !in v0) {
    }
  }

  lemma UniqueConcat(xs: seq<Inst>, ys: seq<Inst>)
    requires Unique(xs) && Unique(ys) && forall x :: x in ys ==> x !in xs
    ensures Unique(xs + ys)
  {
    assert forall i :: 0 <= i < |xs| ==> xs[i] in xs;
    assert forall i :: 0 <= i < |ys| ==> ys[i] in ys;
  }

  lemma SearchEnds(m: Adjacency, start: Inst, v0: set<Inst>, v1: set<Inst>, group: seq<Inst>)
    requires Searching(m, start, v0, v1, group, {})
    ensures Searched(m, start, v0, v1, group)
  {
  }

  lemma OnlyStartTwice(m: Adjacency, start: Inst, v0: set<Inst>, v1: set<Inst>, group: seq<Inst>, rest: set<Inst>, y: Inst, v2: set<Inst>, found: seq<Inst>)
    requires Searching(m, start, v0, v1, group, rest) && y !in v1 && Searched(m, y, v1 + {y}, v2, found)
    ensures Unique(found) && forall x :: x in found && x in group ==> x == start
    ensures v1 + {y} <= v2
  {
  }

  /** dfs: a search that marks an instruction when it is first met as a target, so that the instruction it
      starts from may be met and searched a second time. The recursion enters start, and each newly marked
      instruction once more: start twice if it was not marked before and is met again, any other at most once. */
  method Dfs(start: Inst, m: Adjacency, allInsts: set<Inst>, visited: Visits) returns (group: seq<Inst>, ghost entered: multiset<Inst>)
    requires forall x :: x in allInsts ==> Next(m, x) <= allInsts
    requires start in allInsts
    modifies visited
    ensures Searched(m, start, old(visited.Set()), visited.Set(), group)
    ensures entered == multiset{start} + multiset(visited.Set() - old(visited.Set()))
    decreases allInsts - visited.Set()
  {
    hide Searching, Searched, Reach;
    ghost var v0 := visited.Set();
    group, entered := [start], multiset{start};
    var rest := Next(m, start);
    SearchStarts(m, start, v0);
    while rest != {}
      invariant Searching(m, start, v0, visited.Set(), group, rest)
      invariant v0 <= visited.Set() && rest <= Next(m, start)
      invariant entered == multiset{start} + multiset(visited.Set() - v0)
      decreases rest
    {
      var y :| y in rest;
      ghost var v1 := visited.Set();
      if !visited.Has(y) {
        visited.Mark(y, true);
        var found;
        ghost var below;
        found, below := Dfs(y, m, allInsts, visited);
        MarksAdd(v0, v1, y, visited.Set(), m, found);
        entered := entered + below;
        OnlyStartTwice(m, start, v0, v1, group, rest, y, visited.Set(), found);
        var added := RemoveDuplicates(found, group, start);
        TargetSearched(m, start, v0, v1, group, rest, y, visited.Set(), found, added);
        group := group + added;
      } else {
        TargetSeen(m, start, v0, v1, group, rest, y);
      }
      rest := rest - {y};
    }
    SearchEnds(m, start, v0, visited.Set(), group);
  }

  /** What a search below marks, after y was marked for it. */
  lemma MarksAdd(v0: set<Inst>, v1: set<Inst>, y: Inst, v2: set<Inst>, m: Adjacency, found: seq<Inst>)
    requires v0 <= v1 && y !in v1 && Searched(m, y, v1 + {y}, v2, found)
    ensures multiset(v2 - v0) == multiset(v1 - v0) + (multiset{y} + multiset(v2 - (v1 + {y})))
  {
    assert v2 - v0 == (v1 - v0) + {y} + (v2 - (v1 + {y}));
  }

  /** So no instruction is entered more than twice, and only the start of a search more than once. */
  lemma EnteredAtMostTwice(start: Inst, v0: set<Inst>, v1: set<Inst>, entered: multiset<Inst>, x: Inst)
    requires entered == multiset{start} + multiset(v1 - v0)
    ensures entered[x] <= if x == start && start !in v0 then 2 else 1
  {
  }

  // ---------- the partitions ----------

  ghost predicate Whole(m: Adjacency, group: seq<Inst>) {
    && group != [] && Unique(group)
    && (forall x :: x in group ==> x in m)
    && (forall x: Inst, y: Inst :: x in group ==> (y in group <==> Reach(AsGraph(m), x, y)))
  }

  ghost predicate Apart(xs: seq<Inst>, ys: seq<Inst>) {
    forall x :: x in xs ==> x !in ys
  }

  ghost predicate Holds(partition: seq<seq<Inst>>, x: Inst) {
    exists i :: 0 <= i < |partition| && x in partition[i]
  }

  /** The groups are the connected components of m, each instruction once. */
  ghost predicate ConnectedComponents(m: Adjacency, partition: seq<seq<Inst>>) {
    && (forall i :: 0 <= i < |partition| ==> Whole(m, partition[i]))
    && (forall i, j :: 0 <= i < j < |partition| ==> Apart(partition[i], partition[j]))
    && (forall x: Inst :: x in m ==> Holds(partition, x))
  }

  lemma {:induction false} PathBack(m: Adjacency, u: Inst, p: seq<nat>, v: Inst)
    requires SymmetricMap(m) && Path(AsGraph(m), u, p, v)
    ensures Reach(AsGraph(m), v, u)
    decreases |p|
  {
    var g := AsGraph(m);
    if p == [] {
      ReachSelf(g, u);
    } else {
      PathBack(m, p[0], p[1..], v);
      assert u in Next(m, p[0]);
      ReachEdge(g, p[0], u);
      ReachTrans(g, v, p[0], u);
    }
  }

  lemma ReachBack(m: Adjacency, u: Inst, v: Inst)
    requires SymmetricMap(m) && Reach(AsGraph(m), u, v)
    ensures Reach(AsGraph(m), v, u)
  {
    var p :| Path(AsGraph(m), u, p, v);
    PathBack(m, u, p, v);
  }

  /** Marks are closed: no edge leads out of them. */
  ghost predicate ClosedMarks(m: Adjacency, v: set<Inst>) {
    forall x :: x in v ==> Next(m, x) <= v
  }

  lemma MarkedSource(m: Adjacency, v: set<Inst>, x: Inst, y: Inst)
    requires SymmetricMap(m) && ClosedMarks(m, v) && y in Next(m, x) && y in v
    ensures x in v
  {
    assert x in Next(m, y);
  }

  /** A search from an unmarked instruction returns its component. */
  lemma SearchedIsWhole(m: Adjacency, start: Inst, v0: set<Inst>, v1: set<Inst>, group: seq<Inst>)
    requires SymmetricMap(m) && KeysClosed(m) && start in m && start !in v0 && ClosedMarks(m, v0)
    requires Searched(m, start, v0, v1, group)
    ensures Whole(m, group) && ClosedMarks(m, v1) && start in group
  {
    var g := AsGraph(m);
    var s := set x | x in group;
    forall x, y | x in s && y in Next(m, x) ensures y in s {
      if y in v0 { MarkedSource(m, v0, x, y); }
    }
    forall e | e in g.edges && e.source in s ensures e.sink in s {
      assert Edge(e.source, e.sink) in g.edges;
    }
    forall x: Inst, y: Inst | x in group ensures y in group <==> Reach(g, x, y) {
      if Reach(g, x, y) { ReachInClosed(g, s, x, y); }
      if y in group {
        if x == start { ReachSelf(g, start); }
        if y == start { ReachSelf(g, start); }
        ReachBack(m, start, x);
        ReachTrans(g, x, start, y);
      }
    }
    forall x | x in group ensures x in m {
      if x != start {
        ReachBack(m, start, x);
        KeyReached(m, start, x);
      }
    }
  }

  lemma KeyReached(m: Adjacency, u: Inst, v: Inst)
    requires KeysClosed(m) && u in m && Reach(AsGraph(m), u, v)
    ensures v in m
  {
    var g := AsGraph(m);
    forall e | e in g.edges && e.source in m.Keys ensures e.sink in m.Keys {
      assert Edge(e.source, e.sink) in g.edges;
      assert e.sink in m[e.source];
    }
    ReachInClosed(g, m.Keys, u, v);
  }

  lemma WholeApart(m: Adjacency, xs: seq<Inst>, ys: seq<Inst>, start: Inst)
    requires Whole(m, xs) && Whole(m, ys) && start in ys && start !in xs
    ensures Apart(xs, ys)
  {
    forall x | x in xs ensures x !in ys {
    }
  }

  /** Some components found, holding everything marked and everything in done. */
  ghost predicate Partial(m: Adjacency, partition: seq<seq<Inst>>, v: set<Inst>, done: set<Inst>) {
    && (forall i :: 0 <= i < |partition| ==> Whole(m, partition[i]))
    && (forall i, j :: 0 <= i < j < |partition| ==> Apart(partition[i], partition[j]))
    && (forall x: Inst :: x in v || x in done ==> Holds(partition, x))
    && (forall i, x :: 0 <= i < |partition| && x in partition[i] ==> x in v || x in done)
    && ClosedMarks(m, v)
  }

  lemma PartialStarts(m: Adjacency)
    ensures Partial(m, [], {}, {})
  {
  }

  lemma MarkedSkipped(m: Adjacency, partition: seq<seq<Inst>>, v: set<Inst>, done: set<Inst>, k: Inst)
    requires Partial(m, partition, v, done) && k in v
    ensures Partial(m, partition, v, done + {k})
  {
  }

  lemma GroupAdded(m: Adjacency, partition: seq<seq<Inst>>, v: set<Inst>, done: set<Inst>, k: Inst, v1: set<Inst>, group: seq<Inst>)
    requires Partial(m, partition, v, done) && SymmetricMap(m) && KeysClosed(m)
    requires k in m && k !in v && k !in done && Searched(m, k, v, v1, group)
    ensures Partial(m, partition + [group], v1, done + {k})
  {
    SearchedIsWhole(m, k, v, v1, group);
    var all := partition + [group];
    forall i | 0 <= i < |partition| ensures Apart(partition[i], group) {
      WholeApart(m, partition[i], group, k);
    }
    forall x: Inst | x in v1 || x in done + {k} ensures Holds(all, x) {
      if x in group {
        assert x in all[|partition|];
      } else {
        assert Holds(partition, x);
        var i :| 0 <= i < |partition| && x in partition[i];
        assert x in all[i];
      }
    }
  }

  lemma PartialEnds(m: Adjacency, partition: seq<seq<Inst>>, v: set<Inst>, done: set<Inst>)
    requires Partial(m, partition, v, done) && m.Keys <= done
    ensures ConnectedComponents(m, partition)
  {
  }

  /** build_partition: one search from every key not marked when its turn comes. */
  method BuildPartition(m: Adjacency) returns (partition: seq<seq<Inst>>)
    requires SymmetricMap(m) && KeysClosed(m)
    ensures ConnectedComponents(m, partition)
  {
    hide Partial, Searched, ConnectedComponents;
    var visited := new Visits();
    var allInsts := m.Keys;
    var todo := m.Keys;
    while todo != {}
      invariant todo <= m.Keys && visited.Set() == {}
    {
      var k :| k in todo;
      visited.Mark(k, false);
      todo := todo - {k};
    }
    partition := [];
    PartialStarts(m);
    todo := m.Keys;
    assert m.Keys - todo == {};
    while todo != {}
      invariant todo <= m.Keys && Partial(m, partition, visited.Set(), m.Keys - todo)
    {
      var k :| k in todo;
      ghost var v, done := visited.Set(), m.Keys - todo;
      if visited.Has(k) {
        MarkedSkipped(m, partition, v, done, k);
      } else {
        var group, entered := Dfs(k, m, allInsts, visited);
        GroupAdded(m, partition, v, done, k, visited.Set(), group);
        partition := partition + [group];
      }
      todo := todo - {k};
      assert m.Keys - todo == done + {k};
    }
    assert m.Keys - todo == m.Keys;
    PartialEnds(m, partition, visited.Set(), m.Keys);
  }
}
