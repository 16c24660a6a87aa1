/** Grouping the register partitions into strongly connected components by comparing what each of them
    reaches: what the comparison guarantees, and exactly when the groups are the components in dependence
    order. Partitions are known by their position in the list. */
module SccGroups {
  import opened Digraph
  import opened RegisterPartitions

  /** A path from r to x whose vertices after r are all outside v. */
  ghost predicate AvoidingPath(m: Adjacency, v: set<nat>, r: nat, p: seq<nat>, x: nat)
    decreases |p|
  {
    if p == [] then r == x else p[0] in Next(m, r) && p[0] !in v && AvoidingPath(m, v, p[0], p[1..], x)
  }

  ghost predicate Avoids(m: Adjacency, v: set<nat>, r: nat, x: nat) {
    exists p: seq<nat> :: AvoidingPath(m, v, r, p, x)
  }

  lemma AvoidsSelf(m: Adjacency, v: set<nat>, r: nat)
    ensures Avoids(m, v, r, r)
  {
    assert AvoidingPath(m, v, r, [], r);
  }

  lemma {:induction false} AvoidingWeakens(m: Adjacency, v: set<nat>, w: set<nat>, r: nat, p: seq<nat>, x: nat)
    requires v <= w && AvoidingPath(m, w, r, p, x)
    ensures AvoidingPath(m, v, r, p, x)
    decreases |p|
  {
    if p != [] { AvoidingWeakens(m, v, w, p[0], p[1..], x); }
  }

  lemma AvoidsStep(m: Adjacency, v: set<nat>, w: set<nat>, r: nat, y: nat, x: nat)
    requires v <= w && y in Next(m, r) && y !in v && Avoids(m, w, y, x)
    ensures Avoids(m, v, r, x)
  {
    var p :| AvoidingPath(m, w, y, p, x);
    AvoidingWeakens(m, v, w, y, p, x);
    assert ([y] + p)[1..] == p;
    assert AvoidingPath(m, v, r, [y] + p, x);
  }

  lemma {:induction false} AvoidingIsPath(m: Adjacency, v: set<nat>, r: nat, p: seq<nat>, x: nat)
    requires AvoidingPath(m, v, r, p, x)
    ensures Path(AsGraph(m), r, p, x)
    decreases |p|
  {
    if p != [] { AvoidingIsPath(m, v, p[0], p[1..], x); }
  }

  lemma AvoidsReach(m: Adjacency, v: set<nat>, r: nat, x: nat)
    requires Avoids(m, v, r, x)
    ensures Reach(AsGraph(m), r, x)
  {
    var p :| AvoidingPath(m, v, r, p, x);
    AvoidingIsPath(m, v, r, p, x);
  }

  // ---------- the search ----------

  ghost function Elements(xs: seq<nat>): (r: set<nat>)
    ensures forall x: nat :: x in r <==> x in xs
  {
    set x | x in xs
  }

  /** What dfs_scc has done: it returns, each once and r first, exactly what r reaches outside v0, and marks it. */
  ghost predicate Found(m: Adjacency, r: nat, v0: set<nat>, v1: set<nat>, group: seq<nat>) {
    && Unique(group) && group != [] && group[0] == r
    && v1 == v0 + Elements(group)
    && (forall x: nat :: x in group <==> Avoids(m, v0, r, x))
  }

  /** The same with the targets in rest still to be looked at. */
  ghost predicate Finding(m: Adjacency, r: nat, v0: set<nat>, v1: set<nat>, group: seq<nat>, rest: set<nat>) {
    && Unique(group) && group != [] && group[0] == r
    && v1 == v0 + Elements(group)
    && (forall x: nat :: x in group ==> Avoids(m, v0, r, x))
    && (forall x: nat :: x in group && x != r ==> Next(m, x) <= v1)
    && rest <= Next(m, r) <= v1 + rest
  }

  lemma FindingStarts(m: Adjacency, r: nat, v0: set<nat>)
    ensures Finding(m, r, v0, v0 + {r}, [r], Next(m, r))
  {
    AvoidsSelf(m, v0, r);
    assert Elements([r]) == {r};
  }

  lemma KnownTarget(m: Adjacency, r: nat, v0: set<nat>, v1: set<nat>, group: seq<nat>, rest: set<nat>, y: nat)
    requires Finding(m, r, v0, v1, group, rest) && y in v1
    ensures Finding(m, r, v0, v1, group, rest - {y})
  {
  }

  lemma FoundIsClosed(m: Adjacency, r: nat, v0: set<nat>, v1: set<nat>, group: seq<nat>, x: nat)
    requires Found(m, r, v0, v1, group) && x in group
    ensures Next(m, x) <= v1
  {
    forall y | y in Next(m, x) && y !in v0 ensures y in v1 {
      var p :| AvoidingPath(m, v0, r, p, x);
      AvoidingExtends(m, v0, r, p, x, y);
    }
  }

  lemma {:induction false} AvoidingExtends(m: Adjacency, v: set<nat>, r: nat, p: seq<nat>, x: nat, y: nat)
    requires AvoidingPath(m, v, r, p, x) && y in Next(m, x) && y !in v
    ensures AvoidingPath(m, v, r, p + [y], y)
    decreases |p|
  {
    if p == [] {
      assert AvoidingPath(m, v, y, [], y);
      assert [y][1..] == [];
      assert p + [y] == [y];
    } else {
      AvoidingExtends(m, v, p[0], p[1..], x, y);
      assert (p + [y])[1..] == p[1..] + [y];
    }
  }

  lemma NoneKnown(m: Adjacency, r: nat, v0: set<nat>, v1: set<nat>, group: seq<nat>, rest: set<nat>, y: nat, v2: set<nat>, found: seq<nat>)
    requires Finding(m, r, v0, v1, group, rest) && y in rest && y !in v1
    requires Found(m, y, v1 + {y}, v2, found)
    ensures Unique(found) && (forall x :: x in found ==> x !in group) && v1 <= v2
  {
    forall x: nat | x in found ensures x !in v1 {
      AvoidedOutside(m, v1 + {y}, y, x);
    }
  }

  lemma NewTarget(m: Adjacency, r: nat, v0: set<nat>, v1: set<nat>, group: seq<nat>, rest: set<nat>, y: nat, v2: set<nat>, found: seq<nat>, added: seq<nat>)
    requires Finding(m, r, v0, v1, group, rest) && y in rest && y !in v1
    requires Found(m, y, v1 + {y}, v2, found)
    requires Unique(added) && forall x :: x in added <==> x in found && x !in group
    ensures Finding(m, r, v0, v2, group + added, rest - {y})
  {
    NoneKnown(m, r, v0, v1, group, rest, y, v2, found);
    forall x: nat | x in found ensures Avoids(m, v0, r, x) && Next(m, x) <= v2 {
      AvoidsStep(m, v0, v1 + {y}, r, y, x);
      FoundIsClosed(m, y, v1 + {y}, v2, found, x);
    }
    UniqueConcat(group, added);
    assert Elements(added) == Elements(found);
    assert Elements(group + added) == Elements(group) + Elements(added);
    assert y in found;
  }

  lemma AvoidedOutside(m: Adjacency, v: set<nat>, r: nat, x: nat)
    requires Avoids(m, v, r, x)
    ensures x == r || x !in v
  {
    var p :| AvoidingPath(m, v, r, p, x);
    AvoidingEnd(m, v, r, p, x);
  }

  lemma {:induction false} AvoidingEnd(m: Adjacency, v: set<nat>, r: nat, p: seq<nat>, x: nat)
    requires AvoidingPath(m, v, r, p, x)
    ensures x == r || x !in v
    decreases |p|
  {
    if p != [] { AvoidingEnd(m, v, p[0], p[1..], x); }
  }

  lemma {:induction false} AvoidingStays(m: Adjacency, v: set<nat>, s: set<nat>, r: nat, p: seq<nat>, x: nat)
    requires AvoidingPath(m, v, r, p, x) && r in s
    requires forall y, z :: y in s && z in Next(m, y) && z !in v ==> z in s
    ensures x in s
    decreases |p|
  {
    if p != [] { AvoidingStays(m, v, s, p[0], p[1..], x); }
  }

  lemma FindingEnds(m: Adjacency, r: nat, v0: set<nat>, v1: set<nat>, group: seq<nat>)
    requires Finding(m, r, v0, v1, group, {})
    ensures Found(m, r, v0, v1, group)
  {
    forall x: nat | Avoids(m, v0, r, x) ensures x in group {
      var p :| AvoidingPath(m, v0, r, p, x);
      AvoidingStays(m, v0, Elements(group), r, p, x);
    }
  }

  /** dfs_scc: here the start is marked at once, so no duplicates ever come back. */
  method DfsScc(r: nat, m: Adjacency, ghost universe: set<nat>, visited: Visits) returns (group: seq<nat>)
    requires r in universe && forall x :: x in universe ==> Next(m, x) <= universe
    modifies visited
    ensures Found(m, r, old(visited.Set()), visited.Set(), group)
    decreases universe - (visited.Set() - {r})
  {
    hide Finding, Found, Avoids;
    ghost var v0 := visited.Set();
    group := [r];
    visited.Mark(r, true);
    var rest := Next(m, r);
    FindingStarts(m, r, v0);
    while rest != {}
      invariant Finding(m, r, v0, visited.Set(), group, rest)
      invariant v0 + {r} <= visited.Set() && rest <= Next(m, r)
      decreases rest
    {
      var y :| y in rest;
      ghost var v1 := visited.Set();
      if !visited.Has(y) {
        visited.Mark(y, true);
        var found := DfsScc(y, m, universe, visited);
        NoneKnown(m, r, v0, v1, group, rest, y, visited.Set(), found);
        var added := RemoveDuplicates(found, group, y);
        NewTarget(m, r, v0, v1, group, rest, y, visited.Set(), found, added);
        group := group + added;
      } else {
        KnownTarget(m, r, v0, v1, group, rest, y);
      }
      rest := rest - {y};
    }
    FindingEnds(m, r, v0, visited.Set(), group);
  }

  // ---------- one group ----------

  /** x is put into the group of root: it is reached from root outside t, and unless it is root itself it
      reaches, outside v, everything that root reached. */
  ghost predicate Kept(m: Adjacency, t: set<nat>, v: set<nat>, root: nat, x: nat) {
    && Avoids(m, t, root, x)
    && (x == root || forall y: nat :: Avoids(m, t, root, y) ==> Avoids(m, v, x, y))
  }

  /** Whether all of xs is in ys. */
  method Contains(ys: seq<nat>, xs: seq<nat>) returns (all: bool)
    ensures all <==> forall x: nat :: x in xs ==> x in ys
  {
    for j := 0 to |xs|
      invariant forall x: nat :: x in xs[..j] ==> x in ys
    {
      var found := InList(xs[j], ys);
      if !found {
        assert xs[j] in xs;
        return false;
      }
      assert xs[..j + 1] == xs[..j] + [xs[j]];
    }
    assert xs[..|xs|] == xs;
    return true;
  }

  lemma ReachedElements(m: Adjacency, t: set<nat>, root: nat, v1: set<nat>, reached: seq<nat>)
    requires Found(m, root, t, v1, reached)
    ensures Unique(reached) && reached != [] && reached[0] == root
    ensures forall x: nat :: x in reached <==> Avoids(m, t, root, x)
  {
  }

  lemma KeptIffContained(m: Adjacency, t: set<nat>, v: set<nat>, root: nat, reached: seq<nat>, x: nat, back: seq<nat>)
    requires forall y: nat :: y in reached <==> Avoids(m, t, root, y)
    requires forall y: nat :: y in back <==> Avoids(m, v, x, y)
    requires x in reached && x != root
    ensures Kept(m, t, v, root, x) <==> forall y: nat :: y in reached ==> y in back
  {
  }

  lemma RootKept(m: Adjacency, t: set<nat>, v: set<nat>, root: nat)
    ensures Kept(m, t, v, root, root)
  {
    AvoidsSelf(m, t, root);
  }

  /** The loop that searches from everything reached and compares. */
  method Validate(root: nat, reached: seq<nat>, m: Adjacency, ghost universe: set<nat>, ghost t: set<nat>, visited: Visits, tmp: Visits)
    returns (valid: map<nat, bool>)
    requires forall x :: x in universe ==> Next(m, x) <= universe
    requires root in universe && visited != tmp && tmp.Set() == visited.Set()
    requires Unique(reached) && forall x: nat :: x in reached <==> Avoids(m, t, root, x)
    modifies tmp
    ensures tmp.Set() == visited.Set()
    ensures forall x: nat :: x in reached ==> x in valid && (valid[x] <==> Kept(m, t, visited.Set(), root, x))
  {
    hide Avoids, Found, Kept;
    ghost var v := visited.Set();
    valid := map[root := true];
    RootKept(m, t, v, root);
    for i := 0 to |reached|
      invariant tmp.Set() == v
      invariant forall x: nat :: x in reached[..i] ==> x in valid && (valid[x] <==> Kept(m, t, v, root, x))
    {
      var x := reached[i];
      assert reached[..i + 1] == reached[..i] + [x];
      assert x in reached && forall l :: 0 <= l < i ==> reached[l] != x;
      valid := valid[x := true];
      if x != root {
        ReachedInUniverse(m, universe, t, root, x);
        var back := DfsScc(x, m, universe, tmp);
        ReachedElements(m, v, x, tmp.Set(), back);
        tmp.CopyFrom(visited);
        KeptIffContained(m, t, v, root, reached, x, back);
        var all := Contains(back, reached);
        if !all {
          valid := valid[x := false];
        }
      }
    }
    assert reached[..|reached|] == reached;
  }

  /** The loop that merges and marks what was found valid. */
  method Merge(root: nat, reached: seq<nat>, valid: map<nat, bool>, visited: Visits) returns (merged: seq<nat>)
    requires Unique(reached) && reached != [] && reached[0] == root
    requires (forall x: nat :: x in reached ==> x in valid) && valid[root]
    modifies visited
    ensures Unique(merged) && merged != [] && merged[0] == root
    ensures forall x: nat :: x in merged <==> x in reached && valid[x]
    ensures visited.Set() == old(visited.Set()) + Elements(merged)
  {
    merged := [];
    assert reached[..0] == [];
    for i := 0 to |reached|
      invariant Unique(merged) && (forall x: nat :: x in merged <==> x in reached[..i] && valid[x])
      invariant if i == 0 then merged == [] else merged != [] && merged[0] == root
      invariant visited.Set() == old(visited.Set()) + Elements(merged)
    {
      var x := reached[i];
      assert reached[..i + 1] == reached[..i] + [x];
      assert x in reached && x !in reached[..i];
      if valid[x] {
        visited.Mark(x, true);
        assert Elements(merged + [x]) == Elements(merged) + {x};
        merged := merged + [x];
      }
    }
    assert reached[..|reached|] == reached;
  }

  /** One round of build_scc, with the marks of visited and the marks tmp that the first search uses. */
  method OneGroup(root: nat, m: Adjacency, ghost universe: set<nat>, visited: Visits, tmp: Visits) returns (merged: seq<nat>)
    requires root in universe && forall x :: x in universe ==> Next(m, x) <= universe
    requires visited != tmp && root !in visited.Set()
    modifies visited, tmp
    ensures Unique(merged) && merged != [] && merged[0] == root
    ensures forall x: nat :: x in merged <==> Kept(m, old(tmp.Set()), old(visited.Set()), root, x)
    ensures visited.Set() == old(visited.Set()) + Elements(merged)
    ensures tmp.Set() == old(visited.Set())
  {
    hide Found, Avoids;
    ghost var t, v := tmp.Set(), visited.Set();
    var reached := DfsScc(root, m, universe, tmp);
    ReachedElements(m, t, root, tmp.Set(), reached);
    tmp.CopyFrom(visited);
    var valid := Validate(root, reached, m, universe, t, visited, tmp);
    RootKept(m, t, v, root);
    merged := Merge(root, reached, valid, visited);
  }

  lemma ReachedInUniverse(m: Adjacency, universe: set<nat>, t: set<nat>, root: nat, x: nat)
    requires root in universe && forall x :: x in universe ==> Next(m, x) <= universe
    requires Avoids(m, t, root, x)
    ensures x in universe
  {
    var p :| AvoidingPath(m, t, root, p, x);
    AvoidingStays(m, t, universe, root, p, x);
  }

  // ---------- all groups ----------

  ghost function Union(groups: seq<seq<nat>>): (r: set<nat>)
    ensures forall x: nat :: x in r <==> exists i :: 0 <= i < |groups| && x in groups[i]
  {
    set i, x | 0 <= i < |groups| && x in groups[i] :: x
  }

  /** The marks that the first search of a round uses: those before the round before it. */
  ghost function Stale(prev: seq<seq<nat>>): (r: set<nat>)
    ensures r <= Union(prev)
  {
    if prev == [] then {} else Union(prev[..|prev| - 1])
  }

  /** group is what one round adds after the groups prev; its root is the least position not in prev. */
  ghost predicate Round(m: Adjacency, n: nat, prev: seq<seq<nat>>, group: seq<nat>) {
    && Unique(group) && group != [] && group[0] < n && group[0] !in Union(prev)
    && (forall i: nat :: i < group[0] ==> i in Union(prev))
    && forall x: nat :: x in group <==> Kept(m, Stale(prev), Union(prev), group[0], x)
  }

  ghost predicate Rounds(m: Adjacency, n: nat, groups: seq<seq<nat>>) {
    forall k :: 0 <= k < |groups| ==> Round(m, n, groups[..k], groups[k])
  }

  lemma RoundAdded(m: Adjacency, n: nat, groups: seq<seq<nat>>, group: seq<nat>)
    requires Rounds(m, n, groups) && Round(m, n, groups, group)
    ensures Rounds(m, n, groups + [group]) && Union(groups + [group]) == Union(groups) + Elements(group)
    ensures Stale(groups + [group]) == Union(groups)
  {
    var all := groups + [group];
    assert all[..|groups|] == groups;
    forall k | 0 <= k < |all| ensures Round(m, n, all[..k], all[k]) {
      assert all[..k] == groups[..k];
      assert groups[..|groups|] == groups;
    }
    forall x: nat ensures x in Union(all) <==> x in Union(groups) || x in group {
      if x in Union(groups) {
        var i :| 0 <= i < |groups| && x in groups[i];
        assert x in all[i];
      }
      if x in group { assert x in all[|groups|]; }
    }
  }

  /** build_scc, without the optional regrouping, over the positions 0..n-1 of the partitions. The marks tmp
      that a round starts from are those before the round before it. */
  method BuildScc(n: nat, m: Adjacency) returns (scc: seq<seq<nat>>)
    requires forall x, y :: x in m && y in m[x] ==> y < n
    ensures Rounds(m, n, scc) && forall i: nat :: i < n ==> i in Union(scc)
  {
    hide Rounds, Kept, Union, Stale, Elements;
    var visited := new Visits();
    var tmp := new Visits();
    for i := 0 to n
      invariant visited.Set() == {}
    {
      visited.Mark(i, false);
    }
    tmp.CopyFrom(visited);
    scc := [];
    ghost var universe := Positions(n);
    NoRounds(m, n);
    for i := 0 to n
      invariant Rounds(m, n, scc) && visited.Set() == Union(scc) && tmp.Set() == Stale(scc)
      invariant forall j: nat :: j < i ==> j in visited.Set()
    {
      if !visited.Has(i) {
        var merged := OneGroup(i, m, universe, visited, tmp);
        RoundAdded(m, n, scc, merged);
        assert i in merged;
        assert (scc + [merged])[..|scc|] == scc;
        scc := scc + [merged];
      }
    }
  }

  ghost function Positions(n: nat): (r: set<nat>)
    ensures forall x: nat :: x in r <==> x < n
  {
    if n == 0 then {} else Positions(n - 1) + {n - 1}
  }

  lemma NoRounds(m: Adjacency, n: nat)
    ensures Rounds(m, n, []) && Union([]) == {}
  {
  }

  // ---------- what holds for every graph ----------

  /** Sound for every input: the members of a group reach each other. */
  lemma GroupsAreMutual(m: Adjacency, n: nat, groups: seq<seq<nat>>, k: nat, x: nat, y: nat)
    requires Rounds(m, n, groups) && k < |groups| && x in groups[k] && y in groups[k]
    ensures Mutual(AsGraph(m), x, y)
  {
    RootMutual(m, n, groups, k, x);
    RootMutual(m, n, groups, k, y);
    MutualTrans(AsGraph(m), x, groups[k][0], y);
  }

  /** The members of a group are positions. */
  lemma GroupsBelow(m: Adjacency, n: nat, groups: seq<seq<nat>>, k: nat, x: nat)
    requires Rounds(m, n, groups) && k < |groups| && x in groups[k]
    requires forall x, y :: x in m && y in m[x] ==> x < n && y < n
    ensures x < n
  {
    assert Round(m, n, groups[..k], groups[k]);
    RootMutual(m, n, groups, k, x);
    ReachInClosed(AsGraph(m), Positions(n), groups[k][0], x);
  }

  lemma RootMutual(m: Adjacency, n: nat, groups: seq<seq<nat>>, k: nat, x: nat)
    requires Rounds(m, n, groups) && k < |groups| && x in groups[k]
    ensures Mutual(AsGraph(m), groups[k][0], x)
  {
    var prev, root := groups[..k], groups[k][0];
    assert Round(m, n, prev, groups[k]);
    var t := Stale(prev);
    assert Kept(m, t, Union(prev), root, x);
    AvoidsReach(m, t, root, x);
    if x == root {
    } else {
      AvoidsSelf(m, t, root);
      AvoidsReach(m, Union(prev), x, root);
    }
  }

  // ---------- when the groups are the components, in dependence order ----------

  /** The first position of the component of x. */
  ghost function First(m: Adjacency, x: nat): (r: nat)
    ensures r <= x && Mutual(AsGraph(m), r, x) && forall z: nat :: z < r ==> !Mutual(AsGraph(m), z, x)
  {
    FirstFrom(m, x, 0)
  }

  ghost function FirstFrom(m: Adjacency, x: nat, i: nat): (r: nat)
    requires i <= x && forall z: nat :: z < i ==> !Mutual(AsGraph(m), z, x)
    ensures r <= x && Mutual(AsGraph(m), r, x) && forall z: nat :: z < r ==> !Mutual(AsGraph(m), z, x)
    decreases x - i
  {
    ReachSelf(AsGraph(m), x);
    if Mutual(AsGraph(m), i, x) then i else FirstFrom(m, x, i + 1)
  }

  /** Components, listed by their first member, are already in dependence order. */
  ghost predicate InputOrdered(m: Adjacency) {
    forall x: nat, y: nat {:trigger Edge(x, y) in AsGraph(m).edges} :: Edge(x, y) in AsGraph(m).edges ==>
      Mutual(AsGraph(m), x, y) || First(m, x) < First(m, y)
  }

  /** Every group is a component, no position is in two groups. */
  ghost predicate Exact(m: Adjacency, n: nat, groups: seq<seq<nat>>) {
    && (forall k: nat, x: nat, y: nat {:trigger x in groups[k], Mutual(AsGraph(m), x, y)} ::
          k < |groups| && x in groups[k] && y < n ==> (y in groups[k] <==> Mutual(AsGraph(m), x, y)))
    && (forall j: nat, k: nat, x: nat {:trigger x in groups[j], groups[k]} :: j < k < |groups| && x in groups[j] ==> x !in groups[k])
  }

  /** Edges never lead to an earlier group. */
  ghost predicate OutputOrdered(m: Adjacency, groups: seq<seq<nat>>) {
    forall j: nat, k: nat, x: nat, y: nat {:trigger x in groups[j], y in groups[k]} ::
      j < |groups| && k < |groups| && x in groups[j] && y in groups[k] && Edge(x, y) in AsGraph(m).edges ==> j <= k
  }

  lemma FirstSame(m: Adjacency, x: nat, y: nat)
    requires Mutual(AsGraph(m), x, y)
    ensures First(m, x) == First(m, y)
  {
    var a, b := First(m, x), First(m, y);
    MutualTrans(AsGraph(m), a, x, y);
    MutualTrans(AsGraph(m), b, y, x);
  }

  lemma {:induction false} FirstRises(m: Adjacency, x: nat, p: seq<nat>, y: nat)
    requires InputOrdered(m) && Path(AsGraph(m), x, p, y)
    ensures First(m, x) <= First(m, y)
    decreases |p|
  {
    if p != [] {
      assert Edge(x, p[0]) in AsGraph(m).edges;
      if Mutual(AsGraph(m), x, p[0]) { FirstSame(m, x, p[0]); }
      FirstRises(m, p[0], p[1..], y);
    }
  }

  /** Nothing that x reaches is in v when v holds only components with an earlier first member. */
  lemma {:induction false} NothingToAvoid(m: Adjacency, v: set<nat>, x: nat, p: seq<nat>, y: nat)
    requires InputOrdered(m) && Path(AsGraph(m), x, p, y)
    requires forall z :: z in v ==> First(m, z) < First(m, x)
    ensures AvoidingPath(m, v, x, p, y)
    decreases |p|
  {
    if p != [] {
      assert Edge(x, p[0]) in AsGraph(m).edges;
      if Mutual(AsGraph(m), x, p[0]) { FirstSame(m, x, p[0]); }
      NothingToAvoid(m, v, p[0], p[1..], y);
    }
  }

  lemma AvoidsIffReach(m: Adjacency, v: set<nat>, x: nat, y: nat)
    requires InputOrdered(m) && forall z :: z in v ==> First(m, z) < First(m, x)
    ensures Avoids(m, v, x, y) <==> Reach(AsGraph(m), x, y)
  {
    if Reach(AsGraph(m), x, y) {
      var p :| Path(AsGraph(m), x, p, y);
      NothingToAvoid(m, v, x, p, y);
    }
    if Avoids(m, v, x, y) { AvoidsReach(m, v, x, y); }
  }

  /** After earlier components only, a round keeps exactly the component of its root. */
  lemma KeptIsComponent(m: Adjacency, t: set<nat>, v: set<nat>, root: nat, x: nat)
    requires InputOrdered(m) && t <= v && forall z :: z in v ==> First(m, z) < First(m, root)
    ensures Kept(m, t, v, root, x) <==> Mutual(AsGraph(m), root, x)
  {
    var g := AsGraph(m);
    AvoidsIffReach(m, t, root, x);
    if Reach(g, root, x) {
      var p :| Path(g, root, p, x);
      FirstRises(m, root, p, x);
      forall y: nat ensures Avoids(m, t, root, y) <==> Reach(g, root, y) { AvoidsIffReach(m, t, root, y); }
      forall y: nat ensures Avoids(m, v, x, y) <==> Reach(g, x, y) { AvoidsIffReach(m, v, x, y); }
      ReachSelf(g, root);
      if Mutual(g, root, x) {
        forall y: nat | Reach(g, root, y) ensures Reach(g, x, y) { ReachTrans(g, x, root, y); }
      }
    }
  }

  /** Groups so far: components, by rising first members, which are their roots. */
  ghost predicate Components(m: Adjacency, groups: seq<seq<nat>>) {
    && (forall k :: 0 <= k < |groups| ==> groups[k] != [] && First(m, groups[k][0]) == groups[k][0])
    && (forall k: nat, x: nat {:trigger x in groups[k]} :: k < |groups| ==> (x in groups[k] <==> Mutual(AsGraph(m), groups[k][0], x)))
    && (forall j, k :: 0 <= j < k < |groups| ==> groups[j][0] < groups[k][0])
  }

  lemma UnionHas(groups: seq<seq<nat>>, j: nat, x: nat)
    requires j < |groups| && x in groups[j]
    ensures x in Union(groups)
  {
  }

  lemma UnionGrows(groups: seq<seq<nat>>, j: nat, k: nat)
    requires j <= k <= |groups|
    ensures Union(groups[..j]) <= Union(groups[..k])
  {
    forall x | x in Union(groups[..j]) ensures x in Union(groups[..k]) {
      var i :| 0 <= i < j && x in groups[..j][i];
      assert x in groups[..k][i];
    }
  }

  /** Roots are taken in the order of the list. */
  lemma RootsRise(m: Adjacency, n: nat, groups: seq<seq<nat>>, j: nat, k: nat)
    requires Rounds(m, n, groups) && j < k < |groups|
    ensures groups[j][0] < groups[k][0]
  {
    assert Round(m, n, groups[..j], groups[j]) && Round(m, n, groups[..k], groups[k]);
    UnionGrows(groups, j, k);
    UnionHas(groups[..k], j, groups[j][0]);
  }

  lemma RootIsFirst(m: Adjacency, n: nat, prev: seq<seq<nat>>, group: seq<nat>)
    requires Components(m, prev) && Round(m, n, prev, group)
    ensures First(m, group[0]) == group[0]
  {
    hide Kept;
    var root := group[0];
    var f := First(m, root);
    if f < root {
      assert f in Union(prev);
      var j :| 0 <= j < |prev| && f in prev[j];
      MutualTrans(AsGraph(m), prev[j][0], f, root);
    }
  }

  lemma ComponentAdded(m: Adjacency, n: nat, prev: seq<seq<nat>>, group: seq<nat>)
    requires InputOrdered(m) && Components(m, prev) && Round(m, n, prev, group)
    requires forall j :: 0 <= j < |prev| ==> prev[j][0] < group[0]
    ensures Components(m, prev + [group])
  {
    hide Kept, Mutual, InputOrdered;
    var root, g := group[0], AsGraph(m);
    RootIsFirst(m, n, prev, group);
    forall z | z in Union(prev) ensures First(m, z) < First(m, root) {
      var j :| 0 <= j < |prev| && z in prev[j];
      FirstSame(m, prev[j][0], z);
    }
    forall x: nat ensures x in group <==> Mutual(g, root, x) {
      KeptIsComponent(m, Stale(prev), Union(prev), root, x);
    }
  }

  lemma {:induction false} GroupsAreComponents(m: Adjacency, n: nat, groups: seq<seq<nat>>, k: nat)
    requires InputOrdered(m) && Rounds(m, n, groups) && k <= |groups|
    ensures Components(m, groups[..k])
  {
    hide Components, Round, InputOrdered;
    RoundsNonempty(m, n, groups);
    if k == 0 {
      NoComponents(m);
    } else {
      GroupsAreComponents(m, n, groups, k - 1);
      var prev := groups[..k - 1];
      forall j: nat | j < |prev| ensures prev[j][0] < groups[k - 1][0] {
        RootsRise(m, n, groups, j, k - 1);
      }
      ComponentAdded(m, n, prev, groups[k - 1]);
      assert groups[..k] == prev + [groups[k - 1]];
    }
  }

  lemma RoundsNonempty(m: Adjacency, n: nat, groups: seq<seq<nat>>)
    requires Rounds(m, n, groups)
    ensures forall k :: 0 <= k < |groups| ==> groups[k] != []
  {
  }

  lemma NoComponents(m: Adjacency)
    ensures Components(m, [])
  {
  }

  lemma ComponentsExact(m: Adjacency, n: nat, groups: seq<seq<nat>>)
    requires InputOrdered(m) && Components(m, groups)
    ensures Exact(m, n, groups) && OutputOrdered(m, groups)
  {
    var g := AsGraph(m);
    forall k: nat, x: nat, y: nat | k < |groups| && x in groups[k] && y < n ensures y in groups[k] <==> Mutual(g, x, y) {
      var r := groups[k][0];
      if y in groups[k] { MutualTrans(g, x, r, y); }
      if Mutual(g, x, y) { MutualTrans(g, r, x, y); }
    }
    forall j: nat, k: nat, x: nat | j < k < |groups| && x in groups[j] ensures x !in groups[k] {
      FirstSame(m, groups[j][0], x);
      if x in groups[k] { FirstSame(m, groups[k][0], x); }
    }
    forall j: nat, k: nat, x: nat, y: nat | j < |groups| && k < |groups| && x in groups[j] && y in groups[k] && Edge(x, y) in g.edges
      ensures j <= k
    {
      FirstSame(m, groups[j][0], x);
      FirstSame(m, groups[k][0], y);
      if Mutual(g, x, y) { FirstSame(m, x, y); }
    }
  }

  lemma SmallerElsewhere(m: Adjacency, n: nat, groups: seq<seq<nat>>, k: nat, f: nat)
    requires Rounds(m, n, groups) && Exact(m, n, groups) && k < |groups| && groups[k] != [] && f < groups[k][0]
    ensures f !in groups[k]
  {
    assert Round(m, n, groups[..k], groups[k]);
    assert f in Union(groups[..k]);
    var j :| 0 <= j < k && f in groups[..k][j];
    assert f in groups[j];
  }

  lemma RootFirst(m: Adjacency, n: nat, groups: seq<seq<nat>>, k: nat, x: nat)
    requires Rounds(m, n, groups) && Exact(m, n, groups) && k < |groups| && x in groups[k]
    ensures First(m, x) == groups[k][0]
  {
    assert Round(m, n, groups[..k], groups[k]);
    var r := groups[k][0];
    RootMutual(m, n, groups, k, x);
    FirstSame(m, r, x);
    var f := First(m, r);
    assert r in groups[k];
    assert f in groups[k] <==> Mutual(AsGraph(m), r, f);
    if f < r { SmallerElsewhere(m, n, groups, k, f); }
  }

  /** The groups are the strongly connected components, each position once, in dependence order, exactly when
      the components listed by their first member are already in dependence order. */
  lemma ExactIffInputOrdered(m: Adjacency, n: nat, groups: seq<seq<nat>>)
    requires Rounds(m, n, groups) && (forall i: nat :: i < n ==> i in Union(groups))
    requires forall x, y :: x in m && y in m[x] ==> x < n && y < n
    ensures Exact(m, n, groups) && OutputOrdered(m, groups) <==> InputOrdered(m)
  {
    if InputOrdered(m) {
      GroupsAreComponents(m, n, groups, |groups|);
      assert groups[..|groups|] == groups;
      ComponentsExact(m, n, groups);
    }
    if Exact(m, n, groups) && OutputOrdered(m, groups) {
      forall x: nat, y: nat | Edge(x, y) in AsGraph(m).edges
        ensures Mutual(AsGraph(m), x, y) || First(m, x) < First(m, y)
      {
        EdgeOrdered(m, n, groups, x, y);
      }
    }
  }

  lemma EdgeOrdered(m: Adjacency, n: nat, groups: seq<seq<nat>>, x: nat, y: nat)
    requires Rounds(m, n, groups) && (forall i: nat :: i < n ==> i in Union(groups))
    requires Exact(m, n, groups) && OutputOrdered(m, groups) && Edge(x, y) in AsGraph(m).edges && x < n && y < n
    ensures Mutual(AsGraph(m), x, y) || First(m, x) < First(m, y)
  {
    assert x in Union(groups) && y in Union(groups);
    var j :| 0 <= j < |groups| && x in groups[j];
    var k :| 0 <= k < |groups| && y in groups[k];
    RootFirst(m, n, groups, j, x);
    RootFirst(m, n, groups, k, y);
    assert j <= k;
    if j < k {
      RootsRise(m, n, groups, j, k);
    } else {
      GroupsAreMutual(m, n, groups, j, x, y);
    }
  }

  // ---------- a graph on which the groups go wrong ----------

  /** Partition 0 is reached from the cycle of 1 and 2 that follows it in the list. */
  function LateCycle(): Adjacency {
    map[0 := {}, 1 := {0, 2}, 2 := {1}]
  }

  lemma AvoidsWithin(m: Adjacency, v: set<nat>, r: nat, s: set<nat>, x: nat)
    requires Avoids(m, v, r, x) && r in s && forall y, z :: y in s && z in Next(m, y) && z !in v ==> z in s
    ensures x in s
  {
    var p :| AvoidingPath(m, v, r, p, x);
    AvoidingStays(m, v, s, r, p, x);
  }

  lemma AvoidsOne(m: Adjacency, v: set<nat>, r: nat, x: nat)
    requires x in Next(m, r) && x !in v
    ensures Avoids(m, v, r, x)
  {
    AvoidsSelf(m, v, x);
    AvoidsStep(m, v, v, r, x, x);
  }

  lemma LateCycleAvoids(x: nat)
    ensures var m := LateCycle();
            && (Avoids(m, {}, 0, x) <==> x == 0) && (Avoids(m, {0}, 0, x) <==> x == 0)
            && (Avoids(m, {}, 1, x) <==> x == 0 || x == 1 || x == 2)
            && (Avoids(m, {0}, 1, x) ==> x == 1 || x == 2)
            && (Avoids(m, {0}, 2, x) <==> x == 1 || x == 2)
            && (Avoids(m, {0, 1}, 1, x) <==> x == 1 || x == 2)
  {
    var m := LateCycle();
    AvoidsSelf(m, {}, 0);
    AvoidsSelf(m, {0}, 0);
    AvoidsSelf(m, {}, 1);
    AvoidsOne(m, {}, 1, 0);
    AvoidsOne(m, {}, 1, 2);
    AvoidsSelf(m, {0}, 2);
    AvoidsOne(m, {0}, 2, 1);
    AvoidsSelf(m, {0, 1}, 1);
    AvoidsOne(m, {0, 1}, 1, 2);
    if Avoids(m, {}, 0, x) { AvoidsWithin(m, {}, 0, {0}, x); }
    if Avoids(m, {0}, 0, x) { AvoidsWithin(m, {0}, 0, {0}, x); }
    if Avoids(m, {}, 1, x) { AvoidsWithin(m, {}, 1, {0, 1, 2}, x); }
    if Avoids(m, {0}, 1, x) { AvoidsWithin(m, {0}, 1, {1, 2}, x); }
    if Avoids(m, {0}, 2, x) { AvoidsWithin(m, {0}, 2, {1, 2}, x); }
    if Avoids(m, {0, 1}, 1, x) { AvoidsWithin(m, {0, 1}, 1, {1, 2}, x); }
  }

  lemma LateCycleRounds()
    ensures Round(LateCycle(), 3, [], [0]) && Round(LateCycle(), 3, [[0]], [1]) && Round(LateCycle(), 3, [[0], [1]], [2, 1])
  {
    hide Kept;
    UnionOfTwo([0], [1]);
    var one, two: seq<seq<nat>> := [[0]], [[0], [1]];
    assert one[..0] == [] && two[..1] == one;
    assert Elements([0]) == {0} && Elements([1]) == {1};
    assert {0} + {1} == {0, 1};
    assert Stale([]) == {} && Stale(one) == {} && Stale(two) == {0} && Union(two) == {0, 1} && Union(one) == {0};
    forall x: nat
      ensures x in [0] <==> Kept(LateCycle(), {}, {}, 0, x)
      ensures x in [1] <==> Kept(LateCycle(), {}, {0}, 1, x)
      ensures x in [2, 1] <==> Kept(LateCycle(), {0}, {0, 1}, 2, x)
    {
      LateCycleKept(x);
    }
  }

  /** On it the rounds leave the component of 1 and 2 split, and 1 in two groups. */
  lemma SplitComponent()
    ensures Rounds(LateCycle(), 3, [[0], [1], [2, 1]])
    ensures !Exact(LateCycle(), 3, [[0], [1], [2, 1]])
  {
    hide Round;
    var groups: seq<seq<nat>> := [[0], [1], [2, 1]];
    LateCycleRounds();
    assert groups[..0] == [] && groups[..1] == [[0]] && groups[..2] == [[0], [1]];
    assert groups[1][0] in groups[1] && groups[2][1] == groups[1][0];
  }

  lemma UnionOfTwo(xs: seq<nat>, ys: seq<nat>)
    ensures Union([]) == {} && Union([xs]) == Elements(xs) && Union([xs, ys]) == Elements(xs) + Elements(ys)
  {
    assert forall x: nat :: x in xs ==> x in [xs][0] && x in [xs, ys][0];
    assert forall x: nat :: x in ys ==> x in [xs, ys][1];
  }

  lemma LateCycleKept(x: nat)
    ensures var m := LateCycle();
            && (Kept(m, {}, {}, 0, x) <==> x == 0)
            && (Kept(m, {}, {0}, 1, x) <==> x == 1)
            && (Kept(m, {0}, {0, 1}, 2, x) <==> x == 1 || x == 2)
  {
    forall y: nat
      ensures Avoids(LateCycle(), {}, 1, y) <==> y == 0 || y == 1 || y == 2
      ensures Avoids(LateCycle(), {0}, 2, y) <==> y == 1 || y == 2
      ensures Avoids(LateCycle(), {0, 1}, 1, y) <==> y == 1 || y == 2
      ensures Avoids(LateCycle(), {0}, 0, y) <==> y == 0
      ensures Avoids(LateCycle(), {}, 0, y) <==> y == 0
    {
      LateCycleAvoids(y);
    }
    assert Avoids(LateCycle(), {}, 1, 0) && Avoids(LateCycle(), {}, 1, 1);
    assert !Avoids(LateCycle(), {0}, 2, 0) && !Avoids(LateCycle(), {0}, 0, 1);
  }
}
