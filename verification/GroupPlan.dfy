/** From what the analyses report about a loop body to groups of its instructions, and when running the groups
    one after the other is safe. */
module GroupPlan {
  import opened Digraph
  import opened Distribution
  import DG = LoopDependences
  import RP = RegisterPartitions
  import PE = PartitionEdges
  import SG = SccGroups
  import R = Regrouping

  /** Two instructions of the body, one of which uses the result of the other. */
  ghost predicate Linked(facts: DG.Facts, ids: seq<nat>, x: nat, y: nat) {
    x in ids && y in ids && |ids| > 1 && (y in facts.uses(x) || x in facts.uses(y))
  }

  /** An oriented memory dependence leads from an instruction of partition p to one of partition q. */
  ghost predicate Orders(facts: DG.Facts, ids: seq<nat>, prdg: seq<seq<nat>>, p: nat, q: nat) {
    exists x: nat, y: nat :: DG.Oriented(facts, ids, x, y) && PE.Home(prdg, x, p) && PE.Home(prdg, y, q)
  }

  /** Partitions connected by registers, the memory dependences between them, and the groups built from these. */
  ghost predicate Planned(facts: DG.Facts, ids: seq<nat>, dual: RP.Adjacency, prdg: seq<seq<nat>>, edges: RP.Adjacency, groups: seq<seq<nat>>) {
    && dual.Keys == (set x | x in ids)
    && (forall x: nat, y: nat {:trigger y in RP.Next(dual, x)} :: y in RP.Next(dual, x) <==> Linked(facts, ids, x, y))
    && RP.ConnectedComponents(dual, prdg)
    && (forall p: nat, q: nat {:trigger q in RP.Next(edges, p)} :: q in RP.Next(edges, p) <==> Orders(facts, ids, prdg, p, q))
    && SG.Rounds(edges, |prdg|, groups) && forall p: nat :: p < |prdg| ==> p in SG.Union(groups)
  }

  lemma UsesLinked(facts: DG.Facts, ids: seq<nat>, memMap: RP.Adjacency, regMap: RP.Adjacency, dual: RP.Adjacency)
    requires regMap.Keys == (set x | x in ids)
    requires forall x :: x in ids ==> regMap[x] == if |ids| > 1 then (set y | y in facts.uses(x) && y in ids) else {}
    requires forall x: nat, y: nat :: y in RP.Next(dual, x) <==> y in RP.Next(regMap, x) || x in RP.Next(regMap, y)
    ensures forall x: nat, y: nat :: y in RP.Next(dual, x) <==> Linked(facts, ids, x, y)
  {
    forall x: nat, y: nat ensures y in RP.Next(regMap, x) <==> x in ids && y in ids && |ids| > 1 && y in facts.uses(x) {
      assert x in ids <==> x in regMap;
    }
    forall x: nat, y: nat ensures y in RP.Next(dual, x) <==> Linked(facts, ids, x, y) {
      assert y in RP.Next(dual, x) <==> y in RP.Next(regMap, x) || x in RP.Next(regMap, y);
    }
  }

  lemma EveryoneHeld(ids: seq<nat>, dual: RP.Adjacency, prdg: seq<seq<nat>>, memMap: RP.Adjacency)
    requires dual.Keys == (set x | x in ids) && RP.ConnectedComponents(dual, prdg)
    requires memMap.Keys == (set x | x in ids) && forall x, y :: x in memMap && y in memMap[x] ==> y in ids
    ensures PE.AllHeld(prdg, memMap)
  {
    forall x, y | x in memMap && y in memMap[x] ensures RP.Holds(prdg, x) && RP.Holds(prdg, y) {
      assert x in dual && y in dual;
    }
  }

  lemma LeadsIsOrders(facts: DG.Facts, ids: seq<nat>, prdg: seq<seq<nat>>, memMap: RP.Adjacency, p: nat, q: nat)
    requires memMap.Keys == (set x | x in ids)
    requires forall x, y :: x in ids ==> (y in memMap[x] <==> DG.Oriented(facts, ids, x, y))
    ensures PE.Leads(prdg, memMap, p, q) <==> Orders(facts, ids, prdg, p, q)
  {
    hide PE.Home;
    assert forall x, y :: DG.Oriented(facts, ids, x, y) ==> x in ids;
  }

  lemma EdgesBounded(facts: DG.Facts, ids: seq<nat>, prdg: seq<seq<nat>>, edges: RP.Adjacency)
    requires forall p: nat, q: nat :: q in RP.Next(edges, p) <==> Orders(facts, ids, prdg, p, q)
    ensures forall p, q :: p in edges && q in edges[p] ==> p < |prdg| && q < |prdg|
  {
    forall p, q | p in edges && q in edges[p] ensures p < |prdg| && q < |prdg| {
      assert q in RP.Next(edges, p);
    }
  }

  /** OutputBP with buildDG before it: everything from the reported facts to the groups and their instructions. A
      group's list holds what its partitions hold, nothing twice; exact groups share all instructions out. */
  method PlanGroups(facts: DG.Facts, ids: seq<nat>)
    returns (prdg: seq<seq<nat>>, edges: RP.Adjacency, groups: seq<seq<nat>>, lists: seq<seq<nat>>, ghost dual: RP.Adjacency)
    requires DG.Distinct(ids) && DG.Symmetric(facts)
    ensures Planned(facts, ids, dual, prdg, edges, groups)
    ensures forall p, q :: p in edges && q in edges[p] ==> p < |prdg| && q < |prdg|
    ensures Listing(prdg, groups, lists) && lists == Parts(prdg, groups)
    ensures SG.Exact(edges, |prdg|, groups) ==> SharedOut(ids, lists)
  {
    hide DG.Symmetric, DG.Oriented, RP.ConnectedComponents, RP.SymmetricMap, PE.Leads, PE.AllHeld, SG.Rounds, Orders, Linked, SG.Exact, SharedOut;
    var memMap, regMap := DG.BuildDependences(facts, ids);
    var both := RP.DualMap(regMap);
    RegistersClosed(ids, regMap, facts);
    UsesLinked(facts, ids, memMap, regMap, both);
    prdg := RP.BuildPartition(both);
    MemoryClosed(facts, ids, memMap);
    EveryoneHeld(ids, both, prdg, memMap);
    edges := PE.FindEdges(prdg, memMap);
    forall p: nat, q: nat ensures q in RP.Next(edges, p) <==> Orders(facts, ids, prdg, p, q) {
      LeadsIsOrders(facts, ids, prdg, memMap, p, q);
    }
    EdgesBounded(facts, ids, prdg, edges);
    groups := SG.BuildScc(|prdg|, edges);
    dual := both;
    GroupsBelow(facts, ids, dual, prdg, edges, groups);
    lists := Parts(prdg, groups);
    hide Planned, Listing;
    ListingOf(facts, ids, dual, prdg, edges, groups);
    if SG.Exact(edges, |prdg|, groups) { ListsArePermutation(facts, ids, dual, prdg, edges, groups, lists); }
  }

  lemma GroupsBelow(facts: DG.Facts, ids: seq<nat>, dual: RP.Adjacency, prdg: seq<seq<nat>>, edges: RP.Adjacency, groups: seq<seq<nat>>)
    requires Planned(facts, ids, dual, prdg, edges, groups)
    requires forall x, y :: x in edges && y in edges[x] ==> x < |prdg| && y < |prdg|
    ensures forall k, i :: 0 <= k < |groups| && 0 <= i < |groups[k]| ==> groups[k][i] < |prdg|
  {
    hide SG.Rounds, RP.ConnectedComponents, Orders, Linked;
    forall k: nat, i: nat | k < |groups| && i < |groups[k]| ensures groups[k][i] < |prdg| {
      SG.GroupsBelow(edges, |prdg|, groups, k, groups[k][i]);
    }
  }

  lemma RegistersClosed(ids: seq<nat>, regMap: RP.Adjacency, facts: DG.Facts)
    requires regMap.Keys == (set x | x in ids)
    requires forall x :: x in ids ==> regMap[x] == if |ids| > 1 then (set y | y in facts.uses(x) && y in ids) else {}
    ensures RP.KeysClosed(regMap)
  {
  }

  lemma MemoryClosed(facts: DG.Facts, ids: seq<nat>, memMap: RP.Adjacency)
    requires memMap.Keys == (set x | x in ids)
    requires forall x, y :: x in ids ==> (y in memMap[x] <==> DG.Oriented(facts, ids, x, y))
    ensures forall x, y :: x in memMap && y in memMap[x] ==> y in ids
  {
  }

  // ---------- the instructions of a group ----------

  /** The instructions of the partitions of a group, one partition after the other. */
  function Flatten(prdg: seq<seq<nat>>, group: seq<nat>): seq<nat>
    requires forall i :: 0 <= i < |group| ==> group[i] < |prdg|
  {
    if group == [] then [] else prdg[group[0]] + Flatten(prdg, group[1..])
  }

  lemma {:induction false} FlattenContent(prdg: seq<seq<nat>>, group: seq<nat>, x: nat)
    requires forall i :: 0 <= i < |group| ==> group[i] < |prdg|
    ensures x in Flatten(prdg, group) <==> exists p :: p in group && x in prdg[p]
  {
    if group != [] {
      FlattenContent(prdg, group[1..], x);
      assert group == [group[0]] + group[1..];
    }
  }

  /** The groups, each as the list of its instructions. */
  function Parts(prdg: seq<seq<nat>>, groups: seq<seq<nat>>): (r: seq<seq<nat>>)
    requires forall k, i :: 0 <= k < |groups| && 0 <= i < |groups[k]| ==> groups[k][i] < |prdg|
    ensures |r| == |groups| && forall k :: 0 <= k < |r| ==> r[k] == Flatten(prdg, groups[k])
  {
    seq(|groups|, k requires 0 <= k < |groups| => Flatten(prdg, groups[k]))
  }

  /** The partitions of a group. */
  function Chosen(prdg: seq<seq<nat>>, group: seq<nat>): (r: seq<seq<nat>>)
    requires forall i :: 0 <= i < |group| ==> group[i] < |prdg|
    ensures |r| == |group| && forall i :: 0 <= i < |r| ==> r[i] == prdg[group[i]]
  {
    seq(|group|, i requires 0 <= i < |group| => prdg[group[i]])
  }

  /** Everything that several lists hold, as often as they hold it. */
  ghost function Bag(lists: seq<seq<nat>>): multiset<nat> {
    if lists == [] then multiset{} else Bag(lists[..|lists| - 1]) + multiset(lists[|lists| - 1])
  }

  ghost function Lengths(lists: seq<seq<nat>>): nat {
    if lists == [] then 0 else Lengths(lists[..|lists| - 1]) + |lists[|lists| - 1]|
  }

  lemma {:induction false} FlatBag(lists: seq<seq<nat>>)
    ensures multiset(R.Flat(lists)) == Bag(lists) && |R.Flat(lists)| == Lengths(lists)
    decreases |lists|
  {
    if lists != [] { FlatBag(lists[..|lists| - 1]); }
  }

  lemma {:induction false} FlatCons(x: seq<nat>, lists: seq<seq<nat>>)
    ensures R.Flat([x] + lists) == x + R.Flat(lists)
    decreases |lists|
  {
    var all := [x] + lists;
    if lists == [] {
      assert all[..0] == [];
    } else {
      var n := |lists| - 1;
      FlatCons(x, lists[..n]);
      assert all[..|all| - 1] == [x] + lists[..n];
    }
  }

  /** The list of a group is that of its partitions put one behind the other, each once. */
  lemma {:induction false} FlattenIsFlat(prdg: seq<seq<nat>>, group: seq<nat>)
    requires forall i :: 0 <= i < |group| ==> group[i] < |prdg|
    ensures Flatten(prdg, group) == R.Flat(Chosen(prdg, group))
    decreases |group|
  {
    if group != [] {
      FlattenIsFlat(prdg, group[1..]);
      FlatCons(prdg[group[0]], Chosen(prdg, group[1..]));
      assert Chosen(prdg, group) == [prdg[group[0]]] + Chosen(prdg, group[1..]);
    }
  }

  ghost predicate AllApart(lists: seq<seq<nat>>) {
    && (forall i :: 0 <= i < |lists| ==> RP.Unique(lists[i]))
    && forall i, j :: 0 <= i < j < |lists| ==> RP.Apart(lists[i], lists[j])
  }

  lemma {:induction false} InFlat(lists: seq<seq<nat>>, x: nat)
    ensures x in R.Flat(lists) <==> exists i :: 0 <= i < |lists| && x in lists[i]
    decreases |lists|
  {
    if lists != [] {
      var n := |lists| - 1;
      InFlat(lists[..n], x);
      if i :| 0 <= i < |lists| && x in lists[i] {
        assert i < n ==> x in lists[..n][i];
      }
    }
  }

  lemma {:induction false} FlatUnique(lists: seq<seq<nat>>)
    requires AllApart(lists)
    ensures RP.Unique(R.Flat(lists))
    decreases |lists|
  {
    if lists != [] {
      var n := |lists| - 1;
      FlatUnique(lists[..n]);
      forall x | x in R.Flat(lists[..n]) ensures x !in lists[n] {
        InFlat(lists[..n], x);
        var i :| 0 <= i < n && x in lists[..n][i];
        assert RP.Apart(lists[i], lists[n]);
      }
      UniqueJoined(R.Flat(lists[..n]), lists[n]);
    }
  }

  lemma UniqueJoined(xs: seq<nat>, ys: seq<nat>)
    requires RP.Unique(xs) && RP.Unique(ys) && forall x :: x in xs ==> x !in ys
    ensures RP.Unique(xs + ys)
  {
    var all := xs + ys;
    forall i, j | 0 <= i < j < |all| ensures all[i] != all[j] {
      if i < |xs| <= j { assert all[i] in xs && all[j] == ys[j - |xs|]; }
    }
  }

  lemma {:induction false} UniqueBag(xs: seq<nat>, x: nat)
    requires RP.Unique(xs)
    ensures multiset(xs)[x] == if x in xs then 1 else 0
    decreases |xs|
  {
    if xs != [] {
      var n := |xs| - 1;
      UniqueBag(xs[..n], x);
      assert xs == xs[..n] + [xs[n]];
    }
  }

  lemma SameBag(xs: seq<nat>, ys: seq<nat>)
    requires RP.Unique(xs) && RP.Unique(ys) && forall x :: x in xs <==> x in ys
    ensures multiset(xs) == multiset(ys)
  {
    forall x: nat ensures multiset(xs)[x] == multiset(ys)[x] {
      UniqueBag(xs, x);
      UniqueBag(ys, x);
    }
  }

  /** The lists of the groups hold every partition of their group once, and no instruction twice. */
  ghost predicate Listing(prdg: seq<seq<nat>>, groups: seq<seq<nat>>, lists: seq<seq<nat>>) {
    && |lists| == |groups|
    && (forall k, i :: 0 <= k < |groups| && 0 <= i < |groups[k]| ==> groups[k][i] < |prdg|)
    && (forall k :: 0 <= k < |lists| ==>
          && multiset(lists[k]) == Bag(Chosen(prdg, groups[k])) && |lists[k]| == Lengths(Chosen(prdg, groups[k]))
          && lists[k] == R.Flat(Chosen(prdg, groups[k])) && RP.Unique(lists[k]))
  }

  lemma GroupOnce(facts: DG.Facts, ids: seq<nat>, dual: RP.Adjacency, prdg: seq<seq<nat>>, edges: RP.Adjacency, groups: seq<seq<nat>>, k: nat)
    requires Planned(facts, ids, dual, prdg, edges, groups) && k < |groups| && forall i :: 0 <= i < |groups[k]| ==> groups[k][i] < |prdg|
    ensures AllApart(Chosen(prdg, groups[k]))
  {
    hide Linked, Orders;
    var g := groups[k];
    assert SG.Round(edges, |prdg|, groups[..k], g);
    forall i | 0 <= i < |g| ensures RP.Unique(prdg[g[i]]) { assert RP.Whole(dual, prdg[g[i]]); }
    forall i, j | 0 <= i < j < |g| ensures RP.Apart(prdg[g[i]], prdg[g[j]]) {
      assert g[i] != g[j];
      assert if g[i] < g[j] then RP.Apart(prdg[g[i]], prdg[g[j]]) else RP.Apart(prdg[g[j]], prdg[g[i]]);
    }
  }

  lemma ListingOf(facts: DG.Facts, ids: seq<nat>, dual: RP.Adjacency, prdg: seq<seq<nat>>, edges: RP.Adjacency, groups: seq<seq<nat>>)
    requires Planned(facts, ids, dual, prdg, edges, groups)
    requires forall k, i :: 0 <= k < |groups| && 0 <= i < |groups[k]| ==> groups[k][i] < |prdg|
    ensures Listing(prdg, groups, Parts(prdg, groups))
  {
    var lists := Parts(prdg, groups);
    hide Planned, Flatten, AllApart, RP.Unique, Bag, Lengths;
    forall k | 0 <= k < |lists|
      ensures multiset(lists[k]) == Bag(Chosen(prdg, groups[k])) && |lists[k]| == Lengths(Chosen(prdg, groups[k]))
      ensures lists[k] == R.Flat(Chosen(prdg, groups[k])) && RP.Unique(lists[k])
    {
      FlattenIsFlat(prdg, groups[k]);
      FlatBag(Chosen(prdg, groups[k]));
      GroupOnce(facts, ids, dual, prdg, edges, groups, k);
      FlatUnique(Chosen(prdg, groups[k]));
    }
  }

  lemma InList(prdg: seq<seq<nat>>, groups: seq<seq<nat>>, lists: seq<seq<nat>>, k: nat, x: nat)
    requires Listing(prdg, groups, lists) && k < |lists|
    ensures x in lists[k] <==> exists q :: q in groups[k] && x in prdg[q]
  {
    var c := Chosen(prdg, groups[k]);
    InFlat(c, x);
    if q :| q in groups[k] && x in prdg[q] {
      var i :| 0 <= i < |groups[k]| && groups[k][i] == q;
      assert x in c[i];
    }
  }

  /** Every one of ids is in exactly one of the lists, once, and nothing else is there. */
  ghost predicate SharedOut(ids: seq<nat>, lists: seq<seq<nat>>) {
    AllApart(lists) && multiset(R.Flat(lists)) == multiset(ids)
  }

  lemma UniqueFromBag(xs: seq<nat>, ys: seq<nat>)
    requires multiset(xs) == multiset(ys) && RP.Unique(ys)
    ensures RP.Unique(xs)
  {
    forall i, j | 0 <= i < j < |xs| ensures xs[i] != xs[j] {
      UniqueBag(ys, xs[i]);
      var a, b := xs[..j], xs[j..];
      assert xs == a + b && a[i] == xs[i] && b[0] == xs[j];
      assert multiset(xs)[xs[i]] == multiset(a)[xs[i]] + multiset(b)[xs[i]];
      assert xs[i] in multiset(a) && xs[j] in multiset(b);
    }
  }

  lemma {:induction false} ApartFromFlat(lists: seq<seq<nat>>)
    requires RP.Unique(R.Flat(lists))
    ensures AllApart(lists)
    decreases |lists|
  {
    if lists != [] {
      var n := |lists| - 1;
      var a, b := R.Flat(lists[..n]), lists[n];
      assert R.Flat(lists) == a + b;
      assert forall i :: 0 <= i < |a| ==> (a + b)[i] == a[i];
      assert forall i :: 0 <= i < |b| ==> (a + b)[|a| + i] == b[i];
      ApartFromFlat(lists[..n]);
      forall i, x | 0 <= i < n && x in lists[i] ensures x !in b {
        assert x in lists[..n][i];
        InFlat(lists[..n], x);
      }
      forall i | 0 <= i < |lists| ensures RP.Unique(lists[i]) { assert i < n ==> lists[..n][i] == lists[i]; }
      forall i, j | 0 <= i < j < |lists| ensures RP.Apart(lists[i], lists[j]) {
        if j < n { assert RP.Apart(lists[..n][i], lists[..n][j]); }
      }
    }
  }

  /** Regrouping shares out what was shared out. */
  lemma RegroupedShares(ids: seq<nat>, lists: seq<seq<nat>>, cut: seq<nat>)
    requires DG.Distinct(ids) && |lists| == |cut| + 3 && SharedOut(ids, lists)
    ensures SharedOut(ids, R.Regrouped(lists, cut))
  {
    R.FlatOfRegrouped(lists, cut);
    hide AllApart, R.Regrouped, R.Flat;
    UniqueFromBag(R.Flat(R.Regrouped(lists, cut)), ids);
    ApartFromFlat(R.Regrouped(lists, cut));
  }

  /** Where the groups are exact, their lists together are a permutation of the analysed instructions. */
  lemma ListsArePermutation(facts: DG.Facts, ids: seq<nat>, dual: RP.Adjacency, prdg: seq<seq<nat>>, edges: RP.Adjacency,
                            groups: seq<seq<nat>>, lists: seq<seq<nat>>)
    requires DG.Distinct(ids) && Planned(facts, ids, dual, prdg, edges, groups) && Listing(prdg, groups, lists)
    requires SG.Exact(edges, |prdg|, groups)
    ensures SharedOut(ids, lists)
  {
    hide Linked, Orders, Listing;
    assert |lists| == |groups| by { ListingSize(prdg, groups, lists); }
    forall i | 0 <= i < |lists| ensures RP.Unique(lists[i]) { ListingSize(prdg, groups, lists); }
    forall i, j | 0 <= i < j < |lists| ensures RP.Apart(lists[i], lists[j]) {
      ListsApart(facts, ids, dual, prdg, edges, groups, lists, i, j);
    }
    FlatUnique(lists);
    forall x: nat ensures x in R.Flat(lists) <==> x in ids { ListedIff(facts, ids, dual, prdg, edges, groups, lists, x); }
    SameBag(R.Flat(lists), ids);
  }

  lemma ListingSize(prdg: seq<seq<nat>>, groups: seq<seq<nat>>, lists: seq<seq<nat>>)
    requires Listing(prdg, groups, lists)
    ensures |lists| == |groups| && forall k :: 0 <= k < |lists| ==> RP.Unique(lists[k])
    ensures forall k, i :: 0 <= k < |groups| && 0 <= i < |groups[k]| ==> groups[k][i] < |prdg|
  {
    hide RP.Unique, Bag, Lengths;
  }

  lemma ListsApart(facts: DG.Facts, ids: seq<nat>, dual: RP.Adjacency, prdg: seq<seq<nat>>, edges: RP.Adjacency,
                   groups: seq<seq<nat>>, lists: seq<seq<nat>>, i: nat, j: nat)
    requires Planned(facts, ids, dual, prdg, edges, groups) && Listing(prdg, groups, lists)
    requires SG.Exact(edges, |prdg|, groups) && i < j < |lists|
    ensures RP.Apart(lists[i], lists[j])
  {
    hide Linked, Orders, Listing, SG.Rounds;
    ListingSize(prdg, groups, lists);
    forall x | x in lists[i] ensures x !in lists[j] {
      InList(prdg, groups, lists, i, x);
      InList(prdg, groups, lists, j, x);
      var q :| q in groups[i] && x in prdg[q];
      if r :| r in groups[j] && x in prdg[r] {
        HomeIsOnly(dual, prdg, x, q);
        HomeIsOnly(dual, prdg, x, r);
      }
    }
  }

  lemma ListedIff(facts: DG.Facts, ids: seq<nat>, dual: RP.Adjacency, prdg: seq<seq<nat>>, edges: RP.Adjacency,
                  groups: seq<seq<nat>>, lists: seq<seq<nat>>, x: nat)
    requires Planned(facts, ids, dual, prdg, edges, groups) && Listing(prdg, groups, lists)
    ensures x in R.Flat(lists) <==> x in ids
  {
    hide Linked, Orders, Listing, SG.Rounds;
    ListingSize(prdg, groups, lists);
    InFlat(lists, x);
    if x in R.Flat(lists) {
      var k :| 0 <= k < |lists| && x in lists[k];
      InList(prdg, groups, lists, k, x);
      var q :| q in groups[k] && x in prdg[q];
      assert RP.Whole(dual, prdg[q]);
    }
    if x in ids {
      assert x in dual && RP.Holds(prdg, x);
      var q: nat :| q < |prdg| && x in prdg[q];
      assert q in SG.Union(groups);
      var k: nat :| k < |groups| && q in groups[k];
      InList(prdg, groups, lists, k, x);
    }
  }

  // ---------- safety ----------

  /** The analysis reports that x in iteration i may touch what y touches in iteration j. */
  ghost predicate Reports(facts: DG.Facts, x: nat, y: nat, i: nat, j: nat) {
    && facts.accesses(x) && facts.accesses(y) && facts.depends(x, y).Dependence?
    && var d := facts.depends(x, y).dirs;
       d == {} || if i < j then DG.LT in d else DG.EQ in d
  }

  /** The statements of a loop: instructions of the body, in their order. */
  ghost predicate InSequence(ids: seq<nat>, names: seq<nat>) {
    && (forall s :: 0 <= s < |names| ==> names[s] in ids)
    && forall s, t {:trigger names[s], names[t]} :: 0 <= s < t < |names| ==> DG.Precedes(ids, names[s], names[t])
  }

  /** The analyses miss nothing: statements s and t that conflict, s first, are the same statement, or one uses
      the result of the other, or their memory dependence is reported with its direction. */
  ghost predicate Sound(b: Body, trips: nat, names: seq<nat>, facts: DG.Facts)
    requires |b| == |names|
  {
    forall s: nat, t: nat, i: nat, j: nat {:trigger Conflict(b[s](i), b[t](j))} ::
      s < |b| && t < |b| && i < trips && j < trips && Earlier(Inst(s, i), Inst(t, j)) && Conflict(b[s](i), b[t](j)) ==>
      s == t || names[t] in facts.uses(names[s]) || names[s] in facts.uses(names[t]) || Reports(facts, names[s], names[t], i, j)
  }

  /** group gives the group that holds a statement. */
  ghost predicate Assigns(names: seq<nat>, prdg: seq<seq<nat>>, groups: seq<seq<nat>>, group: nat -> nat) {
    && (forall k, i :: 0 <= k < |groups| && 0 <= i < |groups[k]| ==> groups[k][i] < |prdg|)
    && forall s: nat :: s < |names| ==> group(s) < |groups| && names[s] in Flatten(prdg, groups[group(s)])
  }

  lemma HomeIsOnly(dual: RP.Adjacency, prdg: seq<seq<nat>>, x: nat, p: nat)
    requires RP.ConnectedComponents(dual, prdg) && p < |prdg| && x in prdg[p]
    ensures PE.Home(prdg, x, p)
  {
    forall q | 0 <= q < p ensures x !in prdg[q] {
      assert RP.Apart(prdg[q], prdg[p]);
    }
  }

  lemma LinkedTogether(dual: RP.Adjacency, prdg: seq<seq<nat>>, x: nat, y: nat, p: nat, q: nat)
    requires RP.ConnectedComponents(dual, prdg) && y in RP.Next(dual, x) && p < |prdg| && x in prdg[p] && q < |prdg| && y in prdg[q]
    ensures p == q
  {
    ReachEdge(RP.AsGraph(dual), x, y);
    assert RP.Whole(dual, prdg[p]);
    assert y in prdg[p];
    HomeIsOnly(dual, prdg, y, p);
    HomeIsOnly(dual, prdg, y, q);
  }

  lemma GroupHoldsPartition(prdg: seq<seq<nat>>, group: seq<nat>, x: nat) returns (p: nat)
    requires (forall i :: 0 <= i < |group| ==> group[i] < |prdg|) && x in Flatten(prdg, group)
    ensures p in group && p < |prdg| && x in prdg[p]
  {
    FlattenContent(prdg, group, x);
    p :| p in group && x in prdg[p];
  }

  lemma ReportIsOriented(facts: DG.Facts, ids: seq<nat>, names: seq<nat>, s: nat, t: nat, i: nat, j: nat)
    requires DG.Distinct(ids) && InSequence(ids, names) && s < |names| && t < |names| && s != t
    requires Earlier(Inst(s, i), Inst(t, j)) && Reports(facts, names[s], names[t], i, j)
    ensures DG.Oriented(facts, ids, names[s], names[t])
  {
    if s < t { assert DG.Precedes(ids, names[s], names[t]); } else { assert DG.Precedes(ids, names[t], names[s]); }
  }

  /** Where the groups come out exact and ordered, a dependence never leads to an earlier group. */
  lemma DependenceRises(b: Body, trips: nat, facts: DG.Facts, ids: seq<nat>, names: seq<nat>, dual: RP.Adjacency, prdg: seq<seq<nat>>,
                        edges: RP.Adjacency, groups: seq<seq<nat>>, group: nat -> nat, s: nat, t: nat)
    requires DG.Distinct(ids) && InSequence(ids, names) && |b| == |names| && Planned(facts, ids, dual, prdg, edges, groups)
    requires SG.Exact(edges, |prdg|, groups) && SG.OutputOrdered(edges, groups)
    requires Sound(b, trips, names, facts) && Assigns(names, prdg, groups, group)
    requires s < |b| && t < |b| && Depends(b, trips, s, t)
    ensures group(s) <= group(t)
  {
    hide Conflict, Reports, Linked, DG.Oriented, PE.Home, SG.Rounds, RP.ConnectedComponents, Flatten;
    var i: nat, j: nat :| i < trips && j < trips && Earlier(Inst(s, i), Inst(t, j)) && Conflict(b[s](i), b[t](j));
    var x, y := names[s], names[t];
    var p := GroupHoldsPartition(prdg, groups[group(s)], x);
    var q := GroupHoldsPartition(prdg, groups[group(t)], y);
    if s != t {
      if y in facts.uses(x) || x in facts.uses(y) {
        assert Linked(facts, ids, x, y) by { UseIsLink(facts, ids, names, s, t); }
        assert y in RP.Next(dual, x);
        LinkedTogether(dual, prdg, x, y, p, q);
      } else {
        ReportIsOriented(facts, ids, names, s, t, i, j);
        HomeIsOnly(dual, prdg, x, p);
        HomeIsOnly(dual, prdg, y, q);
        assert Orders(facts, ids, prdg, p, q);
        assert q in RP.Next(edges, p);
        assert Edge(p, q) in RP.AsGraph(edges).edges;
      }
    }
  }

  lemma UseIsLink(facts: DG.Facts, ids: seq<nat>, names: seq<nat>, s: nat, t: nat)
    requires InSequence(ids, names) && s < |names| && t < |names| && s != t
    requires names[t] in facts.uses(names[s]) || names[s] in facts.uses(names[t])
    ensures Linked(facts, ids, names[s], names[t])
  {
    if s < t { assert DG.Precedes(ids, names[s], names[t]); } else { assert DG.Precedes(ids, names[t], names[s]); }
  }

  /** If the partitions, listed by the first member of their component, are already in dependence order, then no
      dependence of a run leads to an earlier group. */
  lemma PlannedGroupsLegal(b: Body, trips: nat, facts: DG.Facts, ids: seq<nat>, names: seq<nat>, dual: RP.Adjacency, prdg: seq<seq<nat>>,
                           edges: RP.Adjacency, groups: seq<seq<nat>>, group: nat -> nat)
    requires DG.Distinct(ids) && InSequence(ids, names) && |b| == |names| && Planned(facts, ids, dual, prdg, edges, groups)
    requires forall p, q :: p in edges && q in edges[p] ==> p < |prdg| && q < |prdg|
    requires SG.InputOrdered(edges)
    requires Sound(b, trips, names, facts) && Assigns(names, prdg, groups, group)
    ensures Legal(b, trips, group)
  {
    hide Sound, Depends, SG.Exact, SG.OutputOrdered, SG.InputOrdered, RP.ConnectedComponents, Orders, Linked, Assigns, InSequence;
    SG.ExactIffInputOrdered(edges, |prdg|, groups);
    forall s: nat, t: nat | s < |b| && t < |b| && Depends(b, trips, s, t) ensures group(s) <= group(t) {
      DependenceRises(b, trips, facts, ids, names, dual, prdg, edges, groups, group, s, t);
    }
  }

  /** Then running the groups as loops, one after the other, computes what the loop computes. */
  lemma PlannedGroupsPreserve(b: Body, trips: nat, facts: DG.Facts, ids: seq<nat>, names: seq<nat>, dual: RP.Adjacency, prdg: seq<seq<nat>>,
                              edges: RP.Adjacency, groups: seq<seq<nat>>, group: nat -> nat, st: Store)
    requires DG.Distinct(ids) && InSequence(ids, names) && |b| == |names| && Planned(facts, ids, dual, prdg, edges, groups)
    requires forall p, q :: p in edges && q in edges[p] ==> p < |prdg| && q < |prdg|
    requires SG.InputOrdered(edges)
    requires Sound(b, trips, names, facts) && Assigns(names, prdg, groups, group)
    ensures Within(b, Original(|b|, trips)) && Within(b, Loops(|b|, trips, group, |groups|))
    ensures Run(Ops(b, Original(|b|, trips)), st) == Run(Ops(b, Loops(|b|, trips, group, |groups|)), st)
  {
    hide Sound, Within, Legal, SG.InputOrdered, Planned, InSequence;
    PlannedGroupsLegal(b, trips, facts, ids, names, dual, prdg, edges, groups, group);
    DistributionPreserves(b, trips, group, |groups|, st);
  }
}
