/** The exact content of the partitions that mark_partitions leaves on the statements. */
module PartitionMeaning {
  import opened Digraph
  import opened StatementGraph

  predicate Unrepeated(s: seq<nat>) {
    forall i, j :: 0 <= i < j < |s| ==> s[i] != s[j]
  }

  function UpTo(p: nat): (r: seq<nat>)
    ensures |r| == p && forall i :: 0 <= i < p ==> r[i] == i + 1
  {
    if p == 0 then [] else UpTo(p - 1) + [p]
  }

  /** Statement u is in partition k when it was reached from the k-th root. The roots are statements with
      array references, none of which reaches another. */
  ghost predicate Rooted(b: Body, roots: seq<nat>, parts: seq<seq<nat>>) {
    && |parts| == |b.hasRef|
    && (forall i :: 0 <= i < |roots| ==> roots[i] < |b.hasRef| && b.hasRef[roots[i]])
    && (forall i, j :: 0 <= i < |roots| && 0 <= j < |roots| && i != j ==> !Reach(Moves(b), roots[i], roots[j]))
    && (forall u :: 0 <= u < |parts| ==> Unrepeated(parts[u]))
    && (forall u: nat, k: nat {:trigger Marked(parts, u, k)} :: u < |parts| ==>
          (Marked(parts, u, k) <==> 1 <= k <= |roots| && Reach(Moves(b), roots[k - 1], u)))
  }

  predicate Marked(parts: seq<seq<nat>>, u: nat, k: nat)
    requires u < |parts|
  {
    k in parts[u]
  }

  /** No array statement is left without a partition. */
  ghost predicate AllPlaced(b: Body, parts: seq<seq<nat>>)
    requires |parts| == |b.hasRef|
  {
    forall u :: 0 <= u < |parts| && b.hasRef[u] ==> parts[u] != []
  }

  /** x feeds, through scalars only, some fixed statement. */
  ghost predicate Feeds(b: Body, x: nat) {
    exists m: nat :: m < |b.hasRef| && Fixed(b, m) && Reach(Scalars(b), x, m)
  }

  ghost predicate FeedsPartition(b: Body, parts: seq<seq<nat>>, x: nat, k: nat) {
    exists m: nat :: m < |parts| && Fixed(b, m) && parts[m] == [k] && Reach(Scalars(b), x, m)
  }

  ghost predicate InOne(s: seq<nat>, p: nat) {
    exists k: nat :: 1 <= k <= p && s == [k]
  }

  /** What the partitions are: fixed statements are in one partition, shared exactly with the fixed statements
      connected to them; any other statement is recomputed in every partition it feeds, and in all of them
      if it feeds none. */
  ghost predicate ExactPartitions(b: Body, parts: seq<seq<nat>>, p: nat) {
    && |parts| == |b.hasRef|
    && (forall u: nat {:trigger Fixed(b, u)} :: u < |parts| && Fixed(b, u) ==> InOne(parts[u], p))
    && (forall u: nat, v: nat {:trigger Connected(b, u, v)} :: u < |parts| && v < |parts| && Fixed(b, u) && Fixed(b, v) ==>
          (parts[u] == parts[v] <==> Connected(b, u, v)))
    && (forall x: nat {:trigger Feeds(b, x)} :: x < |parts| && !Fixed(b, x) && !Feeds(b, x) ==> parts[x] == UpTo(p))
    && (forall x: nat, k: nat {:trigger FeedsPartition(b, parts, x, k)} :: x < |parts| && !Fixed(b, x) && Feeds(b, x) ==>
          Unrepeated(parts[x]) && (k in parts[x] <==> FeedsPartition(b, parts, x, k)))
  }

  ghost predicate HasArray(b: Body, parts: seq<seq<nat>>, k: nat)
    requires |parts| == |b.hasRef|
  {
    exists u: nat :: u < |parts| && b.hasRef[u] && parts[u] == [k]
  }

  /** Every partition holds an array statement, so p is the number of groups of connected fixed statements. */
  ghost predicate NoneSuperfluous(b: Body, parts: seq<seq<nat>>, p: nat) {
    && |parts| == |b.hasRef|
    && forall k: nat {:trigger HasArray(b, parts, k)} :: 1 <= k <= p ==> HasArray(b, parts, k)
  }

  lemma ArrayIsFixed(b: Body, a: nat)
    requires a < |b.hasRef| && b.hasRef[a]
    ensures Fixed(b, a)
  {
    ReachSelf(Scalars(b), a);
  }

  lemma MarkedIffConnected(b: Body, roots: seq<nat>, parts: seq<seq<nat>>, u: nat, k: nat)
    requires Rooted(b, roots, parts) && u < |parts| && Fixed(b, u)
    ensures Marked(parts, u, k) <==> 1 <= k <= |roots| && Connected(b, roots[k - 1], u)
  {
    if 1 <= k <= |roots| {
      ArrayIsFixed(b, roots[k - 1]);
      MovesMeaning(b, roots[k - 1], u);
    }
  }

  lemma OneRoot(b: Body, roots: seq<nat>, parts: seq<seq<nat>>, u: nat, k: nat, l: nat)
    requires Rooted(b, roots, parts) && u < |parts| && Fixed(b, u) && Marked(parts, u, k) && Marked(parts, u, l)
    ensures l == k
  {
    MarkedIffConnected(b, roots, parts, u, k);
    MarkedIffConnected(b, roots, parts, u, l);
    var r, s := roots[k - 1], roots[l - 1];
    ConnectedSymmetric(b, s, u);
    ReachTrans(Joined(b), r, u, s);
    ArrayIsFixed(b, r);
    ArrayIsFixed(b, s);
    MovesMeaning(b, r, s);
  }

  lemma SomeRoot(b: Body, roots: seq<nat>, parts: seq<seq<nat>>, u: nat) returns (k: nat)
    requires Rooted(b, roots, parts) && AllPlaced(b, parts) && u < |parts| && Fixed(b, u)
    ensures Marked(parts, u, k)
  {
    var a: nat :| a < |b.hasRef| && b.hasRef[a] && Reach(Scalars(b), a, u);
    k := parts[a][0];
    assert Marked(parts, a, k);
    ArrayIsFixed(b, a);
    var p :| Path(Scalars(b), a, p, u);
    FixedMovesDown(b, a, p, u);
    ReachTrans(Moves(b), roots[k - 1], a, u);
  }

  lemma TwoElements(s: seq<nat>)
    requires Unrepeated(s)
    ensures |s| > 1 ==> s[0] in s && s[1] in s && s[0] != s[1]
  {
  }

  lemma SingletonList(s: seq<nat>, k: nat)
    requires Unrepeated(s) && k in s && forall l :: l in s ==> l == k
    ensures s == [k]
  {
    TwoElements(s);
  }

  /** A fixed statement was reached from exactly one root. */
  lemma FixedPlaced(b: Body, roots: seq<nat>, parts: seq<seq<nat>>, u: nat) returns (k: nat)
    requires Rooted(b, roots, parts) && AllPlaced(b, parts) && u < |parts| && Fixed(b, u)
    ensures 1 <= k <= |roots| && parts[u] == [k] && Connected(b, roots[k - 1], u)
  {
    RootedLists(b, roots, parts);
    k := SomeRoot(b, roots, parts, u);
    MarkedIffConnected(b, roots, parts, u, k);
    hide Rooted, AllPlaced, Fixed, Connected;
    forall l: nat | l in parts[u] ensures l == k {
      OneRoot(b, roots, parts, u, k, l);
    }
    SingletonList(parts[u], k);
  }

  lemma SharedIffConnected(b: Body, roots: seq<nat>, parts: seq<seq<nat>>, u: nat, v: nat)
    requires Rooted(b, roots, parts) && AllPlaced(b, parts) && u < |parts| && v < |parts| && Fixed(b, u) && Fixed(b, v)
    ensures parts[u] == parts[v] <==> Connected(b, u, v)
  {
    hide Rooted, AllPlaced, Fixed;
    var k := FixedPlaced(b, roots, parts, u);
    var l := FixedPlaced(b, roots, parts, v);
    if k == l {
      ConnectedSymmetric(b, roots[k - 1], u);
      ReachTrans(Joined(b), u, roots[k - 1], v);
    }
    if Connected(b, u, v) {
      ReachTrans(Joined(b), roots[k - 1], u, v);
      MarkedIffConnected(b, roots, parts, v, k);
    }
  }

  lemma RecomputedWhereFed(b: Body, roots: seq<nat>, parts: seq<seq<nat>>, x: nat, k: nat)
    requires Rooted(b, roots, parts) && AllPlaced(b, parts) && b.Wf() && x < |parts|
    ensures k in parts[x] <==> FeedsPartition(b, parts, x, k)
  {
    assert k in parts[x] <==> Marked(parts, x, k);
    if k in parts[x] {
      var r := roots[k - 1];
      ArrayIsFixed(b, r);
      MovesMeaning(b, r, x);
      var m: nat :| Fixed(b, m) && Connected(b, r, m) && Reach(Scalars(b), x, m);
      BoundedAbove(b, x, m);
      MovesMeaning(b, r, m);
      assert Marked(parts, m, k);
      var l := FixedPlaced(b, roots, parts, m);
    }
    if FeedsPartition(b, parts, x, k) {
      var m: nat :| m < |parts| && Fixed(b, m) && parts[m] == [k] && Reach(Scalars(b), x, m);
      assert Marked(parts, m, k);
      var q :| Path(Scalars(b), x, q, m);
      AncestorsMove(b, x, q, m);
      ReachTrans(Moves(b), roots[k - 1], m, x);
    }
  }

  lemma BoundedAbove(b: Body, x: nat, m: nat)
    requires b.Wf() && x < |b.hasRef| && Reach(Scalars(b), x, m)
    ensures m < |b.hasRef|
  {
    var g := Scalars(b);
    forall i | 0 <= i < |g.edges| ensures g.edges[i].source < g.n && g.edges[i].sink < g.n {
      var e := g.edges[i];
      assert Edge(e.source, e.sink) in g.edges;
      assert Dep(e.source, e.sink, true) in b.deps;
    }
    ReachBounded(g, x, m);
  }

  /** The final step of mark_partitions: statements in no partition go into all of them. */
  function FillIn(parts: seq<seq<nat>>, p: nat): (r: seq<seq<nat>>)
    ensures |r| == |parts| && forall u :: 0 <= u < |r| ==> r[u] == if parts[u] == [] then UpTo(p) else parts[u]
  {
    seq(|parts|, u requires 0 <= u < |parts| => if parts[u] == [] then UpTo(p) else parts[u])
  }

  lemma EmptyIffFeedsNothing(b: Body, roots: seq<nat>, parts: seq<seq<nat>>, x: nat)
    requires Rooted(b, roots, parts) && AllPlaced(b, parts) && b.Wf() && x < |parts|
    ensures parts[x] == [] <==> !Feeds(b, x)
  {
    if parts[x] != [] {
      assert parts[x][0] in parts[x];
      RecomputedWhereFed(b, roots, parts, x, parts[x][0]);
    }
    if Feeds(b, x) {
      var m: nat :| m < |b.hasRef| && Fixed(b, m) && Reach(Scalars(b), x, m);
      var k := FixedPlaced(b, roots, parts, m);
      RecomputedWhereFed(b, roots, parts, x, k);
    }
  }

  lemma RootedLists(b: Body, roots: seq<nat>, parts: seq<seq<nat>>)
    requires Rooted(b, roots, parts)
    ensures |parts| == |b.hasRef| && forall u :: 0 <= u < |parts| ==> Unrepeated(parts[u])
  {
  }

  /** The marks left by the roots, filled in, are the exact partitions. */
  lemma RootedIsExact(b: Body, roots: seq<nat>, parts: seq<seq<nat>>)
    requires Rooted(b, roots, parts) && AllPlaced(b, parts) && b.Wf()
    ensures ExactPartitions(b, FillIn(parts, |roots|), |roots|)
  {
    hide Rooted, AllPlaced, Fixed, Connected, Feeds, FeedsPartition, Reach;
    RootedLists(b, roots, parts);
    var p := |roots|;
    var full := FillIn(parts, p);
    forall u: nat | u < |parts| && Fixed(b, u) ensures full[u] == parts[u] && InOne(full[u], p) {
      var k := FixedPlaced(b, roots, parts, u);
    }
    forall u: nat, v: nat | u < |parts| && v < |parts| && Fixed(b, u) && Fixed(b, v)
      ensures full[u] == full[v] <==> Connected(b, u, v)
    {
      SharedIffConnected(b, roots, parts, u, v);
    }
    forall x: nat | x < |parts| ensures if Feeds(b, x) then full[x] == parts[x] else full[x] == UpTo(p) {
      EmptyIffFeedsNothing(b, roots, parts, x);
    }
    forall x: nat, k: nat | x < |parts| && !Fixed(b, x) && Feeds(b, x)
      ensures Unrepeated(full[x]) && (k in full[x] <==> FeedsPartition(b, full, x, k))
    {
      RecomputedWhereFed(b, roots, parts, x, k);
      FilledFeeds(b, parts, full, x, k);
    }
  }

  lemma RootsOwnPartitions(b: Body, roots: seq<nat>, parts: seq<seq<nat>>)
    requires Rooted(b, roots, parts) && AllPlaced(b, parts)
    ensures NoneSuperfluous(b, FillIn(parts, |roots|), |roots|)
  {
    var full := FillIn(parts, |roots|);
    forall k: nat | 1 <= k <= |roots| ensures HasArray(b, full, k) {
      var r := roots[k - 1];
      ArrayIsFixed(b, r);
      ReachSelf(Moves(b), r);
      assert Marked(parts, r, k);
      var l := FixedPlaced(b, roots, parts, r);
      assert full[r] == [k];
    }
  }

  lemma FilledFeeds(b: Body, parts: seq<seq<nat>>, full: seq<seq<nat>>, x: nat, k: nat)
    requires |full| == |parts|
    requires forall u: nat :: u < |parts| && Fixed(b, u) ==> full[u] == parts[u]
    ensures FeedsPartition(b, full, x, k) <==> FeedsPartition(b, parts, x, k)
  {
  }

  // ---------- one marking, as it changes the partition lists ----------

  /** The statements whose lists hold p. */
  ghost function Members(parts: seq<seq<nat>>, p: nat): set<nat> {
    set u | 0 <= u < |parts| && Marked(parts, u, p) :: u as nat
  }

  /** p was appended to some lists that did not have it, and nothing else happened. */
  ghost predicate Appends(p: nat, parts0: seq<seq<nat>>, parts1: seq<seq<nat>>) {
    && |parts1| == |parts0|
    && forall u :: 0 <= u < |parts0| ==>
         (parts1[u] == parts0[u] || (p !in parts0[u] && parts1[u] == parts0[u] + [p]))
  }

  /** What one_prdg does, started at v: it marks with p everything that the moves reach from v without
      passing a statement marked before. */
  ghost predicate MarksFrom(b: Body, v: nat, p: nat, parts0: seq<seq<nat>>, parts1: seq<seq<nat>>) {
    Appends(p, parts0, parts1) && Grown(b, v, Members(parts0, p), Members(parts1, p))
  }

  /** The same while the moves of v itself are still being followed. */
  ghost predicate MarkingFrom(b: Body, v: nat, p: nat, parts0: seq<seq<nat>>, parts1: seq<seq<nat>>) {
    && v < |parts0|
    && Appends(p, parts0, parts1) && Growing(b, v, Members(parts0, p), Members(parts1, p))
  }

  lemma MarkedAlready(b: Body, v: nat, p: nat, parts: seq<seq<nat>>)
    requires v < |parts| && p in parts[v]
    ensures MarksFrom(b, v, p, parts, parts)
  {
    assert Marked(parts, v, p);
  }

  lemma MarkingStarts(b: Body, v: nat, p: nat, parts0: seq<seq<nat>>, parts1: seq<seq<nat>>)
    requires v < |parts0| && p !in parts0[v] && parts1 == parts0[v := parts0[v] + [p]]
    ensures MarkingFrom(b, v, p, parts0, parts1) && Members(parts0, p) < Members(parts1, p)
  {
    forall u: nat | u < |parts0| ensures Marked(parts1, u, p) <==> u == v || Marked(parts0, u, p) {
    }
    assert Marked(parts1, v, p);
    assert Members(parts1, p) == Members(parts0, p) + {v};
    assert v !in Members(parts0, p);
    GrowingStarts(b, v, Members(parts0, p));
  }

  lemma MarkingStep(b: Body, v: nat, w: nat, p: nat, parts0: seq<seq<nat>>, parts1: seq<seq<nat>>, parts2: seq<seq<nat>>)
    requires MarkingFrom(b, v, p, parts0, parts1) && Edge(v, w) in Moves(b).edges && MarksFrom(b, w, p, parts1, parts2)
    ensures MarkingFrom(b, v, p, parts0, parts2) && Members(parts1, p) <= Members(parts2, p) && w in Members(parts2, p)
  {
    GrowingStep(b, v, w, Members(parts0, p), Members(parts1, p), Members(parts2, p));
  }

  lemma MarkingDone(b: Body, v: nat, p: nat, parts0: seq<seq<nat>>, parts1: seq<seq<nat>>)
    requires MarkingFrom(b, v, p, parts0, parts1) && MovesInto(b, v, Members(parts1, p))
    ensures MarksFrom(b, v, p, parts0, parts1)
  {
  }

  // ---------- the loop of mark_partitions over the array statements ----------

  lemma NoRootsYet(b: Body, parts: seq<seq<nat>>)
    requires |parts| == |b.hasRef| && forall u :: 0 <= u < |parts| ==> parts[u] == []
    ensures Rooted(b, [], parts)
  {
  }

  lemma PlacedNeedsRoot(b: Body, roots: seq<nat>, parts: seq<seq<nat>>, u: nat)
    requires Rooted(b, roots, parts) && u < |parts| && parts[u] != []
    ensures |roots| > 0
  {
    assert Marked(parts, u, parts[u][0]);
  }

  lemma OthersKept(p: nat, parts0: seq<seq<nat>>, parts1: seq<seq<nat>>, u: nat, k: nat)
    requires Appends(p, parts0, parts1) && u < |parts0| && k != p
    ensures Marked(parts1, u, k) <==> Marked(parts0, u, k)
  {
  }

  lemma AppendsUnrepeated(p: nat, parts0: seq<seq<nat>>, parts1: seq<seq<nat>>, u: nat)
    requires Appends(p, parts0, parts1) && u < |parts0| && Unrepeated(parts0[u])
    ensures Unrepeated(parts1[u])
  {
  }

  lemma NewRootApart(b: Body, roots: seq<nat>, parts: seq<seq<nat>>, v: nat, i: nat)
    requires Rooted(b, roots, parts) && v < |parts| && b.hasRef[v] && parts[v] == [] && i < |roots|
    ensures !Reach(Moves(b), roots[i], v) && !Reach(Moves(b), v, roots[i])
  {
    assert !Marked(parts, v, i + 1);
    ArrayIsFixed(b, v);
    ArrayIsFixed(b, roots[i]);
    MovesMeaning(b, v, roots[i]);
    MovesMeaning(b, roots[i], v);
    if Connected(b, v, roots[i]) { ConnectedSymmetric(b, v, roots[i]); }
  }

  lemma NewMarks(b: Body, roots: seq<nat>, parts0: seq<seq<nat>>, parts1: seq<seq<nat>>, v: nat, u: nat)
    requires Rooted(b, roots, parts0) && v < |parts0| && u < |parts0|
    requires MarksFrom(b, v, |roots| + 1, parts0, parts1)
    ensures Marked(parts1, u, |roots| + 1) <==> Reach(Moves(b), v, u)
  {
    var p := |roots| + 1;
    forall x: nat | x < |parts0| ensures !Marked(parts0, x, p) {
    }
    assert Members(parts0, p) == {};
    GrownFromNothing(b, v, Members(parts1, p), u);
  }

  /** Each new round of marking adds a root. */
  lemma RootAdded(b: Body, roots: seq<nat>, parts0: seq<seq<nat>>, parts1: seq<seq<nat>>, v: nat)
    requires Rooted(b, roots, parts0) && v < |parts0| && b.hasRef[v] && parts0[v] == []
    requires MarksFrom(b, v, |roots| + 1, parts0, parts1)
    ensures Rooted(b, roots + [v], parts1)
  {
    hide MarksFrom, Appends;
    var roots1 := roots + [v];
    MarksAppends(b, v, |roots| + 1, parts0, parts1);
    forall u: nat | u < |parts0| ensures Unrepeated(parts1[u]) {
      AppendsUnrepeated(|roots| + 1, parts0, parts1, u);
    }
    forall u: nat, k: nat | u < |parts1|
      ensures Marked(parts1, u, k) <==> 1 <= k <= |roots1| && Reach(Moves(b), roots1[k - 1], u)
    {
      if k == |roots| + 1 {
        NewMarks(b, roots, parts0, parts1, v, u);
      } else {
        OthersKept(|roots| + 1, parts0, parts1, u, k);
        assert Marked(parts0, u, k) <==> 1 <= k <= |roots| && Reach(Moves(b), roots[k - 1], u);
      }
    }
    forall i, j | 0 <= i < |roots1| && 0 <= j < |roots1| && i != j ensures !Reach(Moves(b), roots1[i], roots1[j]) {
      if i == |roots| { NewRootApart(b, roots, parts0, v, j); }
      if j == |roots| { NewRootApart(b, roots, parts0, v, i); }
    }
  }

  lemma MarksAppends(b: Body, v: nat, p: nat, parts0: seq<seq<nat>>, parts1: seq<seq<nat>>)
    requires MarksFrom(b, v, p, parts0, parts1)
    ensures Appends(p, parts0, parts1) && |parts1| == |parts0| && (v < |parts1| ==> parts1[v] != [])
    ensures forall u :: 0 <= u < |parts0| && parts0[u] != [] ==> parts1[u] != []
  {
    assert v in Members(parts1, p);
  }

  // ---------- the numbering ----------

  ghost predicate Increasing(s: seq<nat>) {
    forall i, j :: 0 <= i < j < |s| ==> s[i] < s[j]
  }

  /** In the list of array statements, the first one of partition k is at position i. */
  ghost predicate FirstOf(parts: seq<seq<nat>>, listed: seq<nat>, k: nat, i: nat) {
    && i < |listed| && listed[i] < |parts| && parts[listed[i]] == [k]
    && forall j :: 0 <= j < i && listed[j] < |parts| ==> parts[listed[j]] != [k]
  }

  /** Partitions are numbered in the order of their first array statements in the list, and every statement carries
      its numbers in rising order. */
  ghost predicate InTurn(parts: seq<seq<nat>>, listed: seq<nat>) {
    && (forall k: nat, l: nat, i: nat, j: nat {:trigger FirstOf(parts, listed, k, i), FirstOf(parts, listed, l, j)} ::
          FirstOf(parts, listed, k, i) && FirstOf(parts, listed, l, j) ==> (k < l <==> i < j))
    && forall u :: 0 <= u < |parts| ==> Increasing(parts[u])
  }

  /** The j-th array statement of the list is in the partition of a root taken from position j or before. */
  ghost predicate PlacedBy(parts: seq<seq<nat>>, listed: seq<nat>, firsts: seq<nat>, j: nat) {
    && j < |listed| && listed[j] < |parts| && parts[listed[j]] != []
    && var k := parts[listed[j]][0]; 1 <= k <= |firsts| && firsts[k - 1] <= j
  }

  /** The roots, by the positions from which they were taken. */
  ghost predicate Taken(listed: seq<nat>, n: nat, roots: seq<nat>, firsts: seq<nat>) {
    && n <= |listed| && |firsts| == |roots| && Increasing(firsts)
    && forall k :: 0 <= k < |firsts| ==> firsts[k] < n && roots[k] == listed[firsts[k]]
  }

  /** Rising numbers, none above r. */
  ghost predicate RisingTo(s: seq<nat>, r: nat) {
    Increasing(s) && forall i :: 0 <= i < |s| ==> s[i] <= r
  }

  /** After the first n array statements of the list. */
  ghost predicate Started(parts: seq<seq<nat>>, listed: seq<nat>, n: nat, roots: seq<nat>, firsts: seq<nat>) {
    && Taken(listed, n, roots, firsts)
    && (forall j: nat {:trigger PlacedBy(parts, listed, firsts, j)} :: j < n ==> PlacedBy(parts, listed, firsts, j))
    && forall u :: 0 <= u < |parts| ==> RisingTo(parts[u], |roots|)
  }

  lemma NothingStarted(parts: seq<seq<nat>>, listed: seq<nat>)
    requires forall u :: 0 <= u < |parts| ==> parts[u] == []
    ensures Started(parts, listed, 0, [], [])
  {
    assert RisingTo([], 0);
  }

  lemma AlreadyStarted(b: Body, parts: seq<seq<nat>>, listed: seq<nat>, n: nat, roots: seq<nat>, firsts: seq<nat>)
    requires Started(parts, listed, n, roots, firsts) && Rooted(b, roots, parts)
    requires n < |listed| && listed[n] < |parts| && parts[listed[n]] != []
    ensures Started(parts, listed, n + 1, roots, firsts)
  {
    FirstLabel(b, parts, roots, listed[n]);
    hide Rooted, RisingTo, Increasing;
    assert PlacedBy(parts, listed, firsts, n);
  }

  lemma FirstLabel(b: Body, parts: seq<seq<nat>>, roots: seq<nat>, u: nat)
    requires Rooted(b, roots, parts) && u < |parts| && parts[u] != []
    ensures 1 <= parts[u][0] <= |roots|
  {
    assert Marked(parts, u, parts[u][0]);
  }

  lemma Appended(parts0: seq<seq<nat>>, parts1: seq<seq<nat>>, r: nat, u: nat)
    requires Appends(r + 1, parts0, parts1) && u < |parts0| && RisingTo(parts0[u], r)
    ensures u < |parts1| && RisingTo(parts1[u], r + 1) && (parts0[u] != [] ==> parts1[u] != [] && parts1[u][0] == parts0[u][0])
    ensures parts0[u] == [] && parts1[u] != [] ==> parts1[u] == [r + 1]
  {
    hide RisingTo;
    OneAppended(parts0[u], r);
    RisesFurther(parts0[u], r);
  }

  lemma OneAppended(s: seq<nat>, r: nat)
    requires RisingTo(s, r)
    ensures RisingTo(s + [r + 1], r + 1) && (s == [] ==> s + [r + 1] == [r + 1]) && (s != [] ==> (s + [r + 1])[0] == s[0])
  {
  }

  lemma RisesFurther(s: seq<nat>, r: nat)
    requires RisingTo(s, r)
    ensures RisingTo(s, r + 1)
  {
  }

  lemma NextStarted(parts0: seq<seq<nat>>, parts1: seq<seq<nat>>, listed: seq<nat>, n: nat, roots: seq<nat>, firsts: seq<nat>)
    requires Started(parts0, listed, n, roots, firsts) && Appends(|roots| + 1, parts0, parts1) && |parts1| == |parts0|
    requires n < |listed| && listed[n] < |parts0| && parts0[listed[n]] == [] && parts1[listed[n]] != []
    ensures Started(parts1, listed, n + 1, roots + [listed[n]], firsts + [n])
  {
    hide Appends, RisingTo;
    forall u: nat | u < |parts1| ensures RisingTo(parts1[u], |roots| + 1) { Appended(parts0, parts1, |roots|, u); }
    forall j: nat | j < n + 1 ensures PlacedBy(parts1, listed, firsts + [n], j) {
      Appended(parts0, parts1, |roots|, listed[if j < n && PlacedBy(parts0, listed, firsts, j) then j else n]);
    }
  }

  /** The roots own the partitions in their order, and nothing listed earlier is in the partition of a root. */
  lemma RootIsFirst(b: Body, parts: seq<seq<nat>>, listed: seq<nat>, roots: seq<nat>, firsts: seq<nat>, k: nat, i: nat)
    requires Rooted(b, roots, parts) && AllPlaced(b, parts) && Started(parts, listed, |listed|, roots, firsts)
    requires FirstOf(parts, listed, k, i)
    ensures 1 <= k <= |firsts| && i == firsts[k - 1]
  {
    assert PlacedBy(parts, listed, firsts, i);
    hide AllPlaced, RisingTo, Increasing, PlacedBy;
    RootOwns(b, parts, roots, k);
    assert roots[k - 1] == listed[firsts[k - 1]];
  }

  lemma RootOwns(b: Body, parts: seq<seq<nat>>, roots: seq<nat>, k: nat)
    requires Rooted(b, roots, parts) && AllPlaced(b, parts) && 1 <= k <= |roots|
    ensures roots[k - 1] < |parts| && parts[roots[k - 1]] == [k]
  {
    var r := roots[k - 1];
    ArrayIsFixed(b, r);
    ReachSelf(Moves(b), r);
    assert Marked(parts, r, k);
    var l := FixedPlaced(b, roots, parts, r);
  }

  lemma StartedInTurn(b: Body, parts: seq<seq<nat>>, listed: seq<nat>, roots: seq<nat>, firsts: seq<nat>)
    requires Rooted(b, roots, parts) && AllPlaced(b, parts) && Started(parts, listed, |listed|, roots, firsts)
    requires forall j :: 0 <= j < |listed| ==> listed[j] < |b.hasRef| && b.hasRef[listed[j]]
    ensures InTurn(FillIn(parts, |roots|), listed)
  {
    var full := FillIn(parts, |roots|);
    RootedLists(b, roots, parts);
    hide Rooted, RisingTo, PlacedBy, Taken;
    forall k: nat, l: nat, i: nat, j: nat | FirstOf(full, listed, k, i) && FirstOf(full, listed, l, j)
      ensures k < l <==> i < j
    {
      FirstFilled(b, parts, |roots|, listed, k, i);
      FirstFilled(b, parts, |roots|, listed, l, j);
      RootIsFirst(b, parts, listed, roots, firsts, k, i);
      RootIsFirst(b, parts, listed, roots, firsts, l, j);
      TakenOrder(listed, roots, firsts, k, l);
    }
    forall u | 0 <= u < |full| ensures Increasing(full[u]) { RisingFilled(parts[u], |roots|); }
  }

  lemma FirstFilled(b: Body, parts: seq<seq<nat>>, p: nat, listed: seq<nat>, k: nat, i: nat)
    requires |parts| == |b.hasRef| && AllPlaced(b, parts) && FirstOf(FillIn(parts, p), listed, k, i)
    requires forall j :: 0 <= j < |listed| ==> listed[j] < |b.hasRef| && b.hasRef[listed[j]]
    ensures FirstOf(parts, listed, k, i)
  {
    assert forall j :: 0 <= j < |listed| ==> FillIn(parts, p)[listed[j]] == parts[listed[j]];
  }

  lemma TakenOrder(listed: seq<nat>, roots: seq<nat>, firsts: seq<nat>, k: nat, l: nat)
    requires Taken(listed, |listed|, roots, firsts) && 1 <= k <= |firsts| && 1 <= l <= |firsts|
    ensures k < l <==> firsts[k - 1] < firsts[l - 1]
  {
  }

  lemma RisingFilled(s: seq<nat>, p: nat)
    requires RisingTo(s, p)
    ensures Increasing(if s == [] then UpTo(p) else s)
  {
  }

  /** Every partition has a first one in the list. */
  lemma FirstListed(b: Body, parts: seq<seq<nat>>, listed: seq<nat>, p: nat, k: nat) returns (i: nat)
    requires NoneSuperfluous(b, parts, p) && 1 <= k <= p && forall u: nat :: u < |parts| && b.hasRef[u] ==> u in listed
    ensures FirstOf(parts, listed, k, i)
  {
    assert HasArray(b, parts, k);
    var u: nat :| u < |parts| && b.hasRef[u] && parts[u] == [k];
    var n: nat :| n < |listed| && listed[n] == u;
    i := FirstBefore(parts, listed, k, n);
  }

  lemma {:induction false} FirstBefore(parts: seq<seq<nat>>, listed: seq<nat>, k: nat, n: nat) returns (i: nat)
    requires n < |listed| && listed[n] < |parts| && parts[listed[n]] == [k]
    ensures FirstOf(parts, listed, k, i)
    decreases n
  {
    if j: nat :| j < n && listed[j] < |parts| && parts[listed[j]] == [k] {
      i := FirstBefore(parts, listed, k, j);
    } else {
      i := n;
    }
  }

  lemma OnlyOneInTurn(parts: seq<seq<nat>>)
    requires forall u :: 0 <= u < |parts| ==> parts[u] == [1]
    ensures InTurn(parts, [])
  {
  }

  /** Without array statements everything is one partition. */
  lemma OnePartitionIsExact(b: Body, parts: seq<seq<nat>>)
    requires |parts| == |b.hasRef| && forall u :: 0 <= u < |parts| ==> !b.hasRef[u] && parts[u] == [1]
    ensures ExactPartitions(b, parts, 1)
  {
    assert UpTo(1) == [1];
  }

  /** The assertion at the end of mark_partitions holds: no list is empty. */
  lemma ExactNonempty(b: Body, parts: seq<seq<nat>>, p: nat, u: nat)
    requires ExactPartitions(b, parts, p) && p >= 1 && u < |parts|
    ensures parts[u] != []
  {
    if Fixed(b, u) {
      assert InOne(parts[u], p);
    } else if Feeds(b, u) {
      var m: nat :| m < |b.hasRef| && Fixed(b, m) && Reach(Scalars(b), u, m);
      assert InOne(parts[m], p);
      var k: nat :| 1 <= k <= p && parts[m] == [k];
      assert FeedsPartition(b, parts, u, k);
    }
  }
}
