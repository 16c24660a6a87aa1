/** What the depth-first search of module DepthFirst keeps at every step, and what follows at its end. */
module SearchFacts {
  import opened Digraph
  import opened DepthFirst

  ghost predicate NoBlackToWhite(g: Graph, s: State)
    requires g.Wf() && |s.marks| == g.n
  {
    forall e :: e in g.edges && s.marks[e.source].color.Black? ==> !s.marks[e.sink].color.White?
  }

  /** w finishes no earlier than v, where an active vertex counts as one that finishes later than all others. */
  ghost predicate NotBefore(s: State, w: nat, v: nat)
    requires w < |s.marks| && v < |s.marks|
  {
    || s.marks[w].color.Gray?
    || (s.marks[w].color.Black? && s.marks[v].color.Black? && s.marks[v].f <= s.marks[w].f)
  }

  /** Some vertex of u's component finishes no earlier than v. */
  ghost predicate Covered(g: Graph, s: State, u: nat, v: nat)
    requires |s.marks| == g.n && v < g.n
  {
    exists w: nat :: w < g.n && Mutual(g, u, w) && NotBefore(s, w, v)
  }

  /** A component finishes no earlier than anything it reaches. */
  ghost predicate Ordered(g: Graph, s: State)
    requires |s.marks| == g.n
  {
    forall u: nat, v: nat {:trigger Covered(g, s, u, v)} ::
      Seen(s, u) && Seen(s, v) && Reach(g, u, v) ==> Covered(g, s, u, v)
  }

  /** The intervals d..f of u and v are nested or disjoint, with no shared end; an active vertex has no end yet. */
  ghost predicate Laminar(s: State, u: nat, v: nat)
    requires u < |s.marks| && v < |s.marks|
  {
    var a, b := s.marks[u], s.marks[v];
    match (a.color, b.color)
    case (Black, Black) =>
      a.f < b.d || b.f < a.d || (a.d < b.d && b.f < a.f) || (b.d < a.d && a.f < b.f)
    case (Black, Gray) => b.d < a.d || a.f < b.d
    case (Gray, Black) => a.d < b.d || b.f < a.d
    case (Gray, Gray) => a.d != b.d
    case _ => true
  }

  ghost predicate Timed(s: State) {
    && (forall u: nat :: Seen(s, u) ==>
          && 1 <= s.marks[u].d <= s.t
          && (s.marks[u].color.Black? ==> s.marks[u].d < s.marks[u].f <= s.t))
    && (forall u: nat, v: nat {:trigger Laminar(s, u, v)} :: Seen(s, u) && Seen(s, v) && u != v ==> Laminar(s, u, v))
  }

  ghost predicate Inv(g: Graph, s: State)
    requires g.Wf() && |s.marks| == g.n
  {
    NoBlackToWhite(g, s) && Ordered(g, s) && Timed(s)
  }

  /** The active vertices lie on a path to v. */
  ghost predicate Active(g: Graph, s: State, v: nat) {
    forall x: nat :: x < |s.marks| && s.marks[x].color.Gray? ==> Reach(g, x, v)
  }

  /** v is the active vertex that was discovered last. */
  ghost predicate Top(s: State, v: nat) {
    && v < |s.marks|
    && s.marks[v].color.Gray?
    && forall x: nat :: x < |s.marks| && s.marks[x].color.Gray? ==> s.marks[x].d <= s.marks[v].d
  }

  lemma {:induction false} GrayOnTheWay(g: Graph, s: State, u: nat, p: seq<nat>, v: nat) returns (x: nat)
    requires g.Wf() && |s.marks| == g.n && u < g.n && v < g.n
    requires NoBlackToWhite(g, s) && Seen(s, u) && s.marks[v].color.White? && Path(g, u, p, v)
    ensures x < g.n && s.marks[x].color.Gray? && Reach(g, u, x)
    decreases |p|
  {
    if s.marks[u].color.Gray? {
      x := u;
      ReachSelf(g, u);
    } else {
      var e := Edge(u, p[0]);
      assert e.sink == p[0];
      x := GrayOnTheWay(g, s, p[0], p[1..], v);
      ReachEdge(g, u, p[0]);
      ReachTrans(g, u, p[0], x);
    }
  }

  lemma DiscoverKeepsOrdered(g: Graph, pv: seq<seq<nat>>, v: nat, s: State, scc: nat)
    requires Fits(g, pv, s) && v < g.n && s.marks[v].color.White?
    requires NoBlackToWhite(g, s) && Ordered(g, s)
    ensures Ordered(g, Discover(g, pv, v, s, scc))
  {
    var s1 := Discover(g, pv, v, s, scc);
    forall a: nat, b: nat | Seen(s1, a) && Seen(s1, b) && Reach(g, a, b)
      ensures Covered(g, s1, a, b)
    {
      if s1.marks[a].color.Gray? {
        ReachSelf(g, a);
        assert NotBefore(s1, a, b);
      } else if b == v {
        var p :| Path(g, a, p, v);
        var x := GrayOnTheWay(g, s, a, p, v);
        assert Covered(g, s, a, x);
        var w: nat :| w < g.n && Mutual(g, a, w) && NotBefore(s, w, x);
        assert NotBefore(s1, w, b);
      } else {
        assert Covered(g, s, a, b);
        var w: nat :| w < g.n && Mutual(g, a, w) && NotBefore(s, w, b);
        assert NotBefore(s1, w, b);
      }
    }
  }

  lemma FinishKeepsOrdered(g: Graph, v: nat, s: State)
    requires g.Wf() && |s.marks| == g.n && v < g.n
    requires Ordered(g, s) && Timed(s) && Top(s, v) && Active(g, s, v)
    ensures Ordered(g, Finish(v, s))
  {
    var s1 := Finish(v, s);
    forall a: nat, b: nat | Seen(s1, a) && Seen(s1, b) && Reach(g, a, b)
      ensures Covered(g, s1, a, b)
    {
      assert Seen(s, a) && Seen(s, b);
      assert Covered(g, s, a, b);
      var w: nat :| w < g.n && Mutual(g, a, w) && NotBefore(s, w, b);
      if w == v && s1.marks[b].color.Gray? {
        assert Reach(g, b, v);
        ReachTrans(g, b, v, a);
        assert NotBefore(s1, b, b);
        assert Mutual(g, a, b);
      } else {
        assert NotBefore(s1, w, b);
      }
    }
  }

  lemma DiscoverKeepsTimed(g: Graph, pv: seq<seq<nat>>, v: nat, s: State, scc: nat)
    requires Fits(g, pv, s) && v < g.n && s.marks[v].color.White? && Timed(s)
    ensures var r := Discover(g, pv, v, s, scc); Timed(r) && Top(r, v)
  {
    var r := Discover(g, pv, v, s, scc);
    forall a: nat, b: nat | Seen(r, a) && Seen(r, b) && a != b
      ensures Laminar(r, a, b)
    {
      assert a != v ==> Seen(s, a);
      assert b != v ==> Seen(s, b);
      assert a != v && b != v ==> Laminar(s, a, b);
    }
    forall a: nat | Seen(r, a) && a != v ensures r.marks[a].d <= s.t {
      assert Seen(s, a);
    }
  }

  lemma FinishKeepsTimed(v: nat, s: State)
    requires v < |s.marks| && Timed(s) && Top(s, v)
    ensures Timed(Finish(v, s))
  {
    var r := Finish(v, s);
    forall a: nat, b: nat | Seen(r, a) && Seen(r, b) && a != b
      ensures Laminar(r, a, b)
    {
      assert Seen(s, a) && Seen(s, b);
      assert Laminar(s, a, b);
    }
  }

  lemma DiscoverKeeps(g: Graph, pv: seq<seq<nat>>, v: nat, s: State, scc: nat)
    requires Fits(g, pv, s) && v < g.n && s.marks[v].color.White?
    requires Inv(g, s) && Active(g, s, v)
    ensures var r := Discover(g, pv, v, s, scc); Inv(g, r) && Active(g, r, v) && Top(r, v)
  {
    DiscoverKeepsOrdered(g, pv, v, s, scc);
    DiscoverKeepsTimed(g, pv, v, s, scc);
    ReachSelf(g, v);
  }

  lemma FinishKeeps(g: Graph, v: nat, s: State)
    requires g.Wf() && |s.marks| == g.n && v < g.n
    requires Inv(g, s) && Top(s, v) && Active(g, s, v)
    requires forall e :: e in g.edges && e.source == v ==> !s.marks[e.sink].color.White?
    ensures Inv(g, Finish(v, s))
  {
    FinishKeepsOrdered(g, v, s);
    FinishKeepsTimed(v, s);
  }

  lemma SetPredKeeps(g: Graph, s: State, u: nat, v: nat)
    requires g.Wf() && |s.marks| == g.n && u < g.n && Inv(g, s)
    ensures Inv(g, SetPred(s, u, v))
  {
    var r := SetPred(s, u, v);
    assert forall x: nat :: Seen(r, x) <==> Seen(s, x);
    forall a: nat, b: nat | Seen(r, a) && Seen(r, b) && Reach(g, a, b)
      ensures Covered(g, r, a, b)
    {
      assert Covered(g, s, a, b);
      var w: nat :| w < g.n && Mutual(g, a, w) && NotBefore(s, w, b);
      assert NotBefore(r, w, b);
    }
    forall a: nat, b: nat | Seen(r, a) && Seen(r, b) && a != b
      ensures Laminar(r, a, b)
    {
      assert Laminar(s, a, b);
    }
  }

  /** Every search step keeps the invariant, whatever the component number. */
  lemma {:induction false} VisitKeeps(g: Graph, pv: seq<seq<nat>>, v: nat, s: State, scc: nat)
    requires Fits(g, pv, s) && v < g.n && s.marks[v].color.White?
    requires Inv(g, s) && Active(g, s, v)
    ensures Inv(g, Visit(g, pv, v, s, scc))
    decreases Whites(s), 0
  {
    DiscoverKeeps(g, pv, v, s, scc);
    var s1 := Discover(g, pv, v, s, scc);
    assert v in Whites(s) && Whites(s1) == Whites(s) - {v};
    VisitEdgesKeeps(g, pv, v, 0, s1, scc);
    FinishKeeps(g, v, VisitEdges(g, pv, v, 0, s1, scc));
  }

  lemma ActiveAtEdge(g: Graph, s: State, v: nat, u: nat)
    requires Active(g, s, v) && Edge(v, u) in g.edges
    ensures Active(g, s, u)
  {
    ReachEdge(g, v, u);
    forall x: nat | x < |s.marks| && s.marks[x].color.Gray? ensures Reach(g, x, u) {
      ReachTrans(g, x, v, u);
    }
  }

  /** What the loop over the edges of v relies on: the edges before i lead to no white vertex. */
  ghost predicate EdgesDone(g: Graph, v: nat, i: nat, s: State)
    requires g.Wf() && |s.marks| == g.n && i <= |g.edges|
  {
    forall j :: 0 <= j < i && g.edges[j].source == v ==> !s.marks[g.edges[j].sink].color.White?
  }

  lemma {:induction false} VisitEdgesKeeps(g: Graph, pv: seq<seq<nat>>, v: nat, i: nat, s: State, scc: nat)
    requires Fits(g, pv, s) && v < g.n && i <= |g.edges|
    requires Inv(g, s) && Active(g, s, v) && Top(s, v) && EdgesDone(g, v, i, s)
    ensures var r := VisitEdges(g, pv, v, i, s, scc);
            Inv(g, r) && Active(g, r, v) && Top(r, v) && EdgesDone(g, v, |g.edges|, r)
    decreases Whites(s), |g.edges| - i + 1
  {
    hide Inv, Visit, VisitEdges;
    if i == |g.edges| {
      VisitEdgesEnds(g, pv, v, s, scc);
    } else {
      VisitEdgesUnfolds(g, pv, v, i, s, scc);
      var u := g.edges[i].sink;
      if g.edges[i].source == v && s.marks[u].color.White? {
        var s1 := SetPred(s, u, v);
        assert g.edges[i] == Edge(v, u);
        SetPredKeeps(g, s, u, v);
        ActiveAtEdge(g, s1, v, u);
        VisitKeeps(g, pv, u, s1, scc);
        var s2 := Visit(g, pv, u, s1, scc);
        VisitEdgesKeeps(g, pv, v, i + 1, s2, scc);
      } else {
        VisitEdgesKeeps(g, pv, v, i + 1, s, scc);
      }
    }
  }

  /** The clock ticks twice for every vertex that a visit finishes. */
  lemma {:induction false} VisitTicks(g: Graph, pv: seq<seq<nat>>, v: nat, s: State, scc: nat)
    requires Fits(g, pv, s) && v < g.n && s.marks[v].color.White?
    ensures var r := Visit(g, pv, v, s, scc);
            && r.t == s.t + 2 * (|Whites(s)| - |Whites(r)|)
            && s.t < r.t && r.marks[v].d == s.t + 1 && r.marks[v].f == r.t
    decreases Whites(s), 0
  {
    var s1 := Discover(g, pv, v, s, scc);
    assert v in Whites(s) && Whites(s1) == Whites(s) - {v};
    VisitEdgesTicks(g, pv, v, 0, s1, scc);
    var s2 := VisitEdges(g, pv, v, 0, s1, scc);
    assert Whites(Finish(v, s2)) == Whites(s2);
    assert s2.marks[v] == s1.marks[v];
  }

  lemma {:induction false} VisitEdgesTicks(g: Graph, pv: seq<seq<nat>>, v: nat, i: nat, s: State, scc: nat)
    requires Fits(g, pv, s) && v < g.n && i <= |g.edges| && !s.marks[v].color.White?
    ensures var r := VisitEdges(g, pv, v, i, s, scc); s.t <= r.t == s.t + 2 * (|Whites(s)| - |Whites(r)|)
    decreases Whites(s), |g.edges| - i + 1
  {
    hide Visit, VisitEdges;
    if i == |g.edges| {
      VisitEdgesEnds(g, pv, v, s, scc);
    } else {
      VisitEdgesUnfolds(g, pv, v, i, s, scc);
      var u := g.edges[i].sink;
      if g.edges[i].source == v && s.marks[u].color.White? {
        var s1 := SetPred(s, u, v);
        VisitTicks(g, pv, u, s1, scc);
        var s2 := Visit(g, pv, u, s1, scc);
        VisitEdgesTicks(g, pv, v, i + 1, s2, scc);
      } else {
        VisitEdgesTicks(g, pv, v, i + 1, s, scc);
      }
    }
  }

  /** A path from u to v all of whose vertices after u are white in s. */
  ghost predicate WhitePath(g: Graph, s: State, u: nat, p: seq<nat>, v: nat)
    decreases |p|
  {
    if p == [] then u == v
    else Edge(u, p[0]) in g.edges && p[0] in Whites(s) && WhitePath(g, s, p[0], p[1..], v)
  }

  ghost predicate WhiteReach(g: Graph, s: State, u: nat, v: nat) {
    exists p: seq<nat> :: WhitePath(g, s, u, p, v)
  }

  lemma {:induction false} WhitePathIsPath(g: Graph, s: State, u: nat, p: seq<nat>, v: nat)
    requires WhitePath(g, s, u, p, v)
    ensures Path(g, u, p, v)
    decreases |p|
  {
    if p != [] { WhitePathIsPath(g, s, p[0], p[1..], v); }
  }

  lemma {:induction false} WhitePathWeakens(g: Graph, s: State, r: State, u: nat, p: seq<nat>, v: nat)
    requires Whites(r) <= Whites(s) && WhitePath(g, r, u, p, v)
    ensures WhitePath(g, s, u, p, v)
    decreases |p|
  {
    if p != [] { WhitePathWeakens(g, s, r, p[0], p[1..], v); }
  }

  lemma {:induction false} VisitFollowsWhitePaths(g: Graph, pv: seq<seq<nat>>, v: nat, s: State, scc: nat, u: nat)
    requires Fits(g, pv, s) && v < g.n && s.marks[v].color.White?
    requires u in Whites(s) && u !in Whites(Visit(g, pv, v, s, scc))
    ensures WhiteReach(g, s, v, u)
    decreases Whites(s), 0
  {
    if u == v {
      assert WhitePath(g, s, v, [], u);
    } else {
      var s1 := Discover(g, pv, v, s, scc);
      assert v in Whites(s) && Whites(s1) == Whites(s) - {v};
      VisitEdgesFollowWhitePaths(g, pv, v, 0, s1, scc, u);
      var p :| WhitePath(g, s1, v, p, u);
      WhitePathWeakens(g, s, s1, v, p, u);
    }
  }

  lemma WhiteStep(g: Graph, s: State, v: nat, w: nat, p: seq<nat>, u: nat)
    requires Edge(v, w) in g.edges && w < |s.marks| && s.marks[w].color.White? && WhitePath(g, s, w, p, u)
    ensures WhitePath(g, s, v, [w] + p, u)
  {
    assert ([w] + p)[1..] == p;
  }

  lemma {:induction false} VisitEdgesFollowWhitePaths(g: Graph, pv: seq<seq<nat>>, v: nat, i: nat, s: State, scc: nat, u: nat)
    requires Fits(g, pv, s) && v < g.n && i <= |g.edges| && !s.marks[v].color.White?
    requires u in Whites(s) && u !in Whites(VisitEdges(g, pv, v, i, s, scc))
    ensures WhiteReach(g, s, v, u)
    decreases Whites(s), |g.edges| - i + 1
  {
    hide Visit, VisitEdges, WhitePath;
    if i == |g.edges| {
      VisitEdgesEnds(g, pv, v, s, scc);
    } else {
      VisitEdgesUnfolds(g, pv, v, i, s, scc);
      var w := g.edges[i].sink;
      if g.edges[i].source == v && s.marks[w].color.White? {
        var s1 := SetPred(s, w, v);
        var s2 := Visit(g, pv, w, s1, scc);
        if u in Whites(s2) {
          VisitEdgesFollowWhitePaths(g, pv, v, i + 1, s2, scc, u);
          var p :| WhitePath(g, s2, v, p, u);
          WhitePathWeakens(g, s, s2, v, p, u);
        } else {
          VisitFollowsWhitePaths(g, pv, w, s1, scc, u);
          var p :| WhitePath(g, s1, w, p, u);
          WhitePathWeakens(g, s, s1, w, p, u);
          assert g.edges[i] == Edge(v, w);
          WhiteStep(g, s, v, w, p, u);
        }
      } else {
        VisitEdgesFollowWhitePaths(g, pv, v, i + 1, s, scc, u);
      }
    }
  }

  lemma {:induction false} WhitePathFinished(g: Graph, s: State, r: State, scc: nat, v: nat, p: seq<nat>, u: nat)
    requires g.Wf() && |s.marks| == g.n && Extends(s, r, scc) && NoBlackToWhite(g, r)
    requires v < g.n && r.marks[v].color.Black? && WhitePath(g, s, v, p, u)
    ensures u < g.n && r.marks[u].color.Black?
    decreases |p|
  {
    if p != [] {
      assert Edge(v, p[0]).sink == p[0];
      WhitePathFinished(g, s, r, scc, p[0], p[1..], u);
    }
  }

  /** White-path theorem: a visit finishes exactly the vertices reached through vertices white at its start,
      and their intervals lie inside the interval of the vertex visited. */
  lemma WhitePathTheorem(g: Graph, pv: seq<seq<nat>>, v: nat, s: State, scc: nat, u: nat)
    requires Fits(g, pv, s) && v < g.n && s.marks[v].color.White?
    requires Inv(g, s) && Active(g, s, v) && u in Whites(s)
    ensures var r := Visit(g, pv, v, s, scc);
            && (WhiteReach(g, s, v, u) <==> r.marks[u].color.Black?)
            && (r.marks[u].color.Black? <==> u !in Whites(r))
            && (r.marks[u].color.Black? ==> r.marks[v].d <= r.marks[u].d && r.marks[u].f <= r.marks[v].f)
  {
    var r := Visit(g, pv, v, s, scc);
    VisitKeeps(g, pv, v, s, scc);
    if u !in Whites(r) {
      VisitFollowsWhitePaths(g, pv, v, s, scc, u);
    }
    if WhiteReach(g, s, v, u) {
      var p :| WhitePath(g, s, v, p, u);
      WhitePathFinished(g, s, r, scc, v, p, u);
    }
    VisitTicks(g, pv, v, s, scc);
    if r.marks[u].color.Black? {
      VisitStartsLater(g, pv, v, s, scc, u);
      assert Seen(r, u);
    }
  }

  lemma {:induction false} VisitStartsLater(g: Graph, pv: seq<seq<nat>>, v: nat, s: State, scc: nat, u: nat)
    requires Fits(g, pv, s) && v < g.n && s.marks[v].color.White?
    requires u in Whites(s) && u !in Whites(Visit(g, pv, v, s, scc))
    ensures var r := Visit(g, pv, v, s, scc); s.t < r.t && s.t < r.marks[u].d
    decreases Whites(s), 0
  {
    VisitTicks(g, pv, v, s, scc);
    if u != v {
      var s1 := Discover(g, pv, v, s, scc);
      assert v in Whites(s) && Whites(s1) == Whites(s) - {v};
      VisitEdgesStartLater(g, pv, v, 0, s1, scc, u);
    }
  }

  lemma {:induction false} VisitEdgesStartLater(g: Graph, pv: seq<seq<nat>>, v: nat, i: nat, s: State, scc: nat, u: nat)
    requires Fits(g, pv, s) && v < g.n && i <= |g.edges| && !s.marks[v].color.White?
    requires u in Whites(s) && u !in Whites(VisitEdges(g, pv, v, i, s, scc))
    ensures s.t < VisitEdges(g, pv, v, i, s, scc).marks[u].d
    decreases Whites(s), |g.edges| - i + 1
  {
    hide Visit, VisitEdges;
    if i == |g.edges| {
      VisitEdgesEnds(g, pv, v, s, scc);
    } else {
      VisitEdgesUnfolds(g, pv, v, i, s, scc);
      var w := g.edges[i].sink;
      if g.edges[i].source == v && s.marks[w].color.White? {
        var s1 := SetPred(s, w, v);
        var s2 := Visit(g, pv, w, s1, scc);
        VisitStartsLater(g, pv, w, s1, scc, if u in Whites(s2) then w else u);
        if u in Whites(s2) {
          VisitEdgesStartLater(g, pv, v, i + 1, s2, scc, u);
        }
      } else {
        VisitEdgesStartLater(g, pv, v, i + 1, s, scc, u);
      }
    }
  }
}
