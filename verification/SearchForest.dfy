/** The forest that the searches of module DepthFirst leave in the predecessor fields, and the order in which they take
    vertices and edges. */
module SearchForest {
  import opened Options
  import opened Digraph
  import opened DepthFirst
  import opened SearchFacts
  import opened Components

  /** Edge j was followed from v to u: v is active from before u is discovered until after u is finished, and what
      the earlier edges of v lead to was discovered before u. */
  ghost predicate Followed(g: Graph, s: State, v: nat, u: nat, j: nat) {
    && j < |g.edges| && g.edges[j] == Edge(v, u) && Seen(s, v) && Seen(s, u)
    && s.marks[v].d < s.marks[u].d && (s.marks[v].color.Black? ==> s.marks[u].f < s.marks[v].f)
    && forall k :: 0 <= k < j && g.edges[k].source == v ==>
         Seen(s, g.edges[k].sink) && s.marks[g.edges[k].sink].d < s.marks[u].d
  }

  /** u was entered by an edge from the vertex that it names as its predecessor. */
  ghost predicate Branch(g: Graph, s: State, u: nat) {
    && u < |s.marks| && s.marks[u].pred.Some?
    && exists j: nat :: Followed(g, s, s.marks[u].pred.value, u, j)
  }

  ghost predicate Clocked(s: State) {
    forall u: nat :: Seen(s, u) ==> s.marks[u].d <= s.t && (s.marks[u].color.Black? ==> s.marks[u].f <= s.t)
  }

  ghost predicate New(s: State, r: State, u: nat) {
    u in Whites(s) && Seen(r, u)
  }

  lemma BranchStays(g: Graph, s: State, r: State, scc: nat, u: nat)
    requires g.Wf() && |s.marks| == g.n && Extends(s, r, scc) && Seen(s, u) && Branch(g, s, u)
    ensures Branch(g, r, u)
  {
    var j: nat :| Followed(g, s, s.marks[u].pred.value, u, j);
    assert Followed(g, r, r.marks[u].pred.value, u, j);
  }

  lemma BranchFinished(g: Graph, s: State, v: nat, u: nat)
    requires g.Wf() && |s.marks| == g.n && v < g.n && u != v && Clocked(s) && s.marks[v].color.Gray?
    requires Branch(g, s, u) && s.marks[u].color.Black?
    ensures Branch(g, Finish(v, s), u)
  {
    var r := Finish(v, s);
    var j: nat :| Followed(g, s, s.marks[u].pred.value, u, j);
    assert Followed(g, r, r.marks[u].pred.value, u, j);
  }

  /** A visit makes branches of all vertices that it finishes, inside the interval of the one it starts from, whose
      predecessor it leaves alone. */
  lemma {:induction false} VisitForest(g: Graph, pv: seq<seq<nat>>, v: nat, s: State, scc: nat)
    requires Fits(g, pv, s) && v < g.n && s.marks[v].color.White? && Clocked(s)
    ensures var r := Visit(g, pv, v, s, scc);
            && Clocked(r) && r.marks[v].pred == s.marks[v].pred && r.marks[v].d == s.t + 1
            && forall u: nat :: u != v && New(s, r, u) ==>
                 Branch(g, r, u) && r.marks[v].d < r.marks[u].d && r.marks[u].f < r.marks[v].f
    decreases Whites(s), 0
  {
    hide Branch, Visit, VisitEdges;
    VisitUnfolds(g, pv, v, s, scc);
    var s1 := Discover(g, pv, v, s, scc);
    assert Whites(s1) == Whites(s) - {v};
    VisitEdgesForest(g, pv, v, 0, s1, scc);
    var s2 := VisitEdges(g, pv, v, 0, s1, scc);
    assert s2.marks[v] == s1.marks[v];
    var r := Finish(v, s2);
    forall u: nat | u != v && New(s, r, u) ensures Branch(g, r, u) && r.marks[v].d < r.marks[u].d && r.marks[u].f < r.marks[v].f {
      assert New(s1, s2, u);
      BranchFinished(g, s2, v, u);
    }
  }

  lemma {:induction false} VisitEdgesForest(g: Graph, pv: seq<seq<nat>>, v: nat, i: nat, s: State, scc: nat)
    requires Fits(g, pv, s) && v < g.n && i <= |g.edges| && s.marks[v].color.Gray? && Clocked(s) && EdgesDone(g, v, i, s)
    ensures var r := VisitEdges(g, pv, v, i, s, scc);
            && Clocked(r) && r.marks[v] == s.marks[v]
            && forall u: nat :: New(s, r, u) ==> Branch(g, r, u) && s.t < r.marks[u].d && r.marks[u].color.Black?
    decreases Whites(s), |g.edges| - i + 1
  {
    hide Visit, VisitEdges, Branch;
    if i == |g.edges| {
      VisitEdgesEnds(g, pv, v, s, scc);
    } else {
      VisitEdgesUnfolds(g, pv, v, i, s, scc);
      var u := g.edges[i].sink;
      var r := VisitEdges(g, pv, v, i, s, scc);
      if g.edges[i].source == v && s.marks[u].color.White? {
        var s1 := SetPred(s, u, v);
        VisitForest(g, pv, u, s1, scc);
        var s2 := Visit(g, pv, u, s1, scc);
        TreeEdge(g, s, s2, v, u, i, scc);
        VisitEdgesForest(g, pv, v, i + 1, s2, scc);
        forall w: nat | New(s, r, w) ensures Branch(g, r, w) && s.t < r.marks[w].d && r.marks[w].color.Black? {
          if Seen(s2, w) {
            assert w != u ==> New(s1, s2, w);
            BranchStays(g, s2, r, scc, w);
          } else {
            assert New(s2, r, w);
          }
        }
      } else {
        VisitEdgesForest(g, pv, v, i + 1, s, scc);
      }
    }
  }

  lemma TreeEdge(g: Graph, s: State, s2: State, v: nat, u: nat, i: nat, scc: nat)
    requires g.Wf() && |s.marks| == g.n && v < g.n && u < g.n && s.marks[v].color.Gray? && s.marks[u].color.White?
    requires Clocked(s) && i < |g.edges| && g.edges[i] == Edge(v, u) && EdgesDone(g, v, i, s)
    requires Extends(SetPred(s, u, v), s2, scc) && Seen(s2, u) && s2.marks[u].pred == Some(v) && s2.marks[u].d == s.t + 1
    ensures Branch(g, s2, u)
  {
    assert Seen(s, v);
    forall k | 0 <= k < i && g.edges[k].source == v ensures Seen(s2, g.edges[k].sink) && s2.marks[g.edges[k].sink].d < s2.marks[u].d {
      assert Seen(s, g.edges[k].sink);
    }
    assert Followed(g, s2, v, u, i);
  }

  // ---------- the first search ----------

  /** A vertex without predecessor is discovered when every vertex before it in the list is finished; any other is
      a branch, and is discovered and finished while one before it in the list is active. */
  ghost predicate Grown(g: Graph, s: State, u: nat)
    requires u < |s.marks|
  {
    var m := s.marks;
    if m[u].pred == None then forall w :: 0 <= w < u ==> m[w].color.Black? && m[w].f < m[u].d
    else Branch(g, s, u) && exists w :: 0 <= w < u && m[w].color.Black? && m[w].d < m[u].d && m[u].f < m[w].f
  }

  /** The search so far, before vertex i of the list. */
  ghost predicate Growing(g: Graph, i: nat, s: State)
    requires |s.marks| == g.n && i <= g.n
  {
    && Clocked(s) && NoGray(s)
    && (forall u :: 0 <= u < i ==> s.marks[u].color.Black?)
    && forall u: nat :: u < g.n ==> if s.marks[u].color.White? then s.marks[u].pred == None else Grown(g, s, u)
  }

  lemma GrownStays(g: Graph, s: State, r: State, u: nat)
    requires g.Wf() && |s.marks| == g.n && Extends(s, r, 0) && u < g.n && s.marks[u].color.Black? && Grown(g, s, u)
    ensures Grown(g, r, u)
  {
    hide Branch;
    if s.marks[u].pred != None {
      BranchStays(g, s, r, 0, u);
      var w :| 0 <= w < u && s.marks[w].color.Black? && s.marks[w].d < s.marks[u].d && s.marks[u].f < s.marks[w].f;
      assert r.marks[w] == s.marks[w];
    }
  }

  /** One more vertex of the list. */
  lemma TreeGrows(g: Graph, pv: seq<seq<nat>>, i: nat, s: State)
    requires Fits(g, pv, s) && i < g.n && s.marks[i].color.White? && Growing(g, i, s)
    ensures Growing(g, i + 1, Visit(g, pv, i, s, 0))
  {
    hide Visit, Branch, Grown;
    var r := Visit(g, pv, i, s, 0);
    VisitForest(g, pv, i, s, 0);
    forall u: nat | u < g.n ensures if r.marks[u].color.White? then r.marks[u].pred == None else Grown(g, r, u) {
      assert if s.marks[u].color.White? then s.marks[u].pred == None else Grown(g, s, u);
      if s.marks[u].color.Black? {
        GrownStays(g, s, r, u);
      } else if u != i && Seen(r, u) {
        assert New(s, r, u);
        NewGrown(g, r, i, u);
      } else if u == i {
        RootGrown(g, s, r, i);
      }
    }
  }

  lemma NewGrown(g: Graph, s: State, w: nat, u: nat)
    requires w < u < |s.marks| && Branch(g, s, u) && s.marks[w].color.Black? && s.marks[w].d < s.marks[u].d && s.marks[u].f < s.marks[w].f
    ensures Grown(g, s, u)
  {
    hide Branch;
    assert s.marks[u].pred != None by { BranchHasPred(g, s, u); }
  }

  lemma BranchHasPred(g: Graph, s: State, u: nat)
    requires Branch(g, s, u)
    ensures u < |s.marks| && s.marks[u].pred != None
  {
  }

  lemma RootGrown(g: Graph, s: State, r: State, i: nat)
    requires g.Wf() && |s.marks| == g.n && i < g.n && Extends(s, r, 0) && Clocked(s)
    requires r.marks[i].pred == None && r.marks[i].d == s.t + 1 && forall w :: 0 <= w < i ==> s.marks[w].color.Black?
    ensures Grown(g, r, i)
  {
  }

  lemma {:induction false} SearchGrows(g: Graph, pv: seq<seq<nat>>, i: nat, s: State)
    requires Fits(g, pv, s) && i <= g.n && Growing(g, i, s)
    ensures Growing(g, g.n, SearchFrom(g, pv, i, s))
    decreases g.n - i
  {
    hide Growing, SearchFrom, Visit;
    if i == g.n {
      SearchFromEnds(g, pv, s);
    } else {
      SearchFromUnfolds(g, pv, i, s);
      if s.marks[i].color.White? {
        TreeGrows(g, pv, i, s);
        SearchGrows(g, pv, i + 1, Visit(g, pv, i, s, 0));
      } else {
        NotWhite(g, i, s);
        SearchGrows(g, pv, i + 1, s);
      }
    }
  }

  lemma NotWhite(g: Graph, i: nat, s: State)
    requires |s.marks| == g.n && i < g.n && Growing(g, i, s) && !s.marks[i].color.White?
    ensures Growing(g, i + 1, s)
  {
    hide Grown;
  }

  /** The predecessors of a complete search form a forest. Trees start at the vertices that are still undiscovered
      when all vertices before them in the list are finished; every other vertex hangs by an edge from the vertex
      that it names, which is active throughout its own interval, and by the first edge of that vertex that led
      to something undiscovered. */
  lemma PredecessorForest(g: Graph, pv: seq<seq<nat>>, s: State, u: nat)
    requires Fits(g, pv, s) && u < g.n
    ensures var r := Search(g, pv, s);
            match r.marks[u].pred
            case None => forall w :: 0 <= w < u ==> r.marks[w].f < r.marks[u].d
            case Some(v) =>
              && v < g.n && r.marks[v].d < r.marks[u].d && r.marks[u].f < r.marks[v].f
              && (exists j: nat :: Followed(g, r, v, u, j))
              && exists w :: 0 <= w < u && r.marks[w].d < r.marks[u].d && r.marks[u].f < r.marks[w].f
  {
    hide Search, SearchFrom, Followed;
    SearchUnfolds(g, pv, s);
    assert Growing(g, 0, Reset(s));
    SearchGrows(g, pv, 0, Reset(s));
    var r := Search(g, pv, s);
    assert Grown(g, r, u);
    SearchDone(g, pv, s);
    if r.marks[u].pred.Some? {
      var j: nat :| Followed(g, r, r.marks[u].pred.value, u, j);
      FollowedParts(g, r, r.marks[u].pred.value, u, j);
    }
  }

  lemma FollowedParts(g: Graph, s: State, v: nat, u: nat, j: nat)
    requires Followed(g, s, v, u, j) && AllBlack(s)
    ensures v < |s.marks| && u < |s.marks| && s.marks[v].d < s.marks[u].d && s.marks[u].f < s.marks[v].f
  {
  }

  // ---------- the second pass ----------

  /** Before the vertices of order are popped: a vertex without predecessor is the first discovered of its component,
      and components are numbered by falling first finish times m[..].f of these. */
  ghost predicate Sprouting(g: Graph, m: seq<Mark>, order: seq<nat>, s: State, k: nat)
    requires |s.marks| == g.n == |m| && Below(order, g.n)
  {
    && Clocked(s) && NoGray(s)
    && (forall u: nat :: u < g.n && s.marks[u].pred.Some? ==> Branch(g, s, u) && s.marks[u].color.Black?)
    && (forall u: nat :: Seen(s, u) ==> s.marks[u].scc <= k)
    && (forall u: nat, w: nat {:trigger Roots(s, u, w)} :: Roots(s, u, w) ==> (s.marks[u].scc < s.marks[w].scc <==> m[w].f < m[u].f))
    && (forall u: nat, j :: Seen(s, u) && s.marks[u].pred == None && 0 <= j < |order| ==> m[order[j]].f < m[u].f)
    && forall u: nat, w: nat {:trigger Led(s, u, w)} :: Led(s, u, w) ==> s.marks[u].d <= s.marks[w].d
  }

  ghost predicate Roots(s: State, u: nat, w: nat) {
    Seen(s, u) && Seen(s, w) && s.marks[u].pred == None && s.marks[w].pred == None
  }

  /** u has no predecessor, and w is in its component. */
  ghost predicate Led(s: State, u: nat, w: nat) {
    Seen(s, u) && Seen(s, w) && s.marks[u].pred == None && s.marks[u].scc == s.marks[w].scc
  }

  lemma TreeSprouts(g: Graph, pv: seq<seq<nat>>, m: seq<Mark>, order: seq<nat>, s: State, k: nat)
    requires Fits(g, pv, s) && |m| == g.n && Below(order, g.n) && order != [] && SortedByFinish(m, order)
    requires Sprouting(g, m, order, s, k) && s.marks[order[|order| - 1]].color.White?
    ensures Sprouting(g, m, order[..|order| - 1], Visit(g, pv, order[|order| - 1], s, k + 1), k + 1)
  {
    hide Visit, Branch;
    var n := |order| - 1;
    var v := order[n];
    var r := Visit(g, pv, v, s, k + 1);
    VisitForest(g, pv, v, s, k + 1);
    assert s.marks[v].pred == None;
    forall u: nat | u < g.n && r.marks[u].pred.Some? ensures Branch(g, r, u) && r.marks[u].color.Black? {
      if Seen(s, u) { BranchStays(g, s, r, k + 1, u); } else if u != v { assert Seen(r, u) ==> New(s, r, u); }
    }
    forall u: nat | Seen(r, u) ensures if Seen(s, u) then r.marks[u] == s.marks[u] else r.marks[u].scc == k + 1 && (u != v ==> r.marks[u].pred.Some? && r.marks[v].d < r.marks[u].d) {
      if !Seen(s, u) && u != v { assert New(s, r, u); BranchHasPred(g, r, u); }
    }
    forall u: nat, w: nat | Roots(r, u, w) ensures r.marks[u].scc < r.marks[w].scc <==> m[w].f < m[u].f {
      if Seen(s, u) && Seen(s, w) { assert Roots(s, u, w); }
    }
    forall u: nat, w: nat | Led(r, u, w) ensures r.marks[u].d <= r.marks[w].d {
      if Seen(s, u) && Seen(s, w) { assert Led(s, u, w); }
    }
  }

  lemma SproutLess(g: Graph, m: seq<Mark>, order: seq<nat>, s: State, k: nat)
    requires |s.marks| == g.n == |m| && Below(order, g.n) && order != [] && Sprouting(g, m, order, s, k)
    ensures Sprouting(g, m, order[..|order| - 1], s, k)
  {
    hide Branch;
  }

  lemma {:induction false} CollectSprouts(g: Graph, pv: seq<seq<nat>>, m: seq<Mark>, order: seq<nat>, s: State, k: nat)
    requires Fits(g, pv, s) && |m| == g.n && Below(order, g.n) && SortedByFinish(m, order) && Sprouting(g, m, order, s, k)
    ensures var (r, c) := Collect(g, pv, order, s, k); Sprouting(g, m, [], r, c)
    decreases |order|
  {
    hide Collect, Visit, Sprouting;
    if order == [] {
      CollectEnds(g, pv, s, k);
    } else {
      var n := |order| - 1;
      CollectUnfolds(g, pv, order, s, k);
      if s.marks[order[n]].color.White? {
        TreeSprouts(g, pv, m, order, s, k);
        CollectSprouts(g, pv, m, order[..n], Visit(g, pv, order[n], s, k + 1), k + 1);
      } else {
        SproutLess(g, m, order, s, k);
        CollectSprouts(g, pv, m, order[..n], s, k);
      }
    }
  }

  /** After the numbering, in which edges are followed backwards: exactly the first discovered vertex of each
      component has no predecessor, every other hangs by an edge from the vertex it names; and components are
      numbered by falling finish times, in the first search, of their first discovered vertices. */
  lemma NumberedForest(g: Graph, pv: seq<seq<nat>>, s: State, u: nat, w: nat)
    requires Fits(g, pv, s) && u < g.n && w < g.n
    ensures var (r, k) := Number(g, pv, s);
            match r.marks[u].pred
            case None =>
              && (r.marks[u].scc == r.marks[w].scc ==> r.marks[u].d <= r.marks[w].d)
              && (r.marks[w].pred == None ==> (r.marks[u].scc < r.marks[w].scc <==> Search(g, pv, s).marks[w].f < Search(g, pv, s).marks[u].f))
            case Some(v) =>
              && v < g.n && r.marks[v].d < r.marks[u].d && r.marks[u].f < r.marks[v].f
              && exists j: nat :: Followed(g.Transpose(), r, v, u, j)
  {
    hide Followed, Number, Search, FinishOrder, Collect, SortedByFinish;
    NumberUnfolds(g, pv, s);
    NumberCorrect(g, pv, s);
    var s1, t := Search(g, pv, s), g.Transpose();
    var order := FinishOrder(s1.marks, g.n);
    FinishOrderSorted(s1.marks, g.n);
    assert Sprouting(t, s1.marks, order, Reset(s1), 0);
    CollectSprouts(t, pv, s1.marks, order, Reset(s1), 0);
    var (r, k) := Number(g, pv, s);
    assert Seen(r, u) && Seen(r, w);
    if r.marks[u].pred.Some? {
      assert Branch(t, r, u);
      var j: nat :| Followed(t, r, r.marks[u].pred.value, u, j);
      FollowedParts(t, r, r.marks[u].pred.value, u, j);
    } else {
      assert Led(r, u, w) <==> r.marks[u].scc == r.marks[w].scc;
      assert Roots(r, u, w) <==> r.marks[w].pred == None;
    }
  }
}
