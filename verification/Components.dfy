/** The two-pass component numbering, as a function on values, and its correctness: the numbers identify exactly
    the strongly connected components. */
module Components {
  import opened Digraph
  import opened DepthFirst
  import opened SearchFacts

  // ---------- a complete search ----------

  ghost predicate AllBlack(s: State) {
    forall u :: 0 <= u < |s.marks| ==> s.marks[u].color.Black?
  }

  ghost predicate NoGray(s: State) {
    forall u :: 0 <= u < |s.marks| ==> !s.marks[u].color.Gray?
  }

  lemma {:induction false} SearchFromKeeps(g: Graph, pv: seq<seq<nat>>, i: nat, s: State)
    requires Fits(g, pv, s) && i <= g.n && Inv(g, s) && NoGray(s)
    ensures Inv(g, SearchFrom(g, pv, i, s))
    decreases g.n - i
  {
    hide Inv;
    if i < g.n {
      if s.marks[i].color.White? {
        VisitKeeps(g, pv, i, s, 0);
        SearchFromKeeps(g, pv, i + 1, Visit(g, pv, i, s, 0));
      } else {
        SearchFromKeeps(g, pv, i + 1, s);
      }
    }
  }

  lemma {:induction false} SearchFromFinishes(g: Graph, pv: seq<seq<nat>>, i: nat, s: State)
    requires Fits(g, pv, s) && i <= g.n && NoGray(s)
    requires forall j :: 0 <= j < i ==> s.marks[j].color.Black?
    ensures var r := SearchFrom(g, pv, i, s);
            AllBlack(r) && r.t == s.t + 2 * (|Whites(s)| - |Whites(r)|)
    decreases g.n - i
  {
    hide SearchFrom, Visit;
    if i == g.n {
      SearchFromEnds(g, pv, s);
    } else {
      SearchFromUnfolds(g, pv, i, s);
      if s.marks[i].color.White? {
        VisitTicks(g, pv, i, s, 0);
        SearchFromFinishes(g, pv, i + 1, Visit(g, pv, i, s, 0));
      } else {
        SearchFromFinishes(g, pv, i + 1, s);
      }
    }
  }

  lemma {:induction false} WhitesCount(s: State)
    requires forall u :: 0 <= u < |s.marks| ==> s.marks[u].color.White?
    ensures |Whites(s)| == |s.marks|
    decreases |s.marks|
  {
    if s.marks != [] {
      var n := |s.marks| - 1;
      var r := s.(marks := s.marks[..n]);
      WhitesCount(r);
      assert Whites(s) == Whites(r) + {n};
    }
  }

  lemma ResetHolds(g: Graph, pv: seq<seq<nat>>, s: State)
    requires Fits(g, pv, s)
    ensures Fits(g, pv, Reset(s)) && Inv(g, Reset(s)) && NoGray(Reset(s)) && |Whites(Reset(s))| == g.n
  {
    WhitesCount(Reset(s));
  }

  /** After a complete search every vertex is finished, the clock shows 2n, all discovery and finish times
      are nested or disjoint, and every component finishes no earlier than anything it reaches. */
  lemma SearchDone(g: Graph, pv: seq<seq<nat>>, s: State)
    requires Fits(g, pv, s)
    ensures var r := Search(g, pv, s);
            Inv(g, r) && AllBlack(r) && r.t == 2 * g.n && r.numbers == s.numbers
  {
    ResetHolds(g, pv, s);
    SearchFromKeeps(g, pv, 0, Reset(s));
    SearchFromFinishes(g, pv, 0, Reset(s));
    assert Whites(Search(g, pv, s)) == {};
  }

  /** Finish times are pairwise different and lie in 1..2n, so no bucket of topological_sort is used twice. */
  lemma FinishTimesDistinct(g: Graph, pv: seq<seq<nat>>, s: State, u: nat, v: nat)
    requires Fits(g, pv, s) && u < g.n && v < g.n && u != v
    ensures var m := Search(g, pv, s).marks;
            && 1 <= m[u].d < m[u].f <= 2 * g.n
            && m[u].f != m[v].f && m[u].d != m[v].d && m[u].f != m[v].d
            && (m[u].f < m[v].d || m[v].f < m[u].d
                || (m[u].d < m[v].d && m[v].f < m[u].f) || (m[v].d < m[u].d && m[u].f < m[v].f))
  {
    SearchDone(g, pv, s);
    var r := Search(g, pv, s);
    assert Seen(r, u) && Seen(r, v);
    assert Laminar(r, u, v);
  }

  // ---------- the vertices sorted by finish time ----------

  predicate Below(order: seq<nat>, n: nat) {
    forall j :: 0 <= j < |order| ==> order[j] < n
  }

  /** Where v belongs in order, which is sorted by increasing finish time. */
  function LowerBound(marks: seq<Mark>, order: seq<nat>, v: nat): (i: nat)
    requires v < |marks| && Below(order, |marks|)
    ensures i <= |order|
    ensures forall j :: 0 <= j < i ==> marks[order[j]].f < marks[v].f
    ensures i < |order| ==> marks[v].f <= marks[order[i]].f
    decreases |order|
  {
    if order == [] || marks[v].f <= marks[order[0]].f then 0
    else 1 + LowerBound(marks, order[1..], v)
  }

  ghost predicate SortedByFinish(marks: seq<Mark>, order: seq<nat>) {
    && Below(order, |marks|)
    && forall i, j :: 0 <= i < j < |order| ==> marks[order[i]].f < marks[order[j]].f
  }

  function Insert(marks: seq<Mark>, order: seq<nat>, v: nat): (r: seq<nat>)
    requires v < |marks| && Below(order, |marks|)
    ensures Below(r, |marks|) && |r| == |order| + 1
  {
    var i := LowerBound(marks, order, v);
    order[..i] + [v] + order[i..]
  }

  /** The first i vertices, inserted one by one. */
  function FinishOrder(marks: seq<Mark>, i: nat): (r: seq<nat>)
    requires i <= |marks|
    ensures |r| == i && Below(r, |marks|)
  {
    if i == 0 then [] else Insert(marks, FinishOrder(marks, i - 1), i - 1)
  }

  ghost predicate DistinctFinish(marks: seq<Mark>) {
    forall u, v :: 0 <= u < v < |marks| ==> marks[u].f != marks[v].f
  }

  lemma SplicedSorted(marks: seq<Mark>, order: seq<nat>, k: nat, v: nat, r: seq<nat>)
    requires v < |marks| && SortedByFinish(marks, order) && k <= |order|
    requires forall j :: 0 <= j < k ==> marks[order[j]].f < marks[v].f
    requires forall j :: k <= j < |order| ==> marks[v].f < marks[order[j]].f
    requires r == order[..k] + [v] + order[k..]
    ensures SortedByFinish(marks, r)
  {
    assert forall j :: 0 <= j < |r| ==> r[j] == if j < k then order[j] else if j == k then v else order[j - 1];
  }

  lemma InsertSorted(marks: seq<Mark>, order: seq<nat>, v: nat)
    requires v < |marks| && SortedByFinish(marks, order)
    requires forall j :: 0 <= j < |order| ==> marks[order[j]].f != marks[v].f
    ensures SortedByFinish(marks, Insert(marks, order, v))
  {
    SplicedSorted(marks, order, LowerBound(marks, order, v), v, Insert(marks, order, v));
  }

  lemma InsertContent(marks: seq<Mark>, order: seq<nat>, v: nat)
    requires v < |marks| && Below(order, |marks|)
    ensures forall x: nat :: x in Insert(marks, order, v) <==> x == v || x in order
  {
    var k := LowerBound(marks, order, v);
    assert order == order[..k] + order[k..];
  }

  /** The sorted list holds every vertex; its length leaves no room for repetition. */
  lemma {:induction false} FinishOrderContent(marks: seq<Mark>, i: nat)
    requires i <= |marks|
    ensures forall x: nat :: x in FinishOrder(marks, i) <==> x < i
  {
    if i > 0 {
      FinishOrderContent(marks, i - 1);
      InsertContent(marks, FinishOrder(marks, i - 1), i - 1);
    }
  }

  lemma FinishOrderDiffers(marks: seq<Mark>, v: nat, j: nat)
    requires v < |marks| && j < v && DistinctFinish(marks)
    ensures marks[FinishOrder(marks, v)[j]].f != marks[v].f
  {
    FinishOrderContent(marks, v);
    var order := FinishOrder(marks, v);
    assert order[j] in order;
  }

  lemma {:induction false} FinishOrderSorted(marks: seq<Mark>, i: nat)
    requires i <= |marks| && DistinctFinish(marks)
    ensures SortedByFinish(marks, FinishOrder(marks, i))
  {
    hide Insert, SortedByFinish;
    if i == 0 {
      assert FinishOrder(marks, i) == [];
      EmptySorted(marks);
    } else {
      var v: nat := i - 1;
      FinishOrderSorted(marks, v);
      forall j: nat | j < v ensures marks[FinishOrder(marks, v)[j]].f != marks[v].f {
        FinishOrderDiffers(marks, v, j);
      }
      InsertSorted(marks, FinishOrder(marks, v), v);
    }
  }

  lemma EmptySorted(marks: seq<Mark>)
    ensures SortedByFinish(marks, [])
  {
  }

  lemma LowerBoundUnique(marks: seq<Mark>, order: seq<nat>, v: nat, i: nat)
    requires v < |marks| && Below(order, |marks|) && i <= |order|
    requires forall j :: 0 <= j < i ==> marks[order[j]].f < marks[v].f
    requires forall j :: i <= j < |order| ==> marks[v].f <= marks[order[j]].f
    ensures i == LowerBound(marks, order, v)
  {
    assert i < |order| ==> marks[v].f <= marks[order[i]].f;
  }

  lemma FinishOrderStarts(marks: seq<Mark>)
    ensures FinishOrder(marks, 0) == []
  {
  }

  lemma FinishOrderUnfolds(marks: seq<Mark>, i: nat)
    requires i < |marks| && DistinctFinish(marks)
    ensures var order := FinishOrder(marks, i);
            && SortedByFinish(marks, order) && Below(order, |marks|)
            && var k := LowerBound(marks, order, i);
               && k <= |order|
               && FinishOrder(marks, i + 1) == order[..k] + [i] + order[k..]
  {
    FinishOrderSorted(marks, i);
  }

  // ---------- the second pass ----------

  /** Pops vertices off the end of order; each one still white starts the next component. */
  function Collect(g: Graph, pv: seq<seq<nat>>, order: seq<nat>, s: State, scc: nat): (r: (State, nat))
    requires Fits(g, pv, s) && Below(order, g.n)
    ensures Fits(g, pv, r.0) && |r.0.numbers| == |s.numbers|
    decreases |order|
  {
    if order == [] then (s, scc)
    else
      var v := order[|order| - 1];
      if s.marks[v].color.White? then Collect(g, pv, order[..|order| - 1], Visit(g, pv, v, s, scc + 1), scc + 1)
      else Collect(g, pv, order[..|order| - 1], s, scc)
  }

  lemma CollectUnfolds(g: Graph, pv: seq<seq<nat>>, order: seq<nat>, s: State, scc: nat)
    requires Fits(g, pv, s) && Below(order, g.n) && order != []
    ensures var n := |order| - 1;
            && order[n] < g.n == |s.marks| && Below(order[..n], g.n)
            && if s.marks[order[n]].color.White? then
                 var r := Visit(g, pv, order[n], s, scc + 1);
                 Fits(g, pv, r) && Collect(g, pv, order, s, scc) == Collect(g, pv, order[..n], r, scc + 1)
               else
                 Collect(g, pv, order, s, scc) == Collect(g, pv, order[..n], s, scc)
  {
  }

  lemma CollectEnds(g: Graph, pv: seq<seq<nat>>, s: State, scc: nat)
    requires Fits(g, pv, s)
    ensures Below([], g.n) && Collect(g, pv, [], s, scc) == (s, scc)
  {
  }

  /** Both passes: the final state and the number of components. */
  function Number(g: Graph, pv: seq<seq<nat>>, s: State): (r: (State, nat))
    requires Fits(g, pv, s)
    ensures Fits(g, pv, r.0) && |r.0.numbers| == |s.numbers|
  {
    var s1 := Search(g, pv, s);
    Collect(g.Transpose(), pv, FinishOrder(s1.marks, g.n), Reset(s1), 0)
  }

  /** What the first pass hands to the second: a component finishes no earlier than anything it reaches. */
  ghost predicate Leads(g: Graph, m: seq<Mark>, u: nat, v: nat)
    requires |m| == g.n && v < g.n
  {
    exists w: nat :: w < g.n && Mutual(g, u, w) && m[v].f <= m[w].f
  }

  ghost predicate FirstPass(g: Graph, m: seq<Mark>) {
    && g.Wf() && |m| == g.n
    && DistinctFinish(m)
    && forall u: nat, v: nat {:trigger Leads(g, m, u, v)} :: u < g.n && v < g.n && Reach(g, u, v) ==> Leads(g, m, u, v)
  }

  lemma SearchIsFirstPass(g: Graph, pv: seq<seq<nat>>, s: State)
    requires Fits(g, pv, s)
    ensures FirstPass(g, Search(g, pv, s).marks)
  {
    SearchDone(g, pv, s);
    var r := Search(g, pv, s);
    forall u, v | 0 <= u < v < g.n ensures r.marks[u].f != r.marks[v].f {
      FinishTimesDistinct(g, pv, s, u, v);
    }
    forall u: nat, v: nat | u < g.n && v < g.n && Reach(g, u, v) ensures Leads(g, r.marks, u, v) {
      assert Seen(r, u) && Seen(r, v);
      assert Covered(g, r, u, v);
      var w: nat :| w < g.n && Mutual(g, u, w) && NotBefore(r, w, v);
    }
  }

  ghost predicate Used(s: State, k: nat) {
    exists u: nat :: Seen(s, u) && s.marks[u].scc == k
  }

  /** The component numbers given so far are right: among numbered vertices, equal means mutually reachable. */
  ghost predicate Numbered(g: Graph, s: State, scc: nat)
    requires g.Wf() && |s.marks| == g.n
  {
    && (forall u: nat :: Seen(s, u) ==> 1 <= s.marks[u].scc <= scc)
    && (forall k: nat {:trigger Used(s, k)} :: 1 <= k <= scc ==> Used(s, k))
    && (forall u: nat, v: nat {:trigger Mutual(g, u, v)} :: Seen(s, u) && Seen(s, v) ==>
          (s.marks[u].scc == s.marks[v].scc <==> Mutual(g, u, v)))
    && (forall e :: e in g.edges && Seen(s, e.sink) ==> Seen(s, e.source) && s.marks[e.source].scc <= s.marks[e.sink].scc)
  }

  /** The state of the second pass, with the vertices of order still to be popped. */
  ghost predicate SecondPass(g: Graph, m: seq<Mark>, order: seq<nat>, s: State, scc: nat) {
    && FirstPass(g, m) && |s.marks| == g.n
    && SortedByFinish(m, order)
    && (forall x: nat :: x < g.n && x !in order ==>
          Seen(s, x) && forall j :: 0 <= j < |order| ==> m[order[j]].f < m[x].f)
    && NoGray(s) && Numbered(g, s, scc)
  }

  /** Whatever reaches a numbered vertex is numbered. */
  lemma SeenIsClosedBackwards(g: Graph, s: State, scc: nat, u: nat, v: nat)
    requires g.Wf() && |s.marks| == g.n && Numbered(g, s, scc)
    requires Reach(g, u, v) && Seen(s, v)
    ensures Seen(s, u)
  {
    var t := g.Transpose();
    var seen := set x | 0 <= x < |s.marks| && Seen(s, x) :: x as nat;
    ReachTranspose(g, u, v);
    forall e | e in t.edges && e.source in seen ensures e.sink in seen {
      TransposeEdge(g, Edge(e.sink, e.source));
      assert Seen(s, Edge(e.sink, e.source).sink);
    }
    ReachInClosed(t, seen, v, u);
  }

  /** The heart of the algorithm: the white vertices that reach the white vertex popped last are exactly its
      strongly connected component. */
  lemma WhitesReachingRoot(g: Graph, m: seq<Mark>, order: seq<nat>, s: State, scc: nat, u: nat)
    requires SecondPass(g, m, order, s, scc) && order != [] && u < g.n
    requires s.marks[order[|order| - 1]].color.White?
    ensures var v := order[|order| - 1];
            (s.marks[u].color.White? && Reach(g, u, v)) <==> Mutual(g, u, v)
  {
    var v := order[|order| - 1];
    assert v in order;
    if s.marks[u].color.White? && Reach(g, u, v) {
      assert Leads(g, m, u, v);
      var w: nat :| w < g.n && Mutual(g, u, w) && m[v].f <= m[w].f;
      if w != v {
        assert w !in order;
        SeenIsClosedBackwards(g, s, scc, u, w);
        assert false;
      }
    }
    if Mutual(g, u, v) && Seen(s, u) {
      SeenIsClosedBackwards(g, s, scc, v, u);
    }
  }

  lemma BlackIsClosed(t: Graph, r: State, v: nat, u: nat)
    requires t.Wf() && |r.marks| == t.n && NoBlackToWhite(t, r) && NoGray(r) && Seen(r, v) && Reach(t, v, u)
    ensures Seen(r, u)
  {
    var seen := set x | 0 <= x < |r.marks| && Seen(r, x) :: x as nat;
    forall e | e in t.edges && e.source in seen ensures e.sink in seen {
      assert r.marks[e.source].color.Black?;
      assert Seen(r, e.sink);
    }
    ReachInClosed(t, seen, v, u);
  }

  /** With no vertex active and no edge from a finished to a white vertex, a visit of v finishes exactly the
      white vertices reachable from v. */
  lemma VisitReaches(t: Graph, pv: seq<seq<nat>>, s: State, v: nat, scc: nat, u: nat)
    requires Fits(t, pv, s) && Inv(t, s) && NoGray(s) && v < t.n && s.marks[v].color.White? && u in Whites(s)
    ensures Seen(Visit(t, pv, v, s, scc), u) <==> Reach(t, v, u)
  {
    var r := Visit(t, pv, v, s, scc);
    VisitKeeps(t, pv, v, s, scc);
    if Reach(t, v, u) {
      BlackIsClosed(t, r, v, u);
    }
    if Seen(r, u) {
      VisitFollowsWhitePaths(t, pv, v, s, scc, u);
      var p :| WhitePath(t, s, v, p, u);
      WhitePathIsPath(t, s, v, p, u);
    }
  }

  /** The visit of the vertex popped last finishes exactly its component, all of it new. */
  lemma RootVisit(g: Graph, pv: seq<seq<nat>>, m: seq<Mark>, order: seq<nat>, s: State, scc: nat, u: nat)
    requires SecondPass(g, m, order, s, scc) && order != [] && u < g.n
    requires Fits(g.Transpose(), pv, s) && Inv(g.Transpose(), s)
    requires s.marks[order[|order| - 1]].color.White?
    ensures var v, r := order[|order| - 1], Visit(g.Transpose(), pv, order[|order| - 1], s, scc + 1);
            && (Seen(r, u) <==> Seen(s, u) || Mutual(g, u, v))
            && !(Seen(s, u) && Mutual(g, u, v))
  {
    hide Inv;
    var v, t := order[|order| - 1], g.Transpose();
    WhitesReachingRoot(g, m, order, s, scc, u);
    ReachTranspose(g, u, v);
    hide SecondPass, Reach, Mutual;
    if s.marks[u].color.White? {
      assert u in Whites(s);
      VisitReaches(t, pv, s, v, scc + 1, u);
    }
  }

  lemma RootVisitNumbers(g: Graph, pv: seq<seq<nat>>, m: seq<Mark>, order: seq<nat>, s: State, scc: nat)
    requires SecondPass(g, m, order, s, scc) && order != []
    requires Fits(g.Transpose(), pv, s) && Inv(g.Transpose(), s)
    requires s.marks[order[|order| - 1]].color.White?
    ensures var r := Visit(g.Transpose(), pv, order[|order| - 1], s, scc + 1);
            && Inv(g.Transpose(), r) && Numbered(g, r, scc + 1)
  {
    var v, t := order[|order| - 1], g.Transpose();
    var r := Visit(t, pv, v, s, scc + 1);
    VisitKeeps(t, pv, v, s, scc + 1);
    forall u: nat | u < g.n
      ensures Seen(r, u) <==> Seen(s, u) || Mutual(g, u, v)
      ensures Seen(s, u) ==> !Mutual(g, u, v)
    {
      RootVisit(g, pv, m, order, s, scc, u);
    }
    NumberedExtends(g, s, r, scc, v);
  }

  lemma NumberedExtends(g: Graph, s: State, r: State, scc: nat, v: nat)
    requires g.Wf() && |s.marks| == g.n && v < g.n && Numbered(g, s, scc) && Extends(s, r, scc + 1)
    requires forall u: nat :: u < g.n ==> (Seen(r, u) <==> Seen(s, u) || Mutual(g, u, v))
    requires forall u: nat :: u < g.n && Seen(s, u) ==> !Mutual(g, u, v)
    requires NoGray(r) && NoBlackToWhite(g.Transpose(), r)
    ensures Numbered(g, r, scc + 1)
  {
    forall k: nat | 1 <= k <= scc + 1 ensures Used(r, k) {
      if k <= scc {
        assert Used(s, k);
        var u: nat :| Seen(s, u) && s.marks[u].scc == k;
        assert Seen(r, u) && r.marks[u] == s.marks[u];
      } else {
        ReachSelf(g, v);
        assert Seen(r, v) && !Seen(s, v);
      }
    }
    forall u: nat, w: nat | Seen(r, u) && Seen(r, w)
      ensures r.marks[u].scc == r.marks[w].scc <==> Mutual(g, u, w)
    {
      if Seen(s, u) == Seen(s, w) {
        if !Seen(s, u) { MutualTrans(g, u, v, w); }
      } else if Mutual(g, u, w) {
        if Seen(s, u) { MutualTrans(g, u, w, v); } else { MutualTrans(g, w, u, v); }
      }
    }
    forall e | e in g.edges && Seen(r, e.sink)
      ensures Seen(r, e.source) && r.marks[e.source].scc <= r.marks[e.sink].scc
    {
      TransposeEdge(g, e);
      assert Edge(e.sink, e.source).source == e.sink;
    }
  }

  lemma SecondPassShrinks(g: Graph, m: seq<Mark>, order: seq<nat>, s: State, scc: nat, r: State, k: nat)
    requires SecondPass(g, m, order, s, scc) && order != []
    requires |r.marks| == g.n && NoGray(r) && Numbered(g, r, k)
    requires forall x: nat :: Seen(s, x) || x == order[|order| - 1] ==> Seen(r, x)
    ensures SecondPass(g, m, order[..|order| - 1], r, k)
  {
    var n := |order| - 1;
    assert order == order[..n] + [order[n]];
  }

  lemma {:induction false} CollectNumbers(g: Graph, pv: seq<seq<nat>>, m: seq<Mark>, order: seq<nat>, s: State, scc: nat)
    requires SecondPass(g, m, order, s, scc) && Below(order, g.n)
    requires Fits(g.Transpose(), pv, s) && Inv(g.Transpose(), s)
    ensures var (r, k) := Collect(g.Transpose(), pv, order, s, scc);
            AllBlack(r) && Numbered(g, r, k)
    decreases |order|
  {
    hide Inv, Numbered, FirstPass, Collect, Visit;
    if order == [] {
      CollectEnds(g.Transpose(), pv, s, scc);
      forall u | 0 <= u < |s.marks| ensures s.marks[u].color.Black? {
        assert Seen(s, u);
      }
    } else {
      var v, t := order[|order| - 1], g.Transpose();
      CollectUnfolds(t, pv, order, s, scc);
      if s.marks[v].color.White? {
        RootVisitNumbers(g, pv, m, order, s, scc);
        var r := Visit(t, pv, v, s, scc + 1);
        SecondPassShrinks(g, m, order, s, scc, r, scc + 1);
        CollectNumbers(g, pv, m, order[..|order| - 1], r, scc + 1);
      } else {
        SecondPassShrinks(g, m, order, s, scc, s, scc);
        CollectNumbers(g, pv, m, order[..|order| - 1], s, scc);
      }
    }
  }

  /** The numbers are right: they are the strongly connected components, numbered 1..k, and no edge leads to
      a smaller number. */
  ghost predicate ComponentNumbers(g: Graph, m: seq<Mark>, k: nat) {
    && g.Wf() && |m| == g.n
    && (forall u: nat :: u < g.n ==> 1 <= m[u].scc <= k)
    && (forall j: nat {:trigger HasNumber(m, j)} :: 1 <= j <= k ==> HasNumber(m, j))
    && (forall u: nat, v: nat {:trigger Mutual(g, u, v)} :: u < g.n && v < g.n ==>
          (m[u].scc == m[v].scc <==> Mutual(g, u, v)))
    && (forall e :: e in g.edges ==> m[e.source].scc <= m[e.sink].scc)
  }

  ghost predicate HasNumber(m: seq<Mark>, j: nat) {
    exists u: nat :: u < |m| && m[u].scc == j
  }

  lemma NothingNumbered(g: Graph, s: State)
    requires g.Wf() && |s.marks| == g.n && forall u :: 0 <= u < |s.marks| ==> s.marks[u].color.White?
    ensures Numbered(g, s, 0) && NoGray(s)
  {
  }

  lemma SecondPassStarts(g: Graph, m: seq<Mark>, s: State)
    requires FirstPass(g, m) && |s.marks| == g.n
    requires forall u :: 0 <= u < |s.marks| ==> s.marks[u].color.White?
    ensures SecondPass(g, m, FinishOrder(m, g.n), s, 0)
  {
    FirstPassParts(g, m);
    hide FirstPass, FinishOrder, Numbered, SortedByFinish;
    FinishOrderSorted(m, g.n);
    FinishOrderContent(m, g.n);
    NothingNumbered(g, s);
  }

  lemma FirstPassParts(g: Graph, m: seq<Mark>)
    requires FirstPass(g, m)
    ensures g.Wf() && |m| == g.n && DistinctFinish(m)
  {
  }

  /** scc_rdgp is right on every graph. */
  lemma NumberCorrect(g: Graph, pv: seq<seq<nat>>, s: State)
    requires Fits(g, pv, s)
    ensures var (r, k) := Number(g, pv, s); ComponentNumbers(g, r.marks, k) && AllBlack(r)
  {
    hide FirstPass, SecondPass, Inv, ComponentNumbers, Collect, Numbered;
    SearchIsFirstPass(g, pv, s);
    var s1 := Search(g, pv, s);
    var t, order := g.Transpose(), FinishOrder(s1.marks, g.n);
    ResetHolds(t, pv, s1);
    SecondPassStarts(g, s1.marks, Reset(s1));
    CollectNumbers(g, pv, s1.marks, order, Reset(s1), 0);
    var (r, k) := Number(g, pv, s);
    NumberedIsComponentNumbers(g, r, k);
  }

  lemma NumberedIsComponentNumbers(g: Graph, r: State, k: nat)
    requires g.Wf() && |r.marks| == g.n && AllBlack(r) && Numbered(g, r, k)
    ensures ComponentNumbers(g, r.marks, k)
  {
    assert forall u: nat :: u < g.n ==> Seen(r, u);
    forall j: nat | 1 <= j <= k ensures HasNumber(r.marks, j) {
      assert Used(r, j);
    }
    forall e | e in g.edges ensures r.marks[e.source].scc <= r.marks[e.sink].scc {
      assert Seen(r, e.sink);
    }
  }

  lemma NumberUnfolds(g: Graph, pv: seq<seq<nat>>, s: State)
    requires Fits(g, pv, s)
    ensures var s1, t := Search(g, pv, s), g.Transpose();
            && DistinctFinish(s1.marks) && |s1.marks| == g.n
            && t.n == g.n && t.Transpose() == g
            && Fits(t, pv, s1) && Fits(t, pv, Reset(s1)) && Below(FinishOrder(s1.marks, g.n), g.n)
            && Number(g, pv, s) == Collect(t, pv, FinishOrder(s1.marks, g.n), Reset(s1), 0)
  {
    SearchIsFirstPass(g, pv, s);
    TransposeTwice(g);
  }
}
