/** The component numbers that the second pass pushes on the statements of every partition. */
module ComponentMembers {
  import opened Digraph
  import opened DepthFirst
  import opened SearchFacts
  import opened Components

  predicate NoRepeats(rs: seq<nat>) {
    forall i, j :: 0 <= i < j < |rs| ==> rs[i] != rs[j]
  }

  lemma {:induction false} PushAllAt(numbers: seq<seq<nat>>, rs: seq<nat>, scc: nat, r: nat)
    requires forall j :: 0 <= j < |rs| ==> rs[j] < |numbers|
    requires NoRepeats(rs) && r < |numbers|
    ensures PushAll(numbers, rs, scc)[r] == if r in rs then numbers[r] + [scc] else numbers[r]
    decreases |rs|
  {
    if rs != [] {
      PushAllAt(numbers[rs[0] := numbers[rs[0]] + [scc]], rs[1..], scc, r);
      assert r in rs <==> r == rs[0] || r in rs[1..];
      assert r in rs[1..] ==> r != rs[0];
    }
  }

  /** Statement r is in the numbered vertex v. */
  ghost predicate In(pv: seq<seq<nat>>, s: State, r: nat, v: nat) {
    Seen(s, v) && v < |pv| && r in pv[v]
  }

  ghost predicate Carries(pv: seq<seq<nat>>, s: State, r: nat, k: nat) {
    exists v: nat :: In(pv, s, r, v) && s.marks[v].scc == k
  }

  /** r is in vertex v and in no other. */
  ghost predicate Only(pv: seq<seq<nat>>, r: nat, v: nat) {
    v < |pv| && r in pv[v] && forall w: nat :: w < |pv| && r in pv[w] ==> w == v
  }

  ghost predicate Pushed(pv: seq<seq<nat>>, s: State) {
    && (forall r: nat, k: nat {:trigger Carries(pv, s, r, k)} :: r < |s.numbers| ==> (k in s.numbers[r] <==> Carries(pv, s, r, k)))
    && (forall r: nat, v: nat {:trigger Only(pv, r, v)} :: r < |s.numbers| && Only(pv, r, v) ==>
          s.numbers[r] == if Seen(s, v) then [s.marks[v].scc] else [])
  }

  ghost predicate Distinct(pv: seq<seq<nat>>) {
    forall v :: 0 <= v < |pv| ==> NoRepeats(pv[v])
  }

  lemma DiscoverPushes(g: Graph, pv: seq<seq<nat>>, v: nat, s: State, scc: nat)
    requires Fits(g, pv, s) && v < g.n && s.marks[v].color.White? && scc != 0 && Distinct(pv) && Pushed(pv, s)
    ensures Pushed(pv, Discover(g, pv, v, s, scc))
  {
    var s1 := Discover(g, pv, v, s, scc);
    forall r: nat, k: nat | r < |s1.numbers| ensures k in s1.numbers[r] <==> Carries(pv, s1, r, k) {
      PushAllAt(s.numbers, pv[v], scc, r);
      assert k in s.numbers[r] <==> Carries(pv, s, r, k);
      assert forall w: nat :: In(pv, s, r, w) ==> In(pv, s1, r, w) && s1.marks[w] == s.marks[w];
      assert forall w: nat :: In(pv, s1, r, w) && w != v ==> In(pv, s, r, w);
      if r in pv[v] { assert In(pv, s1, r, v); }
    }
    forall r: nat, w: nat | r < |s1.numbers| && Only(pv, r, w)
      ensures s1.numbers[r] == if Seen(s1, w) then [s1.marks[w].scc] else []
    {
      PushAllAt(s.numbers, pv[v], scc, r);
    }
  }

  /** Pushed depends only on which vertices are numbered and how. */
  lemma SamePushed(pv: seq<seq<nat>>, s: State, r: State)
    requires Pushed(pv, s) && r.numbers == s.numbers && |r.marks| == |s.marks|
    requires forall u: nat :: Seen(r, u) <==> Seen(s, u)
    requires forall u: nat :: Seen(r, u) ==> r.marks[u].scc == s.marks[u].scc
    ensures Pushed(pv, r)
  {
    forall x: nat, k: nat | x < |r.numbers| ensures k in r.numbers[x] <==> Carries(pv, r, x, k) {
      assert k in s.numbers[x] <==> Carries(pv, s, x, k);
      assert forall w: nat :: In(pv, s, x, w) <==> In(pv, r, x, w);
    }
  }

  lemma {:induction false} VisitPushes(g: Graph, pv: seq<seq<nat>>, v: nat, s: State, scc: nat)
    requires Fits(g, pv, s) && v < g.n && s.marks[v].color.White? && scc != 0 && Distinct(pv) && Pushed(pv, s)
    ensures Pushed(pv, Visit(g, pv, v, s, scc))
    decreases Whites(s), 0
  {
    hide Pushed;
    DiscoverPushes(g, pv, v, s, scc);
    var s1 := Discover(g, pv, v, s, scc);
    assert v in Whites(s) && Whites(s1) == Whites(s) - {v};
    VisitEdgesPush(g, pv, v, 0, s1, scc);
    var s2 := VisitEdges(g, pv, v, 0, s1, scc);
    SamePushed(pv, s2, Finish(v, s2));
  }

  lemma {:induction false} VisitEdgesPush(g: Graph, pv: seq<seq<nat>>, v: nat, i: nat, s: State, scc: nat)
    requires Fits(g, pv, s) && v < g.n && i <= |g.edges| && !s.marks[v].color.White?
    requires scc != 0 && Distinct(pv) && Pushed(pv, s)
    ensures Pushed(pv, VisitEdges(g, pv, v, i, s, scc))
    decreases Whites(s), |g.edges| - i + 1
  {
    hide Pushed, Visit, VisitEdges;
    if i == |g.edges| {
      VisitEdgesEnds(g, pv, v, s, scc);
    } else {
      VisitEdgesUnfolds(g, pv, v, i, s, scc);
      var u := g.edges[i].sink;
      if g.edges[i].source == v && s.marks[u].color.White? {
        var s1 := SetPred(s, u, v);
        SamePushed(pv, s, s1);
        VisitPushes(g, pv, u, s1, scc);
        var s2 := Visit(g, pv, u, s1, scc);
        VisitEdgesPush(g, pv, v, i + 1, s2, scc);
      } else {
        VisitEdgesPush(g, pv, v, i + 1, s, scc);
      }
    }
  }

  lemma {:induction false} CollectPushes(g: Graph, pv: seq<seq<nat>>, order: seq<nat>, s: State, scc: nat)
    requires Fits(g, pv, s) && Below(order, g.n) && Distinct(pv) && Pushed(pv, s)
    ensures Pushed(pv, Collect(g, pv, order, s, scc).0)
    decreases |order|
  {
    hide Pushed;
    if order != [] {
      var v := order[|order| - 1];
      if s.marks[v].color.White? {
        VisitPushes(g, pv, v, s, scc + 1);
        CollectPushes(g, pv, order[..|order| - 1], Visit(g, pv, v, s, scc + 1), scc + 1);
      } else {
        CollectPushes(g, pv, order[..|order| - 1], s, scc);
      }
    }
  }

  lemma NothingPushed(pv: seq<seq<nat>>, s: State)
    requires forall r :: 0 <= r < |s.numbers| ==> s.numbers[r] == []
    requires forall u :: 0 <= u < |s.marks| ==> s.marks[u].color.White?
    ensures Pushed(pv, s)
  {
  }

  /** Every statement carries the numbers of the components of its partitions, and no other; a statement of
      one partition carries exactly that one number. */
  lemma NumberPushes(g: Graph, pv: seq<seq<nat>>, s: State)
    requires Fits(g, pv, s) && Distinct(pv)
    requires forall r :: 0 <= r < |s.numbers| ==> s.numbers[r] == []
    ensures Pushed(pv, Number(g, pv, s).0)
  {
    hide Pushed, Collect;
    SearchDone(g, pv, s);
    var s1 := Search(g, pv, s);
    NothingPushed(pv, Reset(s1));
    CollectPushes(g.Transpose(), pv, FinishOrder(s1.marks, g.n), Reset(s1), 0);
  }
}
