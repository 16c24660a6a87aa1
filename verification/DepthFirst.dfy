/** The timed depth-first search of the partition graph, as a function on values, and what every
    step of it keeps. The methods of module PartitionGraph are proved to compute exactly Visit. */
module DepthFirst {
  import opened Options
  import opened Digraph

  datatype Color = White | Gray | Black

  /** The fields of a partition vertex that the search writes. */
  datatype Mark = Mark(color: Color, d: nat, f: nat, scc: nat, pred: Option<nat>)

  /** Marks of all vertices, the clock, and for every statement the component numbers pushed on it. */
  datatype State = State(marks: seq<Mark>, t: nat, numbers: seq<seq<nat>>)

  /** pv[v] lists the statements of vertex v. */
  predicate Fits(g: Graph, pv: seq<seq<nat>>, s: State) {
    && g.Wf()
    && |s.marks| == g.n == |pv|
    && forall v, j :: 0 <= v < |pv| && 0 <= j < |pv[v]| ==> pv[v][j] < |s.numbers|
  }

  function Whites(s: State): set<nat> {
    set v: nat | v < |s.marks| && s.marks[v].color.White?
  }

  predicate Seen(s: State, u: nat) {
    u < |s.marks| && !s.marks[u].color.White?
  }

  function PushAll(numbers: seq<seq<nat>>, rs: seq<nat>, scc: nat): (r: seq<seq<nat>>)
    requires forall j :: 0 <= j < |rs| ==> rs[j] < |numbers|
    ensures |r| == |numbers|
    decreases |rs|
  {
    if rs == [] then numbers
    else PushAll(numbers[rs[0] := numbers[rs[0]] + [scc]], rs[1..], scc)
  }

  function Discover(g: Graph, pv: seq<seq<nat>>, v: nat, s: State, scc: nat): (r: State)
    requires Fits(g, pv, s) && v < g.n
  {
    State(s.marks[v := s.marks[v].(color := Gray, d := s.t + 1, scc := scc)],
          s.t + 1,
          if scc == 0 then s.numbers else PushAll(s.numbers, pv[v], scc))
  }

  lemma DiscoverUnfolds(g: Graph, pv: seq<seq<nat>>, v: nat, s: State, scc: nat)
    requires Fits(g, pv, s) && v < g.n
    ensures v < |s.marks| && v < |pv| && forall j :: 0 <= j < |pv[v]| ==> pv[v][j] < |s.numbers|
    ensures var r := Discover(g, pv, v, s, scc);
            && r.marks == s.marks[v := s.marks[v].(color := Gray, d := s.t + 1, scc := scc)] && r.t == s.t + 1
            && r.numbers == if scc == 0 then s.numbers else PushAll(s.numbers, pv[v], scc)
  {
  }

  function Finish(v: nat, s: State): State
    requires v < |s.marks|
  {
    State(s.marks[v := s.marks[v].(color := Black, f := s.t + 1)], s.t + 1, s.numbers)
  }

  /** r differs from s only in vertices that were white, and those are now finished and carry scc. */
  predicate Extends(s: State, r: State, scc: nat) {
    && |r.marks| == |s.marks|
    && |r.numbers| == |s.numbers|
    && (scc == 0 ==> r.numbers == s.numbers)
    && forall u :: 0 <= u < |s.marks| ==>
         (r.marks[u] == s.marks[u]
          || (s.marks[u].color.White? && r.marks[u].color.Black? && r.marks[u].scc == scc))
  }

  function SetPred(s: State, u: nat, v: nat): State
    requires u < |s.marks|
  {
    s.(marks := s.marks[u := s.marks[u].(pred := Some(v))])
  }

  function Visit(g: Graph, pv: seq<seq<nat>>, v: nat, s: State, scc: nat): (r: State)
    requires Fits(g, pv, s) && v < g.n && s.marks[v].color.White?
    ensures Fits(g, pv, r) && Extends(s, r, scc) && r.marks[v].color.Black?
    decreases Whites(s), 0
  {
    var s1 := Discover(g, pv, v, s, scc);
    assert v in Whites(s) && Whites(s1) == Whites(s) - {v};
    Finish(v, VisitEdges(g, pv, v, 0, s1, scc))
  }

  /** The loop over the edge list inside the visit of v, from edge i on. */
  function VisitEdges(g: Graph, pv: seq<seq<nat>>, v: nat, i: nat, s: State, scc: nat): (r: State)
    requires Fits(g, pv, s) && v < g.n && i <= |g.edges| && Seen(s, v)
    ensures Fits(g, pv, r) && Extends(s, r, scc)
    decreases Whites(s), |g.edges| - i + 1
  {
    if i == |g.edges| then s
    else
      var u := g.edges[i].sink;
      if g.edges[i].source == v && s.marks[u].color.White? then
        var s1 := SetPred(s, u, v);
        assert Whites(s1) == Whites(s);
        var s2 := Visit(g, pv, u, s1, scc);
        assert Whites(s2) <= Whites(s) - {u} && u in Whites(s);
        VisitEdges(g, pv, v, i + 1, s2, scc)
      else VisitEdges(g, pv, v, i + 1, s, scc)
  }

  /** All vertices white and without predecessor, and the clock at zero, as both passes start. */
  function Reset(s: State): State {
    State(seq(|s.marks|, i requires 0 <= i < |s.marks| => s.marks[i].(color := White, pred := None)), 0, s.numbers)
  }

  /** The search loop over the vertices from i on. */
  function SearchFrom(g: Graph, pv: seq<seq<nat>>, i: nat, s: State): (r: State)
    requires Fits(g, pv, s) && i <= g.n
    ensures Fits(g, pv, r) && Extends(s, r, 0)
    decreases g.n - i
  {
    if i == g.n then s
    else SearchFrom(g, pv, i + 1, if s.marks[i].color.White? then Visit(g, pv, i, s, 0) else s)
  }

  /** A complete search: every vertex visited, in the order of the vertex list. */
  function Search(g: Graph, pv: seq<seq<nat>>, s: State): (r: State)
    requires Fits(g, pv, s)
    ensures Fits(g, pv, r) && |r.numbers| == |s.numbers|
  {
    SearchFrom(g, pv, 0, Reset(s))
  }

  lemma VisitUnfolds(g: Graph, pv: seq<seq<nat>>, v: nat, s: State, scc: nat)
    requires Fits(g, pv, s) && v < g.n && s.marks[v].color.White?
    ensures var s1 := Discover(g, pv, v, s, scc);
            && Fits(g, pv, s1) && Seen(s1, v) && Whites(s1) < Whites(s)
            && v < |VisitEdges(g, pv, v, 0, s1, scc).marks|
            && Visit(g, pv, v, s, scc) == Finish(v, VisitEdges(g, pv, v, 0, s1, scc))
  {
    assert v in Whites(s);
  }

  /** One round of the loop over the edges. */
  lemma VisitEdgesUnfolds(g: Graph, pv: seq<seq<nat>>, v: nat, i: nat, s: State, scc: nat)
    requires Fits(g, pv, s) && v < g.n && i < |g.edges| && Seen(s, v)
    ensures var u := g.edges[i].sink;
            && u < g.n == |s.marks|
            && if g.edges[i].source == v && s.marks[u].color.White? then
                 var s1 := SetPred(s, u, v);
                 && Fits(g, pv, s1) && s1.marks[u].color.White? && Whites(s1) == Whites(s)
                 && var s2 := Visit(g, pv, u, s1, scc);
                    && Fits(g, pv, s2) && Seen(s2, v) && Whites(s2) <= Whites(s) - {u} && u in Whites(s)
                    && VisitEdges(g, pv, v, i, s, scc) == VisitEdges(g, pv, v, i + 1, s2, scc)
               else
                 VisitEdges(g, pv, v, i, s, scc) == VisitEdges(g, pv, v, i + 1, s, scc)
  {
  }

  lemma VisitEdgesEnds(g: Graph, pv: seq<seq<nat>>, v: nat, s: State, scc: nat)
    requires Fits(g, pv, s) && v < g.n && Seen(s, v)
    ensures VisitEdges(g, pv, v, |g.edges|, s, scc) == s
  {
  }

  lemma SearchFromUnfolds(g: Graph, pv: seq<seq<nat>>, i: nat, s: State)
    requires Fits(g, pv, s) && i < g.n
    ensures i < |s.marks|
    ensures if s.marks[i].color.White? then
              var r := Visit(g, pv, i, s, 0);
              Fits(g, pv, r) && SearchFrom(g, pv, i, s) == SearchFrom(g, pv, i + 1, r)
            else
              SearchFrom(g, pv, i, s) == SearchFrom(g, pv, i + 1, s)
  {
  }

  lemma SearchFromEnds(g: Graph, pv: seq<seq<nat>>, s: State)
    requires Fits(g, pv, s)
    ensures SearchFrom(g, pv, g.n, s) == s
  {
  }

  lemma SearchUnfolds(g: Graph, pv: seq<seq<nat>>, s: State)
    requires Fits(g, pv, s)
    ensures Fits(g, pv, Reset(s)) && Search(g, pv, s) == SearchFrom(g, pv, 0, Reset(s))
  {
  }
}
