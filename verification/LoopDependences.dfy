/** The dependence graphs of an innermost loop: memory dependences oriented by a direction oracle, and
    register dependences from definitions to uses. */
module LoopDependences {

  /** Instructions are known by their number. */
  type Inst = nat

  datatype Direction = LT | EQ | GT

  datatype Reported<+T> = NoDependence | Dependence(dirs: T)

  /** What the analyses say about the instructions: which access memory, which pairs may touch the same
      address and in which directions of the loop, and which instructions use a result. */
  datatype Facts = Facts(accesses: Inst -> bool, depends: (Inst, Inst) -> Reported<set<Direction>>, uses: Inst -> set<Inst>)

  ghost predicate Distinct(body: seq<Inst>) {
    forall i, j :: 0 <= i < j < |body| ==> body[i] != body[j]
  }

  /** Seen from the other side, a dependence is reported with the directions turned around. */
  ghost predicate Symmetric(facts: Facts) {
    forall x: Inst, y: Inst ::
      match facts.depends(x, y)
      case NoDependence => facts.depends(y, x).NoDependence?
      case Dependence(d) =>
        match facts.depends(y, x)
        case NoDependence => false
        case Dependence(e) => (LT in d <==> GT in e) && (EQ in d <==> EQ in e) && (GT in d <==> LT in e)
  }

  /** x comes before y in the body. */
  ghost predicate Precedes(body: seq<Inst>, x: Inst, y: Inst) {
    exists i, j :: 0 <= i < j < |body| && body[i] == x && body[j] == y
  }

  /** When the memory dependence x -> y is to be recorded. */
  ghost predicate Oriented(facts: Facts, body: seq<Inst>, x: Inst, y: Inst) {
    && x in body && y in body && x != y && facts.accesses(x) && facts.accesses(y)
    && facts.depends(x, y).Dependence?
    && var d := facts.depends(x, y).dirs;
       LT in d || (EQ in d && Precedes(body, x, y)) || d == {}
  }

  /** The test of one pair, against the map built so far. */
  function Recorded(facts: Facts, memMap: map<Inst, set<Inst>>, src: Inst, dst: Inst): bool {
    && facts.accesses(dst) && facts.accesses(src)
    && match facts.depends(src, dst)
       case NoDependence => false
       case Dependence(d) =>
         if LT in d then true
         else if EQ in d then dst !in memMap || src !in memMap[dst]
         else if GT in d then false
         else true
  }

  /** After the instructions before i have been the source. */
  ghost predicate BuiltSoFar(facts: Facts, body: seq<Inst>, i: nat, memMap: map<Inst, set<Inst>>)
    requires i <= |body|
  {
    && memMap.Keys == (set j | 0 <= j < i :: body[j])
    && forall j, y: Inst :: 0 <= j < i ==> (y in memMap[body[j]] <==> Oriented(facts, body, body[j], y))
  }

  lemma NoDirection(d: set<Direction>)
    ensures LT !in d && EQ !in d && GT !in d <==> d == {}
  {
    if LT !in d && EQ !in d && GT !in d && d != {} {
      var e :| e in d;
      match e
      case LT =>
      case EQ =>
      case GT =>
    }
  }

  lemma PairDecided(facts: Facts, body: seq<Inst>, i: nat, j: nat, memMap: map<Inst, set<Inst>>)
    requires i < |body| && j < |body| && i != j && Distinct(body) && Symmetric(facts)
    requires BuiltSoFar(facts, body, i, memMap)
    ensures Recorded(facts, memMap, body[i], body[j]) <==> Oriented(facts, body, body[i], body[j])
  {
    var x, y := body[i], body[j];
    if facts.depends(x, y).Dependence? { NoDirection(facts.depends(x, y).dirs); }
    if j < i {
      assert y in memMap;
      assert x in memMap[y] <==> Oriented(facts, body, y, x);
      assert Precedes(body, y, x);
      assert !Precedes(body, x, y);
    } else {
      assert y !in memMap;
      assert Precedes(body, x, y);
    }
  }

  /** The pair loops of buildDG. */
  method BuildDependences(facts: Facts, body: seq<Inst>) returns (memMap: map<Inst, set<Inst>>, regMap: map<Inst, set<Inst>>)
    requires Distinct(body) && Symmetric(facts)
    ensures memMap.Keys == regMap.Keys == (set x | x in body)
    ensures forall x, y :: x in body ==> (y in memMap[x] <==> Oriented(facts, body, x, y))
    ensures forall x :: x in body ==> regMap[x] == if |body| > 1 then (set y | y in facts.uses(x) && y in body) else {}
  {
    memMap, regMap := map[], map[];
    for i := 0 to |body|
      invariant BuiltSoFar(facts, body, i, memMap) && regMap.Keys == memMap.Keys
      invariant forall j :: 0 <= j < i ==> regMap[body[j]] == UsesIn(facts, body, body[j])
    {
      var src := body[i];
      var memSet, regSet := SourceRow(facts, body, i, memMap);
      memMap := memMap[src := memSet];
      regMap := regMap[src := regSet];
    }
  }

  function UsesIn(facts: Facts, body: seq<Inst>, x: Inst): set<Inst> {
    if |body| > 1 then (set y | y in facts.uses(x) && y in body) else {}
  }

  lemma OnlyFromBody(facts: Facts, body: seq<Inst>, x: Inst)
    ensures forall y :: Oriented(facts, body, x, y) ==> y in body && y != x
  {
  }

  /** The inner loop: the dependences with source body[i]. */
  method SourceRow(facts: Facts, body: seq<Inst>, i: nat, memMap: map<Inst, set<Inst>>) returns (memSet: set<Inst>, regSet: set<Inst>)
    requires i < |body| && Distinct(body) && Symmetric(facts) && BuiltSoFar(facts, body, i, memMap)
    ensures forall y :: y in memSet <==> Oriented(facts, body, body[i], y)
    ensures regSet == UsesIn(facts, body, body[i])
  {
    hide Oriented, BuiltSoFar, Recorded, Symmetric;
    var src := body[i];
    memSet, regSet := {}, {};
    ghost var uses := set y | y in facts.uses(src) && y in body;
    OnlyFromBody(facts, body, src);
    for j := 0 to |body|
      invariant forall y :: y in memSet <==> y in body[..j] && Oriented(facts, body, src, y)
      invariant regSet == if j > 1 || (j == 1 && i > 0) then uses else {}
    {
      var dst := body[j];
      assert body[..j + 1] == body[..j] + [dst];
      if dst != src {
        PairDecided(facts, body, i, j, memMap);
        if Recorded(facts, memMap, src, dst) {
          memSet := memSet + {dst};
        }
        regSet := regSet + (set y | y in facts.uses(src) && y in body);
      }
    }
    assert body[..|body|] == body;
  }
}
