/** The edges between register partitions that the memory dependences between their instructions give. */
module PartitionEdges {
  import opened RegisterPartitions

  /** p is the first partition that holds x. */
  ghost predicate Home(prdg: seq<seq<Inst>>, x: Inst, p: nat) {
    p < |prdg| && x in prdg[p] && forall q :: 0 <= q < p ==> x !in prdg[q]
  }

  /** A memory dependence leads from an instruction of partition p to one of partition q. */
  ghost predicate Leads(prdg: seq<seq<Inst>>, memMap: Adjacency, p: nat, q: nat) {
    exists x: Inst, y: Inst :: x in memMap && y in memMap[x] && Home(prdg, x, p) && Home(prdg, y, q)
  }

  /** find_prdg. */
  method FindPartition(prdg: seq<seq<Inst>>, x: Inst) returns (p: nat)
    requires Holds(prdg, x)
    ensures Home(prdg, x, p)
  {
    p := 0;
    while x !in prdg[p]
      invariant p < |prdg| && forall q :: 0 <= q < p ==> x !in prdg[q]
      decreases |prdg| - p
    {
      ghost var i :| 0 <= i < |prdg| && x in prdg[i];
      p := p + 1;
    }
  }

  /** The edges that the dependences of the sources in done, and of x to the targets in targets, give. */
  ghost predicate Found(prdg: seq<seq<Inst>>, memMap: Adjacency, done: set<Inst>, x: Inst, targets: set<Inst>, edges: Adjacency) {
    forall p: nat, q: nat {:trigger q in Next(edges, p)} :: q in Next(edges, p) <==>
      exists a: Inst, y: Inst :: a in memMap && y in memMap[a] && (a in done || (a == x && y in targets)) && Home(prdg, a, p) && Home(prdg, y, q)
  }

  lemma OneHome(prdg: seq<seq<Inst>>, x: Inst, p: nat, q: nat)
    requires Home(prdg, x, p) && Home(prdg, x, q)
    ensures p == q
  {
  }

  lemma EdgeFound(prdg: seq<seq<Inst>>, memMap: Adjacency, done: set<Inst>, x: Inst, targets: set<Inst>, edges: Adjacency,
                  y: Inst, p: nat, q: nat)
    requires Found(prdg, memMap, done, x, targets, edges) && x in memMap && y in memMap[x] && Home(prdg, x, p) && Home(prdg, y, q)
    ensures Found(prdg, memMap, done, x, targets + {y}, edges[p := Next(edges, p) + {q}])
  {
    hide Home;
    var more := edges[p := Next(edges, p) + {q}];
    forall p': nat, q': nat ensures q' in Next(more, p') <==>
      exists a: Inst, c: Inst :: a in memMap && c in memMap[a] && (a in done || (a == x && c in targets + {y})) && Home(prdg, a, p') && Home(prdg, c, q')
    {
      assert q' in Next(more, p') <==> q' in Next(edges, p') || (p' == p && q' == q);
      if a: Inst, c: Inst :| a in memMap && c in memMap[a] && (a in done || (a == x && c in targets + {y})) && Home(prdg, a, p') && Home(prdg, c, q') {
        if a !in done && c !in targets {
          OneHome(prdg, a, p, p');
          OneHome(prdg, c, q, q');
        }
      }
    }
  }

  lemma SourceFinished(prdg: seq<seq<Inst>>, memMap: Adjacency, done: set<Inst>, x: Inst, edges: Adjacency, next: Inst)
    requires x in memMap && Found(prdg, memMap, done, x, memMap[x], edges)
    ensures Found(prdg, memMap, done + {x}, next, {}, edges)
  {
    forall p: nat, q: nat ensures q in Next(edges, p) <==>
      exists a: Inst, y: Inst :: a in memMap && y in memMap[a] && (a in done + {x} || (a == next && y in {})) && Home(prdg, a, p) && Home(prdg, y, q)
    {
    }
  }

  /** The ends of every dependence are in some partition. */
  ghost predicate AllHeld(prdg: seq<seq<Inst>>, memMap: Adjacency) {
    forall x, y :: x in memMap && y in memMap[x] ==> Holds(prdg, x) && Holds(prdg, y)
  }

  lemma HeldAt(prdg: seq<seq<Inst>>, memMap: Adjacency, x: Inst, y: Inst)
    requires AllHeld(prdg, memMap) && x in memMap && y in memMap[x]
    ensures Holds(prdg, x) && Holds(prdg, y)
  {
  }

  /** find_edges. */
  method FindEdges(prdg: seq<seq<Inst>>, memMap: Adjacency) returns (edges: Adjacency)
    requires AllHeld(prdg, memMap)
    ensures forall p: nat, q: nat :: q in Next(edges, p) <==> Leads(prdg, memMap, p, q)
  {
    hide Found, Home, Holds, AllHeld;
    edges := map[];
    var todo := memMap.Keys;
    NothingFound(prdg, memMap, 0);
    while todo != {}
      invariant todo <= memMap.Keys && Found(prdg, memMap, memMap.Keys - todo, 0, {}, edges)
    {
      var x :| x in todo;
      ghost var done := memMap.Keys - todo;
      todo := todo - {x};
      OtherSource(prdg, memMap, done, 0, x, edges);
      if memMap[x] != {} {
        ghost var some :| some in memMap[x];
        HeldAt(prdg, memMap, x, some);
        var p := FindPartition(prdg, x);
        var rest := memMap[x];
        assert memMap[x] - rest == {};
        while rest != {}
          invariant rest <= memMap[x] && Found(prdg, memMap, done, x, memMap[x] - rest, edges)
        {
          var y :| y in rest;
          HeldAt(prdg, memMap, x, y);
          var q := FindPartition(prdg, y);
          EdgeFound(prdg, memMap, done, x, memMap[x] - rest, edges, y, p, q);
          edges := edges[p := Next(edges, p) + {q}];
          assert memMap[x] - (rest - {y}) == memMap[x] - rest + {y};
          rest := rest - {y};
        }
        assert memMap[x] - rest == memMap[x];
      }
      SourceFinished(prdg, memMap, done, x, edges, 0);
      assert memMap.Keys - todo == done + {x};
    }
    assert memMap.Keys - todo == memMap.Keys;
    AllFound(prdg, memMap, edges);
  }

  lemma NothingFound(prdg: seq<seq<Inst>>, memMap: Adjacency, x: Inst)
    ensures Found(prdg, memMap, memMap.Keys - memMap.Keys, x, {}, map[])
  {
  }

  lemma OtherSource(prdg: seq<seq<Inst>>, memMap: Adjacency, done: set<Inst>, x: Inst, y: Inst, edges: Adjacency)
    requires Found(prdg, memMap, done, x, {}, edges)
    ensures Found(prdg, memMap, done, y, {}, edges)
  {
    hide Home;
  }

  lemma AllFound(prdg: seq<seq<Inst>>, memMap: Adjacency, edges: Adjacency)
    requires Found(prdg, memMap, memMap.Keys, 0, {}, edges)
    ensures forall p: nat, q: nat :: q in Next(edges, p) <==> Leads(prdg, memMap, p, q)
  {
    hide Home;
  }
}
