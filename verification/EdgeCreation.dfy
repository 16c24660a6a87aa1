/** Filling the edge array of the reduced dependence graph: the edges are counted first, and then exactly as
    many are made and linked to their ends. */
module EdgeCreation {
  import opened Options
  import opened ReducedGraph

  type Vertices = seq<RdgVertex>

  /** A data reference: the statement it is in, and whether it reads. */
  datatype Ref = Ref(stmt: nat, isRead: bool)

  /** A data dependence relation: whether there may be a dependence, whether its direction is from b to a, and
      its distance vectors. */
  datatype Relation = Relation(dependent: bool, reversed: bool, a: Ref, b: Ref, distances: seq<seq<int>>)

  /** What create_edges is given: the statement of each vertex; the relations; and for every vertex whose
      statement defines a scalar, the statements that use it, once per use. */
  datatype Tables = Tables(stmts: seq<nat>, relations: seq<Relation>, users: seq<Option<seq<nat>>>)

  /** An edge, by the numbers of its ends. */
  datatype Link = Link(source: nat, sink: nat, kind: DepKind, level: nat, scalar: bool)

  // ---------- the parts ----------

  /** find_vertex_with_stmt: the first vertex with the statement. */
  function VertexOf(stmts: seq<nat>, stmt: nat): (r: Option<nat>)
    ensures r.Some? ==> r.value < |stmts| && stmts[r.value] == stmt && stmt !in stmts[..r.value]
    ensures r.None? ==> stmt !in stmts
  {
    if stmts == [] then None
    else if stmts[0] == stmt then Some(0)
    else match VertexOf(stmts[1..], stmt)
      case None => None
      case Some(i) =>
        assert stmts[..i + 1] == [stmts[0]] + stmts[1..][..i];
        Some(i + 1)
  }

  method FindVertex(stmts: seq<nat>, stmt: nat) returns (r: Option<nat>)
    ensures r == VertexOf(stmts, stmt)
  {
    r := None;
    var i := 0;
    while i < |stmts| && r == None
      invariant i <= |stmts|
      invariant r == None ==> stmt !in stmts[..i]
      invariant r.Some? ==> r.value < |stmts| && stmts[r.value] == stmt && stmt !in stmts[..r.value]
    {
      if stmts[i] == stmt { r := Some(i); }
      i := i + 1;
    }
  }

  /** The loop that carries the dependence: the first positive distance, counted from 1; 0 if there is none. */
  method DependenceLevel(distance: seq<int>) returns (level: nat)
    ensures level == LevelOf(distance)
  {
    level := 0;
    var i := 0;
    while i < |distance| && level == 0
      invariant i <= |distance| && (level != 0 ==> level == i && level <= |distance| && distance[level - 1] > 0)
      invariant forall k :: 0 <= k < i - (if level == 0 then 0 else 1) ==> distance[k] <= 0
    {
      if distance[i] > 0 { level := i + 1; }
      i := i + 1;
    }
    LevelMeaning(distance, level);
  }

  function LevelOf(distance: seq<int>): (level: nat)
    ensures level <= |distance|
  {
    if distance == [] then 0
    else if distance[0] > 0 then 1
    else
      var rest := LevelOf(distance[1..]);
      if rest == 0 then 0 else rest + 1
  }

  /** The level is the first positive distance, and 0 exactly if no distance is positive. */
  lemma {:induction false} LevelMeaning(distance: seq<int>, level: nat)
    ensures level == LevelOf(distance) <==>
            (if level == 0 then forall k :: 0 <= k < |distance| ==> distance[k] <= 0
             else level <= |distance| && distance[level - 1] > 0 && forall k :: 0 <= k < level - 1 ==> distance[k] <= 0)
  {
    if distance != [] && distance[0] <= 0 {
      LevelMeaning(distance[1..], if level == 0 then 0 else level - 1);
      assert forall k :: 0 < k < |distance| ==> distance[k] == distance[1..][k - 1];
    }
  }

  // ---------- the edges there should be ----------

  function Source(rel: Relation): Ref {
    if rel.reversed then rel.b else rel.a
  }

  function Sink(rel: Relation): Ref {
    if rel.reversed then rel.a else rel.b
  }

  function KindOf(source: Ref, sink: Ref): DepKind {
    if source.isRead && sink.isRead then Input
    else if source.isRead then Anti
    else if sink.isRead then Flow
    else Output
  }

  /** Data references of dependent relations are in vertices of the graph, and the users table fits. */
  predicate Fits(t: Tables) {
    && |t.users| == |t.stmts|
    && forall i :: 0 <= i < |t.relations| && t.relations[i].dependent && t.relations[i].distances != [] ==>
         VertexOf(t.stmts, t.relations[i].a.stmt).Some? && VertexOf(t.stmts, t.relations[i].b.stmt).Some?
  }

  function DataLink(t: Tables, i: nat, j: nat): Link
    requires Fits(t) && i < |t.relations| && t.relations[i].dependent && j < |t.relations[i].distances|
  {
    var rel := t.relations[i];
    Link(VertexOf(t.stmts, Source(rel).stmt).value, VertexOf(t.stmts, Sink(rel).stmt).value,
         KindOf(Source(rel), Sink(rel)), LevelOf(rel.distances[j]), false)
  }

  /** One edge for each distance vector. */
  function OfRelation(t: Tables, i: nat): (r: seq<Link>)
    requires Fits(t) && i < |t.relations|
    ensures |r| == if t.relations[i].dependent then |t.relations[i].distances| else 0
  {
    if t.relations[i].dependent then
      seq(|t.relations[i].distances|, j requires 0 <= j < |t.relations[i].distances| => DataLink(t, i, j))
    else []
  }

  function DataLinks(t: Tables, n: nat): seq<Link>
    requires Fits(t) && n <= |t.relations|
  {
    if n == 0 then [] else DataLinks(t, n - 1) + OfRelation(t, n - 1)
  }

  function UseLink(t: Tables, v: nat, stmt: nat): seq<Link> {
    match VertexOf(t.stmts, stmt)
    case None => []
    case Some(u) => [Link(v, u, Flow, 0, true)]
  }

  /** One edge for each use in a statement of the graph, of the first k uses. */
  function OfUses(t: Tables, v: nat, users: seq<nat>, k: nat): seq<Link>
    requires k <= |users|
  {
    if k == 0 then [] else OfUses(t, v, users, k - 1) + UseLink(t, v, users[k - 1])
  }

  function OfVertex(t: Tables, v: nat): seq<Link>
    requires v < |t.users|
  {
    match t.users[v]
    case None => []
    case Some(users) => OfUses(t, v, users, |users|)
  }

  function ScalarLinks(t: Tables, n: nat): seq<Link>
    requires n <= |t.users|
  {
    if n == 0 then [] else ScalarLinks(t, n - 1) + OfVertex(t, n - 1)
  }

  /** All edges, in the order in which they are made. */
  function AllLinks(t: Tables): seq<Link>
    requires Fits(t)
  {
    DataLinks(t, |t.relations|) + ScalarLinks(t, |t.users|)
  }

  // ---------- what the tables call for ----------

  /** What an edge comes from: a distance vector of a relation, or a use of what a vertex defines. */
  datatype Origin = OfDistance(relation: nat, vector: nat) | OfUse(vertex: nat, use: nat)

  /** The tables have it: the relation is dependent, or the use is in a statement of the graph. */
  predicate Occurs(t: Tables, o: Origin) {
    match o
    case OfDistance(i, j) => i < |t.relations| && t.relations[i].dependent && j < |t.relations[i].distances|
    case OfUse(v, k) => v < |t.users| && t.users[v].Some? && k < |t.users[v].value| && t.users[v].value[k] in t.stmts
  }

  /** Distance vectors come before uses, and each kind in the order of its table. */
  predicate Sooner(o: Origin, p: Origin) {
    match o
    case OfDistance(i, j) => p.OfUse? || i < p.relation || (i == p.relation && j < p.vector)
    case OfUse(v, k) => p.OfUse? && (v < p.vertex || (v == p.vertex && k < p.use))
  }

  /** The first vertex with the statement. */
  predicate IsFirst(stmts: seq<nat>, v: nat, stmt: nat) {
    v < |stmts| && stmts[v] == stmt && stmt !in stmts[..v]
  }

  /** The edge for a distance vector leads from the statement of b to that of a if the relation is reversed, and
      from that of a to that of b otherwise; its kind says which of the two references read, and its level is the
      first positive distance. The edge for a use leads from the vertex to the statement with the use. */
  predicate Tells(t: Tables, o: Origin, link: Link)
    requires Occurs(t, o)
  {
    match o
    case OfDistance(i, j) =>
      var rel := t.relations[i];
      var distance := rel.distances[j];
      && !link.scalar
      && (rel.reversed ==> IsFirst(t.stmts, link.source, rel.b.stmt) && IsFirst(t.stmts, link.sink, rel.a.stmt))
      && (!rel.reversed ==> IsFirst(t.stmts, link.source, rel.a.stmt) && IsFirst(t.stmts, link.sink, rel.b.stmt))
      && (link.kind == Input <==> rel.a.isRead && rel.b.isRead)
      && (link.kind == Output <==> !rel.a.isRead && !rel.b.isRead)
      && (link.kind == Flow <==> if rel.reversed then !rel.b.isRead && rel.a.isRead else !rel.a.isRead && rel.b.isRead)
      && (link.kind == Anti <==> if rel.reversed then rel.b.isRead && !rel.a.isRead else rel.a.isRead && !rel.b.isRead)
      && link.level <= |distance| && (link.level > 0 ==> distance[link.level - 1] > 0)
      && forall k :: 0 <= k < (if link.level > 0 then link.level - 1 else |distance|) ==> distance[k] <= 0
    case OfUse(v, k) =>
      && link.scalar && link.kind == Flow && link.level == 0
      && link.source == v && IsFirst(t.stmts, link.sink, t.users[v].value[k])
  }

  /** The links are those of the origins, one by one, in the right order. */
  ghost predicate Told(t: Tables, os: seq<Origin>, links: seq<Link>) {
    && |os| == |links|
    && (forall n :: 0 <= n < |os| ==> Occurs(t, os[n]) && Tells(t, os[n], links[n]))
    && forall m, n :: 0 <= m < n < |os| ==> Sooner(os[m], os[n])
  }

  /** Nothing that the tables have is missing. */
  ghost predicate NoneMissing(t: Tables, os: seq<Origin>) {
    forall o :: Occurs(t, o) ==> o in os
  }

  lemma ToldJoined(t: Tables, os: seq<Origin>, a: seq<Link>, ps: seq<Origin>, b: seq<Link>)
    requires Told(t, os, a) && Told(t, ps, b) && forall o, p :: o in os && p in ps ==> Sooner(o, p)
    ensures Told(t, os + ps, a + b)
  {
    hide Occurs, Tells, Sooner;
    assert forall n :: 0 <= n < |os| ==> os[n] in os;
    assert forall n :: 0 <= n < |ps| ==> ps[n] in ps;
  }

  lemma RelationTold(t: Tables, i: nat) returns (os: seq<Origin>)
    requires Fits(t) && i < |t.relations|
    ensures Told(t, os, OfRelation(t, i))
    ensures forall o :: o in os <==> Occurs(t, o) && o.OfDistance? && o.relation == i
  {
    var rel := t.relations[i];
    if rel.dependent {
      os := seq(|rel.distances|, j requires 0 <= j < |rel.distances| => OfDistance(i, j));
      forall j | 0 <= j < |os| ensures Tells(t, os[j], DataLink(t, i, j)) {
        LevelMeaning(rel.distances[j], LevelOf(rel.distances[j]));
      }
      forall o | Occurs(t, o) && o.OfDistance? && o.relation == i ensures o in os { assert os[o.vector] == o; }
    } else {
      os := [];
    }
  }

  lemma {:induction false} DataTold(t: Tables, n: nat) returns (os: seq<Origin>)
    requires Fits(t) && n <= |t.relations|
    ensures Told(t, os, DataLinks(t, n))
    ensures forall o :: o in os <==> Occurs(t, o) && o.OfDistance? && o.relation < n
  {
    hide Told, Fits, Occurs, OfRelation;
    if n == 0 {
      os := [];
      NothingTold(t);
    } else {
      var before := DataTold(t, n - 1);
      var more := RelationTold(t, n - 1);
      ToldJoined(t, before, DataLinks(t, n - 1), more, OfRelation(t, n - 1));
      os := before + more;
    }
  }

  lemma NothingTold(t: Tables)
    ensures Told(t, [], [])
  {
  }

  lemma UseTold(t: Tables, v: nat, k: nat) returns (os: seq<Origin>)
    requires v < |t.users| && t.users[v].Some? && k < |t.users[v].value|
    ensures Told(t, os, UseLink(t, v, t.users[v].value[k]))
    ensures forall o :: o in os <==> Occurs(t, o) && o.OfUse? && o.vertex == v && o.use == k
  {
    var stmt := t.users[v].value[k];
    os := if VertexOf(t.stmts, stmt).Some? then [OfUse(v, k)] else [];
  }

  lemma {:induction false} UsesTold(t: Tables, v: nat, k: nat) returns (os: seq<Origin>)
    requires v < |t.users| && t.users[v].Some? && k <= |t.users[v].value|
    ensures Told(t, os, OfUses(t, v, t.users[v].value, k))
    ensures forall o :: o in os <==> Occurs(t, o) && o.OfUse? && o.vertex == v && o.use < k
    decreases k
  {
    hide Told, Occurs, UseLink;
    if k == 0 {
      os := [];
      NothingTold(t);
    } else {
      var before := UsesTold(t, v, k - 1);
      var more := UseTold(t, v, k - 1);
      ToldJoined(t, before, OfUses(t, v, t.users[v].value, k - 1), more, UseLink(t, v, t.users[v].value[k - 1]));
      os := before + more;
    }
  }

  lemma VertexTold(t: Tables, v: nat) returns (os: seq<Origin>)
    requires v < |t.users|
    ensures Told(t, os, OfVertex(t, v))
    ensures forall o :: o in os <==> Occurs(t, o) && o.OfUse? && o.vertex == v
  {
    hide Told;
    match t.users[v]
    case None =>
      os := [];
      NothingTold(t);
    case Some(users) =>
      os := UsesTold(t, v, |users|);
  }

  lemma {:induction false} ScalarsTold(t: Tables, n: nat) returns (os: seq<Origin>)
    requires n <= |t.users|
    ensures Told(t, os, ScalarLinks(t, n))
    ensures forall o :: o in os <==> Occurs(t, o) && o.OfUse? && o.vertex < n
  {
    hide Told, Occurs, OfVertex;
    if n == 0 {
      os := [];
      NothingTold(t);
    } else {
      var before := ScalarsTold(t, n - 1);
      var more := VertexTold(t, n - 1);
      ToldJoined(t, before, ScalarLinks(t, n - 1), more, OfVertex(t, n - 1));
      os := before + more;
    }
  }

  /** The list of all edges is what the tables call for: one edge for every distance vector of a dependent relation
      and for every use in a statement of the graph, and no other. */
  lemma AllTold(t: Tables) returns (os: seq<Origin>)
    requires Fits(t)
    ensures Told(t, os, AllLinks(t)) && NoneMissing(t, os)
  {
    hide Told, Fits, DataLinks, ScalarLinks;
    var data := DataTold(t, |t.relations|);
    var uses := ScalarsTold(t, |t.users|);
    ToldJoined(t, data, DataLinks(t, |t.relations|), uses, ScalarLinks(t, |t.users|));
    os := data + uses;
  }

  // ---------- counting ----------

  /** number_of_scalar_dependences. */
  method CountScalar(t: Tables) returns (n: nat)
    requires Fits(t)
    ensures n == |ScalarLinks(t, |t.users|)|
  {
    n := 0;
    for i := 0 to |t.users|
      invariant n == |ScalarLinks(t, i)|
    {
      match t.users[i]
      case None =>
      case Some(users) =>
        ghost var before := n;
        for k := 0 to |users|
          invariant n == before + |OfUses(t, i, users, k)|
        {
          var u := FindVertex(t.stmts, users[k]);
          if u.Some? { n := n + 1; }
        }
    }
  }

  lemma OneMoreRelation(t: Tables, i: nat)
    requires Fits(t) && i < |t.relations|
    ensures |DataLinks(t, i + 1)| == |DataLinks(t, i)| + if t.relations[i].dependent then |t.relations[i].distances| else 0
  {
  }

  /** number_of_data_dependences. */
  method CountData(t: Tables) returns (n: nat)
    requires Fits(t)
    ensures n == |DataLinks(t, |t.relations|)|
  {
    hide DataLinks;
    n := 0;
    NoDataLinks(t);
    for i := 0 to |t.relations|
      invariant n == |DataLinks(t, i)|
    {
      OneMoreRelation(t, i);
      if t.relations[i].dependent { n := n + |t.relations[i].distances|; }
    }
  }

  lemma NoDataLinks(t: Tables)
    requires Fits(t)
    ensures DataLinks(t, 0) == []
  {
  }

  // ---------- filling ----------

  /** The edges that leave v, in the order in which they were made. */
  ghost function OutOf(made: seq<RdgEdge>, v: RdgVertex): seq<RdgEdge> {
    if made == [] then []
    else OutOf(made[..|made| - 1], v) + (if made[|made| - 1].source == v then [made[|made| - 1]] else [])
  }

  ghost function InOf(made: seq<RdgEdge>, v: RdgVertex): seq<RdgEdge> {
    if made == [] then []
    else InOf(made[..|made| - 1], v) + (if made[|made| - 1].sink == v then [made[|made| - 1]] else [])
  }

  /** The edges made are those that the origins call for, each a different object. */
  ghost predicate Created(t: Tables, vertices: Vertices, os: seq<Origin>, made: seq<RdgEdge>) {
    && |made| == |os|
    && (forall n :: 0 <= n < |made| ==> Occurs(t, os[n]) && Creates(t, vertices, os[n], made[n]))
    && (forall m, n :: 0 <= m < n < |made| ==> Sooner(os[m], os[n]) && made[m] != made[n])
  }

  ghost predicate Creates(t: Tables, vertices: Vertices, o: Origin, e: RdgEdge)
    requires Occurs(t, o)
  {
    exists source: nat, sink: nat {:trigger vertices[source], vertices[sink]} ::
      && source < |vertices| && e.source == vertices[source] && sink < |vertices| && e.sink == vertices[sink]
      && Tells(t, o, Link(source, sink, e.kind, e.level, e.scalar))
  }

  lemma MadeIsCreated(t: Tables, vertices: Vertices, os: seq<Origin>, made: seq<RdgEdge>, links: seq<Link>)
    requires Made(vertices, made, links) && Told(t, os, links)
    ensures Created(t, vertices, os, made)
  {
    hide Tells, Occurs, Sooner;
    forall n | 0 <= n < |made| ensures Creates(t, vertices, os[n], made[n]) {
      assert links[n] == Link(links[n].source, links[n].sink, made[n].kind, made[n].level, made[n].scalar);
    }
  }

  /** The edges made are those of links, each a different object. */
  ghost predicate Made(vertices: Vertices, made: seq<RdgEdge>, links: seq<Link>) {
    && |made| == |links|
    && (forall i :: 0 <= i < |made| ==>
          && links[i].source < |vertices| && made[i].source == vertices[links[i].source]
          && links[i].sink < |vertices| && made[i].sink == vertices[links[i].sink]
          && made[i].kind == links[i].kind && made[i].level == links[i].level && made[i].scalar == links[i].scalar)
    && (forall i, j :: 0 <= i < j < |made| ==> made[i] != made[j])
  }

  /** Every vertex lists the edges made that leave and enter it. */
  ghost predicate Listed(vertices: Vertices, made: seq<RdgEdge>)
    reads vertices`inEdges, vertices`outEdges
  {
    forall v {:trigger v.outEdges} {:trigger v.inEdges} :: v in vertices ==> v.outEdges == OutOf(made, v) && v.inEdges == InOf(made, v)
  }

  /** The slots before the next free one hold the edges made. */
  ghost predicate Stored(slots: array<RdgEdge?>, made: seq<RdgEdge>)
    reads slots
  {
    |made| <= slots.Length && forall i :: 0 <= i < |made| ==> slots[i] == made[i]
  }

  lemma OneMoreOut(made: seq<RdgEdge>, e: RdgEdge, v: RdgVertex)
    ensures OutOf(made + [e], v) == OutOf(made, v) + (if e.source == v then [e] else [])
    ensures InOf(made + [e], v) == InOf(made, v) + (if e.sink == v then [e] else [])
  {
    assert (made + [e])[..|made|] == made;
  }

  /** Fills slot |made| and links the edge to its ends. */
  method AddEdge(vertices: Vertices, slots: array<RdgEdge?>, index: nat, link: Link, ghost made: seq<RdgEdge>, ghost links: seq<Link>)
    returns (ghost more: seq<RdgEdge>)
    requires index == |made| < slots.Length && link.source < |vertices| && link.sink < |vertices|
    requires Made(vertices, made, links) && Listed(vertices, made) && Stored(slots, made)
    modifies slots, vertices`inEdges, vertices`outEdges
    ensures Made(vertices, more, links + [link]) && Listed(vertices, more) && Stored(slots, more)
  {
    hide OutOf, InOf;
    var source, sink := vertices[link.source], vertices[link.sink];
    var e := new RdgEdge(source, sink, link.kind, link.level, link.scalar);
    slots[index] := e;
    source.outEdges := source.outEdges + [e];
    sink.inEdges := sink.inEdges + [e];
    more := made + [e];
    forall v | v in vertices ensures v.outEdges == OutOf(more, v) && v.inEdges == InOf(more, v) {
      OneMoreOut(made, e, v);
    }
  }

  lemma DataStep(t: Tables, i: nat)
    requires Fits(t) && i < |t.relations|
    ensures DataLinks(t, i + 1) == DataLinks(t, i) + OfRelation(t, i)
  {
    hide Fits, OfRelation;
  }

  lemma ScalarStep(t: Tables, i: nat)
    requires i < |t.users|
    ensures ScalarLinks(t, i + 1) == ScalarLinks(t, i) + OfVertex(t, i)
  {
    hide OfVertex;
  }

  lemma UseStep(t: Tables, v: nat, users: seq<nat>, k: nat)
    requires k < |users|
    ensures OfUses(t, v, users, k + 1) == OfUses(t, v, users, k) + UseLink(t, v, users[k])
  {
    hide UseLink;
  }

  lemma {:induction false} DataLinksGrow(t: Tables, i: nat, n: nat)
    requires Fits(t) && i <= n <= |t.relations|
    ensures |DataLinks(t, i)| <= |DataLinks(t, n)|
    decreases n
  {
    hide Fits, DataLinks, OfRelation;
    if i < n {
      DataLinksGrow(t, i, n - 1);
      DataStep(t, n - 1);
    }
  }

  lemma {:induction false} ScalarLinksGrow(t: Tables, i: nat, n: nat)
    requires i <= n <= |t.users|
    ensures |ScalarLinks(t, i)| <= |ScalarLinks(t, n)|
    decreases n
  {
    hide ScalarLinks, OfVertex;
    if i < n {
      ScalarLinksGrow(t, i, n - 1);
      ScalarStep(t, n - 1);
    }
  }

  lemma {:induction false} UsesGrow(t: Tables, v: nat, users: seq<nat>, k: nat, n: nat)
    requires k <= n <= |users|
    ensures |OfUses(t, v, users, k)| <= |OfUses(t, v, users, n)|
    decreases n
  {
    hide OfUses, UseLink;
    if k < n {
      UsesGrow(t, v, users, k, n - 1);
      UseStep(t, v, users, n - 1);
    }
  }

  lemma NoneMade(vertices: Vertices, slots: array<RdgEdge?>)
    requires forall v :: v in vertices ==> v.inEdges == [] && v.outEdges == []
    ensures Made(vertices, [], []) && Listed(vertices, []) && Stored(slots, [])
  {
  }

  /** update_edge_with_ddv, for every distance vector of relation i. */
  method AddRelation(t: Tables, vertices: Vertices, slots: array<RdgEdge?>, i: nat, first: nat, ghost made: seq<RdgEdge>)
    returns (next: nat, ghost more: seq<RdgEdge>)
    requires Fits(t) && |vertices| == |t.stmts| && i < |t.relations|
    requires first == |made| && |DataLinks(t, i + 1)| <= slots.Length
    requires Made(vertices, made, DataLinks(t, i)) && Listed(vertices, made) && Stored(slots, made)
    modifies slots, vertices`inEdges, vertices`outEdges
    ensures next == |more| && Made(vertices, more, DataLinks(t, i + 1)) && Listed(vertices, more) && Stored(slots, more)
  {
    hide Made, Listed, Stored, DataLink, VertexOf, LevelOf, Fits, DataLinks;
    next, more := first, made;
    DataStep(t, i);
    MadeSize(vertices, made, DataLinks(t, i));
    ghost var links := DataLinks(t, i);
    if t.relations[i].dependent {
      var rel := t.relations[i];
      for j := 0 to |rel.distances|
        invariant next == |more| == first + j
        invariant links == DataLinks(t, i) + OfRelation(t, i)[..j]
        invariant Made(vertices, more, links) && Listed(vertices, more) && Stored(slots, more)
      {
        EndsFound(t, i);
        var source, sink := if rel.reversed then rel.b else rel.a, if rel.reversed then rel.a else rel.b;
        var va := FindVertex(t.stmts, source.stmt);
        var vb := FindVertex(t.stmts, sink.stmt);
        var kind := if source.isRead && sink.isRead then Input else if !source.isRead && !sink.isRead then Output
                    else if !source.isRead then Flow else Anti;
        var level := DependenceLevel(rel.distances[j]);
        var link := Link(va.value, vb.value, kind, level, false);
        DataLinkIs(t, i, j);
        LinkIs(t, i, j, link);
        more := AddEdge(vertices, slots, next, link, more, links);
        links := links + [link];
        MadeSize(vertices, more, links);
        next := next + 1;
      }
      assert OfRelation(t, i)[..|rel.distances|] == OfRelation(t, i);
    } else {
      assert OfRelation(t, i) == [] && links == DataLinks(t, i + 1);
    }
  }

  lemma MadeSize(vertices: Vertices, made: seq<RdgEdge>, links: seq<Link>)
    requires Made(vertices, made, links)
    ensures |made| == |links|
  {
  }

  lemma EndsFound(t: Tables, i: nat)
    requires Fits(t) && i < |t.relations| && t.relations[i].dependent && t.relations[i].distances != []
    ensures VertexOf(t.stmts, t.relations[i].a.stmt).Some? && VertexOf(t.stmts, t.relations[i].b.stmt).Some?
  {
  }

  lemma DataLinkIs(t: Tables, i: nat, j: nat)
    requires Fits(t) && i < |t.relations| && t.relations[i].dependent && j < |t.relations[i].distances|
    requires VertexOf(t.stmts, t.relations[i].a.stmt).Some? && VertexOf(t.stmts, t.relations[i].b.stmt).Some?
    ensures var rel := t.relations[i];
            DataLink(t, i, j) == Link(VertexOf(t.stmts, Source(rel).stmt).value, VertexOf(t.stmts, Sink(rel).stmt).value,
                                      KindOf(Source(rel), Sink(rel)), LevelOf(rel.distances[j]), false)
  {
  }

  lemma LinkIs(t: Tables, i: nat, j: nat, link: Link)
    requires Fits(t) && i < |t.relations| && t.relations[i].dependent && j < |t.relations[i].distances|
    requires link == DataLink(t, i, j)
    ensures OfRelation(t, i)[j] == link && OfRelation(t, i)[..j + 1] == OfRelation(t, i)[..j] + [link]
  {
    hide DataLink;
  }

  /** The edge to one use, if that is a statement of the graph. */
  method AddUse(t: Tables, vertices: Vertices, slots: array<RdgEdge?>, i: nat, user: nat, next: nat, ghost made: seq<RdgEdge>, ghost links: seq<Link>)
    returns (then': nat, ghost more: seq<RdgEdge>)
    requires |vertices| == |t.stmts| && i < |vertices| && next == |made|
    requires UseLink(t, i, user) != [] ==> next < slots.Length
    requires Made(vertices, made, links) && Listed(vertices, made) && Stored(slots, made)
    modifies slots, vertices`inEdges, vertices`outEdges
    ensures then' == |more| && Made(vertices, more, links + UseLink(t, i, user)) && Listed(vertices, more) && Stored(slots, more)
  {
    hide Made, Listed, Stored, VertexOf;
    then', more := next, made;
    var u := FindVertex(t.stmts, user);
    if u.Some? {
      var link := Link(i, u.value, Flow, 0, true);
      more := AddEdge(vertices, slots, next, link, made, links);
      MadeSize(vertices, made, links);
      MadeSize(vertices, more, links + [link]);
      then' := next + 1;
    } else {
      assert links + [] == links;
    }
  }

  /** The scalar edges of vertex i. */
  method AddUses(t: Tables, vertices: Vertices, slots: array<RdgEdge?>, i: nat, first: nat, ghost made: seq<RdgEdge>, ghost before: seq<Link>)
    returns (next: nat, ghost more: seq<RdgEdge>)
    requires Fits(t) && |vertices| == |t.stmts| && i < |t.users|
    requires first == |made| && |before| + |OfVertex(t, i)| <= slots.Length
    requires Made(vertices, made, before) && Listed(vertices, made) && Stored(slots, made)
    modifies slots, vertices`inEdges, vertices`outEdges
    ensures next == |more| && Made(vertices, more, before + OfVertex(t, i)) && Listed(vertices, more) && Stored(slots, more)
  {
    hide Made, Listed, Stored, VertexOf, OfUses;
    match t.users[i]
    case None =>
      next, more := first, made;
      assert before + [] == before;
    case Some(users) =>
      next, more := AddEachUse(t, vertices, slots, i, users, first, made, before);
  }

  method AddEachUse(t: Tables, vertices: Vertices, slots: array<RdgEdge?>, i: nat, users: seq<nat>, first: nat,
                    ghost made: seq<RdgEdge>, ghost before: seq<Link>)
    returns (next: nat, ghost more: seq<RdgEdge>)
    requires |vertices| == |t.stmts| && i < |vertices|
    requires first == |made| && |before| + |OfUses(t, i, users, |users|)| <= slots.Length
    requires Made(vertices, made, before) && Listed(vertices, made) && Stored(slots, made)
    modifies slots, vertices`inEdges, vertices`outEdges
    ensures next == |more| && Made(vertices, more, before + OfUses(t, i, users, |users|)) && Listed(vertices, more) && Stored(slots, more)
  {
    hide *;
    next, more := first, made;
    ghost var links := before;
    MadeSize(vertices, made, links);
    NoUses(t, i, users);
    assert before + [] == before;
    for k := 0 to |users|
      invariant next == |more| == |links| && links == before + OfUses(t, i, users, k)
      invariant Made(vertices, more, links) && Listed(vertices, more) && Stored(slots, more)
    {
      UsesGrow(t, i, users, k + 1, |users|);
      UseStep(t, i, users, k);
      Grouped(before, OfUses(t, i, users, k), UseLink(t, i, users[k]));
      next, more := AddUse(t, vertices, slots, i, users[k], next, more, links);
      links := links + UseLink(t, i, users[k]);
      MadeSize(vertices, more, links);
    }
  }

  lemma Grouped(a: seq<Link>, b: seq<Link>, c: seq<Link>)
    ensures (a + b) + c == a + (b + c)
  {
  }

  lemma NoUses(t: Tables, v: nat, users: seq<nat>)
    ensures OfUses(t, v, users, 0) == []
  {
  }

  lemma NoLinks(t: Tables)
    requires Fits(t)
    ensures DataLinks(t, 0) == [] && ScalarLinks(t, 0) == []
  {
  }

  /** create_edges: count, allocate, fill. The slots filled are exactly those counted, each with the edge that the
      tables call for, none missing; and every vertex lists exactly the edges that leave and enter it. */
  method CreateEdges(t: Tables, vertices: Vertices)
    returns (slots: array<RdgEdge?>, ghost made: seq<RdgEdge>, ghost origins: seq<Origin>)
    requires Fits(t) && |vertices| == |t.stmts| && forall v :: v in vertices ==> v.inEdges == [] && v.outEdges == []
    modifies vertices`inEdges, vertices`outEdges
    ensures fresh(slots) && slots.Length == |AllLinks(t)| == |made|
    ensures Created(t, vertices, origins, made) && NoneMissing(t, origins)
    ensures Made(vertices, made, AllLinks(t)) && Listed(vertices, made) && Stored(slots, made)
  {
    hide Made, Listed, Stored, OfRelation, OfVertex, DataLinks, ScalarLinks, Fits, Created, NoneMissing, Told;
    origins := AllTold(t);
    NoLinks(t);
    var scalarEdges := CountScalar(t);
    var dataEdges := CountData(t);
    slots := new RdgEdge?[scalarEdges + dataEdges](_ => null);
    made := [];
    NoneMade(vertices, slots);
    if scalarEdges == 0 && dataEdges == 0 {
      assert AllLinks(t) == [];
      MadeIsCreated(t, vertices, origins, made, AllLinks(t));
      return;
    }
    var index := 0;
    for i := 0 to |t.relations|
      invariant index == |made| && Made(vertices, made, DataLinks(t, i)) && Listed(vertices, made) && Stored(slots, made)
    {
      DataLinksGrow(t, i + 1, |t.relations|);
      index, made := AddRelation(t, vertices, slots, i, index, made);
    }
    ghost var data := DataLinks(t, |t.relations|);
    assert data + ScalarLinks(t, 0) == data;
    for i := 0 to |t.users|
      invariant index == |made| && Made(vertices, made, data + ScalarLinks(t, i)) && Listed(vertices, made) && Stored(slots, made)
    {
      ScalarLinksGrow(t, i + 1, |t.users|);
      ScalarStep(t, i);
      Grouped(data, ScalarLinks(t, i), OfVertex(t, i));
      index, made := AddUses(t, vertices, slots, i, index, made, data + ScalarLinks(t, i));
    }
    MadeSize(vertices, made, AllLinks(t));
    MadeIsCreated(t, vertices, origins, made, AllLinks(t));
  }

  lemma {:induction false} OutOnce(made: seq<RdgEdge>, v: RdgVertex, e: RdgEdge)
    requires forall i, j :: 0 <= i < j < |made| ==> made[i] != made[j]
    ensures multiset(OutOf(made, v))[e] == if e in made && e.source == v then 1 else 0
    decreases |made|
  {
    if made != [] {
      var n := |made| - 1;
      OutOnce(made[..n], v, e);
      LastMade(made, e);
    }
  }

  lemma {:induction false} InOnce(made: seq<RdgEdge>, v: RdgVertex, e: RdgEdge)
    requires forall i, j :: 0 <= i < j < |made| ==> made[i] != made[j]
    ensures multiset(InOf(made, v))[e] == if e in made && e.sink == v then 1 else 0
    decreases |made|
  {
    if made != [] {
      var n := |made| - 1;
      InOnce(made[..n], v, e);
      LastMade(made, e);
    }
  }

  lemma LastMade(made: seq<RdgEdge>, e: RdgEdge)
    requires made != [] && forall i, j :: 0 <= i < j < |made| ==> made[i] != made[j]
    ensures var n := |made| - 1; made[n] !in made[..n] && (e in made <==> e in made[..n] || e == made[n])
  {
    var n := |made| - 1;
    assert made == made[..n] + [made[n]];
  }

  /** Each edge is exactly once in the list of its source and of its sink, and in no other list. */
  lemma ListedOnce(made: seq<RdgEdge>, v: RdgVertex, e: RdgEdge)
    requires forall i, j :: 0 <= i < j < |made| ==> made[i] != made[j]
    ensures multiset(OutOf(made, v))[e] == (if e in made && e.source == v then 1 else 0)
    ensures multiset(InOf(made, v))[e] == (if e in made && e.sink == v then 1 else 0)
  {
    hide OutOf, InOf;
    OutOnce(made, v, e);
    InOnce(made, v, e);
  }

  /** The positions in rising order. */
  ghost predicate Rising(picked: seq<nat>) {
    forall i, j :: 0 <= i < j < |picked| ==> picked[i] < picked[j]
  }

  /** A vertex lists the edges that leave it in the order in which they were made. */
  lemma {:induction false} OutInOrder(made: seq<RdgEdge>, v: RdgVertex) returns (picked: seq<nat>)
    ensures Rising(picked) && (forall i: nat :: i in picked <==> i < |made| && made[i].source == v)
    ensures |OutOf(made, v)| == |picked| && forall k :: 0 <= k < |picked| ==> picked[k] < |made| && OutOf(made, v)[k] == made[picked[k]]
    decreases |made|
  {
    picked := [];
    if made != [] {
      var n := |made| - 1;
      picked := OutInOrder(made[..n], v);
      assert forall k :: 0 <= k < |picked| ==> picked[k] in picked;
      assert forall i: nat :: i < n ==> made[..n][i] == made[i];
      if made[n].source == v { picked := picked + [n]; }
    }
  }

  /** And those that enter it. */
  lemma {:induction false} InInOrder(made: seq<RdgEdge>, v: RdgVertex) returns (picked: seq<nat>)
    ensures Rising(picked) && (forall i: nat :: i in picked <==> i < |made| && made[i].sink == v)
    ensures |InOf(made, v)| == |picked| && forall k :: 0 <= k < |picked| ==> picked[k] < |made| && InOf(made, v)[k] == made[picked[k]]
    decreases |made|
  {
    picked := [];
    if made != [] {
      var n := |made| - 1;
      picked := InInOrder(made[..n], v);
      assert forall k :: 0 <= k < |picked| ==> picked[k] in picked;
      assert forall i: nat :: i < n ==> made[..n][i] == made[i];
      if made[n].sink == v { picked := picked + [n]; }
    }
  }

  lemma {:induction false} ListsContent(made: seq<RdgEdge>, v: RdgVertex, e: RdgEdge)
    ensures e in OutOf(made, v) <==> e in made && e.source == v
    ensures e in InOf(made, v) <==> e in made && e.sink == v
    decreases |made|
  {
    if made != [] {
      var n := |made| - 1;
      ListsContent(made[..n], v, e);
      assert made == made[..n] + [made[n]];
    }
  }

  /** The graph with the edges made is what the partitioning and the plan start from, if the vertices are
      numbered, data edges join statements with data references, and these are the listed ones. */
  lemma CreatedIsValid(rdg: Rdg, links: seq<Link>)
    requires Made(rdg.vertices, rdg.edges, links) && Listed(rdg.vertices, rdg.edges)
    requires forall i :: 0 <= i < |rdg.vertices| ==> rdg.vertices[i].number == i
    requires forall i :: 0 <= i < |links| && !links[i].scalar && links[i].source < |rdg.vertices| && links[i].sink < |rdg.vertices| ==>
               rdg.vertices[links[i].source].hasRef && rdg.vertices[links[i].sink].hasRef
    requires forall i :: 0 <= i < |rdg.ddVertices| ==> rdg.Owns(rdg.ddVertices[i]) && rdg.ddVertices[i].hasRef
    requires forall i :: 0 <= i < |rdg.vertices| && rdg.vertices[i].hasRef ==> rdg.vertices[i] in rdg.ddVertices
    ensures rdg.Valid()
  {
    hide OutOf, InOf;
    forall v, e | v in rdg.vertices && e in v.inEdges ensures e in rdg.edges && e.sink == v { ListsContent(rdg.edges, v, e); }
    forall v, e | v in rdg.vertices && e in v.outEdges ensures e in rdg.edges && e.source == v { ListsContent(rdg.edges, v, e); }
    forall e | e in rdg.edges ensures e in e.sink.inEdges && e in e.source.outEdges {
      var i :| 0 <= i < |rdg.edges| && rdg.edges[i] == e;
      assert e.sink in rdg.vertices && e.source in rdg.vertices;
      ListsContent(rdg.edges, e.sink, e);
      ListsContent(rdg.edges, e.source, e);
    }
  }
}
