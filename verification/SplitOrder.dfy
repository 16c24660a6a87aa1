/** The order in which control runs through the loops when one loop has been cloned any number of times. */
module SplitOrder {
  import opened LoopSplit

  predicate Headed(loops: seq<seq<nat>>) {
    forall i :: 0 <= i < |loops| ==> |loops[i]| > 0
  }

  /** Where loop i is entered from: the header of the loop before it. */
  function EntryOf(loops: seq<seq<nat>>, pre: nat, i: nat): nat
    requires i < |loops| && Headed(loops)
  {
    if i == 0 then pre else loops[i - 1][0]
  }

  /** Where loop i leaves to: the header of the loop after it. */
  function ExitOf(loops: seq<seq<nat>>, exit: nat, i: nat): nat
    requires i < |loops| && Headed(loops)
  {
    if i == |loops| - 1 then exit else loops[i + 1][0]
  }

  ghost predicate ChainAt(blocks: seq<Block>, loops: seq<seq<nat>>, pre: nat, exit: nat, i: nat)
    requires i < |loops| && Headed(loops)
  {
    Chain(blocks, loops[i], EntryOf(loops, pre, i), ExitOf(loops, exit, i))
  }

  ghost predicate AllApart(loops: seq<seq<nat>>) {
    forall i, j :: 0 <= i < |loops| && 0 <= j < |loops| && i != j ==> Apart(loops[i], loops[j])
  }

  /** Disjoint loops, each of which leaves into the next one, and the last one to exit. */
  ghost predicate InOrder(blocks: seq<Block>, loops: seq<seq<nat>>, pre: nat, exit: nat) {
    && |loops| > 0 && Headed(loops) && AllApart(loops)
    && (forall i: nat {:trigger ChainAt(blocks, loops, pre, exit, i)} :: i < |loops| ==> ChainAt(blocks, loops, pre, exit, i))
    && (forall i :: 0 <= i < |loops| ==> exit !in loops[i])
  }

  /** Phi node q takes from block b what p takes from block a. */
  predicate SameEntries(p: Phi, a: nat, q: Phi, b: nat) {
    && |p.froms| == |p.vals| == |q.froms| == |q.vals|
    && forall j :: 0 <= j < |p.froms| ==> (p.froms[j] == a <==> q.froms[j] == b) && (p.froms[j] == a ==> p.vals[j] == q.vals[j])
  }

  /** The phi nodes of block b take from preB what those of block a take from preA. */
  predicate SameStart(a: Block, preA: nat, b: Block, preB: nat) {
    |a.phis| == |b.phis| && forall i :: 0 <= i < |a.phis| ==> SameEntries(a.phis[i], preA, b.phis[i], preB)
  }

  predicate RestartAt(blocks: seq<Block>, loops: seq<seq<nat>>, pre: nat, i: nat)
    requires Headed(loops) && i < |loops|
  {
    && loops[0][0] < |blocks| && loops[i][0] < |blocks|
    && SameStart(blocks[loops[0][0]], pre, blocks[loops[i][0]], EntryOf(loops, pre, i))
  }

  predicate AllRestart(blocks: seq<Block>, loops: seq<seq<nat>>, pre: nat) {
    Headed(loops) && forall i: nat {:trigger RestartAt(blocks, loops, pre, i)} :: i < |loops| ==> RestartAt(blocks, loops, pre, i)
  }

  // ---------- one more splice ----------

  /** The loops after the first one was cloned. */
  function WithClone(blocks: seq<Block>, loops: seq<seq<nat>>): (r: seq<seq<nat>>)
    requires |loops| > 0
    ensures |r| == |loops| + 1 && r[0] == loops[0] && r[1] == CloneOf(blocks, loops[0])
    ensures forall i :: 2 <= i < |r| ==> r[i] == loops[i - 1]
  {
    [loops[0], CloneOf(blocks, loops[0])] + loops[1..]
  }

  lemma WithCloneApart(blocks: seq<Block>, loops: seq<seq<nat>>)
    requires |loops| > 0 && AllApart(loops) && forall i :: 0 <= i < |loops| ==> InBounds(blocks, loops[i])
    ensures AllApart(WithClone(blocks, loops))
  {
    hide WithClone, CloneOf;
    var r, clone := WithClone(blocks, loops), CloneOf(blocks, loops[0]);
    forall i | 0 <= i < |loops| ensures Apart(loops[i], clone) && Apart(clone, loops[i]) {
    }
    forall i, j | 0 <= i < |r| && 0 <= j < |r| && i != j ensures Apart(r[i], r[j]) {
      var i', j' := if i == 0 then 0 else i - 1, if j == 0 then 0 else j - 1;
      if i != 1 && j != 1 {
        assert r[i] == loops[i'] && r[j] == loops[j'] && i' != j';
      }
    }
  }

  lemma ChainFacts(blocks: seq<Block>, body: seq<nat>, pre: nat, exit: nat)
    requires Chain(blocks, body, pre, exit)
    ensures |body| >= 2 && InBounds(blocks, body) && exit < |blocks| && exit !in body && pre !in body && pre < |blocks|
  {
  }

  lemma LoopsInBounds(blocks: seq<Block>, loops: seq<seq<nat>>, pre: nat, exit: nat)
    requires InOrder(blocks, loops, pre, exit)
    ensures forall i :: 0 <= i < |loops| ==> InBounds(blocks, loops[i])
    ensures forall i :: 0 <= i < |loops| ==> |loops[i]| >= 2
    ensures pre < |blocks| && exit < |blocks|
  {
    hide Chain, AllApart, InBounds, Headed;
    forall i: nat | i < |loops| ensures InBounds(blocks, loops[i]) && |loops[i]| >= 2 {
      assert ChainAt(blocks, loops, pre, exit, i);
      ChainFacts(blocks, loops[i], EntryOf(loops, pre, i), ExitOf(loops, exit, i));
    }
    assert ChainAt(blocks, loops, pre, exit, 0) && ChainAt(blocks, loops, pre, exit, |loops| - 1);
    ChainFacts(blocks, loops[0], pre, ExitOf(loops, exit, 0));
    ChainFacts(blocks, loops[|loops| - 1], EntryOf(loops, pre, |loops| - 1), exit);
  }

  lemma HeadersDiffer(loops: seq<seq<nat>>, i: nat, j: nat)
    requires Headed(loops) && AllApart(loops) && i < |loops| && j < |loops| && i != j
    ensures loops[i][0] != loops[j][0]
  {
    assert Apart(loops[i], loops[j]);
    assert loops[i][0] in loops[i] && loops[j][0] in loops[j];
  }

  lemma FirstLoop(blocks: seq<Block>, loops: seq<seq<nat>>, pre: nat, exit: nat)
    requires InOrder(blocks, loops, pre, exit)
    ensures |loops[0]| > 1 && InBounds(blocks, loops[0])
  {
    LoopsInBounds(blocks, loops, pre, exit);
  }

  /** The header of the first loop names the next block of its loop first. */
  ghost predicate FirstNamesBody(blocks: seq<Block>, loops: seq<seq<nat>>) {
    |loops| > 0 && |loops[0]| > 1 && InBounds(blocks, loops[0]) && BodyFirst(blocks, loops[0])
  }

  /** Cloning the first of a row of loops makes the clone the second of the row. */
  lemma SpliceInOrder(blocks: seq<Block>, loops: seq<seq<nat>>, pre: nat, exit: nat, shift: nat)
    requires InOrder(blocks, loops, pre, exit) && WellFormed(blocks, shift) && FirstNamesBody(blocks, loops)
    ensures FirstNamesBody(Splice(blocks, loops[0], pre, ExitOf(loops, exit, 0), shift), WithClone(blocks, loops))
    ensures InOrder(Splice(blocks, loops[0], pre, ExitOf(loops, exit, 0), shift), WithClone(blocks, loops), pre, exit)
  {
    hide Chain, Spliced, Splice, DefinedIn, WellFormed, AllApart, Apart, WithClone, CloneOf, InBounds, BodyFirst;
    LoopsInBounds(blocks, loops, pre, exit);
    WithCloneApart(blocks, loops);
    var body, exit0, loops' := loops[0], ExitOf(loops, exit, 0), WithClone(blocks, loops);
    var r := Splice(blocks, body, pre, exit0, shift);
    assert ChainAt(blocks, loops, pre, exit, 0);
    LoopStays(blocks, body, pre, exit0, shift);
    SplicedBounds(blocks, body, pre, exit0, shift);
    forall i: nat | i < |loops'| ensures ChainAt(r, loops', pre, exit, i) {
      if i == 0 {
        LoopStays(blocks, body, pre, exit0, shift);
      } else if i == 1 {
        CloneIsLoop(blocks, body, pre, exit0, shift);
      } else {
        LaterChain(blocks, loops, pre, exit, shift, i - 1);
      }
    }
    CloneAbove(blocks, body, exit);
  }

  /** So do the headers of all loops. */
  ghost predicate AllNameBody(blocks: seq<Block>, loops: seq<seq<nat>>) {
    forall i :: 0 <= i < |loops| ==> |loops[i]| > 1 && InBounds(blocks, loops[i]) && BodyFirst(blocks, loops[i])
  }

  lemma HeaderKept(blocks: seq<Block>, body: seq<nat>, pre: nat, exit: nat, shift: nat, other: seq<nat>)
    requires Shaped(blocks, body, exit) && |other| > 1 && InBounds(blocks, other) && BodyFirst(blocks, other) && other[0] != body[0]
    ensures InBounds(Splice(blocks, body, pre, exit, shift), other) && BodyFirst(Splice(blocks, body, pre, exit, shift), other)
  {
    KeptSuccs(blocks, body, pre, exit, shift, other[0]);
  }

  lemma SpliceNamesBody(blocks: seq<Block>, loops: seq<seq<nat>>, pre: nat, exit: nat, shift: nat)
    requires InOrder(blocks, loops, pre, exit) && WellFormed(blocks, shift) && AllNameBody(blocks, loops)
    ensures AllNameBody(Splice(blocks, loops[0], pre, ExitOf(loops, exit, 0), shift), WithClone(blocks, loops))
  {
    hide Chain, Spliced, Splice, DefinedIn, WellFormed, AllApart, Apart, WithClone, CloneOf, InBounds, BodyFirst, Shaped;
    var body, out, loops' := loops[0], ExitOf(loops, exit, 0), WithClone(blocks, loops);
    var r := Splice(blocks, body, pre, out, shift);
    assert ChainAt(blocks, loops, pre, exit, 0);
    LoopStays(blocks, body, pre, out, shift);
    SplicedBounds(blocks, body, pre, out, shift);
    CloneIsLoop(blocks, body, pre, out, shift);
    ChainFacts(r, CloneOf(blocks, body), body[0], out);
    ChainShaped(blocks, body, pre, out);
    forall i: nat | 2 <= i < |loops'| ensures |loops'[i]| > 1 && InBounds(r, loops'[i]) && BodyFirst(r, loops'[i]) {
      HeadersDiffer(loops, 0, i - 1);
      HeaderKept(blocks, body, pre, out, shift, loops[i - 1]);
    }
  }

  lemma SplicedBounds(blocks: seq<Block>, body: seq<nat>, pre: nat, exit: nat, shift: nat)
    requires |body| > 0 && InBounds(blocks, body)
    ensures InBounds(Splice(blocks, body, pre, exit, shift), body)
  {
  }

  lemma WellFormedMatch(blocks: seq<Block>, limit: nat)
    requires WellFormed(blocks, limit)
    ensures PhisMatch(blocks)
  {
  }

  lemma CloneAbove(blocks: seq<Block>, body: seq<nat>, b: nat)
    requires b < |blocks|
    ensures b !in CloneOf(blocks, body)
  {
  }

  lemma LaterChain(blocks: seq<Block>, loops: seq<seq<nat>>, pre: nat, exit: nat, shift: nat, i: nat)
    requires InOrder(blocks, loops, pre, exit) && WellFormed(blocks, shift) && 0 < i < |loops| && FirstNamesBody(blocks, loops)
    ensures Chain(Splice(blocks, loops[0], pre, ExitOf(loops, exit, 0), shift), loops[i],
                  if i == 1 then |blocks| else loops[i - 1][0], ExitOf(loops, exit, i))
  {
    hide Chain, Spliced, Splice, DefinedIn, WellFormed, AllApart, Apart, InBounds, BodyFirst;
    assert ChainAt(blocks, loops, pre, exit, 0) && ChainAt(blocks, loops, pre, exit, i);
    var exit0 := ExitOf(loops, exit, 0);
    assert Apart(loops[0], loops[i]) by { AllApartAt(loops, 0, i); }
    ChainShaped(blocks, loops[0], pre, exit0);
    OtherLoopStays(blocks, loops[0], pre, exit0, shift, loops[i], loops[i - 1][0], ExitOf(loops, exit, i));
    if i > 1 { HeadersDiffer(loops, 1, i); }
  }

  lemma ChainShaped(blocks: seq<Block>, body: seq<nat>, pre: nat, exit: nat)
    requires Chain(blocks, body, pre, exit)
    ensures Shaped(blocks, body, exit)
  {
  }

  lemma AllApartAt(loops: seq<seq<nat>>, i: nat, j: nat)
    requires AllApart(loops) && i < |loops| && j < |loops| && i != j
    ensures Apart(loops[i], loops[j])
  {
  }

  lemma SameStartTrans(a: Block, preA: nat, b: Block, preB: nat, c: Block, preC: nat)
    requires SameStart(a, preA, b, preB) && SameStart(b, preB, c, preC)
    ensures SameStart(a, preA, c, preC)
  {
    forall i | 0 <= i < |a.phis| ensures SameEntries(a.phis[i], preA, c.phis[i], preC) {
      assert SameEntries(a.phis[i], preA, b.phis[i], preB) && SameEntries(b.phis[i], preB, c.phis[i], preC);
    }
  }

  lemma SameStartSelf(blocks: seq<Block>, b: nat, pre: nat)
    requires PhisMatch(blocks) && b < |blocks|
    ensures SameStart(blocks[b], pre, blocks[b], pre)
  {
    assert PhisMatchAt(blocks, b);
  }

  /** The clone starts as the loop does. */
  lemma CloneStarts(blocks: seq<Block>, body: seq<nat>, pre: nat, exit: nat, shift: nat)
    requires Chain(blocks, body, pre, exit) && PhisMatch(blocks)
    ensures SameStart(blocks[body[0]], pre, Splice(blocks, body, pre, exit, shift)[|blocks|], body[0])
  {
    hide Spliced, DefinedIn, Different, Outside, Pred, Replaced;
    var r, n, ren := Splice(blocks, body, pre, exit, shift), |blocks|, CloneRenaming(blocks, body, shift);
    CloneFields(blocks, body, pre, exit, shift, 0);
    assert PhisMatchAt(blocks, body[0]);
    var b := blocks[body[0]];
    forall i | 0 <= i < |b.phis| ensures SameEntries(b.phis[i], pre, r[n].phis[i], body[0]) {
      forall j | 0 <= j < |b.phis[i].froms|
        ensures r[n].phis[i].froms[j] == body[0] <==> b.phis[i].froms[j] == pre
        ensures b.phis[i].froms[j] == pre ==> r[n].phis[i].vals[j] == b.phis[i].vals[j]
      {
        RenamedSource(ren, pre, b.phis[i].froms[j]);
        if b.phis[i].froms[j] == pre {
          assert Takes(blocks, body[0], pre, i, b.phis[i].vals[j]);
          OutsideStays(blocks, body, shift, b.phis[i].vals[j]);
        }
      }
    }
  }

  /** The exit takes from the clone what it took from the loop. */
  lemma ExitStarts(blocks: seq<Block>, body: seq<nat>, pre: nat, exit: nat, shift: nat)
    requires Shaped(blocks, body, exit) && PhisMatch(blocks)
    ensures SameStart(blocks[exit], body[0], Splice(blocks, body, pre, exit, shift)[exit], |blocks|)
  {
    hide Spliced, DefinedIn, Different;
    KeptFields(blocks, body, pre, exit, shift, exit);
    assert PhisMatchAt(blocks, exit);
    forall i | 0 <= i < |blocks[exit].phis| ensures |blocks| !in blocks[exit].phis[i].froms {
      PredBelow(blocks, |blocks|, exit);
      assert |blocks| in blocks[exit].phis[i].froms <==> Pred(blocks, |blocks|, exit);
    }
  }

  lemma PhisStay(blocks: seq<Block>, body: seq<nat>, pre: nat, exit: nat, shift: nat, b: nat)
    requires |body| > 0 && InBounds(blocks, body) && b < |blocks| && b != exit
    ensures Splice(blocks, body, pre, exit, shift)[b].phis == blocks[b].phis
  {
  }

  /** Every loop still starts with the values with which the first one starts. */
  lemma SpliceRestarts(blocks: seq<Block>, loops: seq<seq<nat>>, pre: nat, exit: nat, shift: nat)
    requires InOrder(blocks, loops, pre, exit) && PhisMatch(blocks) && AllRestart(blocks, loops, pre)
    ensures InBounds(blocks, loops[0])
    ensures AllRestart(Splice(blocks, loops[0], pre, ExitOf(loops, exit, 0), shift), WithClone(blocks, loops), pre)
  {
    hide Chain, Spliced, Splice, DefinedIn, AllApart, Apart, WithClone, CloneOf, InBounds, PhisMatch, SameStart;
    LoopsInBounds(blocks, loops, pre, exit);
    var body, exit0, loops' := loops[0], ExitOf(loops, exit, 0), WithClone(blocks, loops);
    var r := Splice(blocks, body, pre, exit0, shift);
    assert ChainAt(blocks, loops, pre, exit, 0);
    ChainFacts(blocks, body, pre, exit0);
    ChainShaped(blocks, body, pre, exit0);
    assert CloneOf(blocks, body)[0] == |blocks|;
    InBoundsAt(blocks, body);
    PhisStay(blocks, body, pre, exit0, shift, body[0]);
    var h, h' := blocks[body[0]], r[body[0]];
    forall k: nat | k < |loops'| ensures RestartAt(r, loops', pre, k) {
      if k == 0 {
        assert RestartAt(blocks, loops, pre, 0);
        SamePhis(h, h', pre, h, h', pre);
      } else if k == 1 {
        CloneStarts(blocks, body, pre, exit0, shift);
        SamePhis(h, h', pre, r[|blocks|], r[|blocks|], body[0]);
      } else {
        assert RestartAt(blocks, loops, pre, k - 1);
        var next, entry := loops[k - 1][0], EntryOf(loops, pre, k - 1);
        if k == 2 {
          ExitStarts(blocks, body, pre, exit0, shift);
          SameStartTrans(h, pre, blocks[exit0], body[0], r[exit0], |blocks|);
          SamePhis(h, h', pre, r[exit0], r[exit0], |blocks|);
        } else {
          HeadersDiffer(loops, 1, k - 1);
          PhisStay(blocks, body, pre, exit0, shift, next);
          SamePhis(h, h', pre, blocks[next], r[next], entry);
        }
      }
    }
  }

  lemma SamePhis(a: Block, a': Block, p: nat, b: Block, b': Block, q: nat)
    requires a.phis == a'.phis && b.phis == b'.phis && SameStart(a, p, b, q)
    ensures SameStart(a', p, b', q)
  {
  }

  /** The header from which the last loop of the row leaves. */
  function LastHeader(loops: seq<seq<nat>>): nat
    requires |loops| > 0 && Headed(loops)
  {
    loops[|loops| - 1][0]
  }

  /** The exit takes from the last loop what it took from the last loop before. */
  lemma SpliceExits(blocks: seq<Block>, loops: seq<seq<nat>>, pre: nat, exit: nat, shift: nat)
    requires InOrder(blocks, loops, pre, exit) && PhisMatch(blocks)
    ensures InBounds(blocks, loops[0]) && exit < |blocks| && Headed(WithClone(blocks, loops))
    ensures SameStart(blocks[exit], LastHeader(loops), Splice(blocks, loops[0], pre, ExitOf(loops, exit, 0), shift)[exit],
                      LastHeader(WithClone(blocks, loops)))
  {
    hide Chain, Spliced, Splice, DefinedIn, AllApart, Apart, CloneOf, InBounds, PhisMatch, SameStart;
    LoopsInBounds(blocks, loops, pre, exit);
    FirstChain(blocks, loops, pre, exit);
    var body, exit0 := loops[0], ExitOf(loops, exit, 0);
    if |loops| == 1 {
      ChainShaped(blocks, body, pre, exit0);
      ExitStarts(blocks, body, pre, exit0, shift);
    } else {
      assert loops[1][0] in loops[1];
      PhisStay(blocks, body, pre, exit0, shift, exit);
      SameStartSelf(blocks, exit, LastHeader(loops));
      var b, b' := blocks[exit], Splice(blocks, body, pre, exit0, shift)[exit];
      SamePhis(b, b, LastHeader(loops), b, b', LastHeader(loops));
    }
  }

  lemma InBoundsAt(blocks: seq<Block>, body: seq<nat>)
    requires InBounds(blocks, body) && |body| > 0
    ensures body[0] < |blocks|
  {
  }

  // ---------- how control runs ----------

  /** Each block is a successor of the one before. */
  ghost predicate Walk(blocks: seq<Block>, p: seq<nat>) {
    forall i: nat {:trigger p[i]} :: i + 1 < |p| ==> Pred(blocks, p[i], p[i + 1])
  }

  /** The blocks that run when the header lets the body run t times: the header once more at the end. */
  function Laps(body: seq<nat>, t: nat): (r: seq<nat>)
    requires |body| > 0
    ensures |r| > 0 && r[0] == body[0] && r[|r| - 1] == body[0]
  {
    if t == 0 then [body[0]] else body + Laps(body, t - 1)
  }

  /** One loop after the other, loop i with trips[i] iterations. */
  function Tour(loops: seq<seq<nat>>, trips: seq<nat>): (r: seq<nat>)
    requires |loops| == |trips| && Headed(loops)
  {
    if loops == [] then [] else Laps(loops[0], trips[0]) + Tour(loops[1..], trips[1..])
  }

  /** The block behind block k, unless that is the header. */
  lemma NextInChain(blocks: seq<Block>, body: seq<nat>, exit: nat, a: nat, b: nat, k: nat)
    requires Shaped(blocks, body, exit) && Pred(blocks, a, b) && 0 < k < |body| && a == body[k]
    ensures b == if k + 1 < |body| then body[k + 1] else body[0]
  {
    assert blocks[body[k]].succs == [if k + 1 < |body| then body[k + 1] else body[0]];
  }

  lemma {:induction false} AlongChain(blocks: seq<Block>, body: seq<nat>, exit: nat, p: seq<nat>, k: nat)
    requires Shaped(blocks, body, exit) && Walk(blocks, p) && |p| >= 2 && p[0] == body[0] && p[1] == body[1]
    requires p[|p| - 1] !in body && 2 <= k <= |body|
    ensures |p| > k && p[..k] == body[..k]
  {
    hide Different, Pred, Shaped;
    ShapedSize(blocks, body, exit);
    if k > 2 {
      AlongChain(blocks, body, exit, p, k - 1);
      assert p[k - 2] == p[..k - 1][k - 2] == body[k - 2];
      assert Pred(blocks, p[k - 2], p[k - 1]);
      NextInChain(blocks, body, exit, p[k - 2], p[k - 1], k - 2);
      assert p[..k] == p[..k - 1] + [body[k - 1]];
    }
    assert p[k - 1] == body[k - 1] && body[k - 1] in body;
  }

  lemma WalkFrom(blocks: seq<Block>, p: seq<nat>, n: nat)
    requires Walk(blocks, p) && n <= |p|
    ensures Walk(blocks, p[n..])
  {
    hide Pred;
    forall i: nat | i + 1 < |p[n..]| ensures Pred(blocks, p[n..][i], p[n..][i + 1]) {
      assert p[n..][i] == p[n + i] && p[n..][i + 1] == p[n + i + 1];
    }
  }

  /** One iteration. */
  lemma OneLap(blocks: seq<Block>, body: seq<nat>, exit: nat, p: seq<nat>)
    requires Shaped(blocks, body, exit) && Walk(blocks, p) && |p| >= 2 && p[0] == body[0] && p[1] == body[1]
    requires p[|p| - 1] !in body
    ensures |p| > |body| && p[..|body|] == body && p[|body|] == body[0]
  {
    hide Different;
    var n := |body|;
    AlongChain(blocks, body, exit, p, n);
    assert p[n - 1] == p[..n][n - 1] == body[n - 1];
    assert Pred(blocks, p[n - 1], p[n]);
  }

  lemma AddLap(body: seq<nat>, s: nat, p: seq<nat>)
    requires |body| > 0 && |p| >= |body| && p[..|body|] == body
    requires |Laps(body, s)| < |p[|body|..]| && p[|body|..][..|Laps(body, s)|] == Laps(body, s)
    ensures |Laps(body, s + 1)| < |p| && p[..|Laps(body, s + 1)|] == Laps(body, s + 1)
    ensures p[|Laps(body, s + 1)|] == p[|body|..][|Laps(body, s)|]
  {
    var n, m := |body|, |Laps(body, s)|;
    assert Laps(body, s + 1) == body + Laps(body, s);
    assert p[..n + m] == p[..n] + p[n..][..m];
  }

  /** A walk that starts at the header and ends outside the loop runs some whole iterations, and then leaves
      from the header to the exit. */
  lemma {:induction false} ThroughLoop(blocks: seq<Block>, body: seq<nat>, exit: nat, p: seq<nat>) returns (t: nat)
    requires Shaped(blocks, body, exit) && Walk(blocks, p) && |p| > 0 && p[0] == body[0] && p[|p| - 1] !in body
    ensures |Laps(body, t)| < |p| && p[..|Laps(body, t)|] == Laps(body, t) && p[|Laps(body, t)|] == exit
    decreases |p|
  {
    hide *;
    ShapedSize(blocks, body, exit);
    FromHeader(blocks, body, exit, p);
    if p[1] == exit {
      t := 0;
      NoLaps(body);
      assert p[..1] == [p[0]];
    } else {
      OneLap(blocks, body, exit, p);
      WalkFrom(blocks, p, |body|);
      var s := ThroughLoop(blocks, body, exit, p[|body|..]);
      t := s + 1;
      AddLap(body, s, p);
    }
  }

  lemma NoLaps(body: seq<nat>)
    requires |body| > 0
    ensures Laps(body, 0) == [body[0]]
  {
  }

  lemma FromHeader(blocks: seq<Block>, body: seq<nat>, exit: nat, p: seq<nat>)
    requires Shaped(blocks, body, exit) && Walk(blocks, p) && |p| > 0 && p[0] == body[0] && p[|p| - 1] !in body
    ensures |p| > 1 && (p[1] == body[1] || p[1] == exit)
  {
    if |p| > 1 {
      assert Pred(blocks, p[0], p[1]);
      assert p[1] in blocks[body[0]].succs;
    }
  }

  lemma LaterInOrder(blocks: seq<Block>, loops: seq<seq<nat>>, pre: nat, exit: nat)
    requires InOrder(blocks, loops, pre, exit) && |loops| > 1
    ensures InOrder(blocks, loops[1..], loops[0][0], exit)
  {
    hide Chain, Apart;
    var rest := loops[1..];
    forall i: nat | i < |rest| ensures ChainAt(blocks, rest, loops[0][0], exit, i) {
      assert ChainAt(blocks, loops, pre, exit, i + 1);
    }
    forall i, j | 0 <= i < |rest| && 0 <= j < |rest| && i != j ensures Apart(rest[i], rest[j]) {
      assert Apart(loops[i + 1], loops[j + 1]);
    }
  }

  /** Control runs through the loops in their order: every walk from the header of the first loop to the first
      arrival at exit runs each loop some number of times, one loop after the other. */
  lemma {:induction false} ControlRunsInOrder(blocks: seq<Block>, loops: seq<seq<nat>>, pre: nat, exit: nat, p: seq<nat>) returns (trips: seq<nat>)
    requires InOrder(blocks, loops, pre, exit) && Walk(blocks, p) && |p| > 0 && p[0] == loops[0][0]
    requires p[|p| - 1] == exit && exit !in p[..|p| - 1]
    ensures |trips| == |loops| && p == Tour(loops, trips) + [exit]
    decreases |loops|
  {
    hide Chain, Apart, Laps, Walk, AllApart;
    var out := ExitOf(loops, exit, 0);
    assert ChainAt(blocks, loops, pre, exit, 0);
    ChainShaped(blocks, loops[0], pre, out);
    var t := ThroughLoop(blocks, loops[0], out, p);
    var n := |Laps(loops[0], t)|;
    assert p == p[..n] + p[n..];
    if |loops| == 1 {
      trips := [t];
      AtTheEnd(p, exit, n);
      assert Tour(loops[1..], trips[1..]) == [];
    } else {
      LaterInOrder(blocks, loops, pre, exit);
      WalkFrom(blocks, p, n);
      NotBefore(p, exit, n);
      var rest := ControlRunsInOrder(blocks, loops[1..], loops[0][0], exit, p[n..]);
      trips := [t] + rest;
      assert trips[1..] == rest;
    }
  }

  lemma AtTheEnd(p: seq<nat>, exit: nat, n: nat)
    requires n < |p| && p[n] == exit && exit !in p[..|p| - 1]
    ensures p[n..] == [exit]
  {
    assert forall i :: 0 <= i < |p| - 1 ==> p[..|p| - 1][i] == p[i];
  }

  lemma NotBefore(p: seq<nat>, exit: nat, n: nat)
    requires n < |p| && exit !in p[..|p| - 1]
    ensures exit !in p[n..][..|p[n..]| - 1]
  {
    assert p[n..][..|p[n..]| - 1] == p[..|p| - 1][n..];
  }

  lemma WalkJoined(blocks: seq<Block>, p: seq<nat>, q: seq<nat>)
    requires Walk(blocks, p) && Walk(blocks, q) && (|p| > 0 && |q| > 0 ==> Pred(blocks, p[|p| - 1], q[0]))
    ensures Walk(blocks, p + q)
  {
    hide Pred;
    var r := p + q;
    forall i: nat | i + 1 < |r| ensures Pred(blocks, r[i], r[i + 1]) {
      if i + 1 < |p| {
        assert r[i] == p[i] && r[i + 1] == p[i + 1];
      } else if i >= |p| {
        assert r[i] == q[i - |p|] && r[i + 1] == q[i - |p| + 1];
      }
    }
  }

  lemma ChainStep(blocks: seq<Block>, body: seq<nat>, exit: nat, i: nat)
    requires Shaped(blocks, body, exit) && i < |body|
    ensures Pred(blocks, body[i], if i + 1 < |body| then body[i + 1] else body[0])
  {
    hide Different;
    if i == 0 {
      assert blocks[body[0]].succs[0] == body[1] || blocks[body[0]].succs[1] == body[1];
    } else {
      assert blocks[body[i]].succs == if i + 1 < |body| then [body[i + 1]] else [body[0]];
    }
  }

  lemma {:induction false} LapsWalk(blocks: seq<Block>, body: seq<nat>, exit: nat, t: nat)
    requires Shaped(blocks, body, exit)
    ensures Walk(blocks, Laps(body, t))
  {
    hide *;
    ShapedSize(blocks, body, exit);
    if t == 0 {
      NoLaps(body);
      OneBlockWalk(blocks, body[0]);
    } else {
      LapsWalk(blocks, body, exit, t - 1);
      ChainWalk(blocks, body, exit);
      ChainStep(blocks, body, exit, |body| - 1);
      WalkJoined(blocks, body, Laps(body, t - 1));
      MoreLaps(body, t);
    }
  }

  lemma MoreLaps(body: seq<nat>, t: nat)
    requires |body| > 0 && t > 0
    ensures Laps(body, t) == body + Laps(body, t - 1)
  {
  }

  lemma ChainWalk(blocks: seq<Block>, body: seq<nat>, exit: nat)
    requires Shaped(blocks, body, exit)
    ensures Walk(blocks, body)
  {
    hide Shaped, Pred;
    forall i: nat | i + 1 < |body| ensures Pred(blocks, body[i], body[i + 1]) {
      ChainStep(blocks, body, exit, i);
    }
  }

  /** Conversely the graph allows every choice of trip counts. */
  lemma {:induction false} EveryTourIsWalk(blocks: seq<Block>, loops: seq<seq<nat>>, pre: nat, exit: nat, trips: seq<nat>)
    requires InOrder(blocks, loops, pre, exit) && |trips| == |loops|
    ensures Walk(blocks, Tour(loops, trips) + [exit])
    ensures Tour(loops, trips) != [] && Tour(loops, trips)[0] == loops[0][0]
    decreases |loops|
  {
    hide Chain, Apart, Laps, Walk, AllApart, Pred;
    var out := ExitOf(loops, exit, 0);
    assert ChainAt(blocks, loops, pre, exit, 0);
    ChainShaped(blocks, loops[0], pre, out);
    LapsWalk(blocks, loops[0], out, trips[0]);
    HeaderLeaves(blocks, loops[0], out);
    var laps, rest := Laps(loops[0], trips[0]), Tour(loops[1..], trips[1..]) + [exit];
    assert Tour(loops, trips) + [exit] == laps + rest;
    if |loops| == 1 {
      assert rest == [exit];
      assert Walk(blocks, rest) by { OneBlockWalk(blocks, exit); }
    } else {
      LaterInOrder(blocks, loops, pre, exit);
      EveryTourIsWalk(blocks, loops[1..], loops[0][0], exit, trips[1..]);
    }
    WalkJoined(blocks, laps, rest);
  }

  lemma OneBlockWalk(blocks: seq<Block>, b: nat)
    ensures Walk(blocks, [b])
  {
  }

  // ---------- a header that names the exit first ----------

  lemma ExitFirstClone(blocks: seq<Block>, body: seq<nat>, pre: nat, exit: nat, shift: nat)
    requires Chain(blocks, body, pre, exit) && !BodyFirst(blocks, body)
    ensures var r, clone := Splice(blocks, body, pre, exit, shift), CloneOf(blocks, body);
            && !Shaped(r, clone, exit)
            && forall a: nat, b: nat {:trigger Pred(r, a, b)} :: a in clone && Pred(r, a, b) ==> b in clone
  {
    hide Spliced, Splice, DefinedIn, Different, Entered, Started;
    var r, n, clone := Splice(blocks, body, pre, exit, shift), |blocks|, CloneOf(blocks, body);
    CloneSuccs(blocks, body, pre, exit, shift, 0);
    assert clone[0] == n && exit < n;
    assert r[clone[0]].succs[0] != exit && r[clone[0]].succs[1] != exit;
    forall a: nat, b: nat | a in clone && Pred(r, a, b) ensures b in clone {
      var k :| 0 <= k < |clone| && clone[k] == a;
      CloneSuccs(blocks, body, pre, exit, shift, k);
      assert clone[1] == n + 1;
      if 0 < k < |body| - 1 { assert clone[k + 1] == n + k + 1; }
    }
  }

  lemma {:induction false} StaysIn(blocks: seq<Block>, p: seq<nat>, s: seq<nat>, i: nat)
    requires Walk(blocks, p) && i < |p| && p[0] in s
    requires forall a: nat, b: nat {:trigger Pred(blocks, a, b)} :: a in s && Pred(blocks, a, b) ==> b in s
    ensures p[i] in s
  {
    if i > 0 {
      StaysIn(blocks, p, s, i - 1);
      assert Pred(blocks, p[i - 1], p[i]);
    }
  }

  /** Then control that enters the clone never leaves it. */
  lemma CloneTraps(blocks: seq<Block>, body: seq<nat>, pre: nat, exit: nat, shift: nat, p: seq<nat>, i: nat)
    requires Chain(blocks, body, pre, exit) && !BodyFirst(blocks, body)
    requires Walk(Splice(blocks, body, pre, exit, shift), p) && i < |p| && p[0] in CloneOf(blocks, body)
    ensures p[i] in CloneOf(blocks, body)
  {
    hide *;
    ChainFacts(blocks, body, pre, exit);
    ExitFirstClone(blocks, body, pre, exit, shift);
    StaysIn(Splice(blocks, body, pre, exit, shift), p, CloneOf(blocks, body), i);
  }

  lemma MatchAt(blocks: seq<Block>, b: nat, i: nat, a: nat)
    requires PhisMatch(blocks) && b < |blocks| && i < |blocks[b].phis|
    ensures a in blocks[b].phis[i].froms <==> Pred(blocks, a, b)
  {
    assert PhisMatchAt(blocks, b);
  }

  /** And a phi node of the exit names the clone's header, which is no predecessor. */
  lemma ExitPhisBreak(blocks: seq<Block>, body: seq<nat>, pre: nat, exit: nat, shift: nat)
    requires Chain(blocks, body, pre, exit) && !BodyFirst(blocks, body) && PhisMatch(blocks) && blocks[exit].phis != []
    ensures !PhisMatch(Splice(blocks, body, pre, exit, shift))
  {
    hide Spliced, DefinedIn, Different, Entered, Started, PhisMatch;
    var r, n, clone := Splice(blocks, body, pre, exit, shift), |blocks|, CloneOf(blocks, body);
    var froms := blocks[exit].phis[0].froms;
    MatchAt(blocks, exit, 0, body[0]);
    KeptFields(blocks, body, pre, exit, shift, exit);
    ReplacedContent(froms, body[0], n, n);
    ExitFirstClone(blocks, body, pre, exit, shift);
    assert clone[0] == n && n in clone && exit !in clone;
    if PhisMatch(r) {
      MatchAt(r, exit, 0, n);
    }
  }

  /** CreateOneLoop keeps the row of loops in order, and the phi nodes right, exactly when the header of the loop
      it clones names the next block of the loop first. */
  lemma SpliceKeepsOrderIff(blocks: seq<Block>, loops: seq<seq<nat>>, pre: nat, exit: nat, shift: nat)
    requires InOrder(blocks, loops, pre, exit) && WellFormed(blocks, shift)
    ensures |loops[0]| > 0 && InBounds(blocks, loops[0])
    ensures var r := Splice(blocks, loops[0], pre, ExitOf(loops, exit, 0), shift);
            (InOrder(r, WithClone(blocks, loops), pre, exit) && WellFormed(r, shift + shift)) <==> FirstNamesBody(blocks, loops)
  {
    hide Chain, Splice, Spliced, WellFormed, AllApart, Shaped, WithClone, CloneOf, DefinedIn;
    FirstLoop(blocks, loops, pre, exit);
    var body, out, loops' := loops[0], ExitOf(loops, exit, 0), WithClone(blocks, loops);
    var r := Splice(blocks, body, pre, out, shift);
    assert ChainAt(blocks, loops, pre, exit, 0);
    if BodyFirst(blocks, body) {
      SpliceInOrder(blocks, loops, pre, exit, shift);
      SpliceKeepsWellFormed(blocks, body, pre, out, shift);
    } else {
      RowStaysBroken(blocks, loops, pre, exit, shift);
    }
  }

  /** A loop of header 1 and latch 2 that leaves to 3, where a phi node takes the header's value; the header names
      3 first. */
  function ExitFirstLoop(): seq<Block> {
    [Block([], [], Instr(0, 0, []), [1], true),
     Block([Phi(1, [0, 2], [Other(0), Def(3)])], [], Instr(2, 0, [Def(1)]), [3, 2], true),
     Block([], [Instr(3, 1, [Def(1)])], Instr(4, 0, []), [1], true),
     Block([Phi(5, [1], [Def(1)])], [], Instr(6, 0, []), [], true)]
  }

  lemma ExitFirstLoopEdges(a: nat, b: nat)
    ensures Pred(ExitFirstLoop(), a, b) <==> (a == 0 && b == 1) || (a == 1 && (b == 3 || b == 2)) || (a == 2 && b == 1)
  {
    var f := ExitFirstLoop();
    assert f[1].succs == [3, 2] && f[0].succs == [1] && f[2].succs == [1] && f[3].succs == [];
  }

  lemma ExitFirstLoopEntered()
    ensures Entered(ExitFirstLoop(), [1, 2], 0)
  {
    hide ExitFirstLoop;
    assert |ExitFirstLoop()| == 4 by { FourBlocks(); }
    forall a: nat, b: nat {
      ExitFirstLoopEdges(a, b);
    }
  }

  lemma FourBlocks()
    ensures |ExitFirstLoop()| == 4
  {
  }

  lemma ExitFirstLoopShape()
    ensures Shaped(ExitFirstLoop(), [1, 2], 3) && !FirstNamesBody(ExitFirstLoop(), [[1, 2]]) && Numbered(ExitFirstLoop(), 7)
  {
  }

  lemma OneLoopInOrder(blocks: seq<Block>, body: seq<nat>, pre: nat, exit: nat)
    requires Chain(blocks, body, pre, exit)
    ensures InOrder(blocks, [body], pre, exit)
  {
    hide Chain;
    ChainFacts(blocks, body, pre, exit);
    assert ChainAt(blocks, [body], pre, exit, 0);
  }

  lemma ExitFirstLoopIsLoop()
    ensures WellFormed(ExitFirstLoop(), 7) && InOrder(ExitFirstLoop(), [[1, 2]], 0, 3) && !FirstNamesBody(ExitFirstLoop(), [[1, 2]])
  {
    hide PhisMatch, Entered, Started, Shaped, ExitFirstLoop, Numbered, FirstNamesBody, InOrder;
    ExitFirstLoopEntered();
    ExitFirstLoopShape();
    ExitFirstLoopStarts();
    ExitFirstLoopPhis();
    assert InBounds(ExitFirstLoop(), [1, 2]) by { ShapedSize(ExitFirstLoop(), [1, 2], 3); }
    OneLoopInOrder(ExitFirstLoop(), [1, 2], 0, 3);
  }

  lemma ExitFirstLoopStarts()
    ensures Started(ExitFirstLoop(), [1, 2], 0)
  {
    var f := ExitFirstLoop();
    forall i: nat, o | Takes(f, 1, 0, i, o) ensures Outside(f, [1, 2], o) {
      assert f[1].phis[i].froms == [0, 2] && f[1].phis[i].vals == [Other(0), Def(3)];
    }
  }

  lemma ExitFirstLoopPhis()
    ensures PhisMatch(ExitFirstLoop())
  {
    var f := ExitFirstLoop();
    forall b: nat | b < |f| ensures PhisMatchAt(f, b) {
      assert f[1].succs == [3, 2] && f[0].succs == [1] && f[2].succs == [1] && f[3].succs == [];
      if b == 1 {
        assert f[1].phis[0].froms == [0, 2];
      } else if b == 3 {
        assert f[3].phis[0].froms == [1];
      }
    }
  }

  lemma ExitFirstLoopParts()
    ensures |ExitFirstLoop()| == 4 && InBounds(ExitFirstLoop(), [1, 2]) && !BodyFirst(ExitFirstLoop(), [1, 2])
    ensures Chain(ExitFirstLoop(), [1, 2], 0, 3) && ExitFirstLoop()[3].phis != []
    ensures CloneOf(ExitFirstLoop(), [1, 2]) == [4, 5]
  {
    hide Chain, InOrder, WellFormed, ExitFirstLoop;
    ExitFirstLoopIsLoop();
    FirstChain(ExitFirstLoop(), [[1, 2]], 0, 3);
    ExitFirstLoopBlocks();
  }

  lemma ExitFirstLoopBlocks()
    ensures |ExitFirstLoop()| == 4 && InBounds(ExitFirstLoop(), [1, 2]) && !BodyFirst(ExitFirstLoop(), [1, 2])
    ensures ExitFirstLoop()[3].phis != []
  {
  }

  lemma ExitFirstLoopTraps(p: seq<nat>, i: nat)
    requires InBounds(ExitFirstLoop(), [1, 2]) && Walk(Splice(ExitFirstLoop(), [1, 2], 0, 3, 7), p) && i < |p| && p[0] == 4
    ensures p[i] == 4 || p[i] == 5
  {
    hide *;
    ExitFirstLoopParts();
    CloneTraps(ExitFirstLoop(), [1, 2], 0, 3, 7, p, i);
  }

  lemma ExitFirstLoopDisorder()
    ensures InBounds(ExitFirstLoop(), [1, 2]) && !InOrder(Splice(ExitFirstLoop(), [1, 2], 0, 3, 7), [[1, 2], [4, 5]], 0, 3)
  {
    hide Splice, WellFormed, InOrder, Chain, ExitFirstLoop, CloneOf, FirstNamesBody;
    var loops: seq<seq<nat>> := [[1, 2]];
    ExitFirstLoopParts();
    ExitFirstLoopIsLoop();
    RowStaysBroken(ExitFirstLoop(), loops, 0, 3, 7);
    assert WithClone(ExitFirstLoop(), loops) == [[1, 2], [4, 5]];
  }

  /** Cloned, it runs into a clone it never leaves, and the phi node of the exit is wrong. */
  lemma ExitFirstLoopBreaks()
    ensures InBounds(ExitFirstLoop(), [1, 2])
    ensures var r := Splice(ExitFirstLoop(), [1, 2], 0, 3, 7);
            && !InOrder(r, [[1, 2], [4, 5]], 0, 3) && !PhisMatch(r)
            && forall p: seq<nat>, i: nat :: Walk(r, p) && i < |p| && p[0] == 4 ==> p[i] != 3
  {
    hide *;
    ExitFirstLoopParts();
    ExitFirstLoopIsLoop();
    WellFormedMatch(ExitFirstLoop(), 7);
    ExitPhisBreak(ExitFirstLoop(), [1, 2], 0, 3, 7);
    ExitFirstLoopDisorder();
    forall p: seq<nat>, i: nat | Walk(Splice(ExitFirstLoop(), [1, 2], 0, 3, 7), p) && i < |p| && p[0] == 4 ensures p[i] != 3 {
      ExitFirstLoopTraps(p, i);
    }
  }

  lemma FirstChain(blocks: seq<Block>, loops: seq<seq<nat>>, pre: nat, exit: nat)
    requires InOrder(blocks, loops, pre, exit)
    ensures Headed(loops) && Chain(blocks, loops[0], pre, ExitOf(loops, exit, 0))
  {
    assert ChainAt(blocks, loops, pre, exit, 0);
  }

  lemma SecondShaped(blocks: seq<Block>, loops: seq<seq<nat>>, pre: nat, exit: nat)
    requires InOrder(blocks, loops, pre, exit) && |loops| > 1
    ensures Headed(loops) && Shaped(blocks, loops[1], ExitOf(loops, exit, 1))
  {
    assert ChainAt(blocks, loops, pre, exit, 1);
  }

  /** Whatever happens to the phi nodes, the row is out of order. */
  lemma RowStaysBroken(blocks: seq<Block>, loops: seq<seq<nat>>, pre: nat, exit: nat, shift: nat)
    requires InOrder(blocks, loops, pre, exit) && !FirstNamesBody(blocks, loops)
    ensures |loops[0]| > 0 && InBounds(blocks, loops[0])
    ensures !InOrder(Splice(blocks, loops[0], pre, ExitOf(loops, exit, 0), shift), WithClone(blocks, loops), pre, exit)
  {
    hide Chain, Splice, Spliced, AllApart, Shaped, WithClone, CloneOf, DefinedIn;
    FirstLoop(blocks, loops, pre, exit);
    FirstChain(blocks, loops, pre, exit);
    var body, out, loops' := loops[0], ExitOf(loops, exit, 0), WithClone(blocks, loops);
    var r := Splice(blocks, body, pre, out, shift);
    ExitFirstClone(blocks, body, pre, out, shift);
    if InOrder(r, loops', pre, exit) {
      SecondShaped(r, loops', pre, exit);
    }
  }
}
