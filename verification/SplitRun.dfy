/** Splitting one loop of a function: one copy of the loop for every group, and in each copy only its group. */
module SplitRun {
  import opened LoopSplit
  import opened SplitOrder
  import opened LoopCopies
  import opened SplitPass
  import opened LoopErasure

  /** The loops in the order in which they run: the loop itself, then its clones, the latest first. */
  function Order(body: seq<nat>, copies: seq<seq<nat>>): (r: seq<seq<nat>>)
    ensures |r| == |copies| + 1 && r[0] == body
    ensures forall i :: 0 < i < |r| ==> r[i] == copies[|copies| - i]
  {
    [body] + seq(|copies|, i requires 0 <= i < |copies| => copies[|copies| - 1 - i])
  }

  /** The same for what belongs to the loops: none for the loop itself. */
  function InOrderOf<T>(none: T, xs: seq<T>): (r: seq<T>)
    ensures |r| == |xs| + 1 && r[0] == none
    ensures forall i :: 0 < i < |r| ==> r[i] == xs[|xs| - i]
  {
    [none] + seq(|xs|, i requires 0 <= i < |xs| => xs[|xs| - 1 - i])
  }

  // ---------- cloning ----------

  /** A clone of the loop, traced back by its map. */
  ghost predicate CloneAt(orig: seq<Block>, limit: nat, body: seq<nat>, blocks: seq<Block>, copy: seq<nat>, back: map<nat, nat>, shift: nat) {
    && InBounds(orig, body) && CopyOf(orig, body, blocks, copy, shift) && Private(blocks, copy) && Different(copy)
    && shift >= limit && back == Undo(DefinedIn(orig, body), shift)
    && forall k :: 0 <= k < |copy| ==> copy[k] >= |orig|
  }

  /** Blocks outside the loop, and headers, are what they were; the exit is entered from the last loop. */
  ghost predicate Around(orig: seq<Block>, body: seq<nat>, exit: nat, blocks: seq<Block>, last: nat) {
    && |body| > 0 && InBounds(orig, body) && exit < |orig| <= |blocks|
    && (forall c {:trigger blocks[c]} :: 0 <= c < |orig| && c !in body && c != exit ==> blocks[c] == orig[c])
    && blocks[body[0]].phis == orig[body[0]].phis
    && blocks[exit] == orig[exit].(phis := blocks[exit].phis) && SameStart(orig[exit], body[0], blocks[exit], last)
    && forall i :: 0 <= i < |orig[exit].phis| ==> blocks[exit].phis[i].id == orig[exit].phis[i].id
  }

  /** Both ways out of the copy's header lead into the copy, and no other block leads out of it. */
  ghost predicate Trapped(blocks: seq<Block>, copy: seq<nat>) {
    && |copy| > 1 && InBounds(blocks, copy) && blocks[copy[0]].succs == [copy[1], copy[1]]
    && forall k, b :: 0 <= k < |copy| && b in blocks[copy[k]].succs ==> b in copy
  }

  /** A loop and copies of it. If the header named the exit first, the latest copy has no way out. */
  ghost predicate HasCopies(orig: seq<Block>, limit0: nat, blocks: seq<Block>, limit: nat, body: seq<nat>, pre: nat, exit: nat,
                         copies: seq<seq<nat>>, backs: seq<map<nat, nat>>, shifts: seq<nat>) {
    && |backs| == |copies| == |shifts| && limit0 <= limit && |orig| <= |blocks|
    && |body| > 1 && InBounds(orig, body) && Numbered(orig, limit0) && Numbered(blocks, limit)
    && Headed(Order(body, copies)) && AllApart(Order(body, copies))
    && Chain(blocks, body, pre, ExitOf(Order(body, copies), exit, 0)) && (BodyFirst(blocks, body) <==> BodyFirst(orig, body))
    && CopyOf(orig, body, blocks, body, 0) && Private(blocks, body)
    && (forall i {:trigger copies[i]} :: 0 <= i < |copies| ==> CloneAt(orig, limit0, body, blocks, copies[i], backs[i], shifts[i]))
    && (|copies| > 0 && !BodyFirst(orig, body) ==> Trapped(blocks, copies[|copies| - 1]))
  }

  /** The copies follow the loop one after the other, and all start alike. */
  ghost predicate InRow(orig: seq<Block>, blocks: seq<Block>, body: seq<nat>, pre: nat, exit: nat, copies: seq<seq<nat>>) {
    && PhisMatch(blocks) && InOrder(blocks, Order(body, copies), pre, exit) && AllNameBody(blocks, Order(body, copies))
    && AllRestart(blocks, Order(body, copies), pre)
    && Around(orig, body, exit, blocks, LastHeader(Order(body, copies)))
  }

  ghost predicate Cloned(orig: seq<Block>, limit0: nat, blocks: seq<Block>, limit: nat, body: seq<nat>, pre: nat, exit: nat,
                         copies: seq<seq<nat>>, backs: seq<map<nat, nat>>, shifts: seq<nat>) {
    && HasCopies(orig, limit0, blocks, limit, body, pre, exit, copies, backs, shifts)
    && (BodyFirst(orig, body) ==> InRow(orig, blocks, body, pre, exit, copies))
  }

  lemma NotYetCloned(blocks: seq<Block>, limit: nat, body: seq<nat>, pre: nat, exit: nat)
    requires Chain(blocks, body, pre, exit) && WellFormed(blocks, limit) && Private(blocks, body)
    ensures Cloned(blocks, limit, blocks, limit, body, pre, exit, [], [], [])
  {
    hide Chain, Private, InBounds, PhisMatch, CopyOf, BodyFirst, SameStart, Order;
    ChainFacts(blocks, body, pre, exit);
    var loops := Order(body, []);
    assert loops == [body] && EntryOf(loops, pre, 0) == pre && ExitOf(loops, exit, 0) == exit;
    OwnCopy(blocks, body);
    assert ChainAt(blocks, loops, pre, exit, 0);
    InBoundsAt(blocks, body);
    SameStartSelf(blocks, body[0], pre);
    SameStartSelf(blocks, exit, body[0]);
    assert RestartAt(blocks, loops, pre, 0);
  }

  lemma OneMore(blocks: seq<Block>, body: seq<nat>, copies: seq<seq<nat>>)
    ensures Order(body, copies + [CloneOf(blocks, body)]) == WithClone(blocks, Order(body, copies))
  {
    hide WithClone, CloneOf, Order;
    var more, known := copies + [CloneOf(blocks, body)], Order(body, copies);
    var r, w := Order(body, more), WithClone(blocks, known);
    assert |r| == |w|;
    forall i | 0 <= i < |r| ensures r[i] == w[i] {
      if i >= 2 {
        assert more[|more| - i] == copies[|copies| - (i - 1)];
      }
    }
  }

  lemma NewClone(orig: seq<Block>, limit0: nat, blocks: seq<Block>, body: seq<nat>, pre: nat, exit: nat, shift: nat)
    requires InBounds(orig, body) && CopyOf(orig, body, blocks, body, 0)
    requires Different(body) && Numbered(blocks, shift) && Private(blocks, body) && limit0 <= shift && |orig| <= |blocks|
    ensures CloneAt(orig, limit0, body, Splice(blocks, body, pre, exit, shift), CloneOf(blocks, body), CloneBack(blocks, body, shift), shift)
  {
    hide DefinedIn, Spliced, Splice, CloneBack, CopyOf, Private, Numbered, Undo;
    CopyInBounds(orig, body, blocks, body, 0);
    PrivateSize(blocks, body);
    SpliceKeepsCopies(orig, blocks, body, pre, exit, shift);
    ClonePrivate(blocks, body, pre, exit, shift);
  }

  lemma CopyInBounds(orig: seq<Block>, body: seq<nat>, blocks: seq<Block>, copy: seq<nat>, shift: nat)
    requires InBounds(orig, body) && CopyOf(orig, body, blocks, copy, shift)
    ensures InBounds(blocks, copy) && |copy| == |body|
  {
  }

  lemma OldClone(orig: seq<Block>, limit0: nat, blocks: seq<Block>, body: seq<nat>, pre: nat, exit: nat, shift: nat,
                 copy: seq<nat>, back: map<nat, nat>, s: nat)
    requires InBounds(blocks, body) && |body| > 0
    requires CloneAt(orig, limit0, body, blocks, copy, back, s) && Numbered(blocks, shift) && Apart(body, copy)
    ensures CloneAt(orig, limit0, body, Splice(blocks, body, pre, exit, shift), copy, back, s)
  {
    hide DefinedIn, Spliced, Splice, Private, Numbered, CopyOf, Undo;
    CopyInBounds(orig, body, blocks, copy, s);
    KeptCopy(orig, blocks, body, pre, exit, shift, copy, s);
    CopyInBounds(orig, body, Splice(blocks, body, pre, exit, shift), copy, s);
    KeptPrivate(blocks, body, pre, exit, shift, copy);
  }

  lemma KeptBlock(blocks: seq<Block>, body: seq<nat>, pre: nat, exit: nat, shift: nat, c: nat)
    requires Shaped(blocks, body, exit) && c < |blocks|
    ensures |body| > 0
    ensures var r := Splice(blocks, body, pre, exit, shift);
            && (c != body[0] && c != exit ==> r[c] == blocks[c])
            && (c == exit ==> r[c] == blocks[c].(phis := r[c].phis))
            && |r[c].phis| == |blocks[c].phis| && (forall i :: 0 <= i < |r[c].phis| ==> r[c].phis[i].id == blocks[c].phis[i].id)
            && r[body[0]].phis == blocks[body[0]].phis
  {
    assert body[0] in body;
  }

  lemma StillAround(orig: seq<Block>, body: seq<nat>, pre: nat, exit: nat, blocks: seq<Block>, loops: seq<seq<nat>>, limit: nat)
    requires InOrder(blocks, loops, pre, exit) && PhisMatch(blocks) && loops[0] == body
    requires Around(orig, body, exit, blocks, LastHeader(loops))
    requires |loops| > 1 ==> |loops[1]| > 0 && loops[1][0] >= |orig|
    ensures InBounds(blocks, body) && Headed(WithClone(blocks, loops))
    ensures Around(orig, body, exit, Splice(blocks, body, pre, ExitOf(loops, exit, 0), limit), LastHeader(WithClone(blocks, loops)))
  {
    hide Splice, Spliced, SameStart, Chain, WithClone, CloneOf, AllApart, PhisMatch, ChainAt, Shaped;
    FirstChain(blocks, loops, pre, exit);
    var out := ExitOf(loops, exit, 0);
    ChainShaped(blocks, body, pre, out);
    ShapedSize(blocks, body, out);
    SpliceExits(blocks, loops, pre, exit, limit);
    var r := Splice(blocks, body, pre, out, limit);
    assert exit != body[0] by { assert body[0] in body; }
    forall c: nat | c < |orig| && c !in body && c != exit ensures r[c] == orig[c] {
      KeptBlock(blocks, body, pre, out, limit, c);
      assert body[0] in body;
    }
    KeptBlock(blocks, body, pre, out, limit, exit);
    SameStartTrans(orig[exit], body[0], blocks[exit], LastHeader(loops), r[exit], LastHeader(WithClone(blocks, loops)));
    StartSize(orig[exit], body[0], blocks[exit], LastHeader(loops));
    StartSize(orig[exit], body[0], r[exit], LastHeader(WithClone(blocks, loops)));
  }

  lemma StartSize(a: Block, p: nat, b: Block, q: nat)
    requires SameStart(a, p, b, q)
    ensures |a.phis| == |b.phis|
  {
  }

  lemma RowGrows(orig: seq<Block>, blocks: seq<Block>, limit: nat, body: seq<nat>, pre: nat, exit: nat, copies: seq<seq<nat>>)
    requires InRow(orig, blocks, body, pre, exit, copies) && WellFormed(blocks, limit)
    requires |copies| > 0 ==> |copies[|copies| - 1]| > 0 && copies[|copies| - 1][0] >= |orig|
    ensures Headed(Order(body, copies)) && |body| > 0 && InBounds(blocks, body)
    ensures InRow(orig, Splice(blocks, body, pre, ExitOf(Order(body, copies), exit, 0), limit), body, pre, exit, copies + [CloneOf(blocks, body)])
  {
    hide Chain, Spliced, Splice, DefinedIn, AllRestart, Order, CloneOf, AllApart, Different, Numbered, PhisMatch, Around, BodyFirst;
    var loops := Order(body, copies);
    assert ChainAt(blocks, loops, pre, exit, 0);
    var out := ExitOf(loops, exit, 0);
    ChainParts(blocks, body, pre, out);
    OneMore(blocks, body, copies);
    SpliceInOrder(blocks, loops, pre, exit, limit);
    SpliceNamesBody(blocks, loops, pre, exit, limit);
    SpliceRestarts(blocks, loops, pre, exit, limit);
    SpliceKeepsWellFormed(blocks, body, pre, out, limit);
    StillAround(orig, body, pre, exit, blocks, loops, limit);
  }

  lemma NewTrap(blocks: seq<Block>, body: seq<nat>, pre: nat, exit: nat, shift: nat)
    requires Chain(blocks, body, pre, exit) && !BodyFirst(blocks, body)
    ensures Trapped(Splice(blocks, body, pre, exit, shift), CloneOf(blocks, body))
  {
    hide Splice, Spliced, DefinedIn, Different, Entered, Started;
    var r, clone := Splice(blocks, body, pre, exit, shift), CloneOf(blocks, body);
    CloneSuccs(blocks, body, pre, exit, shift, 0);
    forall k, b | 0 <= k < |clone| && b in r[clone[k]].succs ensures b in clone {
      CloneSuccs(blocks, body, pre, exit, shift, k);
      assert clone[0] == |blocks| && clone[1] == |blocks| + 1 && (0 < k < |body| - 1 ==> clone[k + 1] == |blocks| + k + 1);
    }
  }

  lemma CopyGrows(orig: seq<Block>, limit0: nat, blocks: seq<Block>, limit: nat, body: seq<nat>, pre: nat, exit: nat,
                  copies: seq<seq<nat>>, backs: seq<map<nat, nat>>, shifts: seq<nat>)
    requires HasCopies(orig, limit0, blocks, limit, body, pre, exit, copies, backs, shifts)
    ensures HasCopies(orig, limit0, Splice(blocks, body, pre, ExitOf(Order(body, copies), exit, 0), limit), limit + limit, body, pre, exit,
                   copies + [CloneOf(blocks, body)], backs + [CloneBack(blocks, body, limit)], shifts + [limit])
  {
    hide Chain, Spliced, Splice, DefinedIn, Private, CloneAt, Order, CloneBack, CloneOf, AllApart, Different, Numbered, CopyOf, BodyFirst, Trapped;
    var loops := Order(body, copies);
    var out, more := ExitOf(loops, exit, 0), copies + [CloneOf(blocks, body)];
    var backs', shifts' := backs + [CloneBack(blocks, body, limit)], shifts + [limit];
    var r := Splice(blocks, body, pre, out, limit);
    ChainParts(blocks, body, pre, out);
    OneMore(blocks, body, copies);
    forall i | 0 <= i < |loops| ensures InBounds(blocks, loops[i]) {
      if i == 0 { assert loops[0] == body; } else { CloneInBounds(orig, limit0, body, blocks, copies[|copies| - i], backs[|copies| - i], shifts[|copies| - i]); }
    }
    WithCloneApart(blocks, loops);
    LoopStays(blocks, body, pre, out, limit);
    SplicedNumbered(blocks, body, pre, out, limit);
    KeptPrivate(blocks, body, pre, out, limit, body);
    KeptCopy(orig, blocks, body, pre, out, limit, body, 0);
    if !BodyFirst(blocks, body) { NewTrap(blocks, body, pre, out, limit); }
    forall i | 0 <= i < |more| ensures CloneAt(orig, limit0, body, r, more[i], backs'[i], shifts'[i]) {
      if i == |copies| {
        NewClone(orig, limit0, blocks, body, pre, out, limit);
      } else {
        AllApartAt(loops, 0, |copies| - i);
        OldClone(orig, limit0, blocks, body, pre, out, limit, copies[i], backs[i], shifts[i]);
      }
    }
    assert Order(body, more)[1][0] == |blocks|;
  }

  /** Every call of CreateOneLoop keeps the picture. */
  lemma CloneKeepsPicture(orig: seq<Block>, limit0: nat, blocks: seq<Block>, limit: nat, body: seq<nat>, pre: nat, exit: nat,
                          copies: seq<seq<nat>>, backs: seq<map<nat, nat>>, shifts: seq<nat>)
    requires Cloned(orig, limit0, blocks, limit, body, pre, exit, copies, backs, shifts)
    ensures Headed(Order(body, copies))
    ensures var out := ExitOf(Order(body, copies), exit, 0);
            && Chain(blocks, body, pre, out)
            && Cloned(orig, limit0, Splice(blocks, body, pre, out, limit), limit + limit, body, pre, exit,
                      copies + [CloneOf(blocks, body)], backs + [CloneBack(blocks, body, limit)], shifts + [limit])
  {
    hide Chain, Spliced, Splice, DefinedIn, Private, CloneAt, Order, CloneBack, CloneOf, AllApart, Numbered, CopyOf, BodyFirst, InRow, Trapped;
    CopyGrows(orig, limit0, blocks, limit, body, pre, exit, copies, backs, shifts);
    if BodyFirst(orig, body) {
      if |copies| > 0 { CloneInBounds(orig, limit0, body, blocks, copies[|copies| - 1], backs[|copies| - 1], shifts[|copies| - 1]); }
      RowMatch(orig, blocks, body, pre, exit, copies);
      RowGrows(orig, blocks, limit, body, pre, exit, copies);
    }
  }

  lemma RowMatch(orig: seq<Block>, blocks: seq<Block>, body: seq<nat>, pre: nat, exit: nat, copies: seq<seq<nat>>)
    requires InRow(orig, blocks, body, pre, exit, copies)
    ensures PhisMatch(blocks)
  {
  }

  lemma CloneInBounds(orig: seq<Block>, limit: nat, body: seq<nat>, blocks: seq<Block>, copy: seq<nat>, back: map<nat, nat>, shift: nat)
    requires CloneAt(orig, limit, body, blocks, copy, back, shift)
    ensures InBounds(blocks, copy) && |copy| > 0 && copy[0] >= |orig|
  {
  }

  /** The copying loop of runOnFunction. */
  method CloneTimes(f: Function, body: seq<nat>, count: nat, ghost pre: nat, ghost exit: nat)
    returns (copies: seq<seq<nat>>, maps: seq<map<nat, nat>>, ghost shifts: seq<nat>)
    requires Chain(f.blocks, body, pre, exit) && WellFormed(f.blocks, f.limit) && Private(f.blocks, body)
    modifies f
    ensures |copies| == count && Cloned(old(f.blocks), old(f.limit), f.blocks, f.limit, body, pre, exit, copies, maps, shifts)
  {
    hide *;
    ghost var orig, limit0 := f.blocks, f.limit;
    copies, maps, shifts := [], [], [];
    NotYetCloned(f.blocks, f.limit, body, pre, exit);
    for i := 0 to count
      invariant |copies| == i && Cloned(orig, limit0, f.blocks, f.limit, body, pre, exit, copies, maps, shifts)
    {
      CloneKeepsPicture(orig, limit0, f.blocks, f.limit, body, pre, exit, copies, maps, shifts);
      ChainParts(f.blocks, body, pre, ExitOf(Order(body, copies), exit, 0));
      ghost var shift := f.limit;
      var clone, instMap := f.CreateOneLoop(body, pre, ExitOf(Order(body, copies), exit, 0));
      copies, maps, shifts := copies + [clone], maps + [instMap], shifts + [shift];
    }
  }
}
