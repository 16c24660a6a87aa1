/** Erasing from all copies, and what the splitting leaves: the loops one after the other, each with the
    instructions of its group. */
module SplitResult {
  import opened LoopSplit
  import opened SplitOrder
  import opened LoopCopies
  import opened SplitPass
  import opened LoopErasure
  import opened SplitRun

  // ---------- erasing from one copy after the other ----------

  /** The function after the first i loops in running order have been thinned out. */
  function ErasedUpTo(split: seq<Block>, loops: seq<seq<nat>>, sccs: seq<seq<nat>>, backs: seq<map<nat, nat>>, i: nat): (r: seq<Block>)
    requires Headed(loops) && i <= |loops| <= |backs| && i <= |sccs|
    ensures |r| == |split|
  {
    if i == 0 then split
    else EraseFrom(ErasedUpTo(split, loops, sccs, backs, i - 1), loops[i - 1], sccs[i - 1], backs[i - 1], 1)
  }

  lemma InLoop(body: seq<nat>, k: nat)
    requires Different(body) && k < |body|
    ensures body[k] in body[1..] <==> k > 0
    ensures body[k] == body[|body| - 1] <==> k == |body| - 1
  {
    if k > 0 { assert body[1..][k - 1] == body[k]; }
  }

  lemma {:induction false} ErasedElsewhere(split: seq<Block>, loops: seq<seq<nat>>, sccs: seq<seq<nat>>, backs: seq<map<nat, nat>>, i: nat, c: nat)
    requires Headed(loops) && i <= |loops| <= |backs| && i <= |sccs| && c < |split|
    requires forall t :: 0 <= t < i ==> c !in loops[t]
    ensures ErasedUpTo(split, loops, sccs, backs, i)[c] == split[c]
  {
    if i > 0 { ErasedElsewhere(split, loops, sccs, backs, i - 1, c); }
  }

  lemma {:induction false} ErasedIn(split: seq<Block>, loops: seq<seq<nat>>, sccs: seq<seq<nat>>, backs: seq<map<nat, nat>>, i: nat, t: nat, k: nat)
    requires Headed(loops) && AllApart(loops) && i <= |loops| <= |backs| && i <= |sccs|
    requires t < |loops| && Different(loops[t]) && k < |loops[t]| && loops[t][k] < |split|
    ensures ErasedUpTo(split, loops, sccs, backs, i)[loops[t][k]]
         == if t < i && k > 0 then Thin(split[loops[t][k]], sccs[t], backs[t], k == |loops[t]| - 1) else split[loops[t][k]]
  {
    hide Thin, AllApart;
    if i > 0 {
      ErasedIn(split, loops, sccs, backs, i - 1, t, k);
      if t == i - 1 {
        InLoop(loops[t], k);
      } else {
        AllApartAt(loops, t, i - 1);
        assert loops[t][k] in loops[t];
      }
    }
  }

  lemma ThinUses(b: Block, scc: seq<nat>, back: map<nat, nat>, latch: bool, v: nat)
    requires UsedIn(v, Thin(b, scc, back, latch))
    ensures UsedIn(v, b)
  {
    hide Kept;
    FrontSize(b, latch);
    var now := Thin(b, scc, back, latch);
    if i :| 0 <= i < |now.insts| && Def(v) in now.insts[i].args {
      assert now.insts[i] in b.insts;
      var j :| 0 <= j < |b.insts| && b.insts[j] == now.insts[i];
    }
  }

  lemma {:induction false} ErasedUses(split: seq<Block>, loops: seq<seq<nat>>, sccs: seq<seq<nat>>, backs: seq<map<nat, nat>>, i: nat, c: nat, v: nat)
    requires Headed(loops) && i <= |loops| <= |backs| && i <= |sccs| && c < |split|
    requires UsedIn(v, ErasedUpTo(split, loops, sccs, backs, i)[c])
    ensures UsedIn(v, split[c])
  {
    hide Thin, UsedIn;
    if i > 0 {
      var was := ErasedUpTo(split, loops, sccs, backs, i - 1);
      if c in loops[i - 1][1..] {
        ThinUses(was[c], sccs[i - 1], backs[i - 1], c == loops[i - 1][|loops[i - 1]| - 1], v);
      }
      ErasedUses(split, loops, sccs, backs, i - 1, c, v);
    }
  }

  /** A loop that was not touched, in a function with fewer uses, is as private, and its groups as closed. */
  lemma StillPrivate(split: seq<Block>, now: seq<Block>, loop: seq<nat>)
    requires InBounds(split, loop) && |now| == |split| && forall k :: 0 <= k < |loop| ==> now[loop[k]] == split[loop[k]]
    requires forall c: nat, v: nat :: c < |now| && UsedIn(v, now[c]) ==> UsedIn(v, split[c])
    requires Private(split, loop)
    ensures Private(now, loop)
    ensures forall scc, back :: Closed(split, loop, scc, back) ==> Closed(now, loop, scc, back)
    ensures forall back :: Known(split, loop, back) ==> Known(now, loop, back)
  {
    hide UsedIn, ItemAt;
    forall k: nat, j: nat ensures Erasable(now, loop, k, j) == Erasable(split, loop, k, j) {}
    forall k: nat, j: nat, v: nat ensures ItemUses(now, loop, k, j, v) == ItemUses(split, loop, k, j, v) {}
    hide ItemUses, Erasable;
    forall k: nat, j: nat | Erasable(now, loop, k, j) ensures PrivateAt(now, loop, k, j) {
      assert PrivateAt(split, loop, k, j);
      var v := ItemAt(split[loop[k]], j).id;
      forall c: nat | c < |now| && UsedIn(v, now[c]) ensures c in loop[1..] {
        assert UsedIn(v, split[c]);
      }
    }
    forall scc, back | Closed(split, loop, scc, back) ensures Closed(now, loop, scc, back) {
      forall k: nat, j: nat, l: nat, m: nat | Erasable(now, loop, k, j) && Erasable(now, loop, l, m)
        ensures Together(now, loop, scc, back, k, j, l, m)
      {
        assert Together(split, loop, scc, back, k, j, l, m);
      }
    }
  }

  // ---------- the copies before anything is erased ----------

  /** The map that traces back the copy whose values were moved by shift. */
  ghost predicate Traces(ids: set<nat>, limit: nat, shift: nat, back: map<nat, nat>) {
    (shift == 0 && back == map[]) || (shift >= limit && back == Undo(ids, shift))
  }

  lemma TraceBack(ids: set<nat>, limit: nat, shift: nat, back: map<nat, nat>, v: nat)
    requires Traces(ids, limit, shift, back) && v in ids
    ensures Origin(back, v + shift) == v
  {
  }

  ghost predicate ACopy(orig: seq<Block>, limit: nat, body: seq<nat>, blocks: seq<Block>, copy: seq<nat>, back: map<nat, nat>, shift: nat) {
    && InBounds(orig, body) && |body| > 1 && CopyOf(orig, body, blocks, copy, shift) && Private(blocks, copy) && Different(copy)
    && Traces(DefinedIn(orig, body), limit, shift, back)
  }

  /** The t-th loop that runs. */
  lemma CopyFacts(orig: seq<Block>, limit0: nat, blocks: seq<Block>, limit: nat, body: seq<nat>, pre: nat, exit: nat,
                  copies: seq<seq<nat>>, maps: seq<map<nat, nat>>, shifts: seq<nat>, t: nat)
    requires HasCopies(orig, limit0, blocks, limit, body, pre, exit, copies, maps, shifts) && t <= |copies|
    ensures ACopy(orig, limit0, body, blocks, Order(body, copies)[t], InOrderOf(map[], maps)[t], InOrderOf(0, shifts)[t])
    ensures t > 0 ==> InOrderOf(map[], maps)[t] == Undo(DefinedIn(orig, body), InOrderOf(0, shifts)[t]) && InOrderOf(0, shifts)[t] >= limit0
  {
    hide CopyOf, Private, Undo, AllApart, BodyFirst, Order, InOrderOf, Trapped, DefinedIn;
    if t > 0 {
      assert CloneAt(orig, limit0, body, blocks, copies[|copies| - t], maps[|copies| - t], shifts[|copies| - t]);
    }
  }

  lemma CopyItems(orig: seq<Block>, body: seq<nat>, blocks: seq<Block>, copy: seq<nat>, shift: nat, k: nat)
    requires InBounds(orig, body) && CopyOf(orig, body, blocks, copy, shift) && k < |body|
    ensures var c, b := blocks[copy[k]], orig[body[k]];
            && |c.insts| == |b.insts| && forall j: nat :: j <= |b.insts| ==> ItemAt(c, j) == Moved(ItemAt(b, j), DefinedIn(orig, body), shift)
  {
    hide Moved, DefinedIn;
    assert CopyBlock(blocks[copy[k]], orig[body[k]], DefinedIn(orig, body), shift);
  }

  lemma CopyItemUses(orig: seq<Block>, limit: nat, body: seq<nat>, blocks: seq<Block>, copy: seq<nat>, shift: nat, l: nat, m: nat, v: nat)
    requires InBounds(orig, body) && Numbered(orig, limit) && CopyOf(orig, body, blocks, copy, shift) && (shift == 0 || shift >= limit)
    requires v in DefinedIn(orig, body) && v < limit && ItemUses(blocks, copy, l, m, v + shift)
    ensures ItemUses(orig, body, l, m, v)
  {
    hide DefinedIn, Numbered, MovedArgs, CopyOf, ItemAt;
    CopyInBounds(orig, body, blocks, copy, shift);
    CopyItems(orig, body, blocks, copy, shift, l);
    var os := ItemAt(orig[body[l]], m).args;
    MovedUse(os, DefinedIn(orig, body), shift, v + shift);
    ItemBelow(orig, limit, body[l], m);
    if Def(v + shift) in os { ArgBelow(os, v + shift, limit); }
  }

  lemma ItemBelow(blocks: seq<Block>, limit: nat, b: nat, j: nat)
    requires Numbered(blocks, limit) && b < |blocks| && j <= |blocks[b].insts|
    ensures OperandsBelow(ItemAt(blocks[b], j).args, limit)
  {
    BelowAt(blocks, limit, b);
  }

  lemma ClosedCopy(orig: seq<Block>, limit: nat, body: seq<nat>, blocks: seq<Block>, copy: seq<nat>, back: map<nat, nat>, shift: nat, scc: seq<nat>)
    requires Numbered(orig, limit) && ACopy(orig, limit, body, blocks, copy, back, shift) && Closed(orig, body, scc, map[])
    ensures InBounds(blocks, copy) && Closed(blocks, copy, scc, back)
  {
    hide DefinedIn, Numbered, Private, Different, CopyOf, Traces, Undo, ItemAt, ItemUses, Origin;
    CopyInBounds(orig, body, blocks, copy, shift);
    forall k: nat, j: nat, l: nat, m: nat | Erasable(blocks, copy, k, j) && Erasable(blocks, copy, l, m)
      ensures Together(blocks, copy, scc, back, k, j, l, m)
    {
      CopyItemOrigin(orig, limit, body, blocks, copy, back, shift, k, j);
      CopyItemOrigin(orig, limit, body, blocks, copy, back, shift, l, m);
      var v := ItemAt(orig[body[k]], j).id;
      if ItemUses(blocks, copy, l, m, v + shift) {
        assert shift == 0 || shift >= limit by { TraceShift(DefinedIn(orig, body), limit, shift, back); }
        CopyItemUses(orig, limit, body, blocks, copy, shift, l, m, v);
        UsersTogether(orig, body, scc, map[], k, j, l, m);
      }
    }
  }

  lemma TraceShift(ids: set<nat>, limit: nat, shift: nat, back: map<nat, nat>)
    requires Traces(ids, limit, shift, back)
    ensures shift == 0 || shift >= limit
  {
  }

  /** An instruction that may be erased from the copy is traced back to one that may be erased from the loop. */
  lemma CopyItemOrigin(orig: seq<Block>, limit: nat, body: seq<nat>, blocks: seq<Block>, copy: seq<nat>, back: map<nat, nat>, shift: nat, k: nat, j: nat)
    requires Numbered(orig, limit) && ACopy(orig, limit, body, blocks, copy, back, shift) && InBounds(blocks, copy) && Erasable(blocks, copy, k, j)
    ensures Erasable(orig, body, k, j)
    ensures var v := ItemAt(orig[body[k]], j).id;
            && v in DefinedIn(orig, body) && v < limit
            && ItemAt(blocks[copy[k]], j).id == v + shift && Origin(back, v + shift) == v && Origin(map[], v) == v
            && (back == Undo(DefinedIn(orig, body), shift) ==> v + shift in back)
  {
    hide DefinedIn, Numbered, Private, Different, CopyOf, Undo, ItemAt, MovedArgs;
    CopyInBounds(orig, body, blocks, copy, shift);
    CopyItems(orig, body, blocks, copy, shift, k);
    ItemDefined(orig, body, limit, k, j);
    TraceBack(DefinedIn(orig, body), limit, shift, back, ItemAt(orig[body[k]], j).id);
  }

  lemma KnownCopy(orig: seq<Block>, limit: nat, body: seq<nat>, blocks: seq<Block>, copy: seq<nat>, back: map<nat, nat>, shift: nat)
    requires Numbered(orig, limit) && ACopy(orig, limit, body, blocks, copy, back, shift) && back == Undo(DefinedIn(orig, body), shift)
    ensures InBounds(blocks, copy) && Known(blocks, copy, back)
  {
    hide DefinedIn, Numbered, Private, Different, CopyOf, Traces, Undo, ItemAt;
    CopyInBounds(orig, body, blocks, copy, shift);
    forall k: nat, j: nat | Erasable(blocks, copy, k, j) ensures ItemAt(blocks[copy[k]], j).id in back {
      CopyItemOrigin(orig, limit, body, blocks, copy, back, shift, k, j);
    }
  }

  lemma StageReady(orig: seq<Block>, limit: nat, body: seq<nat>, split: seq<Block>, loops: seq<seq<nat>>, sccs: seq<seq<nat>>, backs: seq<map<nat, nat>>,
                   shift: nat, i: nat)
    requires Headed(loops) && AllApart(loops) && i < |loops| <= |backs| && i < |sccs|
    requires Numbered(orig, limit) && ACopy(orig, limit, body, split, loops[i], backs[i], shift) && Closed(orig, body, sccs[i], map[])
    ensures var now := ErasedUpTo(split, loops, sccs, backs, i);
            && InBounds(now, loops[i]) && Different(loops[i]) && Private(now, loops[i]) && Closed(now, loops[i], sccs[i], backs[i])
            && (backs[i] == Undo(DefinedIn(orig, body), shift) ==> Known(now, loops[i], backs[i]))
  {
    hide ErasedUpTo, Private, Closed, Known, UsedIn, AllApart, Different, CopyOf, Numbered, Undo, DefinedIn, Traces;
    CopyInBounds(orig, body, split, loops[i], shift);
    var now := ErasedUpTo(split, loops, sccs, backs, i);
    forall k | 0 <= k < |loops[i]| ensures now[loops[i][k]] == split[loops[i][k]] { ErasedIn(split, loops, sccs, backs, i, i, k); }
    forall c: nat, v: nat | c < |now| && UsedIn(v, now[c]) ensures UsedIn(v, split[c]) { ErasedUses(split, loops, sccs, backs, i, c, v); }
    StillPrivate(split, now, loops[i]);
    ClosedCopy(orig, limit, body, split, loops[i], backs[i], shift, sccs[i]);
    if backs[i] == Undo(DefinedIn(orig, body), shift) { KnownCopy(orig, limit, body, split, loops[i], backs[i], shift); }
  }

  /** The erasing loop of runOnFunction: group i goes to the i-th loop that runs, loops[|loops| - 1 - i]. */
  method EraseFromAll(f: Function, body: seq<nat>, copies: seq<seq<nat>>, maps: seq<map<nat, nat>>, sccs: seq<seq<nat>>,
                      ghost orig: seq<Block>, ghost limit0: nat, ghost pre: nat, ghost exit: nat, ghost shifts: seq<nat>)
    requires HasCopies(orig, limit0, f.blocks, f.limit, body, pre, exit, copies, maps, shifts) && |sccs| > |copies|
    requires forall t :: 0 <= t <= |copies| ==> Closed(orig, body, sccs[t], map[])
    modifies f`blocks
    ensures Headed(Order(body, copies))
    ensures f.blocks == ErasedUpTo(old(f.blocks), Order(body, copies), sccs, InOrderOf(map[], maps), |copies| + 1)
  {
    hide Private, CloneAt, Order, InOrderOf, Closed, Known, AllApart, Chain, CopyOf, Numbered, BodyFirst, Trapped, EraseFrom, Different, DefinedIn, Undo, ACopy;
    ghost var split, limit := f.blocks, f.limit;
    ghost var order, backs, moved := Order(body, copies), InOrderOf(map[], maps), InOrderOf(0, shifts);
    var loops := copies + [body];
    var n := |loops|;
    for i := 0 to n
      invariant f.blocks == ErasedUpTo(split, order, sccs, backs, i)
    {
      var loopIndex := n - 1 - i;
      var loop := loops[loopIndex];
      assert loop == order[i];
      CopyFacts(orig, limit0, split, limit, body, pre, exit, copies, maps, shifts, i);
      StageReady(orig, limit0, body, split, order, sccs, backs, moved[i], i);
      EraseOthers(f, loop, sccs[i], i > 0, if i > 0 then maps[loopIndex] else map[]);
    }
  }

  // ---------- what each copy keeps ----------

  function MovedAll(insts: seq<Instr>, ids: set<nat>, shift: nat): (r: seq<Instr>)
    ensures |r| == |insts| && forall i :: 0 <= i < |r| ==> r[i] == Moved(insts[i], ids, shift)
  {
    seq(|insts|, i requires 0 <= i < |insts| => Moved(insts[i], ids, shift))
  }

  ghost predicate AllIn(insts: seq<Instr>, ids: set<nat>) {
    forall i :: 0 <= i < |insts| ==> insts[i].id in ids
  }

  lemma MovedFirst(insts: seq<Instr>, ids: set<nat>, shift: nat)
    requires insts != []
    ensures MovedAll(insts, ids, shift) != [] && MovedAll(insts, ids, shift)[0] == Moved(insts[0], ids, shift)
    ensures MovedAll(insts, ids, shift)[1..] == MovedAll(insts[1..], ids, shift)
  {
    hide Moved;
  }

  lemma MovedJoined(a: seq<Instr>, c: seq<Instr>, ids: set<nat>, shift: nat)
    ensures MovedAll(a + c, ids, shift) == MovedAll(a, ids, shift) + MovedAll(c, ids, shift)
  {
    hide Moved;
  }

  lemma MovedOne(kept: bool, x: Instr, ids: set<nat>, shift: nat)
    ensures MovedAll(if kept then [x] else [], ids, shift) == if kept then [Moved(x, ids, shift)] else []
  {
    hide Moved;
  }

  lemma KeptFirst(insts: seq<Instr>, scc: seq<nat>, back: map<nat, nat>)
    requires insts != []
    ensures Kept(insts, scc, back) == (if Origin(back, insts[0].id) in scc then [insts[0]] else []) + Kept(insts[1..], scc, back)
  {
  }

  /** What is kept of a copy is the copy of what is kept of the loop. */
  lemma {:induction false} KeptMoved(insts: seq<Instr>, scc: seq<nat>, back: map<nat, nat>, ids: set<nat>, limit: nat, shift: nat)
    requires AllIn(insts, ids) && Traces(ids, limit, shift, back)
    ensures Kept(MovedAll(insts, ids, shift), scc, back) == MovedAll(Kept(insts, scc, map[]), ids, shift)
    decreases |insts|
  {
    hide *;
    if insts == [] {
      KeptEmpty(scc, back, ids, shift);
    } else {
      FirstIn(insts, ids);
      KeptMoved(insts[1..], scc, back, ids, limit, shift);
      MovedFirst(insts, ids, shift);
      KeptFirst(insts, scc, map[]);
      KeptFirst(MovedAll(insts, ids, shift), scc, back);
      TraceBack(ids, limit, shift, back, insts[0].id);
      MovedId(insts[0], ids, shift);
      NoOrigin(insts[0].id);
      var kept := insts[0].id in scc;
      MovedOne(kept, insts[0], ids, shift);
      MovedJoined(if kept then [insts[0]] else [], Kept(insts[1..], scc, map[]), ids, shift);
    }
  }

  lemma KeptEmpty(scc: seq<nat>, back: map<nat, nat>, ids: set<nat>, shift: nat)
    ensures Kept(MovedAll([], ids, shift), scc, back) == MovedAll(Kept([], scc, map[]), ids, shift)
  {
    assert MovedAll([], ids, shift) == [];
  }

  lemma FirstIn(insts: seq<Instr>, ids: set<nat>)
    requires AllIn(insts, ids) && insts != []
    ensures insts[0].id in ids && AllIn(insts[1..], ids)
  {
  }

  lemma NoOrigin(v: nat)
    ensures Origin(map[], v) == v
  {
  }

  lemma MovedId(x: Instr, ids: set<nat>, shift: nat)
    ensures Moved(x, ids, shift).id == x.id + shift
  {
  }

  lemma FrontMoved(c: Block, b: Block, ids: set<nat>, shift: nat, latch: bool)
    requires CopyBlock(c, b, ids, shift)
    ensures Front(c, latch) == MovedAll(Front(b, latch), ids, shift)
    ensures Rest(c, latch) == MovedAll(Rest(b, latch), ids, shift)
  {
    hide Moved, MovedArgs;
  }

  lemma ThinParts(b: Block, scc: seq<nat>, back: map<nat, nat>, latch: bool)
    ensures var r, ends := Thin(b, scc, back, latch), latch || Origin(back, b.branch.id) in scc;
            && r.insts == Kept(Front(b, latch), scc, back) + Rest(b, latch)
            && r.phis == b.phis && r.branch == b.branch
            && r.succs == (if ends then b.succs else []) && r.ended == (ends && b.ended)
  {
    hide Kept, Origin;
    FrontSize(b, latch);
    var front := Front(b, latch);
    assert front[0..] == front && front[..0] == [];
    assert [] + Kept(front, scc, back) + Rest(b, latch) == Kept(front, scc, back) + Rest(b, latch);
  }

  lemma ThinCopy(c: Block, b: Block, ids: set<nat>, limit: nat, shift: nat, scc: seq<nat>, back: map<nat, nat>, latch: bool)
    requires CopyBlock(c, b, ids, shift) && AllIn(b.insts, ids) && b.branch.id in ids && Traces(ids, limit, shift, back)
    ensures CopyBlock(Thin(c, scc, back, latch), Thin(b, scc, map[], latch), ids, shift)
  {
    FrontIn(b, ids, latch);
    CopyBranch(c, b, ids, shift);
    hide *;
    FrontMoved(c, b, ids, shift, latch);
    KeptMoved(Front(b, latch), scc, back, ids, limit, shift);
    ThinParts(c, scc, back, latch);
    ThinParts(b, scc, map[], latch);
    TraceBack(ids, limit, shift, back, b.branch.id);
    MovedId(b.branch, ids, shift);
    NoOrigin(b.branch.id);
    MovedJoined(Kept(Front(b, latch), scc, map[]), Rest(b, latch), ids, shift);
    SameButInsts(c, b, Thin(c, scc, back, latch), Thin(b, scc, map[], latch), ids, shift);
  }

  lemma FrontIn(b: Block, ids: set<nat>, latch: bool)
    requires AllIn(b.insts, ids)
    ensures AllIn(Front(b, latch), ids)
  {
  }

  lemma CopyBranch(c: Block, b: Block, ids: set<nat>, shift: nat)
    requires CopyBlock(c, b, ids, shift)
    ensures c.branch == Moved(b.branch, ids, shift) && c.ended == b.ended
  {
  }

  lemma SameButInsts(c: Block, b: Block, c': Block, b': Block, ids: set<nat>, shift: nat)
    requires CopyBlock(c, b, ids, shift) && c'.phis == c.phis && b'.phis == b.phis && c'.branch == c.branch && b'.branch == b.branch
    requires c'.ended == b'.ended && c'.insts == MovedAll(b'.insts, ids, shift)
    ensures CopyBlock(c', b', ids, shift)
  {
    hide Moved, MovedArgs;
  }

  /** Block k of the loop, thinned out for one group. */
  function ForGroup(orig: seq<Block>, body: seq<nat>, scc: seq<nat>, k: nat): Block
    requires InBounds(orig, body) && k < |body|
  {
    if k == 0 then orig[body[0]] else Thin(orig[body[k]], scc, map[], k == |body| - 1)
  }

  lemma DefinedHere(orig: seq<Block>, body: seq<nat>, k: nat)
    requires InBounds(orig, body) && k < |body|
    ensures AllIn(orig[body[k]].insts, DefinedIn(orig, body)) && orig[body[k]].branch.id in DefinedIn(orig, body)
  {
    forall i | 0 <= i < |orig[body[k]].insts| ensures orig[body[k]].insts[i].id in DefinedIn(orig, body) {
      assert orig[body[k]].insts[i].id in Defined(orig[body[k]]);
    }
    assert orig[body[k]].branch.id in Defined(orig[body[k]]);
  }

  /** Every copy, after the erasing, is a copy of the loop thinned out for its group. */
  lemma ErasedCopy(orig: seq<Block>, limit: nat, body: seq<nat>, split: seq<Block>, loops: seq<seq<nat>>, sccs: seq<seq<nat>>, backs: seq<map<nat, nat>>,
                   shift: nat, t: nat, k: nat)
    requires Headed(loops) && AllApart(loops) && t < |loops| <= |backs| && |loops| <= |sccs|
    requires ACopy(orig, limit, body, split, loops[t], backs[t], shift) && k < |body|
    ensures |loops[t]| == |body| && loops[t][k] < |split|
    ensures CopyBlock(ErasedUpTo(split, loops, sccs, backs, |loops|)[loops[t][k]], ForGroup(orig, body, sccs[t], k), DefinedIn(orig, body), shift)
  {
    hide ErasedUpTo, Private, AllApart, CopyOf, Numbered, Undo, DefinedIn, Traces, Thin, AllIn;
    CopyInBounds(orig, body, split, loops[t], shift);
    assert CopyBlock(split[loops[t][k]], orig[body[k]], DefinedIn(orig, body), shift) by { CopyAt(orig, body, split, loops[t], shift, k); }
    ErasedIn(split, loops, sccs, backs, |loops|, t, k);
    if k > 0 {
      DefinedHere(orig, body, k);
      ThinCopy(split[loops[t][k]], orig[body[k]], DefinedIn(orig, body), limit, shift, sccs[t], backs[t], k == |body| - 1);
    }
  }

  lemma CopyAt(orig: seq<Block>, body: seq<nat>, blocks: seq<Block>, copy: seq<nat>, shift: nat, k: nat)
    requires InBounds(orig, body) && CopyOf(orig, body, blocks, copy, shift) && k < |body|
    ensures CopyBlock(blocks[copy[k]], orig[body[k]], DefinedIn(orig, body), shift)
  {
  }

  // ---------- when the blocks keep their ends ----------

  /** No block between header and latch, or its branch is in every group that gets a loop. */
  predicate EndsKept(orig: seq<Block>, body: seq<nat>, sccs: seq<seq<nat>>, count: nat)
    requires InBounds(orig, body) && count <= |sccs|
  {
    forall k, t {:trigger body[k], sccs[t]} :: 0 < k < |body| - 1 && 0 <= t < count ==> orig[body[k]].branch.id in sccs[t]
  }

  lemma GroupEnds(orig: seq<Block>, body: seq<nat>, scc: seq<nat>, k: nat)
    requires InBounds(orig, body) && k < |body|
    ensures var r, ends := ForGroup(orig, body, scc, k), k == 0 || k == |body| - 1 || orig[body[k]].branch.id in scc;
            && r.succs == (if ends then orig[body[k]].succs else []) && r.ended == (ends && orig[body[k]].ended)
            && r.phis == orig[body[k]].phis && r.branch == orig[body[k]].branch
  {
    ThinParts(orig[body[k]], scc, map[], k == |body| - 1);
  }

  /** Instructions were erased, and perhaps branches of blocks, nothing else changed. */
  predicate ThinnedBlock(b: Block, now: Block) {
    && now.phis == b.phis && now.branch == b.branch && (forall x :: x in now.insts ==> x in b.insts)
    && ((now.succs == b.succs && now.ended == b.ended) || (now.succs == [] && !now.ended))
  }

  ghost predicate Thinned(blocks: seq<Block>, now: seq<Block>) {
    |now| == |blocks| && forall c {:trigger ThinnedBlock(blocks[c], now[c])} :: 0 <= c < |now| ==> ThinnedBlock(blocks[c], now[c])
  }

  lemma ThinIsThinned(was: Block, b: Block, scc: seq<nat>, back: map<nat, nat>, latch: bool)
    requires ThinnedBlock(b, was)
    ensures ThinnedBlock(b, Thin(was, scc, back, latch))
  {
    hide Thin, Kept, Origin;
    ThinParts(was, scc, back, latch);
    FrontSize(was, latch);
    KeptSubset(Front(was, latch), scc, back);
  }

  lemma {:induction false} ErasedIsThinned(split: seq<Block>, loops: seq<seq<nat>>, sccs: seq<seq<nat>>, backs: seq<map<nat, nat>>, i: nat, c: nat)
    requires Headed(loops) && i <= |loops| <= |backs| && i <= |sccs| && c < |split|
    ensures ThinnedBlock(split[c], ErasedUpTo(split, loops, sccs, backs, i)[c])
  {
    if i > 0 {
      ErasedIsThinned(split, loops, sccs, backs, i - 1, c);
      hide Thin, ThinnedBlock;
      var was := ErasedUpTo(split, loops, sccs, backs, i - 1)[c];
      if c in loops[i - 1][1..] {
        ThinIsThinned(was, split[c], sccs[i - 1], backs[i - 1], c == loops[i - 1][|loops[i - 1]| - 1]);
      }
    }
  }

  lemma KeptSubset(insts: seq<Instr>, scc: seq<nat>, back: map<nat, nat>)
    ensures forall x :: x in Kept(insts, scc, back) ==> x in insts
  {
  }

  ghost predicate SameBranches(blocks: seq<Block>, now: seq<Block>) {
    |now| == |blocks| && forall c {:trigger now[c]} :: 0 <= c < |now| ==> now[c].succs == blocks[c].succs && now[c].ended == blocks[c].ended
  }

  lemma ThinnedPreds(blocks: seq<Block>, now: seq<Block>)
    requires Thinned(blocks, now) && SameBranches(blocks, now)
    ensures forall a: nat, b: nat :: Pred(now, a, b) <==> Pred(blocks, a, b)
    ensures forall b: nat, a: nat, i: nat, o :: Takes(now, b, a, i, o) <==> Takes(blocks, b, a, i, o)
  {
    forall a: nat, b: nat ensures Pred(now, a, b) <==> Pred(blocks, a, b) {
      assert a < |now| ==> now[a].succs == blocks[a].succs;
    }
    forall b: nat, a: nat, i: nat, o ensures Takes(now, b, a, i, o) <==> Takes(blocks, b, a, i, o) {
      assert b < |now| ==> ThinnedBlock(blocks[b], now[b]);
    }
  }

  lemma ThinnedDefined(blocks: seq<Block>, now: seq<Block>, body: seq<nat>, o: Operand)
    requires Thinned(blocks, now) && InBounds(blocks, body) && Outside(blocks, body, o)
    ensures Outside(now, body, o)
  {
    if o.Def? {
      forall k | 0 <= k < |body| ensures o.v !in Defined(now[body[k]]) {
        assert o.v !in Defined(blocks[body[k]]);
        var b, n := blocks[body[k]], now[body[k]];
        assert ThinnedBlock(b, n);
        forall i | 0 <= i < |n.insts| ensures n.insts[i].id != o.v {
          assert n.insts[i] in b.insts;
          var j :| 0 <= j < |b.insts| && b.insts[j] == n.insts[i];
        }
      }
    }
  }

  lemma ThinnedChain(blocks: seq<Block>, now: seq<Block>, body: seq<nat>, pre: nat, exit: nat)
    requires Thinned(blocks, now) && SameBranches(blocks, now) && Chain(blocks, body, pre, exit)
    ensures Chain(now, body, pre, exit)
  {
    hide Pred, Takes, Outside, Different, DefinedIn;
    ThinnedPreds(blocks, now);
    forall i: nat, o | Takes(now, body[0], pre, i, o) ensures Outside(now, body, o) {
      assert Takes(blocks, body[0], pre, i, o);
      ThinnedDefined(blocks, now, body, o);
    }
  }

  /** Erasing that leaves all branches leaves the order of the loops as it is. */
  lemma ThinnedOrder(blocks: seq<Block>, now: seq<Block>, loops: seq<seq<nat>>, pre: nat, exit: nat)
    requires Thinned(blocks, now) && SameBranches(blocks, now) && InOrder(blocks, loops, pre, exit)
    ensures InOrder(now, loops, pre, exit)
  {
    hide Chain, Apart, Thinned, SameBranches;
    forall i: nat | i < |loops| ensures ChainAt(now, loops, pre, exit, i) {
      assert ChainAt(blocks, loops, pre, exit, i);
      ThinnedChain(blocks, now, loops[i], EntryOf(loops, pre, i), ExitOf(loops, exit, i));
    }
  }
}
