/** The exhaustive choice among the groupings of consecutive components. */
module Regrouping {

  function Pow2(k: nat): (r: nat)
    ensures r > 0
  {
    if k == 0 then 1 else 2 * Pow2(k - 1)
  }

  predicate Binary(s: seq<nat>) {
    forall j :: 0 <= j < |s| ==> s[j] <= 1
  }

  /** The number whose binary digits, lowest first, are s. */
  function Value(s: seq<nat>): nat {
    if s == [] then 0 else Value(s[..|s| - 1]) + s[|s| - 1] * Pow2(|s| - 1)
  }

  lemma {:induction false} ValueBound(s: seq<nat>)
    requires Binary(s)
    ensures Value(s) < Pow2(|s|)
  {
    if s != [] { ValueBound(s[..|s| - 1]); }
  }

  /** Different cuts have different numbers. */
  lemma {:induction false} ValueInjective(s: seq<nat>, t: seq<nat>)
    requires Binary(s) && Binary(t) && |s| == |t| && Value(s) == Value(t)
    ensures s == t
  {
    if s != [] {
      var n := |s| - 1;
      ValueBound(s[..n]);
      ValueBound(t[..n]);
      assert s[n] == t[n];
      ValueInjective(s[..n], t[..n]);
      assert s == s[..n] + [s[n]] && t == t[..n] + [t[n]];
    }
  }

  /** The part of the value that the digits from position i on contribute. */
  function High(s: seq<nat>, i: nat): nat
    requires i <= |s|
    decreases |s| - i
  {
    if i == |s| then 0 else s[i] * Pow2(i) + High(s, i + 1)
  }

  lemma {:induction false} HighIsValue(s: seq<nat>, i: nat)
    requires i <= |s|
    ensures Value(s) == Value(s[..i]) + High(s, i)
    decreases |s| - i
  {
    if i == |s| {
      assert s[..i] == s;
    } else {
      HighIsValue(s, i + 1);
      assert s[..i + 1][..i] == s[..i];
    }
  }

  lemma {:induction false} HighFrame(s: seq<nat>, t: seq<nat>, i: nat)
    requires |s| == |t| && i <= |s| && forall j :: i <= j < |s| ==> s[j] == t[j]
    ensures High(s, i) == High(t, i)
    decreases |s| - i
  {
    if i < |s| { HighFrame(s, t, i + 1); }
  }

  lemma TopDigit(cur: nat, p: nat)
    requires p > 0 && cur < 2 * p
    ensures cur / p == if cur < p then 0 else 1
  {
  }

  /** One round of the shift-and-subtract loop. */
  lemma DigitTaken(s: seq<nat>, p: nat, cur: nat)
    requires p < |s| && cur < Pow2(p + 1)
    ensures var d := cur / Pow2(p);
            && d <= 1 && d * Pow2(p) <= cur && cur - d * Pow2(p) < Pow2(p)
            && cur + High(s, p + 1) == (cur - d * Pow2(p)) + High(s[p := d], p)
  {
    var w := Pow2(p);
    assert cur < 2 * w;
    hide Pow2;
    TopDigit(cur, w);
    var d := if cur < w then 0 else 1;
    assert cur / w == d && d * w == if cur < w then 0 else w;
    HighFrame(s, s[p := d], p + 1);
    assert High(s[p := d], p) == d * w + High(s[p := d], p + 1);
  }

  /** The shift-and-subtract loop: the binary digits of idx, from the highest down. */
  method Decode(idx: nat, k: nat) returns (cut: array<nat>)
    requires idx < Pow2(k)
    ensures fresh(cut) && cut.Length == k && Binary(cut[..]) && Value(cut[..]) == idx
  {
    hide Pow2, High, Value;
    cut := new nat[k](_ => 0);
    var cur: nat := idx;
    assert High(cut[..], k) == 0 by { HighEnd(cut[..]); }
    for i := 0 to k
      invariant cur < Pow2(k - i)
      invariant forall j :: 0 <= j < k ==> cut[j] <= 1
      invariant idx == cur + High(cut[..], k - i)
    {
      var p := k - 1 - i;
      DigitTaken(cut[..], p, cur);
      ghost var next := cut[..][p := cur / Pow2(p)];
      cut[p] := cur / Pow2(p);
      assert cut[..] == next;
      cur := cur - cut[p] * Pow2(p);
    }
    HighIsValue(cut[..], 0);
    NoDigits(cut[..]);
  }

  lemma HighEnd(s: seq<nat>)
    ensures High(s, |s|) == 0
  {
  }

  lemma NoDigits(s: seq<nat>)
    ensures Value(s[..0]) == 0 && Pow2(0) == 1
  {
  }

  // ---------- the groupings ----------

  /** The next part: appended to the last group, or a group of its own. */
  function Glued<T>(g: seq<seq<T>>, part: seq<T>, digit: nat): (r: seq<seq<T>>)
    requires g != []
    ensures r != []
  {
    if digit == 0 then g[..|g| - 1] + [g[|g| - 1] + part] else g + [part]
  }

  /** Consecutive parts merged wherever the digit between them is 0. */
  function Merged<T>(parts: seq<seq<T>>, cut: seq<nat>): (r: seq<seq<T>>)
    requires |parts| == |cut| + 1
    ensures r != []
  {
    if cut == [] then [parts[0]]
    else
      var n := |cut| - 1;
      Glued(Merged(parts[..n + 1], cut[..n]), parts[n + 1], cut[n])
  }

  function GluedSizes(g: seq<int>, size: int, digit: nat): (r: seq<int>)
    requires g != []
    ensures r != []
  {
    if digit == 0 then g[..|g| - 1] + [g[|g| - 1] + size] else g + [size]
  }

  function MergedSizes(sizes: seq<int>, cut: seq<nat>): (r: seq<int>)
    requires |sizes| == |cut| + 1
    ensures r != []
  {
    if cut == [] then [sizes[0]]
    else
      var n := |cut| - 1;
      GluedSizes(MergedSizes(sizes[..n + 1], cut[..n]), sizes[n + 1], cut[n])
  }

  function Sizes<T>(parts: seq<seq<T>>): (r: seq<int>)
    ensures |r| == |parts| && forall i :: 0 <= i < |r| ==> r[i] == |parts[i]|
  {
    seq(|parts|, i requires 0 <= i < |parts| => |parts[i]|)
  }

  function Flat<T>(parts: seq<seq<T>>): seq<T> {
    if parts == [] then [] else Flat(parts[..|parts| - 1]) + parts[|parts| - 1]
  }

  lemma SizesOfGlued<T>(g: seq<seq<T>>, part: seq<T>, digit: nat)
    requires g != []
    ensures Sizes(Glued(g, part, digit)) == GluedSizes(Sizes(g), |part|, digit)
  {
  }

  lemma MergedUnfolds<T>(parts: seq<seq<T>>, cut: seq<nat>)
    requires |parts| == |cut| + 1 && cut != []
    ensures Merged(parts, cut) == Glued(Merged(parts[..|cut|], cut[..|cut| - 1]), parts[|cut|], cut[|cut| - 1])
  {
  }

  lemma MergedSizesUnfolds(sizes: seq<int>, cut: seq<nat>)
    requires |sizes| == |cut| + 1 && cut != []
    ensures MergedSizes(sizes, cut) == GluedSizes(MergedSizes(sizes[..|cut|], cut[..|cut| - 1]), sizes[|cut|], cut[|cut| - 1])
  {
  }

  /** The sizes computed for an index are those of the plan rebuilt from it. */
  lemma {:induction false} SizesOfMerged<T>(parts: seq<seq<T>>, cut: seq<nat>)
    requires |parts| == |cut| + 1
    ensures Sizes(Merged(parts, cut)) == MergedSizes(Sizes(parts), cut)
  {
    if cut != [] {
      hide Merged, MergedSizes, Glued, GluedSizes;
      var n := |cut| - 1;
      SizesOfMerged(parts[..n + 1], cut[..n]);
      assert Sizes(parts)[..n + 1] == Sizes(parts[..n + 1]);
      MergedUnfolds(parts, cut);
      MergedSizesUnfolds(Sizes(parts), cut);
      SizesOfGlued(Merged(parts[..n + 1], cut[..n]), parts[n + 1], cut[n]);
    }
  }

  lemma FlatSnoc<T>(parts: seq<seq<T>>, p: seq<T>)
    ensures Flat(parts + [p]) == Flat(parts) + p
  {
    assert (parts + [p])[..|parts|] == parts;
  }

  lemma FlatSplit<T>(g: seq<seq<T>>)
    requires g != []
    ensures Flat(g) == Flat(g[..|g| - 1]) + g[|g| - 1]
  {
  }

  lemma FlatOfGlued<T>(g: seq<seq<T>>, part: seq<T>, digit: nat)
    requires g != []
    ensures Flat(Glued(g, part, digit)) == Flat(g) + part
  {
    hide Flat;
    if digit == 0 {
      var n := |g| - 1;
      FlatSplit(g);
      FlatSnoc(g[..n], g[n] + part);
      assert Flat(g[..n]) + (g[n] + part) == (Flat(g[..n]) + g[n]) + part;
    } else {
      FlatSnoc(g, part);
    }
  }

  /** Regrouping loses, adds and moves nothing. */
  lemma {:induction false} FlatOfMerged<T>(parts: seq<seq<T>>, cut: seq<nat>)
    requires |parts| == |cut| + 1
    ensures Flat(Merged(parts, cut)) == Flat(parts)
  {
    if cut == [] {
      assert parts == [parts[0]];
    } else {
      hide Merged, Flat, Glued;
      var n := |cut| - 1;
      FlatOfMerged(parts[..n + 1], cut[..n]);
      MergedUnfolds(parts, cut);
      FlatOfGlued(Merged(parts[..n + 1], cut[..n]), parts[n + 1], cut[n]);
      FlatSplit(parts);
      assert parts[..|parts| - 1] == parts[..n + 1];
    }
  }

  /** The whole new list holds the same instructions in the same order. */
  lemma FlatOfRegrouped<T>(parts: seq<seq<T>>, cut: seq<nat>)
    requires |parts| == |cut| + 3
    ensures Flat(Regrouped(parts, cut)) == Flat(parts)
  {
    hide *;
    var n := |cut| + 1;
    FlatOfMerged(parts[..n], cut);
    FlatTwoMore(Merged(parts[..n], cut), parts[n], parts[n + 1]);
    FlatTwoMore(parts[..n], parts[n], parts[n + 1]);
    assert parts[..n] + [parts[n], parts[n + 1]] == parts;
    RegroupedIs(parts, cut);
  }

  lemma RegroupedIs<T>(parts: seq<seq<T>>, cut: seq<nat>)
    requires |parts| == |cut| + 3
    ensures Regrouped(parts, cut) == Merged(parts[..|cut| + 1], cut) + [parts[|cut| + 1], parts[|cut| + 2]]
  {
  }

  lemma FlatTwoMore<T>(xs: seq<seq<T>>, a: seq<T>, b: seq<T>)
    ensures Flat(xs + [a, b]) == Flat(xs) + a + b
  {
    hide Flat;
    FlatSnoc(xs, a);
    FlatSnoc(xs + [a], b);
    assert xs + [a] + [b] == xs + [a, b];
  }

  /** The loop over the cuts that adds up sizes. */
  method GroupSizes(sizes: seq<int>, cut: array<nat>) returns (r: seq<int>)
    requires |sizes| == cut.Length + 1
    ensures r == MergedSizes(sizes, cut[..])
  {
    r := [];
    var size := sizes[0];
    for p := 0 to cut.Length
      invariant r + [size] == MergedSizes(sizes[..p + 1], cut[..p])
    {
      assert cut[..p + 1][..p] == cut[..p] && sizes[..p + 2][..p + 1] == sizes[..p + 1];
      if cut[p] == 0 {
        size := size + sizes[p + 1];
      } else {
        r := r + [size];
        size := sizes[p + 1];
      }
    }
    r := r + [size];
    assert cut[..cut.Length] == cut[..] && sizes[..|sizes|] == sizes;
  }

  /** The loop over the cuts that rebuilds the plan. */
  method Rebuild<T>(parts: seq<seq<T>>, cut: array<nat>) returns (r: seq<seq<T>>)
    requires |parts| == cut.Length + 1
    ensures r == Merged(parts, cut[..])
  {
    r := [];
    var tmp := parts[0];
    for p := 0 to cut.Length
      invariant r + [tmp] == Merged(parts[..p + 1], cut[..p])
    {
      assert cut[..p + 1][..p] == cut[..p] && parts[..p + 2][..p + 1] == parts[..p + 1];
      if cut[p] == 0 {
        tmp := tmp + parts[p + 1];
      } else {
        r := r + [tmp];
        tmp := parts[p + 1];
      }
    }
    r := r + [tmp];
    assert cut[..cut.Length] == cut[..] && parts[..|parts|] == parts;
  }

  /** The size lists of all plans, one per index. */
  ghost predicate Plans(sizes: seq<int>, plans: seq<seq<int>>)
  {
    forall idx, cut :: 0 <= idx < |plans| && Binary(cut) && |sizes| == |cut| + 1 && Value(cut) == idx ==>
      plans[idx] == MergedSizes(sizes, cut)
  }

  /** check_partition, for any way of scoring the plans from all their size lists: the last two entries are set
      aside, and of all groupings of the others the first one with the least score is built. */
  method CheckPartition<T>(parts: seq<seq<T>>, scoring: seq<seq<int>> -> nat -> real) returns (r: seq<seq<T>>, plans: seq<seq<int>>, best: seq<nat>)
    requires |parts| >= 3
    ensures var n := |parts| - 2;
            && |plans| == Pow2(n - 1) && Plans(Sizes(parts[..n]), plans)
            && |best| == n - 1 && Binary(best) && Value(best) < |plans|
            && (forall idx: nat :: idx < |plans| ==> scoring(plans)(Value(best)) <= scoring(plans)(idx))
            && (forall idx: nat :: idx < Value(best) ==> scoring(plans)(Value(best)) < scoring(plans)(idx))
            && r == Regrouped(parts, best)
  {
    hide Merged, MergedSizes, Plans, Value, Pow2;
    var n := |parts| - 2;
    var sizes := Sizes(parts[..n]);
    var all := AllPlans(sizes);
    plans := all;
    var scores := scoring(all);
    var min := 0;
    for i := 0 to Pow2(n - 1)
      invariant min < Pow2(n - 1)
      invariant forall idx: nat :: idx < i ==> scores(min) <= scores(idx)
      invariant forall idx: nat :: idx < min ==> scores(min) < scores(idx)
    {
      if scores(min) > scores(i) {
        min := i;
      }
    }
    var cut := Decode(min, n - 1);
    best := cut[..];
    r := Rebuild(parts[..n], cut);
    r := r + [parts[n]];
    r := r + [parts[n + 1]];
  }

  method AllPlans(sizes: seq<int>) returns (plans: seq<seq<int>>)
    requires |sizes| >= 1
    ensures |plans| == Pow2(|sizes| - 1) && Plans(sizes, plans)
  {
    plans := [];
    var k := |sizes| - 1;
    for idx := 0 to Pow2(k)
      invariant |plans| == idx && Plans(sizes, plans)
    {
      var cut := Decode(idx, k);
      var plan := GroupSizes(sizes, cut);
      forall c | Binary(c) && |sizes| == |c| + 1 && Value(c) == idx ensures plan == MergedSizes(sizes, c) {
        ValueInjective(c, cut[..]);
      }
      plans := plans + [plan];
    }
  }

  /** Exhaustive: the plan built scores no worse than any other choice of cuts. */
  lemma BestOfAllCuts(sizes: seq<int>, plans: seq<seq<int>>, scores: nat -> real, best: seq<nat>, cut: seq<nat>)
    requires |sizes| == |cut| + 1 && |plans| == Pow2(|cut|) && Plans(sizes, plans) && Binary(cut)
    requires forall idx: nat :: idx < |plans| ==> scores(Value(best)) <= scores(idx)
    ensures Value(cut) < |plans| && plans[Value(cut)] == MergedSizes(sizes, cut) && scores(Value(best)) <= scores(Value(cut))
  {
    ValueBound(cut);
  }

  // ---------- legality ----------

  /** The group that part p ends up in. */
  function GroupOf(cut: seq<nat>, p: nat): nat {
    if p == 0 || |cut| == 0 then 0
    else if p > |cut| then GroupOf(cut, p - 1)
    else GroupOf(cut, p - 1) + (if cut[p - 1] == 0 then 0 else 1)
  }

  /** Regrouping keeps the order of the parts, so what was not led backwards between parts is not led backwards
      between groups. */
  lemma {:induction false} GroupsRise(cut: seq<nat>, p: nat, q: nat)
    requires p <= q
    ensures GroupOf(cut, p) <= GroupOf(cut, q)
    decreases q
  {
    if p < q { GroupsRise(cut, p, q - 1); }
  }

  lemma {:induction false} GroupOfPrefix(cut: seq<nat>, n: nat, p: nat)
    requires p <= n <= |cut|
    ensures GroupOf(cut[..n], p) == GroupOf(cut, p)
  {
    if p > 0 { GroupOfPrefix(cut, n, p - 1); }
  }

  lemma LastGroup(cut: seq<nat>)
    requires cut != []
    ensures var n := |cut| - 1; GroupOf(cut, n + 1) == GroupOf(cut[..n], n) + if cut[n] == 0 then 0 else 1
  {
    var n := |cut| - 1;
    GroupOfPrefix(cut, n, n);
  }

  lemma GluedHas<T>(g: seq<seq<T>>, part: seq<T>, digit: nat)
    requires g != []
    ensures var r, last := Glued(g, part, digit), |g| - (if digit == 0 then 1 else 0);
            && |r| == last + 1
            && (forall i, x :: 0 <= i < |g| && x in g[i] ==> x in r[i]) && (forall x :: x in part ==> x in r[last])
            && forall i, x :: 0 <= i < |r| && x in r[i] ==> (i < |g| && x in g[i]) || (x in part && i == last)
  {
  }

  lemma {:induction false} MergedCount<T>(parts: seq<seq<T>>, cut: seq<nat>)
    requires |parts| == |cut| + 1
    ensures |Merged(parts, cut)| == GroupOf(cut, |cut|) + 1
  {
    if cut != [] {
      hide Merged, Glued, GroupOf;
      var n := |cut| - 1;
      MergedCount(parts[..n + 1], cut[..n]);
      MergedUnfolds(parts, cut);
      GluedHas(Merged(parts[..n + 1], cut[..n]), parts[n + 1], cut[n]);
      LastGroup(cut);
    }
  }

  /** Part p is merged into group GroupOf(cut, p). */
  lemma {:induction false} InItsGroup<T>(parts: seq<seq<T>>, cut: seq<nat>, p: nat, x: T)
    requires |parts| == |cut| + 1 && p < |parts| && x in parts[p]
    ensures GroupOf(cut, p) < |Merged(parts, cut)| && x in Merged(parts, cut)[GroupOf(cut, p)]
  {
    if cut != [] {
      hide Merged, Glued, GroupOf;
      var n := |cut| - 1;
      var g := Merged(parts[..n + 1], cut[..n]);
      MergedCount(parts[..n + 1], cut[..n]);
      MergedUnfolds(parts, cut);
      GluedHas(g, parts[n + 1], cut[n]);
      if p <= n {
        InItsGroup(parts[..n + 1], cut[..n], p, x);
        GroupOfPrefix(cut, n, p);
      } else {
        LastGroup(cut);
      }
    }
  }

  /** Where entry p of the old list ends up, the last two included: these follow the merged groups. */
  function PlaceOf(cut: seq<nat>, p: nat): nat {
    if p <= |cut| then GroupOf(cut, p) else GroupOf(cut, |cut|) + (p - |cut|)
  }

  /** Two neighbours share an entry exactly if the digit between them is 0; the last two are entries of their own. */
  lemma NeighboursJoined(cut: seq<nat>, p: nat)
    ensures PlaceOf(cut, 0) == 0 && PlaceOf(cut, p + 1) == PlaceOf(cut, p) + if p < |cut| && cut[p] == 0 then 0 else 1
  {
  }

  /** No entry overtakes another, and the last two stay apart from the rest. */
  lemma PlacesRise(cut: seq<nat>, p: nat, q: nat)
    requires p <= q
    ensures PlaceOf(cut, p) <= PlaceOf(cut, q)
    ensures p < q && q > |cut| ==> PlaceOf(cut, p) < PlaceOf(cut, q)
  {
    hide GroupOf;
    if p <= |cut| { GroupsRise(cut, p, if q <= |cut| then q else |cut|); }
  }

  /** What is in a merged group was in a part that was merged into it. */
  lemma {:induction false} FromItsPart<T>(parts: seq<seq<T>>, cut: seq<nat>, g: nat, x: T) returns (p: nat)
    requires |parts| == |cut| + 1 && g < |Merged(parts, cut)| && x in Merged(parts, cut)[g]
    ensures p < |parts| && GroupOf(cut, p) == g && x in parts[p]
  {
    if cut == [] {
      p := 0;
    } else {
      hide Merged, Glued, GroupOf;
      var n := |cut| - 1;
      var before := Merged(parts[..n + 1], cut[..n]);
      MergedCount(parts[..n + 1], cut[..n]);
      MergedUnfolds(parts, cut);
      GluedHas(before, parts[n + 1], cut[n]);
      if g < |before| && x in before[g] {
        p := FromItsPart(parts[..n + 1], cut[..n], g, x);
        GroupOfPrefix(cut, n, p);
      } else {
        p := n + 1;
        LastGroup(cut);
      }
    }
  }

  /** The list that check_partition returns. */
  function Regrouped<T>(parts: seq<seq<T>>, cut: seq<nat>): (r: seq<seq<T>>)
    requires |parts| == |cut| + 3
  {
    Merged(parts[..|cut| + 1], cut) + [parts[|cut| + 1], parts[|cut| + 2]]
  }

  /** PlaceOf says exactly where everything is in the new list, also what is in the last two entries. */
  lemma InItsPlace<T>(parts: seq<seq<T>>, cut: seq<nat>, t: nat, x: T)
    requires |parts| == |cut| + 3
    ensures |Regrouped(parts, cut)| == PlaceOf(cut, |cut| + 2) + 1
    ensures t < |Regrouped(parts, cut)| && x in Regrouped(parts, cut)[t] <==> exists p :: 0 <= p < |parts| && PlaceOf(cut, p) == t && x in parts[p]
  {
    var n := |cut| + 1;
    hide Merged, GroupOf;
    MergedCount(parts[..n], cut);
    var r := Regrouped(parts, cut);
    if p :| 0 <= p < |parts| && PlaceOf(cut, p) == t && x in parts[p] {
      if p < n { InItsGroup(parts[..n], cut, p, x); }
    }
    if t < |r| && x in r[t] {
      if t < |r| - 2 {
        var p := FromItsPart(parts[..n], cut, t, x);
        assert PlaceOf(cut, p) == t && x in parts[p];
      } else {
        var p := if t == |r| - 2 then n else n + 1;
        assert PlaceOf(cut, p) == t && x in parts[p];
      }
    }
  }

  /** Of all ways to group all entries but the last two, cut is the one whose sizes score least, and the first
      such in the order of the indices. */
  ghost predicate BestCut<T(!new)>(parts: seq<seq<T>>, cut: seq<nat>, scoring: seq<seq<int>> -> nat -> real) {
    && |parts| == |cut| + 3 && Binary(cut)
    && exists plans :: AllSizes(parts[..|cut| + 1], plans) && Least(plans, scoring(plans), cut)
  }

  /** At the index of every choice of cuts, the sizes of the groups that it makes. */
  ghost predicate AllSizes<T(!new)>(parts: seq<seq<T>>, plans: seq<seq<int>>) {
    && |parts| > 0 && |plans| == Pow2(|parts| - 1)
    && forall cut {:trigger Value(cut)} :: Binary(cut) && |parts| == |cut| + 1 ==>
         Value(cut) < |plans| && plans[Value(cut)] == Sizes(Merged(parts, cut))
  }

  ghost predicate Least(plans: seq<seq<int>>, scores: nat -> real, cut: seq<nat>) {
    && Value(cut) < |plans|
    && (forall idx: nat :: idx < |plans| ==> scores(Value(cut)) <= scores(idx))
    && forall idx: nat :: idx < Value(cut) ==> scores(Value(cut)) < scores(idx)
  }

  /** What check_partition chooses is best. */
  lemma ChosenIsBest<T(!new)>(parts: seq<seq<T>>, cut: seq<nat>, plans: seq<seq<int>>, scoring: seq<seq<int>> -> nat -> real)
    requires |parts| == |cut| + 3 && Binary(cut) && |plans| == Pow2(|cut|) && Plans(Sizes(parts[..|cut| + 1]), plans)
    requires Least(plans, scoring(plans), cut)
    ensures BestCut(parts, cut, scoring)
  {
    var some := parts[..|cut| + 1];
    hide Least, Merged, MergedSizes;
    forall c | Binary(c) && |some| == |c| + 1 ensures Value(c) < |plans| && plans[Value(c)] == Sizes(Merged(some, c)) {
      ValueBound(c);
      SizesOfMerged(some, c);
    }
    assert AllSizes(some, plans);
  }
}
