/** The greedy similarity merge shared by both pipelines: one pass over the
    histogram decides, entry by entry, whether it becomes a new representative
    or is folded into the first representative similar to it; the recorded
    folds are applied afterwards.  Similarity ("colour difference below the
    uniqueness threshold") and the blend of two weighted colours are
    parameters, so the colour type L stays opaque. */
module Merge {
  import opened Ranking
  import opened Results

  /** An entry recorded against representative `target`. */
  datatype Fold<L> = Fold(target: nat, color: L, count: nat)

  /** What the first loop has built so far: the representatives, in the
      order they were appended, and the folds, in the order they were
      recorded. */
  datatype PassState<L> = PassState(reps: seq<Entry<L>>, folds: seq<Fold<L>>)

  /** The lowest index of a representative whose colour `c` is similar to,
      as the inner loop finds it by stopping at the first match. */
  function FirstSimilar<L>(c: L, reps: seq<Entry<L>>, similar: (L, L) -> bool): (r: Option<nat>)
    ensures r.Some? ==> r.value < |reps| && similar(c, reps[r.value].color)
    ensures r.Some? ==> forall j :: 0 <= j < r.value ==> !similar(c, reps[j].color)
    ensures r.None? ==> forall j :: 0 <= j < |reps| ==> !similar(c, reps[j].color)
  {
    if reps == [] then None
    else if similar(c, reps[0].color) then Some(0)
    else match FirstSimilar(c, reps[1..], similar)
      case None => None
      case Some(j) => Some(j + 1)
  }

  /** An index where the scan stops, with no similar representative below
      it, is the one `FirstSimilar` finds. */
  lemma {:induction false} FirstSimilarAt<L>(c: L, reps: seq<Entry<L>>, similar: (L, L) -> bool, i: nat)
    requires i < |reps| && similar(c, reps[i].color)
    requires forall j :: 0 <= j < i ==> !similar(c, reps[j].color)
    ensures FirstSimilar(c, reps, similar) == Some(i)
  {
    if i > 0 {
      FirstSimilarAt(c, reps[1..], similar, i - 1);
    }
  }

  /** A scan that finds no similar representative means `FirstSimilar`
      finds none. */
  lemma {:induction false} FirstSimilarNone<L>(c: L, reps: seq<Entry<L>>, similar: (L, L) -> bool)
    requires forall j :: 0 <= j < |reps| ==> !similar(c, reps[j].color)
    ensures FirstSimilar(c, reps, similar) == None
  {
    if reps != [] {
      FirstSimilarNone(c, reps[1..], similar);
    }
  }

  /** The inner loop: scans the representatives in order and stops at the
      first whose colour `c` is similar to. */
  method FindSimilar<L>(c: L, reps: seq<Entry<L>>, similar: (L, L) -> bool) returns (r: Option<nat>)
    ensures r == FirstSimilar(c, reps, similar)
  {
    for i := 0 to |reps|
      invariant forall j :: 0 <= j < i ==> !similar(c, reps[j].color)
    {
      if similar(c, reps[i].color) {
        FirstSimilarAt(c, reps, similar, i);
        return Some(i);
      }
    }
    FirstSimilarNone(c, reps, similar);
    return None;
  }

  /** One iteration of the first loop. */
  function Step<L>(st: PassState<L>, e: Entry<L>, similar: (L, L) -> bool): PassState<L> {
    match FirstSimilar(e.color, st.reps, similar)
    case None => PassState(st.reps + [e], st.folds)
    case Some(i) => PassState(st.reps, st.folds + [Fold(i, e.color, e.count)])
  }

  /** The first loop over the whole palette. */
  function GreedyPass<L>(s: seq<Entry<L>>, similar: (L, L) -> bool): (st: PassState<L>)
    ensures |st.reps| + |st.folds| == |s|
    ensures forall k :: 0 <= k < |st.folds| ==> st.folds[k].target < |st.reps|
  {
    if s == [] then PassState([], [])
    else Step(GreedyPass(s[..|s| - 1], similar), s[|s| - 1], similar)
  }

  /** The library's first loop: each entry is recorded against the first
      similar representative, or else appended as a new one. */
  method FirstPass<L>(palette: seq<Entry<L>>, similar: (L, L) -> bool)
    returns (refined: seq<Entry<L>>, similars: seq<Fold<L>>)
    ensures PassState(refined, similars) == GreedyPass(palette, similar)
  {
    similars := [];
    refined := [];
    for n := 0 to |palette|
      invariant PassState(refined, similars) == GreedyPass(palette[..n], similar)
    {
      var x := palette[n];
      assert GreedyPass(palette[..n + 1], similar) == Step(PassState(refined, similars), x, similar) by {
        assert palette[..n + 1][..n] == palette[..n];
      }
      var found := FindSimilar(x.color, refined, similar);
      var isSimilar := false;
      if found.Some? {
        similars := similars + [Fold(found.value, x.color, x.count)];
        isSimilar := true;
      }
      if !isSimilar {
        refined := refined + [x];
      }
    }
    assert palette[..|palette|] == palette;
  }

  /** The entries the folds carry, as entries. */
  function Folded<L>(folds: seq<Fold<L>>): (r: seq<Entry<L>>)
    ensures |r| == |folds|
    ensures forall k :: 0 <= k < |folds| ==> r[k] == Entry(folds[k].color, folds[k].count)
  {
    if folds == [] then [] else [Entry(folds[0].color, folds[0].count)] + Folded(folds[1..])
  }

  lemma {:induction false} FoldedSnoc<L>(folds: seq<Fold<L>>, f: Fold<L>)
    ensures Folded(folds + [f]) == Folded(folds) + [Entry(f.color, f.count)]
  {
  }

  /** Fold `f` targets the lowest-index representative similar to its
      original colour. */
  ghost predicate FirstMatch<L>(f: Fold<L>, reps: seq<Entry<L>>, similar: (L, L) -> bool) {
    && f.target < |reps|
    && similar(f.color, reps[f.target].color)
    && forall j :: 0 <= j < f.target ==> !similar(f.color, reps[j].color)
  }

  /** No representative is similar to an earlier representative's colour. */
  ghost predicate Apart<L>(reps: seq<Entry<L>>, similar: (L, L) -> bool) {
    forall p, q :: 0 <= p < q < |reps| ==> !similar(reps[q].color, reps[p].color)
  }

  /** Every fold of the pass targets the lowest-index representative similar
      to the folded entry's original colour. */
  lemma {:induction false} PassFoldsFirstMatch<L>(s: seq<Entry<L>>, similar: (L, L) -> bool)
    ensures forall k :: 0 <= k < |GreedyPass(s, similar).folds| ==>
      FirstMatch(GreedyPass(s, similar).folds[k], GreedyPass(s, similar).reps, similar)
  {
    if s != [] {
      var prev := GreedyPass(s[..|s| - 1], similar);
      var e := s[|s| - 1];
      PassFoldsFirstMatch(s[..|s| - 1], similar);
      var st := GreedyPass(s, similar);
      assert st == Step(prev, e, similar);
      forall k | 0 <= k < |st.folds|
        ensures FirstMatch(st.folds[k], st.reps, similar)
      {
        if k < |prev.folds| {
          assert st.folds[k] == prev.folds[k];
          assert FirstMatch(prev.folds[k], prev.reps, similar);
          assert forall j :: 0 <= j < |prev.reps| ==> st.reps[j] == prev.reps[j];
        }
      }
    }
  }

  /** The representatives of the pass are pairwise apart. */
  lemma {:induction false} PassRepsApart<L>(s: seq<Entry<L>>, similar: (L, L) -> bool)
    ensures Apart(GreedyPass(s, similar).reps, similar)
  {
    if s != [] {
      var prev := GreedyPass(s[..|s| - 1], similar);
      var e := s[|s| - 1];
      PassRepsApart(s[..|s| - 1], similar);
      var st := GreedyPass(s, similar);
      assert st == Step(prev, e, similar);
      forall p, q | 0 <= p < q < |st.reps|
        ensures !similar(st.reps[q].color, st.reps[p].color)
      {
        assert st.reps[p] == prev.reps[p];
        if q < |prev.reps| {
          assert st.reps[q] == prev.reps[q];
        }
      }
    }
  }

  /** Each entry of the palette ends up exactly once: as a representative or
      as a fold. */
  lemma {:induction false} PassPermutes<L>(s: seq<Entry<L>>, similar: (L, L) -> bool)
    ensures var st := GreedyPass(s, similar);
      multiset(s) == multiset(st.reps) + multiset(Folded(st.folds))
  {
    if s != [] {
      var init := s[..|s| - 1];
      var e := s[|s| - 1];
      var prev := GreedyPass(init, similar);
      PassPermutes(init, similar);
      assert s == init + [e];
      assert multiset(s) == multiset(init) + multiset{e};
      var st := GreedyPass(s, similar);
      assert st == Step(prev, e, similar);
      match FirstSimilar(e.color, prev.reps, similar)
      case None =>
        assert st.reps == prev.reps + [e] && st.folds == prev.folds;
        assert multiset(st.reps) == multiset(prev.reps) + multiset{e};
      case Some(i) =>
        var f := Fold(i, e.color, e.count);
        assert st.reps == prev.reps && st.folds == prev.folds + [f];
        FoldedSnoc(prev.folds, f);
        assert multiset(Folded(st.folds)) == multiset(Folded(prev.folds)) + multiset{e};
    }
  }

  /** The pass conserves weight: the representatives and the folds together
      carry the palette's total count. */
  lemma {:induction false} PassSum<L>(s: seq<Entry<L>>, similar: (L, L) -> bool)
    ensures var st := GreedyPass(s, similar);
      Sum(st.reps) + Sum(Folded(st.folds)) == Sum(s)
  {
    if s != [] {
      var init := s[..|s| - 1];
      var e := s[|s| - 1];
      var prev := GreedyPass(init, similar);
      PassSum(init, similar);
      assert s == init + [e];
      SumAppend(init, [e]);
      match FirstSimilar(e.color, prev.reps, similar)
      case None =>
        SumAppend(prev.reps, [e]);
      case Some(i) =>
        FoldedSnoc(prev.folds, Fold(i, e.color, e.count));
        SumAppend(Folded(prev.folds), [Entry(e.color, e.count)]);
    }
  }

  /** When no entry is similar to an earlier one, every entry becomes a
      representative and nothing is folded. */
  lemma {:induction false} PassWithoutSimilars<L>(s: seq<Entry<L>>, similar: (L, L) -> bool)
    requires forall i, j :: 0 <= i < j < |s| ==> !similar(s[j].color, s[i].color)
    ensures GreedyPass(s, similar) == PassState(s, [])
  {
    if s != [] {
      var init := s[..|s| - 1];
      PassWithoutSimilars(init, similar);
      assert s == init + [s[|s| - 1]];
    }
  }

  /** The second loop: each fold, in order, blends its colour into its
      target's current colour and adds its count to the target's count. */
  function Absorb<L>(reps: seq<Entry<L>>, folds: seq<Fold<L>>, blend: (L, nat, L, nat) -> L): (r: seq<Entry<L>>)
    requires forall k :: 0 <= k < |folds| ==> folds[k].target < |reps|
    ensures |r| == |reps|
  {
    if folds == [] then reps
    else
      var r := Absorb(reps, folds[..|folds| - 1], blend);
      var f := folds[|folds| - 1];
      var t := f.target;
      r[t := Entry(blend(r[t].color, r[t].count, f.color, f.count), r[t].count + f.count)]
  }

  /** The library's second loop: each fold in recording order blends its
      colour into its target's current colour and adds its count. */
  method ApplyFolds<L>(reps: seq<Entry<L>>, folds: seq<Fold<L>>, blend: (L, nat, L, nat) -> L)
    returns (refined: seq<Entry<L>>)
    requires forall k :: 0 <= k < |folds| ==> folds[k].target < |reps|
    ensures refined == Absorb(reps, folds, blend)
  {
    refined := reps;
    for k := 0 to |folds|
      invariant refined == Absorb(reps, folds[..k], blend)
    {
      assert folds[..k + 1][..k] == folds[..k];
      var f := folds[k];
      var i := f.target;
      var countX := refined[i].count;
      refined := refined[i := Entry(blend(refined[i].color, countX, f.color, f.count), countX + f.count)];
    }
    assert folds[..|folds|] == folds;
  }

  /** The total count of the folds recorded against representative `i`. */
  function TargetSum<L>(folds: seq<Fold<L>>, i: nat): nat {
    if folds == [] then 0
    else TargetSum(folds[..|folds| - 1], i) + (if folds[|folds| - 1].target == i then folds[|folds| - 1].count else 0)
  }

  /** After the second loop, each representative's count is its own count
      plus the counts of everything folded into it. */
  lemma {:induction false} AbsorbCounts<L>(reps: seq<Entry<L>>, folds: seq<Fold<L>>, blend: (L, nat, L, nat) -> L, i: nat)
    requires forall k :: 0 <= k < |folds| ==> folds[k].target < |reps|
    requires i < |reps|
    ensures Absorb(reps, folds, blend)[i].count == reps[i].count + TargetSum(folds, i)
  {
    if folds != [] {
      AbsorbCounts(reps, folds[..|folds| - 1], blend, i);
    }
  }

  /** The second loop conserves weight. */
  lemma {:induction false} AbsorbSum<L>(reps: seq<Entry<L>>, folds: seq<Fold<L>>, blend: (L, nat, L, nat) -> L)
    requires forall k :: 0 <= k < |folds| ==> folds[k].target < |reps|
    ensures Sum(Absorb(reps, folds, blend)) == Sum(reps) + Sum(Folded(folds))
  {
    if folds != [] {
      var init := folds[..|folds| - 1];
      var f := folds[|folds| - 1];
      var r := Absorb(reps, init, blend);
      AbsorbSum(reps, init, blend);
      SumUpdate(r, f.target, Entry(blend(r[f.target].color, r[f.target].count, f.color, f.count), r[f.target].count + f.count));
      assert folds == init + [f];
      FoldedSnoc(init, f);
      SumAppend(Folded(init), [Entry(f.color, f.count)]);
    }
  }

  /** The blend that ignores the folded colour: the target keeps its own. */
  function KeepColor<L>(x: L, cx: nat, y: L, cy: nat): L {
    x
  }

  /** With the colour-keeping blend only counts change. */
  lemma {:induction false} AbsorbKeepsColors<L>(reps: seq<Entry<L>>, folds: seq<Fold<L>>, i: nat)
    requires forall k :: 0 <= k < |folds| ==> folds[k].target < |reps|
    requires i < |reps|
    ensures Absorb(reps, folds, KeepColor)[i].color == reps[i].color
  {
    if folds != [] {
      AbsorbKeepsColors(reps, folds[..|folds| - 1], i);
    }
  }
}
