/** The earlier draft of the pipeline, kept in the binary: the same sampler
    without the error, the histogram without the colour conversion, a
    separate positionwise conversion, and a merge that only adds counts and
    sorts least frequent first.  The draft hands its palette to a swatch
    writer, which is outside the model. */
module Draft {
  import opened Pixel
  import opened Ranking
  import opened ColorHistogram
  import opened Merge

  /** The sampler: the channels of the interesting pixels in scan order; an
      image with no interesting pixel gives the empty stream. */
  method GetPixels(img: seq<Rgba>) returns (pixels: seq<u8>)
    ensures pixels == Flatten(Kept(img))
    ensures pixels == [] <==> forall p :: p in img ==> !IsInteresting(p)
  {
    pixels := [];
    for i := 0 to |img|
      invariant pixels == Flatten(Kept(img[..i]))
    {
      var rgba := img[i];
      assert img[..i + 1] == img[..i] + [rgba];
      KeptSnoc(img[..i], rgba);
      if HasTransparency(rgba) || IsBlack(rgba) || IsWhite(rgba) {
        assert Kept(img[..i + 1]) == Kept(img[..i]) + [];
        assert Kept(img[..i]) + [] == Kept(img[..i]);
        continue;
      }
      assert Kept(img[..i + 1]) == Kept(img[..i]) + [rgba];
      assert Flatten(Kept(img[..i + 1])) == pixels + Channels(rgba) by {
        FlattenAppend(Kept(img[..i]), [rgba]);
        assert Flatten([rgba]) == Channels(rgba) + Flatten([]);
      }
      pixels := pixels + Channels(rgba);
    }
    assert img[..|img|] == img;
    KeptEmpty(img);
  }

  /** The second fold of the draft's histogram: the map's entries in key
      order. */
  method ListEntries(histogramMap: map<Rgb, nat>) returns (histogramVec: seq<Entry<Rgb>>)
    ensures histogramVec == KeyOrder(histogramMap)
  {
    ghost var order := KeyOrder(histogramMap);
    assert order == KeysInOrder(histogramMap.Keys, histogramMap);
    histogramVec := [];
    var rest := histogramMap.Keys;
    while rest != {}
      invariant rest <= histogramMap.Keys
      invariant order == histogramVec + KeysInOrder(rest, histogramMap)
      decreases rest
    {
      var color :| color in rest && forall c :: c in rest && c != color ==> RgbLess(color, c);
      KeysInOrderLeast(rest, histogramMap, color);
      histogramVec := histogramVec + [Entry(color, histogramMap[color])];
      rest := rest - {color};
    }
    assert KeysInOrder(rest, histogramMap) == [];
    assert histogramVec + [] == histogramVec;
  }

  /** Counts each distinct colour in an ordered map, lists the entries in
      key order and stably sorts them by count, most frequent first. */
  method GetHistogram(pixels: seq<Rgb>) returns (h: seq<Entry<Rgb>>)
    ensures h == Histogram(pixels)
  {
    var histogramMap := CountColors(pixels);
    var histogramVec := ListEntries(histogramMap);
    h := StableSort(histogramVec, Descending);
  }

  /** What the draft merge returns: the greedy pass, then each recorded
      count added to its target (colours untouched), then a stable sort by
      count, least frequent first. */
  function Merged<L>(palette: seq<Entry<L>>, similar: (L, L) -> bool): seq<Entry<L>> {
    var st := GreedyPass(palette, similar);
    StableSort(Absorb(st.reps, st.folds, KeepColor), Ascending)
  }

  /** The (target, count) pairs the draft records for a sequence of folds. */
  function Pairs<L>(folds: seq<Fold<L>>): (r: seq<(nat, nat)>)
    ensures |r| == |folds|
    ensures forall k :: 0 <= k < |folds| ==> r[k] == (folds[k].target, folds[k].count)
  {
    if folds == [] then [] else Pairs(folds[..|folds| - 1]) + [(folds[|folds| - 1].target, folds[|folds| - 1].count)]
  }

  /** The draft's first loop: the same pass as the library's, but only the
      target and the count of each merged entry are recorded.  The folds of
      the shared pass are returned as ghost state to name what the pairs
      stand for. */
  method FirstPass<L>(palette: seq<Entry<L>>, similar: (L, L) -> bool)
    returns (refined: seq<Entry<L>>, additions: seq<(nat, nat)>, ghost folds: seq<Fold<L>>)
    ensures refined == GreedyPass(palette, similar).reps
    ensures additions == Pairs(GreedyPass(palette, similar).folds)
    ensures folds == GreedyPass(palette, similar).folds
  {
    additions := [];
    folds := [];
    refined := [];
    for n := 0 to |palette|
      invariant PassState(refined, folds) == GreedyPass(palette[..n], similar)
      invariant additions == Pairs(folds)
    {
      var x := palette[n];
      assert GreedyPass(palette[..n + 1], similar) == Step(PassState(refined, folds), x, similar) by {
        assert palette[..n + 1][..n] == palette[..n];
      }
      var found := FindSimilar(x.color, refined, similar);
      var isSimilar := false;
      if found.Some? {
        assert (folds + [Fold(found.value, x.color, x.count)])[..|folds|] == folds;
        additions := additions + [(found.value, x.count)];
        folds := folds + [Fold(found.value, x.color, x.count)];
        isSimilar := true;
      }
      if !isSimilar {
        refined := refined + [x];
      }
    }
    assert palette[..|palette|] == palette;
  }

  /** The draft's second loop: each recorded count is added to its target's
      count; colours are not touched. */
  method AddCounts<L>(reps: seq<Entry<L>>, additions: seq<(nat, nat)>, ghost folds: seq<Fold<L>>)
    returns (refined: seq<Entry<L>>)
    requires forall k :: 0 <= k < |folds| ==> folds[k].target < |reps|
    requires additions == Pairs(folds)
    ensures refined == Absorb(reps, folds, KeepColor)
  {
    refined := reps;
    for k := 0 to |additions|
      invariant refined == Absorb(reps, folds[..k], KeepColor)
    {
      assert folds[..k + 1][..k] == folds[..k];
      var (i, count) := additions[k];
      refined := refined[i := Entry(refined[i].color, refined[i].count + count)];
    }
    assert folds[..|folds|] == folds;
  }

  /** The draft merge: a first loop that records (target, count) pairs, a
      second that adds each count to its target, and an ascending sort. */
  method RemoveSimilarColors<L>(palette: seq<Entry<L>>, similar: (L, L) -> bool)
    returns (refined: seq<Entry<L>>)
    ensures refined == Merged(palette, similar)
  {
    var additions;
    ghost var folds;
    refined, additions, folds := FirstPass(palette, similar);
    refined := AddCounts(refined, additions, folds);
    refined := StableSort(refined, Ascending);
  }

  /** The draft merge conserves the total count, never lengthens the
      palette, and returns it least frequent first. */
  lemma {:induction false} MergedConserves<L>(palette: seq<Entry<L>>, similar: (L, L) -> bool)
    ensures Sum(Merged(palette, similar)) == Sum(palette)
    ensures |Merged(palette, similar)| <= |palette|
    ensures Sorted(Merged(palette, similar), Ascending)
  {
    var st := GreedyPass(palette, similar);
    PassSum(palette, similar);
    AbsorbSum(st.reps, st.folds, KeepColor);
    StableSortSum(Absorb(st.reps, st.folds, KeepColor), Ascending);
    StableSortSorted(Absorb(st.reps, st.folds, KeepColor), Ascending);
  }

  /** Before the sort, representative `i` still has its original colour and
      its count has grown by exactly the counts folded into it. */
  lemma {:induction false} MergedBeforeSort<L>(palette: seq<Entry<L>>, similar: (L, L) -> bool, i: nat)
    requires i < |GreedyPass(palette, similar).reps|
    ensures var st := GreedyPass(palette, similar);
      && Absorb(st.reps, st.folds, KeepColor)[i].color == st.reps[i].color
      && Absorb(st.reps, st.folds, KeepColor)[i].count == st.reps[i].count + TargetSum(st.folds, i)
  {
    var st := GreedyPass(palette, similar);
    AbsorbKeepsColors(st.reps, st.folds, i);
    AbsorbCounts(st.reps, st.folds, KeepColor, i);
  }

  /** Every colour of the draft's output is the colour of an input entry:
      the count-only merge never invents a colour. */
  lemma {:induction false} MergedColorsFromPalette<L>(palette: seq<Entry<L>>, similar: (L, L) -> bool, k: nat)
    requires k < |Merged(palette, similar)|
    ensures exists m :: 0 <= m < |palette| && Merged(palette, similar)[k].color == palette[m].color
  {
    var st := GreedyPass(palette, similar);
    var a := Absorb(st.reps, st.folds, KeepColor);
    StableSortFrom(a, Ascending, k);
    var i :| 0 <= i < |a| && Merged(palette, similar)[k] == a[i];
    AbsorbKeepsColors(st.reps, st.folds, i);
    PassPermutes(palette, similar);
    assert st.reps[i] in multiset(palette);
    var m :| 0 <= m < |palette| && palette[m] == st.reps[i];
  }

  /** The draft pipeline on a decoded image, up to the swatch writer. */
  ghost function Drafted<L>(img: seq<Rgba>, neuQuant: seq<u8> -> seq<Rgb>, fromRgb: Rgb -> L, similar: (L, L) -> bool): seq<Entry<L>> {
    Merged(ToLab(Histogram(neuQuant(Flatten(Kept(img)))), fromRgb), similar)
  }

  /** The draft pipeline: sample, quantize, count, convert, merge. */
  method New<L>(img: seq<Rgba>, neuQuant: seq<u8> -> seq<Rgb>, fromRgb: Rgb -> L, similar: (L, L) -> bool)
    returns (palette: seq<Entry<L>>)
    ensures palette == Drafted(img, neuQuant, fromRgb, similar)
  {
    var pixels := GetPixels(img);
    var quantized := neuQuant(pixels);
    var colorHistogram := GetHistogram(quantized);
    var colorsAsLab := ToLab(colorHistogram, fromRgb);
    palette := RemoveSimilarColors(colorsAsLab, similar);
  }

  /** The draft's palette has counts adding up to the colour-map length,
      no more entries than the colour map, and comes least frequent first. */
  lemma {:induction false} DraftedShape<L>(img: seq<Rgba>, neuQuant: seq<u8> -> seq<Rgb>, fromRgb: Rgb -> L, similar: (L, L) -> bool)
    ensures Sum(Drafted(img, neuQuant, fromRgb, similar)) == |neuQuant(Flatten(Kept(img)))|
    ensures |Drafted(img, neuQuant, fromRgb, similar)| <= |neuQuant(Flatten(Kept(img)))|
    ensures Sorted(Drafted(img, neuQuant, fromRgb, similar), Ascending)
  {
    var colorMap := neuQuant(Flatten(Kept(img)));
    var h := ToLab(Histogram(colorMap), fromRgb);
    HistogramSum(colorMap);
    ToLabSum(Histogram(colorMap), fromRgb);
    MergedConserves(h, similar);
  }
}
