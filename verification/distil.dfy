/** The library pipeline: format gate, sampler, histogram over the
    quantizer's colour map, greedy merge with deferred blending, and result
    assembly.  Decoding, resampling and the NeuQuant network are outside the
    model: the image arrives as its pixels in scan order, and the quantizer
    and the colour science are parameters. */
module Distil {
  import opened Results
  import opened Pixel
  import opened Ranking
  import opened ColorHistogram
  import opened Merge

  datatype DistilError =
    | Io(pathDebug: string, cause: string)   // the decoder could not parse the file
    | UnsupportedFormat                 // the file is neither a JPEG nor a PNG
    | Uninteresting                     // no pixel survives the sampler

  /** The container formats the decoder can recognise. */
  datatype ImageFormat = PNG | JPEG | GIF | WEBP | PNM | TIFF | TGA | BMP | ICO | HDR

  /** The colour science the pipeline relies on, kept abstract over the Lab
      type L: conversion from and to RGB, "colour difference below the
      uniqueness threshold", and the weighted blend of a representative
      (colour, count) with a folded (colour, count). */
  datatype ColorScience<!L> = ColorScience(
    fromRgb: Rgb -> L,
    toRgb: L -> Rgb,
    similar: (L, L) -> bool,
    blend: (L, nat, L, nat) -> L)

  /** A distilled image: the colours, most frequent first, and a map from
      each colour's index to the number of colour-map entries merged into
      it. */
  datatype Distil = Distil(colors: seq<Rgb>, colorCount: map<nat, nat>)

  /** Only PNG and JPEG are accepted. */
  function IsSupportedFormat(format: ImageFormat): (r: Result<(), DistilError>)
    ensures r.Ok? <==> format == PNG || format == JPEG
    ensures r.Err? ==> r.error == UnsupportedFormat
  {
    match format
    case PNG | JPEG => Ok(())
    case _ => Err(UnsupportedFormat)
  }

  /** The sampler: the channels of the interesting pixels in scan order, or
      `Uninteresting` when there are none. */
  method GetPixels(img: seq<Rgba>) returns (r: Result<seq<u8>, DistilError>)
    ensures r.Ok? ==> r.value == Flatten(Kept(img)) && r.value != []
    ensures r.Err? <==> forall p :: p in img ==> !IsInteresting(p)
    ensures r.Err? ==> r.error == Uninteresting
  {
    var pixels: seq<u8> := [];
    for i := 0 to |img|
      invariant pixels == Flatten(Kept(img[..i]))
    {
      var rgba := img[i];
      assert img[..i + 1] == img[..i] + [rgba];
      KeptSnoc(img[..i], rgba);
      if HasTransparency(rgba) || IsBlack(rgba) || IsWhite(rgba) {
        assert Kept(img[..i + 1]) == Kept(img[..i]) + [];
        assert Kept(img[..i]) + [] == Kept(img[..i]);
        continue;
      }
      assert Kept(img[..i + 1]) == Kept(img[..i]) + [rgba];
      assert Flatten(Kept(img[..i + 1])) == pixels + Channels(rgba) by {
        FlattenAppend(Kept(img[..i]), [rgba]);
        assert Flatten([rgba]) == Channels(rgba) + Flatten([]);
      }
      pixels := pixels + Channels(rgba);
    }
    assert img[..|img|] == img;
    KeptEmpty(img);
    if |pixels| == 0 {
      return Err(Uninteresting);
    }
    return Ok(pixels);
  }

  /** The second fold of the counting step: the map's entries in key
      order, each colour converted to Lab. */
  method ListAsLab<L>(counts: map<Rgb, nat>, fromRgb: Rgb -> L) returns (colorCountVec: seq<Entry<L>>)
    ensures colorCountVec == ToLab(KeyOrder(counts), fromRgb)
  {
    ghost var order := KeyOrder(counts);
    assert order == KeysInOrder(counts.Keys, counts);
    colorCountVec := [];
    var rest := counts.Keys;
    while rest != {}
      invariant rest <= counts.Keys
      invariant ToLab(order, fromRgb) == colorCountVec + ToLab(KeysInOrder(rest, counts), fromRgb)
      decreases rest
    {
      var color :| color in rest && forall c :: c in rest && c != color ==> RgbLess(color, c);
      assert ToLab(KeysInOrder(rest, counts), fromRgb)
          == [Entry(fromRgb(color), counts[color])] + ToLab(KeysInOrder(rest - {color}, counts), fromRgb) by {
        KeysInOrderLeast(rest, counts, color);
        ToLabAppend([Entry(color, counts[color])], KeysInOrder(rest - {color}, counts), fromRgb);
      }
      colorCountVec := colorCountVec + [Entry(fromRgb(color), counts[color])];
      rest := rest - {color};
    }
    assert KeysInOrder(rest, counts) == [];
    assert colorCountVec + [] == colorCountVec;
  }

  /** Counts each distinct colour of the colour map in an ordered map, lists
      the entries in key order converted to Lab, and stably sorts them by
      count, most frequent first. */
  method CountColorsAsLab<L>(pixels: seq<Rgb>, fromRgb: Rgb -> L) returns (r: seq<Entry<L>>)
    ensures r == ToLab(Histogram(pixels), fromRgb)
  {
    var colorCountMap := CountColors(pixels);
    var colorCountVec := ListAsLab(colorCountMap, fromRgb);
    r := StableSort(colorCountVec, Descending);
    StableSortToLab(KeyOrder(colorCountMap), Descending, fromRgb);
  }

  /** The counting step's result has one entry per distinct colour of the
      colour map, each the converted colour with its number of occurrences,
      most frequent first; the counts add up to the colour map's length. */
  lemma {:induction false} CountedShape<L>(pixels: seq<Rgb>, fromRgb: Rgb -> L)
    ensures var r := ToLab(Histogram(pixels), fromRgb);
      && |r| == |Tally(pixels)| <= |pixels|
      && Sum(r) == |pixels|
      && Sorted(r, Descending)
      && forall i :: 0 <= i < |r| ==>
           exists c :: c in pixels && r[i].color == fromRgb(c) && r[i].count == multiset(pixels)[c] >= 1
  {
    var h := Histogram(pixels);
    var r := ToLab(h, fromRgb);
    HistogramSum(pixels);
    HistogramEntries(pixels);
    HistogramOrder(pixels);
    ToLabSum(h, fromRgb);
    forall i | 0 <= i < |r|
      ensures exists c :: c in pixels && r[i].color == fromRgb(c) && r[i].count == multiset(pixels)[c] >= 1
    {
      assert h[i].color in pixels && r[i].color == fromRgb(h[i].color);
    }
  }

  /** What the merge returns: the greedy pass, then each fold blended into
      its target in recording order, then a stable sort by count, most
      frequent first. */
  function Refined<L>(palette: seq<Entry<L>>, similar: (L, L) -> bool, blend: (L, nat, L, nat) -> L): seq<Entry<L>> {
    var st := GreedyPass(palette, similar);
    StableSort(Absorb(st.reps, st.folds, blend), Descending)
  }

  /** The merge: a first loop that appends representatives and records
      folds, comparing against the representatives' original colours; a
      second loop that blends each fold into its target; a final sort. */
  method RemoveSimilarColors<L>(palette: seq<Entry<L>>, similar: (L, L) -> bool, blend: (L, nat, L, nat) -> L)
    returns (refined: seq<Entry<L>>)
    ensures refined == Refined(palette, similar, blend)
  {
    var similars;
    refined, similars := FirstPass(palette, similar);
    refined := ApplyFolds(refined, similars, blend);
    refined := StableSort(refined, Descending);
  }

  /** The merge conserves the total count, never lengthens the palette, and
      returns it most frequent first. */
  lemma {:induction false} RefinedConserves<L>(palette: seq<Entry<L>>, similar: (L, L) -> bool, blend: (L, nat, L, nat) -> L)
    ensures Sum(Refined(palette, similar, blend)) == Sum(palette)
    ensures |Refined(palette, similar, blend)| <= |palette|
    ensures Sorted(Refined(palette, similar, blend), Descending)
  {
    var st := GreedyPass(palette, similar);
    PassSum(palette, similar);
    AbsorbSum(st.reps, st.folds, blend);
    StableSortSum(Absorb(st.reps, st.folds, blend), Descending);
    StableSortSorted(Absorb(st.reps, st.folds, blend), Descending);
  }

  /** With no entry similar to an earlier one the merge only re-sorts; a
      palette that already comes most frequent first, as the histogram does,
      comes back unchanged. */
  lemma {:induction false} RefinedWithoutSimilars<L>(palette: seq<Entry<L>>, similar: (L, L) -> bool, blend: (L, nat, L, nat) -> L)
    requires forall i, j :: 0 <= i < j < |palette| ==> !similar(palette[j].color, palette[i].color)
    ensures Refined(palette, similar, blend) == StableSort(palette, Descending)
    ensures Sorted(palette, Descending) ==> Refined(palette, similar, blend) == palette
  {
    PassWithoutSimilars(palette, similar);
    if Sorted(palette, Descending) {
      StableSortOfSorted(palette, Descending);
    }
  }

  /** The result built from a palette: colour `i` is the RGB form of entry
      `i`, and index `i` maps to entry `i`'s count. */
  function Assemble<L>(palette: seq<Entry<L>>, toRgb: L -> Rgb): Distil {
    Distil(seq(|palette|, i requires 0 <= i < |palette| => toRgb(palette[i].color)),
           map i: nat | i < |palette| :: palette[i].count)
  }

  /** Result assembly: one colour per palette entry, in palette order, and
      an index map whose keys are exactly the positions. */
  method DistilPalette<L>(palette: seq<Entry<L>>, toRgb: L -> Rgb) returns (d: Distil)
    ensures |d.colors| == |palette|
    ensures forall i: nat :: i in d.colorCount <==> i < |palette|
    ensures forall i :: 0 <= i < |palette| ==>
      d.colors[i] == toRgb(palette[i].color) && d.colorCount[i] == palette[i].count
  {
    var colors: seq<Rgb> := [];
    var colorCount: map<nat, nat> := map[];
    for i := 0 to |palette|
      invariant |colors| == i
      invariant forall j: nat :: j in colorCount <==> j < i
      invariant forall j :: 0 <= j < i ==> colors[j] == toRgb(palette[j].color) && colorCount[j] == palette[j].count
    {
      colors := colors + [toRgb(palette[i].color)];
      colorCount := colorCount[i := palette[i].count];
    }
    d := Distil(colors, colorCount);
  }

  /** What the pipeline returns for a decoded image. */
  ghost function Distilled<L>(img: seq<Rgba>, neuQuant: seq<u8> -> seq<Rgb>, cs: ColorScience<L>): Result<Distil, DistilError> {
    if Kept(img) == [] then Err(Uninteresting)
    else
      var colorMap := neuQuant(Flatten(Kept(img)));
      Ok(Assemble(Refined(ToLab(Histogram(colorMap), cs.fromRgb), cs.similar, cs.blend), cs.toRgb))
  }

  /** The pipeline on a decoded image: sample, quantize, count, merge,
      assemble.  The NeuQuant network is the parameter `neuQuant`, from the
      sampled channel stream to the colour map it learns. */
  method New<L>(img: seq<Rgba>, neuQuant: seq<u8> -> seq<Rgb>, cs: ColorScience<L>) returns (r: Result<Distil, DistilError>)
    ensures r == Distilled(img, neuQuant, cs)
  {
    var sampled := GetPixels(img);
    match sampled {
      case Err(err) =>
        KeptEmpty(img);
        return Err(err);
      case Ok(pixels) =>
        var quantized := neuQuant(pixels);
        var colorCount := CountColorsAsLab(quantized, cs.fromRgb);
        var palette := RemoveSimilarColors(colorCount, cs.similar, cs.blend);
        var d := DistilPalette(palette, cs.toRgb);
        assert d.colors == Assemble(palette, cs.toRgb).colors;
        assert d.colorCount == Assemble(palette, cs.toRgb).colorCount;
        KeptEmpty(img);
        return Ok(d);
    }
  }

  /** Opening a file: its sniffed format (None when the file cannot be read
      or its format is not recognised) is checked before decoding, and a
      decoding failure is reported with `pathDebug`, the path as its debug
      rendering prints it, and the decoder's error. */
  method FromPath<L>(pathDebug: string, sniffed: Option<ImageFormat>, decoded: Result<seq<Rgba>, string>,
                     neuQuant: seq<u8> -> seq<Rgb>, cs: ColorScience<L>)
    returns (r: Result<Distil, DistilError>)
    ensures (sniffed.None? || (sniffed.value != PNG && sniffed.value != JPEG)) ==> r == Err(UnsupportedFormat)
    ensures sniffed.Some? && (sniffed.value == PNG || sniffed.value == JPEG) ==>
      r == match decoded
           case Err(cause) => Err(Io(pathDebug, cause))
           case Ok(img) => Distilled(img, neuQuant, cs)
  {
    if sniffed.None? {
      return Err(UnsupportedFormat);
    }
    var supported := IsSupportedFormat(sniffed.value);
    if supported.Err? {
      return Err(supported.error);
    }
    match decoded {
      case Err(cause) =>
        return Err(Io(pathDebug, cause));
      case Ok(img) =>
        r := New(img, neuQuant, cs);
    }
  }

  /** The sum of the counts at indices below `n`. */
  function IndexSum(m: map<nat, nat>, n: nat): nat
    requires forall i: nat :: i < n ==> i in m
  {
    if n == 0 then 0 else IndexSum(m, n - 1) + m[n - 1]
  }

  lemma {:induction false} IndexSumOfPalette<L>(palette: seq<Entry<L>>, toRgb: L -> Rgb, n: nat)
    requires n <= |palette|
    ensures IndexSum(Assemble(palette, toRgb).colorCount, n) == Sum(palette[..n])
  {
    if n > 0 {
      IndexSumOfPalette(palette, toRgb, n - 1);
      assert palette[..n] == palette[..n - 1] + [palette[n - 1]];
      SumAppend(palette[..n - 1], [palette[n - 1]]);
    }
  }

  /** The pipeline fails, with `Uninteresting`, exactly when no pixel of the
      image is interesting. */
  lemma {:induction false} DistilledUninteresting<L>(img: seq<Rgba>, neuQuant: seq<u8> -> seq<Rgb>, cs: ColorScience<L>)
    ensures Distilled(img, neuQuant, cs).Err? <==> forall p :: p in img ==> !IsInteresting(p)
    ensures Distilled(img, neuQuant, cs).Err? ==> Distilled(img, neuQuant, cs).error == Uninteresting
  {
    KeptEmpty(img);
  }

  /** The assembled result indexes its counts 0 to n-1 in palette order;
      they add up to the palette's total, and a palette sorted most frequent
      first gives non-increasing counts by index. */
  lemma {:induction false} AssembledShape<L>(palette: seq<Entry<L>>, toRgb: L -> Rgb)
    ensures var d := Assemble(palette, toRgb);
      && |d.colors| == |palette|
      && (forall i: nat :: i in d.colorCount <==> i < |d.colors|)
      && IndexSum(d.colorCount, |d.colors|) == Sum(palette)
      && (Sorted(palette, Descending) ==> forall i, j :: 0 <= i < j < |d.colors| ==> d.colorCount[i] >= d.colorCount[j])
  {
    IndexSumOfPalette(palette, toRgb, |palette|);
    assert palette[..|palette|] == palette;
  }

  /** A successful result has one count per colour, indexed 0 to n-1, in
      non-increasing order; the counts add up to the length of the colour
      map, and there are never more colours than colour-map entries. */
  lemma {:induction false} DistilledShape<L>(img: seq<Rgba>, neuQuant: seq<u8> -> seq<Rgb>, cs: ColorScience<L>)
    requires Distilled(img, neuQuant, cs).Ok?
    ensures var d := Distilled(img, neuQuant, cs).value;
      && (forall i: nat :: i in d.colorCount <==> i < |d.colors|)
      && IndexSum(d.colorCount, |d.colors|) == |neuQuant(Flatten(Kept(img)))|
      && |d.colors| <= |neuQuant(Flatten(Kept(img)))|
      && forall i, j :: 0 <= i < j < |d.colors| ==> d.colorCount[i] >= d.colorCount[j]
  {
    var colorMap := neuQuant(Flatten(Kept(img)));
    var h := ToLab(Histogram(colorMap), cs.fromRgb);
    var palette := Refined(h, cs.similar, cs.blend);
    assert Distilled(img, neuQuant, cs).value == Assemble(palette, cs.toRgb);
    assert Sum(h) == |colorMap| && |h| <= |colorMap| by {
      HistogramSum(colorMap);
      ToLabSum(Histogram(colorMap), cs.fromRgb);
    }
    RefinedConserves(h, cs.similar, cs.blend);
    AssembledShape(palette, cs.toRgb);
  }
}
