# distil — a verified model of the palette pipeline

distil turns an image into a short palette: the colours it is made of, most
frequent first, each with a weight. The pipeline has these stages:

1. **Sampler.** It drops pixels that are transparent, near-black (all three
   colour channels below 8) or near-white (all three above 247). It streams
   the channels of the remaining pixels to the NeuQuant quantizer.
2. **Histogram.** It counts the colours of the quantizer's colour map in an
   ordered map, lists them in key order, and stably sorts them by count.
3. **Merge.** It makes one greedy pass that keeps an entry as a new
   representative or records it against the first representative that is
   perceptually similar. It then applies the recorded merges and sorts again.
4. **Assembly.** It builds the list of RGB colours and an index-to-count map.

The library (`src/lib.rs`) and an earlier draft kept in the binary
(`src/main.rs`) both implement this pipeline.
- The draft's sampler never fails.
- The draft's merge only adds counts.
- The draft's final sort is ascending.

The model keeps the colour science abstract. The Lab colour type is a type
parameter, and four functions are parameters:
- the conversion from RGB;
- the conversion back to RGB;
- "CIEDE2000 difference below 10";
- the weighted blend.

`Centroid` instantiates the blend with an exact-real weighted mean. The
NeuQuant network is also a parameter: a function from the sampled channel
stream to the colour map it learns.

Modules, one per file:
- `Pixel` (pixel.dfy): pixels, the three filter predicates, the kept
  pixels, the channel stream.
- `Ranking` (ranking.dfy): weighted entries, totals, the positionwise colour
  conversion, and a stable sort by count in either direction.
- `ColorHistogram` (histogram.dfy): the ordered-map fold, key-order
  iteration, and the histogram.
- `Merge` (merge.dfy): the greedy pass and the deferred application of
  merges. Both pipelines share it.
- `Distil` (distil.dfy): the library's format gate, sampler, counting,
  merge, assembly and the composed pipeline.
- `Draft` (draft.dfy): the draft pipeline.
- `Centroid` (centroid.dfy): the library's blend, idealised in reals.
- `Results` (results.dfy): `Option` and `Result`.

The imperative functions of the source become Dafny methods with the source's
loops, including its `continue` and its `is_similar` flag. Each method is
proved equal to a specification function: `Kept`/`Flatten`, `Tally`,
`KeyOrder`, `Histogram`, `FirstSimilar`, `GreedyPass`, `Absorb`, `Refined`,
`Merged`, `Assemble`, `Distilled` and `Drafted`. The lemmas state what the
source promises about those functions.

Where a source function chains several loops, each loop is its own method,
and the function's method calls them in the source's order.
- The inner scan of the merge stops at the first similar representative.
  The `break` becomes an early return of `Merge.FindSimilar`.
- The merge's first loop is `Merge.FirstPass` or `Draft.FirstPass`.
- The merge's second loop is `Merge.ApplyFolds` or `Draft.AddCounts`.
- The histogram's map fold is `ColorHistogram.CountColors`.
- The histogram's key-order fold is `Distil.ListAsLab` or
  `Draft.ListEntries`.

Two choices stand in for library code:
- **BTreeMap.** A `map<Rgb, nat>` stands for it. Its iteration is repeated
  extraction of the least key in channel-lexicographic order, the order of
  the `&[u8]` slice keys.
- **`sort_by`.** Rust's `sort_by` is stable, so its result is unique. A
  functional stable insertion sort stands for it.

Where the code and the design description disagree, the model follows the
code:
- **What the counts add up to.** The histogram counts NeuQuant's colour map,
  not the sampled pixels (`src/lib.rs:115-117`, `src/lib.rs:225-233`). The
  counts therefore add up to the colour-map length, as the doc comment at
  `src/lib.rs:57-59` says, and not to the number of kept pixels.
- **How ties are broken.** Ties between equal counts follow ascending RGB key
  order, the BTreeMap iteration order, not first-seen order.
- **Which pixels are dropped.** A pixel is dropped as near-black only when
  all three of its colour channels are below 8. The doc comment at
  `src/lib.rs:42-43` reads as "between RGB(8, 8, 8) and RGB(247, 247, 247)".

## Model

| member | source | states |
|---|---|---|
| Pixel.Kept | src/lib.rs:246-251 | the kept pixels are never more than the image's pixels |
| Pixel.KeptRule | src/lib.rs:266-280 | a pixel of the image is kept iff its alpha is 255, not all of r, g, b are below 8 and not all are above 247; every kept pixel comes from the image |
| Pixel.KeptSnoc | src/lib.rs:246-251 | scanning one more pixel appends it to the kept pixels exactly when it passes the filter, and otherwise changes nothing |
| Pixel.Flatten | src/lib.rs:253-255 | the stream has four channels per pixel; channel c of pixel k sits at index 4k+c |
| Pixel.FlattenAppend | src/lib.rs:253-255 | the stream of a concatenation is the concatenation of the streams |
| Pixel.KeptEmpty | src/lib.rs:258-260 | nothing is kept exactly when no pixel of the image is interesting |
| Ranking.ToLab | src/main.rs:124-131 | the conversion keeps the length; each position keeps its count and gets the converted colour |
| Ranking.ToLabAppend | src/main.rs:124-131 | converting a concatenation converts each part |
| Ranking.ToLabSum | src/main.rs:124-131 | converting colours keeps the total count |
| Ranking.StableSort | src/lib.rs:298 | the sort keeps the length (its stability is `Ranking.StableSortStable`) |
| Ranking.StableSortStable | src/lib.rs:346 | the sort is stable in either direction: for every count, the entries of that count leave in the order they came in, so equal-count representatives keep their order of appending (as in the draft's ascending sort at `src/main.rs:159`) |
| Ranking.StableSortPermutes | src/lib.rs:298 | the sort's result is a permutation of its input |
| Ranking.StableSortSum | src/lib.rs:298 | the sort keeps the total count |
| Ranking.StableSortKeeps | src/lib.rs:298 | every entry of the input appears in the result |
| Ranking.StableSortFrom | src/lib.rs:298 | every entry of the result is an entry of the input |
| Ranking.StableSortSorted | src/lib.rs:298 | the result is ordered by count in the requested direction |
| Ranking.StableSortOfSorted | src/lib.rs:346 | an input that is already in order comes back unchanged |
| Ranking.StableSortToLab | src/lib.rs:291-298 | sorting before or after the colour conversion gives the same sequence |
| ColorHistogram.MinColor | src/lib.rs:291 | the least key of a non-empty key set is in the set and below every other key |
| ColorHistogram.CountColors | src/lib.rs:285-289 | the fold's map is the tally of the colour list |
| ColorHistogram.Tally | src/lib.rs:285-289 | the map has a key exactly for each colour of the list, and no more keys than list entries |
| ColorHistogram.TallyCounts | src/lib.rs:285-289 | each key maps to its colour's number of occurrences |
| ColorHistogram.KeysInOrderSound | src/lib.rs:291-296 | iteration lists as many entries as keys; each entry is a key with its count; keys strictly ascend |
| ColorHistogram.KeysInOrderComplete | src/lib.rs:291-296 | iteration lists every key |
| ColorHistogram.KeyOrderEntries | src/lib.rs:291-296 | iteration over the whole map visits every key once, in strictly ascending order, with its count |
| ColorHistogram.TallySum | src/lib.rs:284-296 | the counts listed in key order add up to the list's length |
| ColorHistogram.StableSortKeepsKeyOrder | src/lib.rs:298 | entries of equal count leave the descending sort in ascending key order |
| ColorHistogram.HistogramSum | src/lib.rs:284-298 | the counts add up to the list's length; one entry per distinct colour, never more than the list's length |
| ColorHistogram.HistogramEntries | src/lib.rs:284-298 | every entry is a colour of the list with its number of occurrences, at least 1 |
| ColorHistogram.HistogramCovers | src/lib.rs:284-298 | every colour of the list has an entry |
| ColorHistogram.HistogramOrder | src/lib.rs:284-298 | most frequent first, ties in ascending key order, no colour listed twice |
| Merge.FirstSimilarAt | src/lib.rs:310-318 | an index that is similar, with no similar index below it, is the one found |
| Merge.FirstSimilarNone | src/lib.rs:310-318 | with no similar representative nothing is found |
| Merge.FindSimilar | src/lib.rs:310-318 | the scan returns the lowest-index similar representative, or none |
| Merge.FirstSimilar | src/lib.rs:310-318 | the found index is similar and no lower index is; with no result, no representative is similar |
| Merge.FirstPass | src/lib.rs:307-323 | the first loop's representatives and recorded merges are the greedy pass |
| Merge.GreedyPass | src/lib.rs:307-323 | every input entry becomes a representative or a recorded merge; every merge targets an existing representative |
| Merge.PassFoldsFirstMatch | src/lib.rs:310-317 | every recorded merge targets the lowest-index representative similar to the merged entry's original colour |
| Merge.PassRepsApart | src/lib.rs:320-322 | no representative is similar to an earlier representative's colour |
| Merge.PassPermutes | src/lib.rs:307-323 | each input entry ends up exactly once, as a representative or as a recorded merge |
| Merge.PassSum | src/lib.rs:307-323 | representatives and recorded merges together carry the input's total count |
| Merge.PassWithoutSimilars | src/lib.rs:307-323 | with no entry similar to an earlier one, all entries become representatives in input order and nothing is recorded |
| Merge.ApplyFolds | src/lib.rs:325-344 | the second loop's result is every recorded merge applied to its target in recording order |
| Merge.Absorb | src/lib.rs:325-344 | applying the merges keeps the number of representatives |
| Merge.AbsorbCounts | src/lib.rs:343 | each representative's count grows by exactly the counts merged into it |
| Merge.AbsorbSum | src/lib.rs:325-344 | applying the merges conserves the total count |
| Merge.AbsorbKeepsColors | src/main.rs:155-157 | with the count-only update every representative keeps its original colour |
| Distil.IsSupportedFormat | src/lib.rs:186-195 | Ok exactly for PNG and JPEG; every other format is UnsupportedFormat |
| Distil.GetPixels | src/lib.rs:243-263 | Ok holds the kept pixels' channels in scan order and is never empty; the result is Uninteresting iff no pixel is interesting |
| Distil.ListAsLab | src/lib.rs:291-296 | the map's entries in ascending key order, each colour converted |
| Distil.CountColorsAsLab | src/lib.rs:284-301 | the result is the histogram of the colour map, converted positionwise |
| Distil.CountedShape | src/lib.rs:284-301 | one entry per distinct colour, each the converted colour with its occurrence count of at least 1; counts add up to the input length; most frequent first |
| Distil.RemoveSimilarColors | src/lib.rs:303-349 | the result is the greedy pass, with each merge blended into its target in recording order, then stably sorted most frequent first |
| Distil.RefinedConserves | src/lib.rs:303-349 | the merge conserves the total count, never lengthens the palette, and returns it most frequent first |
| Distil.RefinedWithoutSimilars | src/lib.rs:307-346 | with no similar pair the merge only re-sorts; a palette already most frequent first comes back unchanged |
| Distil.DistilPalette | src/lib.rs:353-366 | one colour per entry in palette order; the keys of the count map are exactly 0..n-1, and key i holds entry i's count |
| Distil.AssembledShape | src/lib.rs:353-366 | the count map's keys are exactly 0..n-1; the counts add up to the palette total; a palette sorted most frequent first gives non-increasing counts by index |
| Distil.IndexSumOfPalette | src/lib.rs:357-360 | the counts under the first n keys add up to the first n entries' counts |
| Distil.New | src/lib.rs:112-124 | the pipeline's result on a decoded image is sample, then quantize, count, merge and assemble |
| Distil.FromPath | src/lib.rs:101-110 | an unrecognised or unsupported format gives UnsupportedFormat before decoding; a decoding failure gives Io with the path's debug rendering and the decoder's error; otherwise the result is the pipeline's |
| Distil.DistilledUninteresting | src/lib.rs:112-124 | the pipeline fails, with Uninteresting, exactly when no pixel is interesting |
| Distil.DistilledShape | src/lib.rs:57-63 | a result indexes its counts 0..n-1 in non-increasing order; the counts add up to the colour-map length; never more colours than colour-map entries |
| Draft.GetPixels | src/main.rs:72-88 | the kept pixels' channels in scan order; empty exactly when no pixel is interesting |
| Draft.ListEntries | src/main.rs:99-103 | the map's entries in ascending key order |
| Draft.GetHistogram | src/main.rs:92-108 | the result is the histogram of the colour list |
| Draft.Pairs | src/main.rs:144 | one (target, count) pair per recorded merge, in order |
| Draft.FirstPass | src/main.rs:137-153 | the first loop's representatives are those of the greedy pass; its pairs are the targets and counts of the pass's merges |
| Draft.AddCounts | src/main.rs:155-157 | the second loop's result is every recorded count added to its target, with colours unchanged |
| Draft.RemoveSimilarColors | src/main.rs:133-162 | the result is the greedy pass, with each merged count added to its target, then stably sorted least frequent first |
| Draft.MergedConserves | src/main.rs:133-162 | the draft merge conserves the total count, never lengthens the palette, and returns it in ascending count order |
| Draft.MergedBeforeSort | src/main.rs:155-157 | before the sort every representative has its original colour and its own count plus the counts merged into it |
| Draft.MergedColorsFromPalette | src/main.rs:137-157 | every output colour is the colour of an input entry |
| Draft.New | src/main.rs:28-33 | the draft's palette is sample, then quantize, histogram, convert and merge |
| Draft.DraftedShape | src/main.rs:28-33 | the draft palette's counts add up to the colour-map length; it is never longer than the colour map and comes in ascending count order |
| Centroid.Mean | src/lib.rs:333-335 | the weighted mean times the total weight is the weighted sum |
| Centroid.Blend | src/lib.rs:325-341 | the blended colour, weighted by the combined count, is the sum of the two weighted colours |
| Centroid.AbsorbMoment | src/lib.rs:325-344 | after the merges, each representative's weighted colour is its own plus that of everything merged into it |
| Centroid.AbsorbCentroid | src/lib.rs:325-344 | a representative with positive final weight sits at the weighted centroid of itself and everything merged into it |

## Left out

- File and decoder I/O is not modelled: `get_image_format`, `image::open` and the file writes. `Distil.FromPath` takes the sniffed format (`None` when the file cannot be read or is not recognised) and the decoder's outcome as parameters.
- Distil.FromPath: the `Io` payload is abstracted. `format!("{:?}", path)` is taken as the string parameter `pathDebug`, and the decoder's `ImageError` as a string.
- `from_path_str` is a path conversion in front of `from_path` and is not modelled.
- `scale_img` is not modelled: it is f32 arithmetic and the `image` crate's Gaussian resize. The model receives the scaled image's pixels in scan order.
- NeuQuant training in `quantize` is an external crate. It is the parameter `neuQuant`, from the channel stream to the colour-map triples. The crate's 256-entry bound is not assumed.
- The RGB-to-CIELAB conversion, its inverse and the CIEDE2000 difference are floating-point numerics from foreign crates. They are the parameters `fromRgb`, `toRgb` and `similar`.
- Centroid.Blend: models the library's f32 weighted mean in exact reals, so f32 rounding is not captured. With zero total weight it keeps the representative's colour; f32 gives NaN there. The pipeline's counts are always at least 1, so that case never arises.
- Counts are unbounded naturals. The source's `usize` counts never exceed the colour-map length, and the `as f32`/`as usize` round trip on line 343 is exact below 2^24. Overflow therefore cannot occur and is not modelled.
- `as_img` and `output_palette_as_img` render swatches into an image buffer and a file, and are not modelled. Their `palette_size as usize - 1` underflows when `palette_size` is 0.
- The draft's `Distil::new` ends in that swatch writer. `Draft.New` returns the palette the writer would receive.
- The tests depend on absolute local paths and are not modelled.
- The in-place `sort_by` calls and the in-place update of `refined_palette[i]` are modelled on sequence values. A Rust `Vec` is owned and never aliased, so nothing is lost.
