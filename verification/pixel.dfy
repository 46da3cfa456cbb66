/** Pixels, the interestingness filter and the channel stream handed to the
    quantizer.  The filter predicates are shared by the library and by the
    earlier draft pipeline, whose copies are identical. */
module Pixel {

  /** An 8-bit channel value. */
  newtype u8 = x: int | 0 <= x < 256

  /** A pixel whose three colour channels are all below this is near-black. */
  const MIN_BLACK: u8 := 8
  /** A pixel whose three colour channels are all above this is near-white. */
  const MAX_WHITE: u8 := 247

  datatype Rgba = Rgba(r: u8, g: u8, b: u8, a: u8)
  datatype Rgb = Rgb(r: u8, g: u8, b: u8)

  /** The pixel is not fully opaque. */
  predicate HasTransparency(p: Rgba) {
    p.a != 255
  }

  /** The pixel is too dark to be interesting. */
  predicate IsBlack(p: Rgba) {
    p.r < MIN_BLACK && p.g < MIN_BLACK && p.b < MIN_BLACK
  }

  /** The pixel is too light to be interesting. */
  predicate IsWhite(p: Rgba) {
    p.r > MAX_WHITE && p.g > MAX_WHITE && p.b > MAX_WHITE
  }

  /** The pixel survives the sampler: the negation of the test on which the
      scan loop skips a pixel. */
  predicate IsInteresting(p: Rgba) {
    !(HasTransparency(p) || IsBlack(p) || IsWhite(p))
  }

  /** The channels the sampler pushes for one pixel, in channel order. */
  function Channels(p: Rgba): seq<u8> {
    [p.r, p.g, p.b, p.a]
  }

  /** The interesting pixels of an image, in scan order.  Membership is stated
      directly in terms of the channel thresholds. */
  function Kept(img: seq<Rgba>): (r: seq<Rgba>)
    ensures |r| <= |img|
  {
    if img == [] then []
    else if IsInteresting(img[0]) then [img[0]] + Kept(img[1..])
    else Kept(img[1..])
  }

  /** A pixel of the image is kept exactly when it is opaque, not all its
      colour channels are below 8 and not all of them are above 247; every
      kept pixel comes from the image. */
  lemma {:induction false} KeptRule(img: seq<Rgba>)
    ensures forall k :: 0 <= k < |Kept(img)| ==> Kept(img)[k] in img
    ensures forall p :: p in img ==>
      (p in Kept(img) <==> p.a == 255
                           && !(p.r < 8 && p.g < 8 && p.b < 8)
                           && !(p.r > 247 && p.g > 247 && p.b > 247))
  {
    if img != [] {
      KeptRule(img[1..]);
      assert forall p :: p in img ==> p == img[0] || p in img[1..];
    }
  }

  /** The channel stream of a pixel sequence: four channels per pixel,
      concatenated in order. */
  function Flatten(ps: seq<Rgba>): (r: seq<u8>)
    ensures |r| == 4 * |ps|
    ensures forall k, c :: 0 <= k < |ps| && 0 <= c < 4 ==> r[4 * k + c] == Channels(ps[k])[c]
  {
    if ps == [] then [] else Channels(ps[0]) + Flatten(ps[1..])
  }

  /** Scanning one more pixel extends the kept sequence only if that pixel
      is interesting. */
  lemma {:induction false} KeptSnoc(img: seq<Rgba>, p: Rgba)
    ensures Kept(img + [p]) == Kept(img) + (if IsInteresting(p) then [p] else [])
  {
    if img != [] {
      assert (img + [p])[1..] == img[1..] + [p];
      KeptSnoc(img[1..], p);
    }
  }

  /** The channel stream of a concatenation is the concatenation of the
      channel streams. */
  lemma {:induction false} FlattenAppend(a: seq<Rgba>, b: seq<Rgba>)
    ensures Flatten(a + b) == Flatten(a) + Flatten(b)
  {
    if a != [] {
      assert (a + b)[1..] == a[1..] + b;
      FlattenAppend(a[1..], b);
    } else {
      assert a + b == b;
    }
  }

  /** Nothing is kept exactly when no pixel of the image is interesting. */
  lemma {:induction false} KeptEmpty(img: seq<Rgba>)
    ensures Kept(img) == [] <==> forall p :: p in img ==> !IsInteresting(p)
  {
    if img != [] {
      KeptEmpty(img[1..]);
      assert forall p :: p in img ==> p == img[0] || p in img[1..];
    }
  }
}
