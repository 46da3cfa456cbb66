/** The library's blend, idealised in exact reals: a representative of
    colour x and weight cx absorbing a folded entry of colour y and weight cy
    moves to the count-weighted mean of the two, axis by axis.  Under this
    blend the second merge loop leaves every representative at the weighted
    centroid of itself and everything folded into it. */
module Centroid {
  import opened Ranking
  import opened Merge

  /** A CIELAB colour: lightness and the two opponent axes. */
  datatype Lab = Lab(l: real, a: real, b: real)

  /** A colour weighted by a count: its first moment. */
  function Scale(c: Lab, k: nat): Lab {
    Lab(c.l * k as real, c.a * k as real, c.b * k as real)
  }

  function Add(p: Lab, q: Lab): Lab {
    Lab(p.l + q.l, p.a + q.a, p.b + q.b)
  }

  /** One weighted mean of a coordinate, kept apart so that the solver sees
      one division at a time. */
  function Mean(x: real, cx: nat, y: real, cy: nat): (m: real)
    requires cx + cy > 0
    ensures m * (cx + cy) as real == x * cx as real + y * cy as real
  {
    (x * cx as real + y * cy as real) / (cx + cy) as real
  }

  /** The weighted mean of two colours; with no weight at all the
      representative keeps its colour.  Whatever the weights, the blended
      colour carries the combined moment. */
  function Blend(x: Lab, cx: nat, y: Lab, cy: nat): (r: Lab)
    ensures Scale(r, cx + cy) == Add(Scale(x, cx), Scale(y, cy))
  {
    if cx + cy == 0 then
      assert cx as real == 0.0 && cy as real == 0.0;
      x
    else Lab(Mean(x.l, cx, y.l, cy), Mean(x.a, cx, y.a, cy), Mean(x.b, cx, y.b, cy))
  }

  /** The combined moment of the folds recorded against representative `i`. */
  function TargetMoment(folds: seq<Fold<Lab>>, i: nat): Lab {
    if folds == [] then Lab(0.0, 0.0, 0.0)
    else
      var f := folds[|folds| - 1];
      var rest := TargetMoment(folds[..|folds| - 1], i);
      if f.target == i then Add(rest, Scale(f.color, f.count)) else rest
  }

  /** After the second loop, each representative's moment is its own moment
      plus the moments of everything folded into it. */
  lemma {:induction false} AbsorbMoment(reps: seq<Entry<Lab>>, folds: seq<Fold<Lab>>, i: nat)
    requires forall k :: 0 <= k < |folds| ==> folds[k].target < |reps|
    requires i < |reps|
    ensures Scale(Absorb(reps, folds, Blend)[i].color, Absorb(reps, folds, Blend)[i].count)
         == Add(Scale(reps[i].color, reps[i].count), TargetMoment(folds, i))
  {
    if folds != [] {
      var init := folds[..|folds| - 1];
      var f := folds[|folds| - 1];
      AbsorbMoment(reps, init, i);
      var r := Absorb(reps, init, Blend);
      if f.target == i {
        var e := r[i];
        assert Absorb(reps, folds, Blend)[i] == Entry(Blend(e.color, e.count, f.color, f.count), e.count + f.count);
      } else {
        assert Absorb(reps, folds, Blend)[i] == r[i];
      }
    }
  }

  /** A moment divided back by a positive weight. */
  function Shrink(m: Lab, n: nat): Lab
    requires n > 0
  {
    Lab(m.l / n as real, m.a / n as real, m.b / n as real)
  }

  /** A representative with any weight ends at the weighted centroid: each
      coordinate is the combined moment divided by the combined count. */
  lemma {:induction false} AbsorbCentroid(reps: seq<Entry<Lab>>, folds: seq<Fold<Lab>>, i: nat)
    requires forall k :: 0 <= k < |folds| ==> folds[k].target < |reps|
    requires i < |reps|
    requires reps[i].count + TargetSum(folds, i) > 0
    ensures Absorb(reps, folds, Blend)[i].color
         == Shrink(Add(Scale(reps[i].color, reps[i].count), TargetMoment(folds, i)), reps[i].count + TargetSum(folds, i))
  {
    var e := Absorb(reps, folds, Blend)[i];
    AbsorbMoment(reps, folds, i);
    AbsorbCounts(reps, folds, Blend, i);
    ShrinkScale(e.color, e.count);
  }

  lemma {:induction false} ShrinkScale(c: Lab, n: nat)
    requires n > 0
    ensures Shrink(Scale(c, n), n) == c
  {
    Unscale(c.l, n as real, c.l * n as real);
    Unscale(c.a, n as real, c.a * n as real);
    Unscale(c.b, n as real, c.b * n as real);
  }

  lemma {:induction false} Unscale(x: real, n: real, y: real)
    requires n != 0.0 && x * n == y
    ensures x == y / n
  {
  }
}
