/** The colour histogram: an ordered map from RGB triple to the number of
    times it occurs, flattened in ascending key order and then stably sorted
    by count, most frequent first. */
module ColorHistogram {
  import opened Pixel
  import opened Ranking

  /** The order of the ordered map's keys: each triple is keyed by its channel
      slice, and slices of equal length compare lexicographically. */
  predicate RgbLess(a: Rgb, b: Rgb) {
    a.r < b.r || (a.r == b.r && (a.g < b.g || (a.g == b.g && a.b < b.b)))
  }

  /** The least key of a non-empty set of keys. */
  ghost function MinColor(s: set<Rgb>): (m: Rgb)
    requires s != {}
    ensures m in s
    ensures forall c :: c in s && c != m ==> RgbLess(m, c)
    decreases s
  {
    var x :| x in s;
    if s == {x} then
      assert forall c :: c in s ==> c == x;
      x
    else
      var m := MinColor(s - {x});
      assert forall c :: c in s && c != x ==> c in s - {x};
      if RgbLess(x, m) then x else m
  }

  /** A key below every other key of `s` is the least key. */
  lemma {:induction false} LeastIsMin(s: set<Rgb>, k: Rgb)
    requires k in s
    requires forall c :: c in s && c != k ==> RgbLess(k, c)
    ensures k == MinColor(s)
  {
  }

  /** The map the fold builds: each pixel's entry is created at 0 if absent
      and then incremented. */
  function Tally(pixels: seq<Rgb>): (m: map<Rgb, nat>)
    ensures |m| <= |pixels|
    ensures forall c :: c in m <==> c in pixels
  {
    if pixels == [] then map[]
    else
      var prev := Tally(pixels[..|pixels| - 1]);
      var p := pixels[|pixels| - 1];
      assert pixels == pixels[..|pixels| - 1] + [p];
      prev[p := (if p in prev then prev[p] else 0) + 1]
  }

  /** Folding one more pixel creates its entry at 0 if absent and
      increments it. */
  lemma TallySnoc(pixels: seq<Rgb>, n: nat)
    requires n < |pixels|
    ensures var m := Tally(pixels[..n]);
      Tally(pixels[..n + 1]) == m[pixels[n] := (if pixels[n] in m then m[pixels[n]] else 0) + 1]
  {
    assert pixels[..n + 1][..n] == pixels[..n];
  }

  /** The fold both pipelines start with: each pixel's entry is created at 0
      if absent and then incremented. */
  method CountColors(pixels: seq<Rgb>) returns (counts: map<Rgb, nat>)
    ensures counts == Tally(pixels)
  {
    counts := map[];
    for i := 0 to |pixels|
      invariant counts == Tally(pixels[..i])
    {
      var px := pixels[i];
      TallySnoc(pixels, i);
      counts := counts[px := (if px in counts then counts[px] else 0) + 1];
    }
    assert pixels[..|pixels|] == pixels;
  }

  /** Each colour's count is its number of occurrences. */
  lemma {:induction false} TallyCounts(pixels: seq<Rgb>)
    ensures forall c :: c in Tally(pixels) ==> Tally(pixels)[c] == multiset(pixels)[c]
  {
    if pixels != [] {
      var init := pixels[..|pixels| - 1];
      TallyCounts(init);
      assert pixels == init + [pixels[|pixels| - 1]];
    }
  }

  /** Listing a key set starts with its least key. */
  lemma {:induction false} KeysInOrderLeast(keys: set<Rgb>, m: map<Rgb, nat>, k: Rgb)
    requires keys <= m.Keys && k in keys
    requires forall c :: c in keys && c != k ==> RgbLess(k, c)
    ensures KeysInOrder(keys, m) == [Entry(k, m[k])] + KeysInOrder(keys - {k}, m)
  {
    LeastIsMin(keys, k);
  }

  /** The entries of `m` whose keys are in `keys`, in ascending key order. */
  ghost function KeysInOrder(keys: set<Rgb>, m: map<Rgb, nat>): seq<Entry<Rgb>>
    requires keys <= m.Keys
    decreases keys
  {
    if keys == {} then []
    else
      var k := MinColor(keys);
      [Entry(k, m[k])] + KeysInOrder(keys - {k}, m)
  }

  /** The map's entries in ascending key order, as its iterator yields them. */
  ghost function KeyOrder(m: map<Rgb, nat>): seq<Entry<Rgb>> {
    KeysInOrder(m.Keys, m)
  }

  /** The histogram of a colour list: one entry per distinct colour, most
      frequent first, ties in ascending key order. */
  ghost function Histogram(pixels: seq<Rgb>): seq<Entry<Rgb>> {
    StableSort(KeyOrder(Tally(pixels)), Descending)
  }

  /** Each listed entry is a key of `keys` with its count, and the keys are
      strictly ascending. */
  lemma {:induction false} KeysInOrderSound(keys: set<Rgb>, m: map<Rgb, nat>)
    requires keys <= m.Keys
    ensures |KeysInOrder(keys, m)| == |keys|
    ensures forall i :: 0 <= i < |KeysInOrder(keys, m)| ==>
      KeysInOrder(keys, m)[i].color in keys && KeysInOrder(keys, m)[i].count == m[KeysInOrder(keys, m)[i].color]
    ensures forall i, j :: 0 <= i < j < |KeysInOrder(keys, m)| ==> RgbLess(KeysInOrder(keys, m)[i].color, KeysInOrder(keys, m)[j].color)
    decreases keys
  {
    if keys != {} {
      var k := MinColor(keys);
      KeysInOrderSound(keys - {k}, m);
      assert KeysInOrder(keys, m) == [Entry(k, m[k])] + KeysInOrder(keys - {k}, m);
    }
  }

  /** Every key of `keys` is listed. */
  lemma {:induction false} KeysInOrderComplete(keys: set<Rgb>, m: map<Rgb, nat>, c: Rgb)
    requires keys <= m.Keys && c in keys
    ensures exists i :: 0 <= i < |KeysInOrder(keys, m)| && KeysInOrder(keys, m)[i].color == c
    decreases keys
  {
    var k := MinColor(keys);
    var r := KeysInOrder(keys, m);
    assert r == [Entry(k, m[k])] + KeysInOrder(keys - {k}, m);
    if c != k {
      KeysInOrderComplete(keys - {k}, m, c);
      var i :| 0 <= i < |KeysInOrder(keys - {k}, m)| && KeysInOrder(keys - {k}, m)[i].color == c;
      assert r[i + 1].color == c;
    } else {
      assert r[0].color == c;
    }
  }

  /** Iteration visits every key of the map once, in strictly ascending order,
      with its count. */
  lemma {:induction false} KeyOrderEntries(m: map<Rgb, nat>)
    ensures |KeyOrder(m)| == |m|
    ensures forall i :: 0 <= i < |KeyOrder(m)| ==>
      KeyOrder(m)[i].color in m && KeyOrder(m)[i].count == m[KeyOrder(m)[i].color]
    ensures forall c :: c in m ==> exists i :: 0 <= i < |KeyOrder(m)| && KeyOrder(m)[i].color == c
    ensures forall i, j :: 0 <= i < j < |KeyOrder(m)| ==> RgbLess(KeyOrder(m)[i].color, KeyOrder(m)[j].color)
  {
    KeysInOrderSound(m.Keys, m);
    forall c | c in m
      ensures exists i :: 0 <= i < |KeyOrder(m)| && KeyOrder(m)[i].color == c
    {
      KeysInOrderComplete(m.Keys, m, c);
      assert KeyOrder(m) == KeysInOrder(m.Keys, m);
    }
  }

  /** Taking one key out of the key set takes that key's count out of the
      total, whichever key it is. */
  lemma {:induction false} KeysInOrderSumWithout(keys: set<Rgb>, m: map<Rgb, nat>, k: Rgb)
    requires keys <= m.Keys && k in keys
    ensures Sum(KeysInOrder(keys, m)) == m[k] + Sum(KeysInOrder(keys - {k}, m))
    decreases keys
  {
    var k0 := MinColor(keys);
    if k != k0 {
      KeysInOrderSumWithout(keys - {k0}, m, k);
      KeysInOrderSumWithout(keys - {k}, m, k0);
      assert keys - {k0} - {k} == keys - {k} - {k0};
    }
  }

  /** The listed entries depend only on the values of the listed keys. */
  lemma {:induction false} KeysInOrderAgree(keys: set<Rgb>, m: map<Rgb, nat>, m': map<Rgb, nat>)
    requires keys <= m.Keys && keys <= m'.Keys
    requires forall c :: c in keys ==> m[c] == m'[c]
    ensures KeysInOrder(keys, m) == KeysInOrder(keys, m')
    decreases keys
  {
    if keys != {} {
      KeysInOrderAgree(keys - {MinColor(keys)}, m, m');
    }
  }

  /** The histogram's counts add up to the length of the colour list. */
  lemma {:induction false} TallySum(pixels: seq<Rgb>)
    ensures Sum(KeyOrder(Tally(pixels))) == |pixels|
  {
    if pixels != [] {
      var init := pixels[..|pixels| - 1];
      var p := pixels[|pixels| - 1];
      var prev := Tally(init);
      var m := Tally(pixels);
      assert m == prev[p := (if p in prev then prev[p] else 0) + 1];
      TallySum(init);
      KeysInOrderSumWithout(m.Keys, m, p);
      KeysInOrderAgree(prev.Keys - {p}, prev, m);
      assert m.Keys - {p} == prev.Keys - {p};
      if p in prev {
        KeysInOrderSumWithout(prev.Keys, prev, p);
      } else {
        assert prev.Keys - {p} == prev.Keys;
      }
    }
  }

  /** Stability with an input in strictly ascending key order: entries of
      equal count come out in ascending key order. */
  lemma {:induction false} StableSortKeepsKeyOrder(s: seq<Entry<Rgb>>)
    requires forall i, j :: 0 <= i < j < |s| ==> RgbLess(s[i].color, s[j].color)
    ensures forall i, j :: 0 <= i < j < |StableSort(s, Descending)| && StableSort(s, Descending)[i].count == StableSort(s, Descending)[j].count ==>
      RgbLess(StableSort(s, Descending)[i].color, StableSort(s, Descending)[j].color)
  {
    if s != [] {
      var t := StableSort(s[1..], Descending);
      StableSortKeepsKeyOrder(s[1..]);
      forall k | 0 <= k < |t|
        ensures RgbLess(s[0].color, t[k].color)
      {
        StableSortFrom(s[1..], Descending, k);
        var m :| 0 <= m < |s[1..]| && t[k] == s[1..][m];
        assert s[1..][m] == s[m + 1];
      }
      InsertKeepsKeyOrder(s[0], t);
    }
  }

  lemma {:induction false} InsertKeepsKeyOrder(e: Entry<Rgb>, t: seq<Entry<Rgb>>)
    requires forall k :: 0 <= k < |t| ==> RgbLess(e.color, t[k].color)
    requires forall i, j :: 0 <= i < j < |t| && t[i].count == t[j].count ==> RgbLess(t[i].color, t[j].color)
    ensures forall i, j :: 0 <= i < j < |Insert(e, t, Descending)| && Insert(e, t, Descending)[i].count == Insert(e, t, Descending)[j].count ==>
      RgbLess(Insert(e, t, Descending)[i].color, Insert(e, t, Descending)[j].color)
  {
    if t != [] && !InOrder(Descending, e.count, t[0].count) {
      var r := Insert(e, t[1..], Descending);
      InsertKeepsKeyOrder(e, t[1..]);
      forall k | 0 <= k < |r|
        ensures t[0].count == r[k].count ==> RgbLess(t[0].color, r[k].color)
      {
        InsertFrom(e, t[1..], Descending, k);
        if r[k] != e {
          var m :| 0 <= m < |t[1..]| && r[k] == t[1..][m];
          assert r[k] == t[m + 1];
        }
      }
    }
  }

  /** The histogram's counts add up to the length of the colour list, and it
      has one entry per distinct colour. */
  lemma {:induction false} HistogramSum(pixels: seq<Rgb>)
    ensures Sum(Histogram(pixels)) == |pixels|
    ensures |Histogram(pixels)| == |Tally(pixels)| <= |pixels|
  {
    var s := KeyOrder(Tally(pixels));
    KeyOrderEntries(Tally(pixels));
    TallySum(pixels);
    StableSortSum(s, Descending);
  }

  /** Every entry is a colour of the list with its number of occurrences. */
  lemma {:induction false} HistogramEntries(pixels: seq<Rgb>)
    ensures forall i :: 0 <= i < |Histogram(pixels)| ==>
      Histogram(pixels)[i].color in pixels && Histogram(pixels)[i].count == multiset(pixels)[Histogram(pixels)[i].color] >= 1
  {
    var m := Tally(pixels);
    var s := KeyOrder(m);
    var h := Histogram(pixels);
    KeyOrderEntries(m);
    TallyCounts(pixels);
    forall i | 0 <= i < |h|
      ensures h[i].color in pixels && h[i].count == multiset(pixels)[h[i].color] >= 1
    {
      StableSortFrom(s, Descending, i);
      var k :| 0 <= k < |s| && h[i] == s[k];
      assert s[k].color in m;
    }
  }

  /** Every colour of the list has an entry. */
  lemma {:induction false} HistogramCovers(pixels: seq<Rgb>)
    ensures forall c :: c in pixels ==> exists i :: 0 <= i < |Histogram(pixels)| && Histogram(pixels)[i].color == c
  {
    var m := Tally(pixels);
    var s := KeyOrder(m);
    var h := Histogram(pixels);
    KeyOrderEntries(m);
    forall c | c in pixels
      ensures exists i :: 0 <= i < |h| && h[i].color == c
    {
      assert c in m;
      var k :| 0 <= k < |s| && s[k].color == c;
      StableSortKeeps(s, Descending, k);
      var i :| 0 <= i < |h| && h[i] == s[k];
    }
  }

  /** Most frequent first; equal counts in ascending key order; no colour
      listed twice. */
  lemma {:induction false} HistogramOrder(pixels: seq<Rgb>)
    ensures Sorted(Histogram(pixels), Descending)
    ensures forall i, j :: 0 <= i < j < |Histogram(pixels)| && Histogram(pixels)[i].count == Histogram(pixels)[j].count ==>
      RgbLess(Histogram(pixels)[i].color, Histogram(pixels)[j].color)
    ensures forall i, j :: 0 <= i < j < |Histogram(pixels)| ==> Histogram(pixels)[i].color != Histogram(pixels)[j].color
  {
    var s := KeyOrder(Tally(pixels));
    KeyOrderEntries(Tally(pixels));
    StableSortSorted(s, Descending);
    StableSortKeepsKeyOrder(s);
    HistogramEntries(pixels);
  }
}
