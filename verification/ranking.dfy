/** Weighted colour entries and the stable sort by count that both pipelines
    apply to them.  The colour type is a parameter: an RGB triple before the
    perceptual conversion, an opaque Lab value after it. */
module Ranking {

  /** A colour with the number of colour-map entries it stands for. */
  datatype Entry<C> = Entry(color: C, count: nat)

  /** Direction of a sort by count. */
  datatype Order = Descending | Ascending

  /** `a` may precede `b` in a sequence sorted in direction `o`. */
  predicate InOrder(o: Order, a: nat, b: nat) {
    match o
    case Descending => a >= b
    case Ascending => a <= b
  }

  ghost predicate Sorted<C>(s: seq<Entry<C>>, o: Order) {
    forall i, j :: 0 <= i < j < |s| ==> InOrder(o, s[i].count, s[j].count)
  }

  /** The total weight of a sequence of entries. */
  function Sum<C>(s: seq<Entry<C>>): nat {
    if s == [] then 0 else s[0].count + Sum(s[1..])
  }

  lemma {:induction false} SumAppend<C>(a: seq<Entry<C>>, b: seq<Entry<C>>)
    ensures Sum(a + b) == Sum(a) + Sum(b)
  {
    if a == [] {
      assert a + b == b;
    } else {
      assert (a + b)[1..] == a[1..] + b;
      SumAppend(a[1..], b);
    }
  }

  /** Replacing one entry changes the total by the difference of the counts. */
  lemma {:induction false} SumUpdate<C>(s: seq<Entry<C>>, i: nat, e: Entry<C>)
    requires i < |s|
    ensures Sum(s[i := e]) + s[i].count == Sum(s) + e.count
  {
    if i > 0 {
      assert s[i := e][1..] == s[1..][i - 1 := e];
      SumUpdate(s[1..], i - 1, e);
    }
  }

  /** The colour conversion applied entry by entry: every position keeps its
      count and gets the converted colour. */
  function ToLab<C, L>(h: seq<Entry<C>>, fromRgb: C -> L): (r: seq<Entry<L>>)
    ensures |r| == |h|
    ensures forall i :: 0 <= i < |h| ==>
      r[i].color == fromRgb(h[i].color) && r[i].count == h[i].count
  {
    if h == [] then [] else [Entry(fromRgb(h[0].color), h[0].count)] + ToLab(h[1..], fromRgb)
  }

  lemma {:induction false} ToLabAppend<C, L>(a: seq<Entry<C>>, b: seq<Entry<C>>, fromRgb: C -> L)
    ensures ToLab(a + b, fromRgb) == ToLab(a, fromRgb) + ToLab(b, fromRgb)
  {
    if a == [] {
      assert a + b == b;
    } else {
      assert (a + b)[1..] == a[1..] + b;
      ToLabAppend(a[1..], b, fromRgb);
    }
  }

  /** Converting colours leaves the total weight unchanged. */
  lemma {:induction false} ToLabSum<C, L>(h: seq<Entry<C>>, fromRgb: C -> L)
    ensures Sum(ToLab(h, fromRgb)) == Sum(h)
  {
    if h != [] {
      ToLabSum(h[1..], fromRgb);
    }
  }

  /** Inserts `e` before the first entry of `t` that it may precede, so that
      `e` goes before every entry of equal count. */
  function Insert<C>(e: Entry<C>, t: seq<Entry<C>>, o: Order): (r: seq<Entry<C>>)
    ensures |r| == |t| + 1
  {
    if t == [] || InOrder(o, e.count, t[0].count) then [e] + t
    else [t[0]] + Insert(e, t[1..], o)
  }

  /** A stable sort by count in direction `o`: entries of equal count keep
      their relative order.  Rust's `sort_by` is stable, and a stable sort has
      only one possible result, so this insertion sort stands for it. */
  function StableSort<C>(s: seq<Entry<C>>, o: Order): (r: seq<Entry<C>>)
    ensures |r| == |s|
  {
    if s == [] then [] else Insert(s[0], StableSort(s[1..], o), o)
  }

  lemma {:induction false} InsertPermutes<C>(e: Entry<C>, t: seq<Entry<C>>, o: Order)
    ensures multiset(Insert(e, t, o)) == multiset(t) + multiset{e}
  {
    if t != [] && !InOrder(o, e.count, t[0].count) {
      InsertPermutes(e, t[1..], o);
      assert t == [t[0]] + t[1..];
    }
  }

  /** Sorting only reorders: the result is a permutation of the input. */
  lemma {:induction false} StableSortPermutes<C>(s: seq<Entry<C>>, o: Order)
    ensures multiset(StableSort(s, o)) == multiset(s)
  {
    if s != [] {
      StableSortPermutes(s[1..], o);
      InsertPermutes(s[0], StableSort(s[1..], o), o);
      assert s == [s[0]] + s[1..];
    }
  }

  lemma {:induction false} InsertSum<C>(e: Entry<C>, t: seq<Entry<C>>, o: Order)
    ensures Sum(Insert(e, t, o)) == e.count + Sum(t)
  {
    if t != [] && !InOrder(o, e.count, t[0].count) {
      InsertSum(e, t[1..], o);
    }
  }

  /** Sorting conserves the total weight. */
  lemma {:induction false} StableSortSum<C>(s: seq<Entry<C>>, o: Order)
    ensures Sum(StableSort(s, o)) == Sum(s)
  {
    if s != [] {
      StableSortSum(s[1..], o);
      InsertSum(s[0], StableSort(s[1..], o), o);
    }
  }

  /** Every entry of `Insert(e, t, o)` is `e` or an entry of `t`. */
  lemma {:induction false} InsertFrom<C>(e: Entry<C>, t: seq<Entry<C>>, o: Order, k: nat)
    requires k < |t| + 1
    ensures Insert(e, t, o)[k] == e || exists m :: 0 <= m < |t| && Insert(e, t, o)[k] == t[m]
  {
    if t != [] && !InOrder(o, e.count, t[0].count) && k > 0 {
      InsertFrom(e, t[1..], o, k - 1);
      if Insert(e, t[1..], o)[k - 1] != e {
        var m :| 0 <= m < |t[1..]| && Insert(e, t[1..], o)[k - 1] == t[1..][m];
        assert Insert(e, t, o)[k] == t[m + 1];
      }
    }
  }

  /** Every entry of a sorted sequence is an entry of the input. */
  lemma {:induction false} StableSortFrom<C>(s: seq<Entry<C>>, o: Order, k: nat)
    requires k < |s|
    ensures exists m :: 0 <= m < |s| && StableSort(s, o)[k] == s[m]
  {
    var t := StableSort(s[1..], o);
    InsertFrom(s[0], t, o, k);
    if StableSort(s, o)[k] == s[0] {
      assert StableSort(s, o)[k] == s[0];
    } else {
      var m :| 0 <= m < |t| && StableSort(s, o)[k] == t[m];
      StableSortFrom(s[1..], o, m);
      var m' :| 0 <= m' < |s[1..]| && t[m] == s[1..][m'];
      assert StableSort(s, o)[k] == s[m' + 1];
    }
  }

  /** Every entry of the input appears in the sorted sequence. */
  lemma {:induction false} StableSortKeeps<C>(s: seq<Entry<C>>, o: Order, k: nat)
    requires k < |s|
    ensures exists m :: 0 <= m < |s| && StableSort(s, o)[m] == s[k]
  {
    StableSortPermutes(s, o);
    assert s[k] in multiset(s);
    assert s[k] in multiset(StableSort(s, o));
    assert s[k] in StableSort(s, o);
  }

  /** Inserting `e` keeps a lower bound `v` that `e` and all of `t` respect. */
  lemma {:induction false} InsertBound<C>(e: Entry<C>, t: seq<Entry<C>>, o: Order, v: nat)
    requires InOrder(o, v, e.count)
    requires forall k :: 0 <= k < |t| ==> InOrder(o, v, t[k].count)
    ensures forall k :: 0 <= k < |t| + 1 ==> InOrder(o, v, Insert(e, t, o)[k].count)
  {
    if t != [] && !InOrder(o, e.count, t[0].count) {
      InsertBound(e, t[1..], o, v);
    }
  }

  lemma {:induction false} InsertSorted<C>(e: Entry<C>, t: seq<Entry<C>>, o: Order)
    requires Sorted(t, o)
    ensures Sorted(Insert(e, t, o), o)
  {
    if t != [] && !InOrder(o, e.count, t[0].count) {
      InsertSorted(e, t[1..], o);
      InsertBound(e, t[1..], o, t[0].count);
    }
  }

  /** The sort orders the entries by count in the requested direction. */
  lemma {:induction false} StableSortSorted<C>(s: seq<Entry<C>>, o: Order)
    ensures Sorted(StableSort(s, o), o)
  {
    if s != [] {
      StableSortSorted(s[1..], o);
      InsertSorted(s[0], StableSort(s[1..], o), o);
    }
  }

  /** An input that is already in order comes back unchanged. */
  lemma {:induction false} StableSortOfSorted<C>(s: seq<Entry<C>>, o: Order)
    requires Sorted(s, o)
    ensures StableSort(s, o) == s
  {
    if s != [] {
      StableSortOfSorted(s[1..], o);
      assert s == [s[0]] + s[1..];
    }
  }

  /** The entries of count `v`, in the order they occur. */
  function WithCount<C>(s: seq<Entry<C>>, v: nat): (r: seq<Entry<C>>)
    ensures |r| <= |s|
  {
    if s == [] then []
    else (if s[0].count == v then [s[0]] else []) + WithCount(s[1..], v)
  }

  /** Inserting `e` puts it before every entry of its own count. */
  lemma {:induction false} InsertWithCount<C>(e: Entry<C>, t: seq<Entry<C>>, o: Order, v: nat)
    ensures WithCount(Insert(e, t, o), v) == (if e.count == v then [e] else []) + WithCount(t, v)
  {
    if t != [] && !InOrder(o, e.count, t[0].count) {
      var r := Insert(e, t[1..], o);
      InsertWithCount(e, t[1..], o, v);
      WithCountCons(t[0], r, v);
      WithCountCons(t[0], t[1..], v);
      assert t == [t[0]] + t[1..];
    } else {
      WithCountCons(e, t, v);
    }
  }

  lemma {:induction false} WithCountCons<C>(x: Entry<C>, r: seq<Entry<C>>, v: nat)
    ensures WithCount([x] + r, v) == (if x.count == v then [x] else []) + WithCount(r, v)
  {
    assert ([x] + r)[1..] == r;
  }

  /** The sort is stable: for every count, the entries of that count come out
      in the order they went in. */
  lemma {:induction false} StableSortStable<C>(s: seq<Entry<C>>, o: Order, v: nat)
    ensures WithCount(StableSort(s, o), v) == WithCount(s, v)
  {
    if s != [] {
      StableSortStable(s[1..], o, v);
      InsertWithCount(s[0], StableSort(s[1..], o), o, v);
    }
  }

  lemma {:induction false} InsertToLab<C, L>(e: Entry<C>, t: seq<Entry<C>>, o: Order, fromRgb: C -> L)
    ensures Insert(Entry(fromRgb(e.color), e.count), ToLab(t, fromRgb), o) == ToLab(Insert(e, t, o), fromRgb)
  {
    if t != [] && !InOrder(o, e.count, t[0].count) {
      InsertToLab(e, t[1..], o, fromRgb);
    }
  }

  /** The sort looks only at counts, so converting colours before or after it
      gives the same sequence. */
  lemma {:induction false} StableSortToLab<C, L>(s: seq<Entry<C>>, o: Order, fromRgb: C -> L)
    ensures StableSort(ToLab(s, fromRgb), o) == ToLab(StableSort(s, o), fromRgb)
  {
    if s != [] {
      StableSortToLab(s[1..], o, fromRgb);
      InsertToLab(s[0], StableSort(s[1..], o), o, fromRgb);
    }
  }
}
