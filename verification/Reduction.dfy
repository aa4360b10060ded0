/** Reducing a series to its telling samples, bucket by bucket: the first, last,
    least and greatest finite sample of every bucket and its first non-finite one. */
module Reduction {
  import opened Wrappers

  /** A floating-point number with its exact value, or one of the non-finite ones. */
  datatype Num = Fin(r: real) | NaN | PosInf | NegInf

  /** The five samples remembered of one bucket, by index. */
  datatype Picks = Picks(first: Option<nat>, min: Option<nat>, max: Option<nat>, last: Option<nat>, gap: Option<nat>)

  const NOTHING: Picks := Picks(None, None, None, None, None)

  /** The indices remembered are those of samples, finite ones but for the gap. */
  ghost predicate Sane(p: Picks, values: seq<Num>) {
    && (p.first.Some? ==> p.first.value < |values| && values[p.first.value].Fin?)
    && (p.min.Some? ==> p.min.value < |values| && values[p.min.value].Fin?)
    && (p.max.Some? ==> p.max.value < |values| && values[p.max.value].Fin?)
    && (p.last.Some? ==> p.last.value < |values| && values[p.last.value].Fin?)
    && (p.gap.Some? ==> p.gap.value < |values| && !values[p.gap.value].Fin?)
  }

  function Or(o: Option<nat>, i: nat): (o': Option<nat>) {
    if o.Some? then o else Some(i)
  }

  /** Fold sample `i` into the picks of its bucket. */
  function Note(p: Picks, values: seq<Num>, i: nat): (p': Picks)
    requires Sane(p, values) && i < |values|
    ensures Sane(p', values)
  {
    if !values[i].Fin? then p.(gap := Or(p.gap, i))
    else
      p.(first := Or(p.first, i),
         last := Some(i),
         min := if p.min.None? || values[i].r < values[p.min.value].r then Some(i) else p.min,
         max := if p.max.None? || values[i].r > values[p.max.value].r then Some(i) else p.max)
  }

  /** Which bucket, if any, each sample falls into. */
  type Layout = seq<Option<nat>>

  /** The picks of bucket `b` among the first `k` samples. */
  function Scan(values: seq<Num>, layout: Layout, k: nat, b: nat): (p: Picks)
    requires k <= |values| == |layout|
    ensures Sane(p, values)
  {
    if k == 0 then NOTHING
    else
      var p := Scan(values, layout, k - 1, b);
      if layout[k - 1] == Some(b) then Note(p, values, k - 1) else p
  }

  /** Sample `i` is among the first `k`, in bucket `b`, and finite or not as said. */
  ghost predicate InBucket(values: seq<Num>, layout: Layout, k: nat, b: nat, finite: bool, i: nat)
    requires k <= |values| == |layout|
  {
    i < k && layout[i] == Some(b) && values[i].Fin? == finite
  }

  ghost predicate FirstIn(values: seq<Num>, layout: Layout, k: nat, b: nat, finite: bool, o: Option<nat>)
    requires k <= |values| == |layout|
  {
    && (o.Some? ==> InBucket(values, layout, k, b, finite, o.value))
    && forall i: nat :: InBucket(values, layout, k, b, finite, i) ==> o.Some? && o.value <= i
  }

  ghost predicate LastIn(values: seq<Num>, layout: Layout, k: nat, b: nat, o: Option<nat>)
    requires k <= |values| == |layout|
  {
    && (o.Some? ==> InBucket(values, layout, k, b, true, o.value))
    && forall i: nat :: InBucket(values, layout, k, b, true, i) ==> o.Some? && i <= o.value
  }

  ghost predicate LeastIn(values: seq<Num>, layout: Layout, k: nat, b: nat, o: Option<nat>)
    requires k <= |values| == |layout|
  {
    && (o.Some? ==> InBucket(values, layout, k, b, true, o.value))
    && forall i: nat :: InBucket(values, layout, k, b, true, i) ==>
         o.Some? && values[o.value].r <= values[i].r && (values[o.value].r == values[i].r ==> o.value <= i)
  }

  ghost predicate GreatestIn(values: seq<Num>, layout: Layout, k: nat, b: nat, o: Option<nat>)
    requires k <= |values| == |layout|
  {
    && (o.Some? ==> InBucket(values, layout, k, b, true, o.value))
    && forall i: nat :: InBucket(values, layout, k, b, true, i) ==>
         o.Some? && values[i].r <= values[o.value].r && (values[o.value].r == values[i].r ==> o.value <= i)
  }

  /** What the five picks are, said without the scan. */
  ghost predicate PicksOfBucket(values: seq<Num>, layout: Layout, k: nat, b: nat, p: Picks)
    requires k <= |values| == |layout|
  {
    && FirstIn(values, layout, k, b, true, p.first)
    && LeastIn(values, layout, k, b, p.min)
    && GreatestIn(values, layout, k, b, p.max)
    && LastIn(values, layout, k, b, p.last)
    && FirstIn(values, layout, k, b, false, p.gap)
  }

  lemma BucketGrows(values: seq<Num>, layout: Layout, k: nat, n: nat, b: nat, finite: bool)
    requires n == k + 1 <= |values| == |layout|
    ensures forall i: nat :: InBucket(values, layout, n, b, finite, i) <==>
              InBucket(values, layout, k, b, finite, i)
              || (i == k && layout[k] == Some(b) && values[k].Fin? == finite)
  {
  }

  /** Sample `k` falls into bucket `b` and is finite or not as said. */
  predicate Falls(values: seq<Num>, layout: Layout, k: nat, b: nat, finite: bool)
    requires k < |values| == |layout|
  {
    layout[k] == Some(b) && values[k].Fin? == finite
  }

  lemma FirstGrows(values: seq<Num>, layout: Layout, k: nat, b: nat, finite: bool, o: Option<nat>)
    requires k < |values| == |layout| && FirstIn(values, layout, k, b, finite, o)
    ensures FirstIn(values, layout, k + 1, b, finite, if Falls(values, layout, k, b, finite) then Or(o, k) else o)
  {
    BucketGrows(values, layout, k, k + 1, b, finite);
  }

  lemma LastGrows(values: seq<Num>, layout: Layout, k: nat, b: nat, o: Option<nat>)
    requires k < |values| == |layout| && LastIn(values, layout, k, b, o)
    ensures LastIn(values, layout, k + 1, b, if Falls(values, layout, k, b, true) then Some(k) else o)
  {
    BucketGrows(values, layout, k, k + 1, b, true);
  }

  lemma LeastGrows(values: seq<Num>, layout: Layout, k: nat, b: nat, o: Option<nat>)
    requires k < |values| == |layout| && LeastIn(values, layout, k, b, o)
    ensures LeastIn(values, layout, k + 1, b,
              if Falls(values, layout, k, b, true) && (o.None? || values[k].r < values[o.value].r) then Some(k) else o)
  {
    BucketGrows(values, layout, k, k + 1, b, true);
  }

  lemma GreatestGrows(values: seq<Num>, layout: Layout, k: nat, b: nat, o: Option<nat>)
    requires k < |values| == |layout| && GreatestIn(values, layout, k, b, o)
    ensures GreatestIn(values, layout, k + 1, b,
              if Falls(values, layout, k, b, true) && (o.None? || values[k].r > values[o.value].r) then Some(k) else o)
  {
    BucketGrows(values, layout, k, k + 1, b, true);
  }

  lemma NoteKeepsPicks(values: seq<Num>, layout: Layout, k: nat, b: nat, p: Picks)
    requires k < |values| == |layout| && Sane(p, values) && PicksOfBucket(values, layout, k, b, p)
    ensures PicksOfBucket(values, layout, k + 1, b, if layout[k] == Some(b) then Note(p, values, k) else p)
  {
    FirstGrows(values, layout, k, b, true, p.first);
    LeastGrows(values, layout, k, b, p.min);
    GreatestGrows(values, layout, k, b, p.max);
    LastGrows(values, layout, k, b, p.last);
    FirstGrows(values, layout, k, b, false, p.gap);
  }

  /** The scan finds each bucket's first, last, least, greatest and gap sample. */
  lemma {:induction false} ScanFindsPicks(values: seq<Num>, layout: Layout, k: nat, b: nat)
    requires k <= |values| == |layout|
    ensures PicksOfBucket(values, layout, k, b, Scan(values, layout, k, b))
  {
    if k > 0 {
      ScanFindsPicks(values, layout, k - 1, b);
      NoteKeepsPicks(values, layout, k - 1, b, Scan(values, layout, k - 1, b));
    }
  }

  // ----------------------------------------------------------- all the buckets

  function Listed(o: Option<nat>): (xs: seq<nat>)
    ensures |xs| <= 1
  {
    if o.Some? then [o.value] else []
  }

  /** The picked indices of one bucket, in the order they are kept. */
  function Flatten(p: Picks): (xs: seq<nat>)
    ensures |xs| <= 5
  {
    Listed(p.first) + Listed(p.min) + Listed(p.max) + Listed(p.last) + Listed(p.gap)
  }

  function Picked(values: seq<Num>, layout: Layout, b: nat): (xs: seq<nat>)
    requires |values| == |layout|
    ensures |xs| <= 5
  {
    Flatten(Scan(values, layout, |values|, b))
  }

  function Concat(lists: seq<seq<nat>>): (xs: seq<nat>) {
    if lists == [] then [] else Concat(lists[..|lists| - 1]) + lists[|lists| - 1]
  }

  lemma {:induction false} ConcatIncludes(lists: seq<seq<nat>>, b: nat)
    requires b < |lists|
    ensures Includes(Concat(lists), lists[b])
  {
    if b < |lists| - 1 {
      ConcatIncludes(lists[..|lists| - 1], b);
    }
  }

  lemma {:induction false} ConcatLength(lists: seq<seq<nat>>)
    requires forall b | 0 <= b < |lists| :: |lists[b]| <= 5
    ensures |Concat(lists)| <= 5 * |lists|
  {
    if lists != [] {
      ConcatLength(lists[..|lists| - 1]);
    }
  }

  lemma ConcatSnoc(lists: seq<seq<nat>>, xs: seq<nat>)
    ensures Concat(lists + [xs]) == Concat(lists) + xs
  {
    assert (lists + [xs])[..|lists|] == lists;
  }

  ghost predicate Includes(xs: seq<nat>, ys: seq<nat>) {
    forall y | y in ys :: y in xs
  }

  /** The picked indices, bucket by bucket. */
  function PickLists(values: seq<Num>, layout: Layout, m: nat): (lists: seq<seq<nat>>)
    requires |values| == |layout|
    ensures |lists| == m && forall b | 0 <= b < m :: lists[b] == Picked(values, layout, b)
  {
    seq(m, b requires 0 <= b < m => Picked(values, layout, b))
  }

  /** The members of `xs` in `[lo, hi)`, each once, in increasing order: what sorting
      and removing duplicates leaves. */
  function Ascend(xs: seq<nat>, lo: nat, hi: nat): (ixs: seq<nat>)
    requires lo <= hi
    decreases hi - lo
  {
    if lo == hi then [] else Ascend(xs, lo, hi - 1) + if hi - 1 in xs then [hi - 1] else []
  }

  function Reduced(values: seq<Num>, layout: Layout, pixels: nat): (ixs: seq<nat>)
    requires |values| == |layout|
  {
    Ascend(Concat(PickLists(values, layout, pixels)), 0, |values|)
  }

  ghost predicate Increasing(ixs: seq<nat>) {
    forall i, j | 0 <= i < j < |ixs| :: ixs[i] < ixs[j]
  }

  ghost predicate Within(ixs: seq<nat>, lo: nat, hi: nat) {
    forall i | 0 <= i < |ixs| :: lo <= ixs[i] < hi
  }

  lemma {:induction false} AscendProperties(xs: seq<nat>, lo: nat, hi: nat)
    requires lo <= hi
    ensures Increasing(Ascend(xs, lo, hi)) && Within(Ascend(xs, lo, hi), lo, hi)
    ensures forall x: nat :: x in Ascend(xs, lo, hi) <==> x in xs && lo <= x < hi
    decreases hi - lo
  {
    if lo < hi {
      AscendProperties(xs, lo, hi - 1);
    }
  }

  lemma {:induction false} AscendSame(xs: seq<nat>, ys: seq<nat>, lo: nat, hi: nat)
    requires lo <= hi && forall x: nat | lo <= x < hi :: x in xs <==> x in ys
    ensures Ascend(xs, lo, hi) == Ascend(ys, lo, hi)
    decreases hi - lo
  {
    if lo < hi {
      AscendSame(xs, ys, lo, hi - 1);
    }
  }

  lemma {:induction false} AscendLength(xs: seq<nat>, lo: nat, hi: nat)
    requires lo <= hi
    ensures |Ascend(xs, lo, hi)| <= |xs|
    decreases hi - lo
  {
    if lo < hi {
      if hi - 1 in xs {
        var j :| 0 <= j < |xs| && xs[j] == hi - 1;
        var ys := xs[..j] + xs[j + 1..];
        assert xs == xs[..j] + [hi - 1] + xs[j + 1..];
        AscendSame(xs, ys, lo, hi - 1);
        AscendLength(ys, lo, hi - 1);
      } else {
        AscendLength(xs, lo, hi - 1);
      }
    }
  }

  lemma {:induction false} AscendSplits(xs: seq<nat>, lo: nat, mid: nat, hi: nat)
    requires lo <= mid <= hi
    ensures Ascend(xs, lo, hi) == Ascend(xs, lo, mid) + Ascend(xs, mid, hi)
    decreases hi - mid
  {
    if mid < hi {
      AscendSplits(xs, lo, mid, hi - 1);
    }
  }

  lemma PickedBounded(values: seq<Num>, layout: Layout, b: nat)
    requires |values| == |layout|
    ensures forall x | x in Picked(values, layout, b) :: x < |values|
  {
    assert Sane(Scan(values, layout, |values|, b), values);
  }

  /** The emitted indices are increasing, no more than five a bucket, and hold every
      pick of every bucket. */
  lemma ReducedKeepsPicks(values: seq<Num>, layout: Layout, pixels: nat, b: nat)
    requires |values| == |layout| && b < pixels
    ensures Increasing(Reduced(values, layout, pixels)) && Within(Reduced(values, layout, pixels), 0, |values|)
    ensures |Reduced(values, layout, pixels)| <= 5 * pixels
    ensures Includes(Reduced(values, layout, pixels), Picked(values, layout, b))
  {
    var lists := PickLists(values, layout, pixels);
    AscendProperties(Concat(lists), 0, |values|);
    AscendLength(Concat(lists), 0, |values|);
    ConcatLength(lists);
    ConcatIncludes(lists, b);
    PickedBounded(values, layout, b);
  }

  ghost predicate HasAtMost(values: seq<Num>, ixs: seq<nat>, r: real) {
    exists k :: 0 <= k < |ixs| && ixs[k] < |values| && values[ixs[k]].Fin? && values[ixs[k]].r <= r
  }

  ghost predicate HasAtLeast(values: seq<Num>, ixs: seq<nat>, r: real) {
    exists k :: 0 <= k < |ixs| && ixs[k] < |values| && values[ixs[k]].Fin? && values[ixs[k]].r >= r
  }

  /** The extrema survive: whatever finite sample is in some bucket, one at least as
      low and one at least as high are emitted. */
  lemma ExtremaSurvive(values: seq<Num>, layout: Layout, pixels: nat, i: nat)
    requires i < |values| == |layout| && values[i].Fin?
    requires layout[i].Some? && layout[i].value < pixels
    ensures HasAtMost(values, Reduced(values, layout, pixels), values[i].r)
    ensures HasAtLeast(values, Reduced(values, layout, pixels), values[i].r)
  {
    var b := layout[i].value;
    var p, ixs := Scan(values, layout, |values|, b), Reduced(values, layout, pixels);
    ScanFindsPicks(values, layout, |values|, b);
    ReducedKeepsPicks(values, layout, pixels, b);
    assert InBucket(values, layout, |values|, b, true, i);
    assert p.min.value in Picked(values, layout, b) && p.max.value in Picked(values, layout, b);
    var k :| 0 <= k < |ixs| && ixs[k] == p.min.value;
    var l :| 0 <= l < |ixs| && ixs[l] == p.max.value;
    assert HasAtMost(values, ixs, values[i].r);
    assert HasAtLeast(values, ixs, values[i].r);
  }

  lemma ConcatGrows(lists: seq<seq<nat>>, longer: seq<seq<nat>>)
    requires |longer| == |lists| + 1 && forall b | 0 <= b < |lists| :: longer[b] == lists[b]
    ensures Concat(longer) == Concat(lists) + longer[|lists|]
  {
    ConcatSnoc(lists, longer[|lists|]);
    assert longer == lists + [longer[|lists|]];
  }

  /** One pass over the samples, updating the picks of the bucket each falls into. */
  method ReduceByLayout(values: seq<Num>, layout: Layout, pixels: nat) returns (ixs: seq<nat>)
    requires |values| == |layout|
    requires forall i | 0 <= i < |layout| && layout[i].Some? :: layout[i].value < pixels
    ensures ixs == Reduced(values, layout, pixels)
  {
    var buckets := ScanAll(values, layout, pixels);
    var indices: seq<nat> := [];
    for b := 0 to pixels
      invariant indices == Concat(PickLists(values, layout, b))
    {
      ConcatGrows(PickLists(values, layout, b), PickLists(values, layout, b + 1));
      indices := indices + Flatten(buckets[b]);
    }
    ixs := Ascend(indices, 0, |values|);
  }

  method ScanAll(values: seq<Num>, layout: Layout, pixels: nat) returns (buckets: seq<Picks>)
    requires |values| == |layout|
    requires forall i | 0 <= i < |layout| && layout[i].Some? :: layout[i].value < pixels
    ensures |buckets| == pixels
    ensures forall b | 0 <= b < pixels :: buckets[b] == Scan(values, layout, |values|, b)
  {
    buckets := seq(pixels, _ => NOTHING);
    for k := 0 to |values|
      invariant |buckets| == pixels
      invariant forall b | 0 <= b < pixels :: buckets[b] == Scan(values, layout, k, b)
    {
      if layout[k].Some? {
        var b := layout[k].value;
        buckets := buckets[b := Note(buckets[b], values, k)];
      }
    }
  }
}
