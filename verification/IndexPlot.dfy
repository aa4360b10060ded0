/** Plotting a series by sample index: whole when short, otherwise one bucket of
    consecutive samples per horizontal braille pixel. */
module IndexPlot {
  import opened Wrappers
  import opened Reduction

  const SAMPLES_PER_PIXEL: nat := 4
  const MAX_SAMPLES_PER_SERIES: nat := 0x20_0000

  datatype Point = Point(x: Num, y: Num)

  function Pixels(width: nat): (p: nat)
    ensures p >= 1
  {
    if width == 0 then 1 else 2 * width
  }

  /** Where the newest bounded suffix of a series of `n` samples begins. */
  function SuffixStart(n: nat): (start: nat)
    ensures start <= n
  {
    if n <= MAX_SAMPLES_PER_SERIES then 0 else n - MAX_SAMPLES_PER_SERIES
  }

  // --------------------------------------------------------------- bucket edges

  /** The first sample of bucket `b`. */
  function Edge(n: nat, pixels: nat, b: nat): (e: nat)
    requires pixels >= 1
  {
    b * n / pixels
  }

  /** Bucket edges are evenly spaced: edge `b` is the whole part of `b * n / pixels`. */
  lemma EdgeIs(n: nat, pixels: nat, b: nat)
    requires pixels >= 1
    ensures Edge(n, pixels, b) * pixels <= b * n < (Edge(n, pixels, b) + 1) * pixels
  {
    var x := b * n;
    assert x == x / pixels * pixels + x % pixels;
  }

  lemma MulMonotone(x: nat, y: nat, d: nat)
    requires x <= y
    ensures x * d <= y * d
  {
  }

  lemma DivMonotone(x: nat, y: nat, d: nat)
    requires x <= y && d >= 1
    ensures x / d <= y / d
  {
    if y / d + 1 <= x / d {
      MulMonotone(y / d + 1, x / d, d);
    }
  }

  lemma DivExact(n: nat, d: nat)
    requires d >= 1
    ensures d * n / d == n
  {
    var q := d * n / d;
    assert q * d <= d * n < q * d + d;
    if q < n {
      MulMonotone(q + 1, n, d);
    } else if n < q {
      MulMonotone(n + 1, q, d);
    }
  }

  lemma EdgeMonotone(n: nat, pixels: nat, b: nat)
    requires pixels >= 1
    ensures Edge(n, pixels, b) <= Edge(n, pixels, b + 1)
  {
    assert (b + 1) * n == b * n + n;
    DivMonotone(b * n, (b + 1) * n, pixels);
  }

  lemma EdgeEnds(n: nat, pixels: nat)
    requires pixels >= 1
    ensures Edge(n, pixels, 0) == 0 && Edge(n, pixels, pixels) == n
  {
    DivExact(n, pixels);
    DivExact(0, pixels);
  }

  lemma {:induction false} EdgeBefore(n: nat, pixels: nat, a: nat, b: nat)
    requires pixels >= 1 && a <= b
    ensures Edge(n, pixels, a) <= Edge(n, pixels, b)
    decreases b - a
  {
    if a < b {
      EdgeBefore(n, pixels, a, b - 1);
      EdgeMonotone(n, pixels, b - 1);
    }
  }

  /** The bucket that holds sample `i`, searched from bucket `b` on. */
  function Locate(n: nat, pixels: nat, i: nat, b: nat): (r: nat)
    requires pixels >= 1 && b < pixels && Edge(n, pixels, b) <= i < n
    ensures b <= r < pixels && Edge(n, pixels, r) <= i < Edge(n, pixels, r + 1)
    decreases pixels - b
  {
    EdgeEnds(n, pixels);
    if i < Edge(n, pixels, b + 1) then b else Locate(n, pixels, i, b + 1)
  }

  function IndexLayout(n: nat, pixels: nat): (layout: Layout)
    requires pixels >= 1
    ensures |layout| == n && forall i | 0 <= i < n :: layout[i].Some? && layout[i].value < pixels
  {
    EdgeEnds(n, pixels);
    seq(n, i requires 0 <= i < n => Some(Locate(n, pixels, i, 0)))
  }

  /** A sample is in bucket `b` exactly when it lies between the bucket's edges. */
  lemma LayoutIsEdges(n: nat, pixels: nat, i: nat, b: nat)
    requires pixels >= 1 && i < n && b < pixels
    ensures IndexLayout(n, pixels)[i] == Some(b) <==> Edge(n, pixels, b) <= i < Edge(n, pixels, b + 1)
  {
    EdgeEnds(n, pixels);
    var r := Locate(n, pixels, i, 0);
    if r < b {
      EdgeBefore(n, pixels, r + 1, b);
    } else if b < r {
      EdgeBefore(n, pixels, b + 1, r);
    }
  }

  // ------------------------------------------------------------- the emitted points

  /** The indices emitted for a suffix of samples. */
  function IndexPicks(values: seq<Num>, width: nat): (ixs: seq<nat>) {
    var pixels := Pixels(width);
    if |values| <= pixels * SAMPLES_PER_PIXEL then seq(|values|, i requires 0 <= i < |values| => i)
    else Reduced(values, IndexLayout(|values|, pixels), pixels)
  }

  lemma {:induction false} ScanNothing(values: seq<Num>, layout: Layout, k: nat, b: nat)
    requires k <= |values| == |layout| && forall i | 0 <= i < k :: layout[i] != Some(b)
    ensures Scan(values, layout, k, b) == NOTHING
  {
    if k > 0 {
      ScanNothing(values, layout, k - 1, b);
    }
  }

  lemma {:induction false} ScanStable(values: seq<Num>, layout: Layout, j: nat, k: nat, b: nat)
    requires j <= k <= |values| == |layout| && forall i | j <= i < k :: layout[i] != Some(b)
    ensures Scan(values, layout, k, b) == Scan(values, layout, j, b)
    decreases k
  {
    if j < k {
      ScanStable(values, layout, j, k - 1, b);
    }
  }

  lemma PickedLiesInBucket(values: seq<Num>, layout: Layout, b: nat)
    requires |values| == |layout|
    ensures forall x | x in Picked(values, layout, b) :: x < |values| && layout[x] == Some(b)
  {
    ScanFindsPicks(values, layout, |values|, b);
  }

  lemma {:induction false} ConcatFrom(lists: seq<seq<nat>>, x: nat) returns (b: nat)
    requires x in Concat(lists)
    ensures b < |lists| && x in lists[b]
  {
    if x in lists[|lists| - 1] {
      b := |lists| - 1;
    } else {
      b := ConcatFrom(lists[..|lists| - 1], x);
    }
  }

  /** Between the edges of a bucket nothing but its own picks is emitted. */
  lemma BucketPicksOnly(values: seq<Num>, pixels: nat, b: nat)
    requires pixels >= 1 && b < pixels
    ensures var n := |values|;
            var layout := IndexLayout(n, pixels);
            Edge(n, pixels, b) <= Edge(n, pixels, b + 1) &&
            Ascend(Concat(PickLists(values, layout, pixels)), Edge(n, pixels, b), Edge(n, pixels, b + 1)) ==
            Ascend(Picked(values, layout, b), Edge(n, pixels, b), Edge(n, pixels, b + 1))
  {
    var n, layout := |values|, IndexLayout(|values|, pixels);
    var lists, lo, hi := PickLists(values, layout, pixels), Edge(n, pixels, b), Edge(n, pixels, b + 1);
    EdgeMonotone(n, pixels, b);
    EdgeBefore(n, pixels, b + 1, pixels);
    EdgeEnds(n, pixels);
    forall x: nat | lo <= x < hi ensures x in Concat(lists) <==> x in Picked(values, layout, b) {
      LayoutIsEdges(n, pixels, x, b);
      if x in Concat(lists) {
        var c := ConcatFrom(lists, x);
        PickedLiesInBucket(values, layout, c);
      }
      ConcatIncludes(lists, b);
    }
    AscendSame(Concat(lists), Picked(values, layout, b), lo, hi);
  }

  /** The reducing loop: bucket after bucket, each scanned between its edges, its
      picks sorted and emitted. */
  method ReduceByIndex(values: seq<Num>, pixels: nat) returns (ixs: seq<nat>)
    requires pixels >= 1
    ensures ixs == Reduced(values, IndexLayout(|values|, pixels), pixels)
  {
    var n := |values|;
    ghost var layout := IndexLayout(n, pixels);
    ghost var all := Concat(PickLists(values, layout, pixels));
    EdgeEnds(n, pixels);
    ixs := [];
    for b := 0 to pixels
      invariant ixs == Ascend(all, 0, Edge(n, pixels, b))
    {
      var lo, hi := Edge(n, pixels, b), Edge(n, pixels, b + 1);
      EdgesSpanBucket(n, pixels, b);
      var picks := ScanRange(values, layout, b, lo, hi);
      BucketPicksOnly(values, pixels, b);
      AscendSplits(all, 0, lo, hi);
      ixs := ixs + Ascend(Flatten(picks), lo, hi);
    }
  }

  /** The samples of bucket `b` are those in `[lo, hi)`. */
  ghost predicate Spans(layout: Layout, b: nat, lo: nat, hi: nat) {
    lo <= hi <= |layout| && forall i | 0 <= i < |layout| :: layout[i] == Some(b) <==> lo <= i < hi
  }

  lemma EdgesSpanBucket(n: nat, pixels: nat, b: nat)
    requires pixels >= 1 && b < pixels
    ensures Spans(IndexLayout(n, pixels), b, Edge(n, pixels, b), Edge(n, pixels, b + 1))
  {
    EdgeMonotone(n, pixels, b);
    EdgeBefore(n, pixels, b + 1, pixels);
    EdgeEnds(n, pixels);
    forall i | 0 <= i < n
      ensures IndexLayout(n, pixels)[i] == Some(b) <==> Edge(n, pixels, b) <= i < Edge(n, pixels, b + 1)
    {
      LayoutIsEdges(n, pixels, i, b);
    }
  }

  method ScanRange(values: seq<Num>, ghost layout: Layout, ghost b: nat, lo: nat, hi: nat) returns (picks: Picks)
    requires |values| == |layout| && Spans(layout, b, lo, hi)
    ensures picks == Scan(values, layout, |values|, b)
  {
    picks := NOTHING;
    ScanNothing(values, layout, lo, b);
    for i := lo to hi
      invariant picks == Scan(values, layout, i, b)
    {
      picks := Note(picks, values, i);
    }
    ScanStable(values, layout, hi, |values|, b);
  }

  function PointsOf(values: seq<Num>, start: nat, ixs: seq<nat>): (points: seq<Point>)
    requires forall k | 0 <= k < |ixs| :: ixs[k] < |values|
  {
    seq(|ixs|, k requires 0 <= k < |ixs| => Point(Fin((start + ixs[k]) as real), values[ixs[k]]))
  }

  /** For every series and width: the emitted samples are an in-order subsequence of
      the newest suffix, at most five per pixel, and hold the global extrema. */
  lemma IndexPicksKeep(values: seq<Num>, width: nat)
    ensures var ixs := IndexPicks(values, width);
            Increasing(ixs) && Within(ixs, 0, |values|) && |ixs| <= 5 * Pixels(width)
  {
    var pixels := Pixels(width);
    if |values| > pixels * SAMPLES_PER_PIXEL {
      ReducedKeepsPicks(values, IndexLayout(|values|, pixels), pixels, 0);
    }
  }

  lemma IndexExtremaSurvive(values: seq<Num>, width: nat, i: nat)
    requires i < |values| && values[i].Fin?
    ensures HasAtMost(values, IndexPicks(values, width), values[i].r)
    ensures HasAtLeast(values, IndexPicks(values, width), values[i].r)
  {
    var pixels, ixs := Pixels(width), IndexPicks(values, width);
    if |values| > pixels * SAMPLES_PER_PIXEL {
      ExtremaSurvive(values, IndexLayout(|values|, pixels), pixels, i);
    } else {
      assert ixs[i] == i;
    }
  }

  function PlottedPoints(values: seq<Num>, width: nat): (points: seq<Point>) {
    var start := SuffixStart(|values|);
    IndexPicksKeep(values[start..], width);
    PointsOf(values[start..], start, IndexPicks(values[start..], width))
  }

  /** Point k is sample `picks[k]` at its own position, among the newest 2^21. */
  ghost predicate PlotsSamples(values: seq<Num>, points: seq<Point>, picks: seq<nat>) {
    && |points| == |picks|
    && (forall k | 0 <= k < |picks| ::
          && picks[k] < |values| && picks[k] + 0x20_0000 >= |values|
          && points[k] == Point(Fin(picks[k] as real), values[picks[k]]))
    && (forall k, l | 0 <= k < l < |picks| :: picks[k] < picks[l])
  }

  /** The plotted points are samples at their own positions, in order; a series of at
      most four samples per pixel is plotted whole. */
  lemma PointsAreSamples(values: seq<Num>, width: nat) returns (picks: seq<nat>)
    ensures PlotsSamples(values, PlottedPoints(values, width), picks)
    ensures var n := if |values| < 0x20_0000 then |values| else 0x20_0000;
            n <= 4 * (if width == 0 then 1 else 2 * width) ==> |picks| == n
  {
    var start := SuffixStart(|values|);
    var ixs := IndexPicks(values[start..], width);
    IndexPicksKeep(values[start..], width);
    picks := ShiftIndices(values, start, ixs);
  }

  /** Positions in the newest samples are positions in all of them. */
  lemma ShiftIndices(values: seq<Num>, start: nat, ixs: seq<nat>) returns (picks: seq<nat>)
    requires start <= |values| <= start + 0x20_0000
    requires Increasing(ixs) && forall k | 0 <= k < |ixs| :: ixs[k] < |values| - start
    ensures PlotsSamples(values, PointsOf(values[start..], start, ixs), picks) && |picks| == |ixs|
  {
    picks := seq(|ixs|, k requires 0 <= k < |ixs| => start + ixs[k]);
    assert forall k | 0 <= k < |ixs| :: values[start..][ixs[k]] == values[picks[k]];
  }

  method PlotPoints(values: seq<Num>, width: nat) returns (points: seq<Point>)
    ensures points == PlottedPoints(values, width)
    ensures |points| <= 5 * Pixels(width)
  {
    var start := SuffixStart(|values|);
    var suffix := values[start..];
    var pixels := Pixels(width);
    IndexPicksKeep(suffix, width);
    var ixs;
    if |suffix| <= pixels * SAMPLES_PER_PIXEL {
      ixs := seq(|suffix|, i requires 0 <= i < |suffix| => i);
    } else {
      ixs := ReduceByIndex(suffix, pixels);
    }
    points := PointsOf(suffix, start, ixs);
  }
}
