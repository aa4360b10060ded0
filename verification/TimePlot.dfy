/** Plotting a series by timestamp: an optional inclusive window, one time bucket per
    pixel when the series is long, and the line-break threshold that goes with it. */
module TimePlot {
  import opened Wrappers
  import opened Reduction
  import opened IndexPlot

  const GAP_FACTOR: real := 3.0

  /** A requested window that is usable: finite and nonempty. */
  function UsableWindow(window: Option<(Num, Num)>): (w: Option<(real, real)>)
    ensures w.Some? ==> w.value.0 < w.value.1
  {
    if window.Some? && window.value.0.Fin? && window.value.1.Fin? && window.value.0.r < window.value.1.r
    then Some((window.value.0.r, window.value.1.r)) else None
  }

  predicate InRange(t: Num, lo: real, hi: real) {
    t.Fin? && lo <= t.r <= hi
  }

  // ------------------------------------------------------------- the time domain

  function Smaller(x: real, y: real): (m: real) { if x <= y then x else y }

  function Larger(x: real, y: real): (m: real) { if x >= y then x else y }

  /** The least and greatest finite timestamp. */
  function Extent(times: seq<Num>): (d: Option<(real, real)>)
    ensures d.Some? ==> d.value.0 <= d.value.1
  {
    if times == [] then None
    else
      var init, t := Extent(times[..|times| - 1]), times[|times| - 1];
      if !t.Fin? then init
      else if init.None? then Some((t.r, t.r))
      else Some((Smaller(init.value.0, t.r), Larger(init.value.1, t.r)))
  }

  /** The domain to plot over: the extent, widened when it is a single instant. */
  function Domain(times: seq<Num>): (d: Option<(real, real)>)
    ensures d.Some? ==> d.value.0 < d.value.1
  {
    var e := Extent(times);
    if e.None? then None
    else if e.value.0 == e.value.1 then Some((e.value.0 - 0.5, e.value.1 + 0.5))
    else e
  }

  lemma {:induction false} ExtentCovers(times: seq<Num>, i: nat)
    requires i < |times| && times[i].Fin?
    ensures Extent(times).Some? && Extent(times).value.0 <= times[i].r <= Extent(times).value.1
  {
    if i < |times| - 1 {
      ExtentCovers(times[..|times| - 1], i);
    }
  }

  /** Without a window every finite timestamp is in range, so the two reducing loops
      of the renderer bucket the same samples. */
  lemma DomainCovers(times: seq<Num>, i: nat)
    requires i < |times| && Domain(times).Some?
    ensures times[i].Fin? <==> InRange(times[i], Domain(times).value.0, Domain(times).value.1)
  {
    if times[i].Fin? {
      ExtentCovers(times, i);
    }
  }

  /** The domain is the extent of the finite timestamps, attained at both ends; a single
      instant is widened by half a unit on either side. */
  lemma {:induction false} ExtentIs(times: seq<Num>)
    ensures Extent(times).None? <==> forall i | 0 <= i < |times| :: !times[i].Fin?
    ensures Extent(times).Some? ==> Fin(Extent(times).value.0) in times && Fin(Extent(times).value.1) in times
  {
    if times != [] {
      ExtentIs(times[..|times| - 1]);
    }
  }

  lemma DomainExact(times: seq<Num>, lo: real, hi: real)
    requires Fin(lo) in times && Fin(hi) in times
    requires forall i | 0 <= i < |times| && times[i].Fin? :: lo <= times[i].r <= hi
    ensures Domain(times) == if lo == hi then Some((lo - 0.5, hi + 0.5)) else Some((lo, hi))
  {
    var i :| 0 <= i < |times| && times[i] == Fin(lo);
    var j :| 0 <= j < |times| && times[j] == Fin(hi);
    ExtentIs(times);
    ExtentCovers(times, i);
    ExtentCovers(times, j);
    assert Extent(times).value == (lo, hi);
  }

  // --------------------------------------------------------------- time buckets

  function BucketWidth(lo: real, hi: real, pixels: nat): (w: real)
    requires lo < hi && pixels >= 1
  {
    (hi - lo) / pixels as real
  }

  function TimeBucket(t: real, lo: real, hi: real, pixels: nat): (b: nat)
    requires lo <= t && lo < hi && pixels >= 1
    ensures b < pixels
  {
    var scaled := (t - lo) / (hi - lo) * pixels as real;
    ScaledNonnegative(t, lo, hi, pixels);
    if scaled.Floor > pixels - 1 then pixels - 1 else scaled.Floor
  }

  lemma ScaledNonnegative(t: real, lo: real, hi: real, pixels: nat)
    requires lo <= t && lo < hi && pixels >= 1
    ensures (t - lo) / (hi - lo) * pixels as real >= 0.0
  {
    assert (t - lo) / (hi - lo) >= 0.0;
  }

  lemma ScaledBack(t: real, lo: real, hi: real, pixels: nat)
    requires lo <= t && lo < hi && pixels >= 1
    ensures BucketWidth(lo, hi, pixels) > 0.0
    ensures (t - lo) / (hi - lo) * pixels as real * BucketWidth(lo, hi, pixels) == t - lo
    ensures BucketWidth(lo, hi, pixels) * pixels as real == hi - lo
  {
    var s, p := hi - lo, pixels as real;
    var x, w := (t - lo) / s, s / p;
    assert x * s == t - lo;
    assert w * p == s;
    assert x * p * w == x * (w * p);
  }

  lemma RealMonotone(x: real, y: real, w: real)
    requires x <= y && w >= 0.0
    ensures x * w <= y * w
  {
  }

  /** The offset lies within the bounds of bucket `b`, for buckets of width `w`. */
  predicate InBucket(offset: real, b: nat, w: real) {
    w > 0.0 && b as real * w <= offset <= (b as real + 1.0) * w
  }

  /** A timestamp lies within its bucket's bounds. */
  lemma BucketBounds(t: real, lo: real, hi: real, pixels: nat)
    requires lo <= t <= hi && lo < hi && pixels >= 1
    ensures InBucket(t - lo, TimeBucket(t, lo, hi, pixels), BucketWidth(lo, hi, pixels))
  {
    var x, w := (t - lo) / (hi - lo) * pixels as real, BucketWidth(lo, hi, pixels);
    var b := TimeBucket(t, lo, hi, pixels);
    ScaledNonnegative(t, lo, hi, pixels);
    ScaledBack(t, lo, hi, pixels);
    assert b as real <= x;
    RealMonotone(b as real, x, w);
    if x.Floor > pixels - 1 {
      assert (b as real + 1.0) * w == pixels as real * w;
    } else {
      RealMonotone(x, b as real + 1.0, w);
    }
  }

  /** Offsets in buckets at most one apart are at most two widths apart. */
  lemma TwoWidths(b: nat, c: nat, w: real, t: real, u: real)
    requires InBucket(t, b, w) && InBucket(u, c, w) && -1 <= c - b <= 1
    ensures u - t <= 2.0 * w
  {
    var d := c as real - b as real + 1.0;
    calc {
      u - t;
      <=
      (c as real + 1.0) * w - b as real * w;
      ==
      d * w;
      <= { RealMonotone(d, 2.0, w); }
      2.0 * w;
    }
  }

  /** Timestamps in the same or adjacent buckets are at most two bucket widths apart. */
  lemma NeighboursAreNear(t: real, u: real, lo: real, hi: real, pixels: nat)
    requires lo <= t <= hi && lo <= u <= hi && lo < hi && pixels >= 1
    requires -1 <= TimeBucket(u, lo, hi, pixels) - TimeBucket(t, lo, hi, pixels) <= 1
    ensures -2.0 * BucketWidth(lo, hi, pixels) <= u - t <= 2.0 * BucketWidth(lo, hi, pixels)
  {
    var b, c, w := TimeBucket(t, lo, hi, pixels), TimeBucket(u, lo, hi, pixels), BucketWidth(lo, hi, pixels);
    assert InBucket(t - lo, b, w) by {
      BucketBounds(t, lo, hi, pixels);
    }
    assert InBucket(u - lo, c, w) by {
      BucketBounds(u, lo, hi, pixels);
    }
    BothWays(b, c, w, t - lo, u - lo);
  }

  lemma BothWays(b: nat, c: nat, w: real, t: real, u: real)
    requires InBucket(t, b, w) && InBucket(u, c, w) && -1 <= c - b <= 1
    ensures -2.0 * w <= u - t <= 2.0 * w
  {
    TwoWidths(b, c, w, t, u);
    TwoWidths(c, b, w, u, t);
  }

  function TimeLayout(times: seq<Num>, lo: real, hi: real, pixels: nat): (layout: Layout)
    requires lo < hi && pixels >= 1
    ensures |layout| == |times|
    ensures forall i | 0 <= i < |times| ::
              layout[i] == if InRange(times[i], lo, hi) then Some(TimeBucket(times[i].r, lo, hi, pixels)) else None
  {
    seq(|times|, i requires 0 <= i < |times| =>
      if InRange(times[i], lo, hi) then Some(TimeBucket(times[i].r, lo, hi, pixels)) else None)
  }

  // ----------------------------------------------------------- the emitted points

  function CountIn(times: seq<Num>, lo: real, hi: real): (n: nat)
    ensures n <= |times|
  {
    if times == [] then 0
    else CountIn(times[..|times| - 1], lo, hi) + if InRange(times[|times| - 1], lo, hi) then 1 else 0
  }

  /** All samples in range, in order. */
  function Kept(times: seq<Num>, lo: real, hi: real): (ixs: seq<nat>) {
    if times == [] then []
    else Kept(times[..|times| - 1], lo, hi) + if InRange(times[|times| - 1], lo, hi) then [|times| - 1] else []
  }

  lemma {:induction false} KeptProperties(times: seq<Num>, lo: real, hi: real)
    ensures Increasing(Kept(times, lo, hi)) && Within(Kept(times, lo, hi), 0, |times|)
    ensures |Kept(times, lo, hi)| == CountIn(times, lo, hi)
    ensures forall i: nat :: i in Kept(times, lo, hi) <==> i < |times| && InRange(times[i], lo, hi)
  {
    if times != [] {
      var n := |times| - 1;
      var kept, last := Kept(times[..n], lo, hi), if InRange(times[n], lo, hi) then [n] else [];
      KeptProperties(times[..n], lo, hi);
      assert Kept(times, lo, hi) == kept + last;
      forall i: nat ensures i in kept + last <==> i < |times| && InRange(times[i], lo, hi) {
        assert i in kept <==> i < n && InRange(times[i], lo, hi);
      }
      KeptSnoc(kept, last, n);
    }
  }

  lemma KeptSnoc(kept: seq<nat>, last: seq<nat>, n: nat)
    requires Increasing(kept) && Within(kept, 0, n) && (last == [] || last == [n])
    ensures Increasing(kept + last) && Within(kept + last, 0, n + 1)
  {
  }

  /** The domain used: the usable window, else the timestamps' own. */
  function PlotDomain(times: seq<Num>, window: Option<(Num, Num)>): (d: Option<(real, real)>)
    ensures d.Some? ==> d.value.0 < d.value.1
  {
    if UsableWindow(window).Some? then UsableWindow(window) else Domain(times)
  }

  /** A requested window is honoured exactly when it is finite and not empty or inverted;
      otherwise it is as if none had been requested. */
  lemma WindowHonoured(times: seq<Num>, window: Option<(Num, Num)>)
    ensures forall lo, hi | window == Some((Fin(lo), Fin(hi))) && lo < hi :: PlotDomain(times, window) == Some((lo, hi))
    ensures (forall lo, hi :: window == Some((Fin(lo), Fin(hi))) ==> lo >= hi) ==>
              PlotDomain(times, window) == Domain(times) && UsableWindow(window).None?
  {
  }

  /** The reducer's own test: it counts samples in the window, or all of them. */
  predicate Reduces(times: seq<Num>, width: nat, window: Option<(Num, Num)>) {
    var w := UsableWindow(window);
    (if w.Some? then CountIn(times, w.value.0, w.value.1) else |times|) > Pixels(width) * SAMPLES_PER_PIXEL
  }

  /** The indices emitted for a bounded suffix of timed samples. */
  function TimePicks(times: seq<Num>, values: seq<Num>, width: nat, window: Option<(Num, Num)>): (ixs: seq<nat>)
    requires |times| == |values|
  {
    var d := PlotDomain(times, window);
    if d.None? then []
    else if !Reduces(times, width, window) then Kept(times, d.value.0, d.value.1)
    else Reduced(values, TimeLayout(times, d.value.0, d.value.1, Pixels(width)), Pixels(width))
  }

  /** For every timed series, width and window: the emitted samples are an in-order
      subsequence, at most five per pixel. */
  lemma TimePicksKeep(times: seq<Num>, values: seq<Num>, width: nat, window: Option<(Num, Num)>)
    requires |times| == |values|
    ensures var ixs := TimePicks(times, values, width, window);
            Increasing(ixs) && Within(ixs, 0, |values|) && |ixs| <= 5 * Pixels(width)
  {
    var d := PlotDomain(times, window);
    if d.Some? {
      KeptProperties(times, d.value.0, d.value.1);
      ReducedKeepsPicks(values, TimeLayout(times, d.value.0, d.value.1, Pixels(width)), Pixels(width), 0);
    }
  }

  /** And the extrema of the plotted range survive. */
  lemma TimeExtremaSurvive(times: seq<Num>, values: seq<Num>, width: nat, window: Option<(Num, Num)>, i: nat)
    requires i < |times| == |values| && values[i].Fin?
    requires PlotDomain(times, window).Some?
    requires var (lo, hi) := PlotDomain(times, window).value; InRange(times[i], lo, hi)
    ensures HasAtMost(values, TimePicks(times, values, width, window), values[i].r)
    ensures HasAtLeast(values, TimePicks(times, values, width, window), values[i].r)
  {
    var (lo, hi) := PlotDomain(times, window).value;
    if Reduces(times, width, window) {
      ExtremaSurvive(values, TimeLayout(times, lo, hi, Pixels(width)), Pixels(width), i);
    } else {
      KeptProperties(times, lo, hi);
      var ixs := Kept(times, lo, hi);
      var k :| 0 <= k < |ixs| && ixs[k] == i;
      assert HasAtMost(values, ixs, values[i].r) && HasAtLeast(values, ixs, values[i].r);
    }
  }

  // --------------------------------------------------------------- line breaks

  /** Finite timestamps, within the window when there is one. */
  function FiniteCount(times: seq<Num>, w: Option<(real, real)>): (n: nat) {
    if times == [] then 0
    else
      var t := times[|times| - 1];
      FiniteCount(times[..|times| - 1], w)
      + if t.Fin? && (w.None? || (t.r >= w.value.0 && t.r <= w.value.1)) then 1 else 0
  }

  function GapThreshold(times: seq<Num>, domain: (real, real), width: nat,
                        window: Option<(Num, Num)>): (gap: Option<real>)
  {
    var w := UsableWindow(window);
    var count := FiniteCount(times, w);
    var span := domain.1 - domain.0;
    if count < 2 || span <= 0.0 then None
    else
      var mean := GAP_FACTOR * (span / (count - 1) as real);
      var pixels := Pixels(width);
      var samples := if w.Some? then count else |times|;
      if samples > pixels * SAMPLES_PER_PIXEL then Some(Larger(mean, 2.0 * (span / pixels as real))) else Some(mean)
  }

  /** The finite timestamps, within the window when there is one. */
  ghost function Counted(times: seq<Num>, w: Option<(real, real)>): (ixs: set<nat>) {
    set i: nat | i < |times| && times[i].Fin? && (w.Some? ==> w.value.0 <= times[i].r <= w.value.1)
  }

  lemma CountedGrows(times: seq<Num>, t: Num, w: Option<(real, real)>)
    ensures var n, fits := |times|, t.Fin? && (w.Some? ==> w.value.0 <= t.r <= w.value.1);
            |Counted(times + [t], w)| == |Counted(times, w)| + if fits then 1 else 0
  {
    var n, fits := |times|, t.Fin? && (w.Some? ==> w.value.0 <= t.r <= w.value.1);
    assert forall i: nat | i < n :: (times + [t])[i] == times[i];
    assert Counted(times + [t], w) == Counted(times, w) + if fits then {n} else {};
  }

  lemma {:induction false} FiniteCountIs(times: seq<Num>, w: Option<(real, real)>)
    ensures FiniteCount(times, w) == |Counted(times, w)|
  {
    if times == [] {
      assert Counted(times, w) == {};
    } else {
      var n := |times| - 1;
      FiniteCountIs(times[..n], w);
      CountedGrows(times[..n], times[n], w);
      assert times[..n] + [times[n]] == times;
    }
  }

  /** Two timestamps are at most three mean intervals of `n` samples apart. */
  predicate WithinMean(dx: real, span: real, n: nat) {
    dx * (n - 1) as real <= 3.0 * span
  }

  /** They are at most two of `pixels` bucket widths apart. */
  predicate WithinBuckets(dx: real, span: real, pixels: nat) {
    dx * pixels as real <= 2.0 * span
  }

  lemma DivideBound(dx: real, a: real, n: real, c: real)
    requires n > 0.0
    ensures dx <= c * (a / n) <==> dx * n <= c * a
  {
    var q := a / n;
    assert q * n == a;
    assert c * q * n == c * a;
    if dx <= c * q {
      RealMonotone(dx, c * q, n);
    } else {
      StrictMonotone(c * q, dx, n);
    }
  }

  lemma StrictMonotone(x: real, y: real, n: real)
    requires x < y && n > 0.0
    ensures x * n < y * n
  {
  }

  lemma LargerTests(dx: real, span: real, n: nat, pixels: nat, reduced: bool)
    requires n >= 2 && pixels >= 1
    ensures var mean, two := GAP_FACTOR * (span / (n - 1) as real), 2.0 * (span / pixels as real);
            dx <= (if reduced then Larger(mean, two) else mean) <==>
            WithinMean(dx, span, n) || (reduced && WithinBuckets(dx, span, pixels))
  {
    DivideBound(dx, span, (n - 1) as real, GAP_FACTOR);
    DivideBound(dx, span, pixels as real, 2.0);
  }

  lemma ThresholdIs(times: seq<Num>, d: (real, real), width: nat, window: Option<(Num, Num)>)
    requires d.0 < d.1
    ensures var n, gap := |Counted(times, UsableWindow(window))|, GapThreshold(times, d, width, window);
            var span, pixels := d.1 - d.0, Pixels(width);
            && (gap.None? <==> n < 2)
            && (n >= 2 ==>
                  var mean, two := GAP_FACTOR * (span / (n - 1) as real), 2.0 * (span / pixels as real);
                  gap.value == if Reduces(times, width, window) then Larger(mean, two) else mean)
  {
    var w := UsableWindow(window);
    FiniteCountIs(times, w);
    if w.Some? {
      CountsAgree(times, w.value);
    }
  }

  /** What the threshold tests: three mean intervals, and when the series is reduced two
      bucket widths as well, whichever is more. */
  lemma ThresholdTests(times: seq<Num>, d: (real, real), width: nat, window: Option<(Num, Num)>, dx: real)
    requires d.0 < d.1
    ensures var n, gap := |Counted(times, UsableWindow(window))|, GapThreshold(times, d, width, window);
            && (gap.None? <==> n < 2)
            && (n >= 2 ==>
                  (dx <= gap.value <==>
                     WithinMean(dx, d.1 - d.0, n)
                     || (Reduces(times, width, window) && WithinBuckets(dx, d.1 - d.0, Pixels(width)))))
  {
    var n := |Counted(times, UsableWindow(window))|;
    ThresholdIs(times, d, width, window);
    if n >= 2 {
      LargerTests(dx, d.1 - d.0, n, Pixels(width), Reduces(times, width, window));
    }
  }

  lemma {:induction false} CountsAgree(times: seq<Num>, w: (real, real))
    ensures FiniteCount(times, Some(w)) == CountIn(times, w.0, w.1)
  {
    if times != [] {
      CountsAgree(times[..|times| - 1], w);
    }
  }

  /** A line is drawn between two consecutive emitted points. */
  predicate Drawn(left: Point, right: Point, gap: Option<real>) {
    && left.x.Fin? && left.y.Fin? && right.x.Fin? && right.y.Fin?
    && (gap.None? || -gap.value <= right.x.r - left.x.r <= gap.value)
  }

  lemma {:induction false} EmittedInRange(times: seq<Num>, values: seq<Num>, lo: real, hi: real, pixels: nat, x: nat)
    requires |times| == |values| && lo < hi && pixels >= 1
    requires x in Reduced(values, TimeLayout(times, lo, hi, pixels), pixels)
    ensures x < |times| && InRange(times[x], lo, hi)
  {
    var layout := TimeLayout(times, lo, hi, pixels);
    var lists := PickLists(values, layout, pixels);
    AscendProperties(Concat(lists), 0, |values|);
    var b := ConcatFrom(lists, x);
    PickedLiesInBucket(values, layout, b);
  }

  /** Samples `x` and `y` lie in the same time bucket or in adjacent ones. */
  predicate Neighbours(times: seq<Num>, d: (real, real), pixels: nat, x: nat, y: nat)
    requires d.0 < d.1 && pixels >= 1
  {
    && x < |times| && y < |times| && InRange(times[x], d.0, d.1) && InRange(times[y], d.0, d.1)
    && -1 <= TimeBucket(times[y].r, d.0, d.1, pixels) - TimeBucket(times[x].r, d.0, d.1, pixels) <= 1
  }

  /** The threshold never breaks a line that reduction made: when the series is
      reduced, every emitted sample is in range, and finite ones in the same or in
      adjacent time buckets are joined wherever they come next to each other, because
      reducer and estimator agree on when reduction happens. */
  lemma ReductionMakesNoGaps(times: seq<Num>, values: seq<Num>, width: nat, window: Option<(Num, Num)>, x: nat, y: nat)
    requires |times| == |values| && Reduces(times, width, window) && PlotDomain(times, window).Some?
    requires x in TimePicks(times, values, width, window) && y in TimePicks(times, values, width, window)
    ensures var d := PlotDomain(times, window).value;
            && x < |times| && InRange(times[x], d.0, d.1) && y < |times| && InRange(times[y], d.0, d.1)
            && (values[x].Fin? && values[y].Fin? && Neighbours(times, d, Pixels(width), x, y) ==>
                  Drawn(Point(times[x], values[x]), Point(times[y], values[y]), GapThreshold(times, d, width, window)))
  {
    var d, pixels := PlotDomain(times, window).value, Pixels(width);
    EmittedInRange(times, values, d.0, d.1, pixels, x);
    EmittedInRange(times, values, d.0, d.1, pixels, y);
    if Neighbours(times, d, pixels, x, y) {
      NeighboursWithin(times, d, pixels, x, y);
      ThresholdAllowsTwoBuckets(times, width, window);
    }
  }

  lemma NeighboursWithin(times: seq<Num>, d: (real, real), pixels: nat, x: nat, y: nat)
    requires d.0 < d.1 && pixels >= 1 && Neighbours(times, d, pixels, x, y)
    ensures var w := BucketWidth(d.0, d.1, pixels); -2.0 * w <= times[y].r - times[x].r <= 2.0 * w
  {
    NeighboursAreNear(times[x].r, times[y].r, d.0, d.1, pixels);
  }

  lemma ThresholdAllowsTwoBuckets(times: seq<Num>, width: nat, window: Option<(Num, Num)>)
    requires Reduces(times, width, window) && PlotDomain(times, window).Some?
    ensures var d := PlotDomain(times, window).value;
            var gap := GapThreshold(times, d, width, window);
            gap.Some? ==> gap.value >= 2.0 * BucketWidth(d.0, d.1, Pixels(width))
  {
    if UsableWindow(window).Some? {
      CountsAgree(times, UsableWindow(window).value);
    }
  }

  // ----------------------------------------------------------- plotting by time

  function TimedPoints(times: seq<Num>, values: seq<Num>, ixs: seq<nat>): (points: seq<Point>)
    requires |times| == |values| && forall k | 0 <= k < |ixs| :: ixs[k] < |times|
  {
    seq(|ixs|, k requires 0 <= k < |ixs| => Point(times[ixs[k]], values[ixs[k]]))
  }

  /** The newest bounded suffix of what both columns hold. */
  function Newest(s: seq<Num>, samples: nat): (t: seq<Num>)
    requires samples <= |s|
  {
    s[SuffixStart(samples)..samples]
  }

  function Samples(times: seq<Num>, values: seq<Num>): (n: nat) {
    if |times| <= |values| then |times| else |values|
  }

  function PlottedTimePoints(times: seq<Num>, values: seq<Num>, width: nat,
                             window: Option<(Num, Num)>): (points: seq<Point>)
  {
    var n := Samples(times, values);
    var ts, vs := Newest(times, n), Newest(values, n);
    TimePicksKeep(ts, vs, width, window);
    TimedPoints(ts, vs, TimePicks(ts, vs, width, window))
  }

  /** Point k is sample `picks[k]`, among the newest 2^21, with its timestamp in range. */
  ghost predicate PlotsTimed(times: seq<Num>, values: seq<Num>, lo: real, hi: real, points: seq<Point>,
                             picks: seq<nat>) {
    && |points| == |picks|
    && (forall k | 0 <= k < |picks| ::
          && picks[k] < |times| && picks[k] < |values| && picks[k] + 0x20_0000 >= Samples(times, values)
          && InRange(times[picks[k]], lo, hi)
          && points[k] == Point(times[picks[k]], values[picks[k]]))
    && (forall k, l | 0 <= k < l < |picks| :: picks[k] < picks[l])
  }

  /** The plotted points are samples in range, in order; a series with at most four
      samples per pixel, counted in the window when there is one, is plotted whole. */
  lemma TimedPointsAreSamples(times: seq<Num>, values: seq<Num>, width: nat, window: Option<(Num, Num)>)
    returns (picks: seq<nat>)
    requires PlotDomain(Newest(times, Samples(times, values)), window).Some?
    ensures var d := PlotDomain(Newest(times, Samples(times, values)), window).value;
            PlotsTimed(times, values, d.0, d.1, PlottedTimePoints(times, values, width, window), picks)
    ensures var ts, w := Newest(times, Samples(times, values)), UsableWindow(window);
            var n, pixels := (if w.Some? then |Counted(ts, w)| else |ts|), if width == 0 then 1 else 2 * width;
            n <= 4 * pixels ==> |picks| == |Counted(ts, w)|
  {
    var m := Samples(times, values);
    var ts, vs := Newest(times, m), Newest(values, m);
    var d, ixs := PlotDomain(ts, window).value, TimePicks(ts, vs, width, window);
    TimePicksKeep(ts, vs, width, window);
    PicksInRange(ts, vs, width, window);
    PlottedWhole(ts, width, window);
    picks := ShiftPicks(times, values, d.0, d.1, ixs);
  }

  predicate AllInRange(times: seq<Num>, lo: real, hi: real, ixs: seq<nat>) {
    forall k | 0 <= k < |ixs| :: ixs[k] < |times| && InRange(times[ixs[k]], lo, hi)
  }

  /** Positions in the newest samples are positions in all of them. */
  lemma ShiftPicks(times: seq<Num>, values: seq<Num>, lo: real, hi: real, ixs: seq<nat>) returns (picks: seq<nat>)
    requires Increasing(ixs) && AllInRange(Newest(times, Samples(times, values)), lo, hi, ixs)
    ensures var m := Samples(times, values);
            PlotsTimed(times, values, lo, hi, TimedPoints(Newest(times, m), Newest(values, m), ixs), picks)
    ensures |picks| == |ixs|
  {
    var m, start := Samples(times, values), SuffixStart(Samples(times, values));
    var ts, vs := Newest(times, m), Newest(values, m);
    picks := seq(|ixs|, k requires 0 <= k < |ixs| => start + ixs[k]);
    assert forall k | 0 <= k < |ixs| :: ts[ixs[k]] == times[picks[k]] && vs[ixs[k]] == values[picks[k]];
  }

  lemma PicksInRange(times: seq<Num>, values: seq<Num>, width: nat, window: Option<(Num, Num)>)
    requires |times| == |values| && PlotDomain(times, window).Some?
    ensures var d := PlotDomain(times, window).value;
            forall x | x in TimePicks(times, values, width, window) :: x < |times| && InRange(times[x], d.0, d.1)
  {
    var d := PlotDomain(times, window).value;
    forall x | x in TimePicks(times, values, width, window) ensures x < |times| && InRange(times[x], d.0, d.1) {
      if Reduces(times, width, window) {
        EmittedInRange(times, values, d.0, d.1, Pixels(width), x);
      } else {
        KeptProperties(times, d.0, d.1);
      }
    }
  }

  /** Without a reduction as many samples are kept as there are in range. */
  lemma PlottedWhole(times: seq<Num>, width: nat, window: Option<(Num, Num)>)
    requires PlotDomain(times, window).Some?
    ensures var d, w := PlotDomain(times, window).value, UsableWindow(window);
            && |Kept(times, d.0, d.1)| == |Counted(times, w)|
            && (Reduces(times, width, window) <==>
                (if w.Some? then |Counted(times, w)| else |times|) > 4 * if width == 0 then 1 else 2 * width)
  {
    var d, w := PlotDomain(times, window).value, UsableWindow(window);
    KeptProperties(times, d.0, d.1);
    FiniteCountIs(times, w);
    CountsAgree(times, d);
    FiniteCountIs(times, Some(d));
    if w.None? {
      forall i: nat | i < |times| ensures times[i].Fin? <==> InRange(times[i], d.0, d.1) {
        DomainCovers(times, i);
      }
      assert Counted(times, Some(d)) == Counted(times, w);
    }
  }

  method PlotTimePointsIn(times: seq<Num>, values: seq<Num>, width: nat, window: Option<(Num, Num)>)
    returns (points: seq<Point>, domain: Option<(real, real)>)
    ensures points == PlottedTimePoints(times, values, width, window)
    ensures domain == PlotDomain(Newest(times, Samples(times, values)), window)
    ensures |points| <= 5 * Pixels(width)
  {
    var n := Samples(times, values);
    var ts, vs := Newest(times, n), Newest(values, n);
    var pixels := Pixels(width);
    TimePicksKeep(ts, vs, width, window);
    domain := PlotDomain(ts, window);
    if domain.None? {
      return [], None;
    }
    var ixs;
    if !Reduces(ts, width, window) {
      ixs := Kept(ts, domain.value.0, domain.value.1);
    } else {
      ixs := ReduceByLayout(vs, TimeLayout(ts, domain.value.0, domain.value.1, pixels), pixels);
    }
    points := TimedPoints(ts, vs, ixs);
  }
}
