/** Frames of columnar data and their reduction to drawable points and axis bounds. */
module Series {
  import opened Wrappers
  import opened Reduction
  import opened IndexPlot
  import opened TimePlot

  datatype FieldType = Time | Float64 | Text

  datatype Column = Floats(values: seq<Num>) | Strings(lines: seq<string>)

  datatype Field = Field(name: string, ty: FieldType, data: Column) {
    function Len(): (n: nat) {
      match data case Floats(v) => |v| case Strings(l) => |l|
    }

    function Values(): (v: seq<Num>) {
      match data case Floats(v) => v case Strings(_) => []
    }
  }

  datatype Frame = Frame(fields: seq<Field>)

  datatype Bounds = Bounds(x: (real, real), y: (real, real))

  datatype ReducedSeries = ReducedSeries(points: seq<Point>, x: (real, real), y: (real, real), gap: Option<real>)

  function ValueField(fields: seq<Field>): (f: Option<Field>) {
    if fields == [] then None
    else if fields[0].ty == Float64 then Some(fields[0])
    else ValueField(fields[1..])
  }

  function TimeField(fields: seq<Field>, len: nat): (f: Option<Field>) {
    if fields == [] then None
    else if fields[0].ty == Time && fields[0].Len() == len then Some(fields[0])
    else TimeField(fields[1..], len)
  }

  function Reduce(frame: Frame, bounds: Bounds, window: Option<(Num, Num)>, width: nat): (s: ReducedSeries) {
    var y := ValueField(frame.fields);
    if y.None? then ReducedSeries([], bounds.x, bounds.y, None)
    else
      var time := TimeField(frame.fields, y.value.Len());
      if time.None? then ReducedSeries(PlottedPoints(y.value.Values(), width), bounds.x, bounds.y, None)
      else
        var n := Samples(time.value.Values(), y.value.Values());
        var times := time.value.Values()[..n];
        var d := PlotDomain(Newest(times, n), window);
        var x := if d.Some? then d.value else bounds.x;
        ReducedSeries(PlottedTimePoints(times, y.value.Values(), width, window), x, bounds.y,
                      GapThreshold(Newest(times, n), x, width, window))
  }

  /** Which plot a frame gets: none without a floating-point column; by index, without a
      threshold, when no time column fits it; by time otherwise. The vertical bounds are
      the given ones, and so are the horizontal ones unless timestamps supply them. */
  lemma ReduceChooses(frame: Frame, bounds: Bounds, window: Option<(Num, Num)>, width: nat)
    ensures var s, y := Reduce(frame, bounds, window, width), ValueField(frame.fields);
            && s.y == bounds.y
            && (y.None? ==> s.points == [] && s.x == bounds.x && s.gap.None?)
            && (y.Some? && TimeField(frame.fields, y.value.Len()).None? ==>
                  s.points == PlottedPoints(y.value.Values(), width) && s.x == bounds.x && s.gap.None?)
            && (s.x == bounds.x || y.Some?)
  {
  }

  // ---------------------------------------------------------------- drawn lines

  type Line = (Point, Point)

  predicate Finite(p: Point) {
    p.x.Fin? && p.y.Fin?
  }

  /** Consecutive points, both finite. */
  function Segments(points: seq<Point>): (lines: seq<Line>)
    ensures forall k | 0 <= k < |lines| :: Finite(lines[k].0) && Finite(lines[k].1)
  {
    if |points| < 2 then []
    else
      var n := |points| - 1;
      Segments(points[..n]) + if Finite(points[n - 1]) && Finite(points[n]) then [(points[n - 1], points[n])] else []
  }

  /** Those no further apart in time than `gap`. */
  function Near(lines: seq<Line>, gap: real): (near: seq<Line>)
    requires forall k | 0 <= k < |lines| :: Finite(lines[k].0) && Finite(lines[k].1)
  {
    if lines == [] then []
    else
      var init, l := lines[..|lines| - 1], lines[|lines| - 1];
      assert Finite(lines[|lines| - 1].0) && Finite(lines[|lines| - 1].1);
      Near(init, gap) + if -gap <= l.1.x.r - l.0.x.r <= gap then [l] else []
  }

  /** The lines drawn for a reduced series. */
  function Lines(s: ReducedSeries): (lines: seq<Line>) {
    if s.gap.Some? then Near(Segments(s.points), s.gap.value) else Segments(s.points)
  }

  /** Points `k` and the next one are finite, and `l` is the line between them. */
  predicate Adjacent(points: seq<Point>, k: nat, l: Line) {
    k + 1 < |points| && l == (points[k], points[k + 1]) && Finite(points[k]) && Finite(points[k + 1])
  }

  lemma AdjacentGrows(points: seq<Point>, p: Point, k: nat, l: Line)
    ensures Adjacent(points + [p], k, l) <==>
            Adjacent(points, k, l) || (k + 1 == |points| && l == (points[k], p) && Finite(points[k]) && Finite(p))
  {
  }

  lemma {:induction false} SegmentsAre(points: seq<Point>, l: Line)
    ensures l in Segments(points) <==> exists k: nat :: Adjacent(points, k, l)
  {
    if |points| >= 2 {
      var n := |points| - 1;
      var init, p := points[..n], points[n];
      assert init + [p] == points;
      SegmentsAre(init, l);
      forall k: nat ensures Adjacent(points, k, l) <==>
          Adjacent(init, k, l) || (k + 1 == n && l == (init[k], p) && Finite(init[k]) && Finite(p)) {
        AdjacentGrows(init, p, k, l);
      }
      if l == (init[n - 1], p) && Finite(init[n - 1]) && Finite(p) {
        assert Adjacent(points, n - 1, l);
      } else if l in Segments(init) {
        var k: nat :| Adjacent(init, k, l);
        assert Adjacent(points, k, l);
      }
    }
  }

  lemma {:induction false} NearAre(lines: seq<Line>, gap: real, l: Line)
    requires forall k | 0 <= k < |lines| :: Finite(lines[k].0) && Finite(lines[k].1)
    ensures l in Near(lines, gap) <==> l in lines && -gap <= l.1.x.r - l.0.x.r <= gap
  {
    if lines != [] {
      NearAre(lines[..|lines| - 1], gap, l);
    }
  }

  /** The drawn lines are exactly the pairs of consecutive points that may be joined. */
  lemma LinesAre(s: ReducedSeries, l: Line)
    ensures l in Lines(s) <==>
            exists k: nat :: Adjacent(s.points, k, l) && Drawn(l.0, l.1, s.gap)
  {
    SegmentsAre(s.points, l);
    if s.gap.Some? {
      NearAre(Segments(s.points), s.gap.value, l);
    }
  }

  /** The times and values a frame is plotted from: its newest bounded samples. */
  predicate Timed(frame: Frame, times: seq<Num>, values: seq<Num>) {
    var y := ValueField(frame.fields);
    && y.Some?
    && var time := TimeField(frame.fields, y.value.Len());
       && time.Some?
       && var n := Samples(time.value.Values(), y.value.Values());
          times == Newest(time.value.Values(), n) && values == Newest(y.value.Values(), n)
  }

  lemma TimedReduction(frame: Frame, bounds: Bounds, window: Option<(Num, Num)>, width: nat, times: seq<Num>,
                       values: seq<Num>)
    requires Timed(frame, times, values) && PlotDomain(times, window).Some?
    ensures |times| == |values|
    ensures var s, d, ixs := Reduce(frame, bounds, window, width), PlotDomain(times, window).value,
                         TimePicks(times, values, width, window);
            && s.x == d && s.gap == GapThreshold(times, d, width, window)
            && Within(ixs, 0, |times|) && s.points == TimedPoints(times, values, ixs)
  {
    var y := ValueField(frame.fields).value;
    var all := TimeField(frame.fields, y.Len()).value.Values();
    var n := Samples(all, y.Values());
    assert Newest(all[..n], n) == times && Samples(all[..n], y.Values()) == n;
    TimePicksKeep(times, values, width, window);
  }

  /** Reduction breaks no line: of a reduced timed frame, consecutive finite points in
      the same or in adjacent time buckets are joined by a drawn line. */
  lemma ReducedFrameKeepsLines(frame: Frame, bounds: Bounds, window: Option<(Num, Num)>, width: nat,
                               times: seq<Num>, values: seq<Num>, k: nat)
    requires Timed(frame, times, values) && PlotDomain(times, window).Some? && Reduces(times, width, window)
    requires var s := Reduce(frame, bounds, window, width);
             k + 1 < |s.points| && Finite(s.points[k]) && Finite(s.points[k + 1])
    ensures var s, d, pixels := Reduce(frame, bounds, window, width), PlotDomain(times, window).value, Pixels(width);
            var left, right := s.points[k], s.points[k + 1];
            && InRange(left.x, d.0, d.1) && InRange(right.x, d.0, d.1)
            && (-1 <= TimeBucket(right.x.r, d.0, d.1, pixels) - TimeBucket(left.x.r, d.0, d.1, pixels) <= 1 ==>
                  (left, right) in Lines(s))
  {
    var s, d, ixs := Reduce(frame, bounds, window, width), PlotDomain(times, window).value,
                     TimePicks(times, values, width, window);
    TimedReduction(frame, bounds, window, width, times, values);
    ReductionMakesNoGaps(times, values, width, window, ixs[k], ixs[k + 1]);
    assert Adjacent(s.points, k, (s.points[k], s.points[k + 1]));
    LinesAre(s, (s.points[k], s.points[k + 1]));
  }

  function Distance(left: Point, right: Point): (dx: real)
    requires Finite(left) && Finite(right)
  {
    if right.x.r >= left.x.r then right.x.r - left.x.r else left.x.r - right.x.r
  }

  /** The threshold tells holes from intervals: of a timed frame with `n` finite
      timestamps in range, consecutive finite points are joined exactly when their
      distance is at most three times the mean interval or, in a reduced frame, at most
      two bucket widths. A wider hole is a visible break. */
  lemma HolesBreakLines(frame: Frame, bounds: Bounds, window: Option<(Num, Num)>, width: nat,
                        times: seq<Num>, values: seq<Num>, k: nat)
    requires Timed(frame, times, values) && PlotDomain(times, window).Some?
    requires var s := Reduce(frame, bounds, window, width);
             k + 1 < |s.points| && Finite(s.points[k]) && Finite(s.points[k + 1])
    ensures var s, d := Reduce(frame, bounds, window, width), PlotDomain(times, window).value;
            var left, right, n := s.points[k], s.points[k + 1], |Counted(times, UsableWindow(window))|;
            var dx, span := Distance(left, right), d.1 - d.0;
            n >= 2 ==>
              ((left, right) in Lines(s) <==>
                 WithinMean(dx, span, n)
                 || (Reduces(times, width, window) && WithinBuckets(dx, span, Pixels(width))))
  {
    var s, d := Reduce(frame, bounds, window, width), PlotDomain(times, window).value;
    var left, right := s.points[k], s.points[k + 1];
    TimedReduction(frame, bounds, window, width, times, values);
    ThresholdTests(times, d, width, window, Distance(left, right));
    assert Adjacent(s.points, k, (left, right));
    LinesAre(s, (left, right));
  }

  // ----------------------------------------------------------- fallback bounds

  const EPSILON: real := 1.0 / 4503599627370496.0

  /** The least and greatest value that is a number; NaN is passed over, and an
      infinite value, or none at all, leaves no finite range. */
  function ValueRange(values: seq<Num>): (r: Option<(real, real)>) {
    if exists i | 0 <= i < |values| :: values[i].PosInf? || values[i].NegInf? then None else Extent(values)
  }

  function BoundsFor(frame: Frame): (b: Bounds) {
    var f := ValueField(frame.fields);
    var values := if f.Some? then f.value.Values() else [];
    var right := if |values| <= 2 then 1.0 else (|values| - 1) as real;
    var r := ValueRange(values);
    if r.None? then Bounds((0.0, right), (0.0, 1.0))
    else
      var lo := r.value.0;
      var hi := if r.value.1 - lo < EPSILON then lo + 1.0 else r.value.1;
      var pad := (hi - lo) * 0.1;
      Bounds((0.0, right), (lo - pad, hi + pad))
  }

  ghost predicate IsLeast(values: seq<Num>, x: real) {
    Fin(x) in values && forall i | 0 <= i < |values| && values[i].Fin? :: x <= values[i].r
  }

  ghost predicate IsGreatest(values: seq<Num>, x: real) {
    Fin(x) in values && forall i | 0 <= i < |values| && values[i].Fin? :: values[i].r <= x
  }

  /** The fallback bounds: the index range, and the values' own range with a tenth of it
      as margin on either side, one unit high at least when it is flat; without a finite
      range, from zero to one. */
  lemma BoundsExact(frame: Frame, values: seq<Num>, lo: real, hi: real)
    requires ValueField(frame.fields).Some? && values == ValueField(frame.fields).value.Values()
    requires IsLeast(values, lo) && IsGreatest(values, hi)
    ensures var b, infinite := BoundsFor(frame), PosInf in values || NegInf in values;
            && b.x == (0.0, if |values| <= 2 then 1.0 else (|values| - 1) as real)
            && (infinite ==> b.y == (0.0, 1.0))
            && (!infinite && hi - lo < EPSILON ==> b.y == (lo - 0.1, lo + 1.1))
            && (!infinite && hi - lo >= EPSILON ==> b.y == (lo - (hi - lo) * 0.1, hi + (hi - lo) * 0.1))
  {
    var i :| 0 <= i < |values| && values[i] == Fin(lo);
    ExtentCovers(values, i);
    ExtentIs(values);
    var e := Extent(values).value;
    var j :| 0 <= j < |values| && values[j] == Fin(hi);
    ExtentCovers(values, j);
    assert e == (lo, hi);
  }

  /** The plotted column is the first floating-point one. */
  lemma {:induction false} ValueFieldIsFirst(fields: seq<Field>)
    ensures ValueField(fields).None? <==> forall i | 0 <= i < |fields| :: !Suits(fields[i], Float64, None)
    ensures ValueField(fields).Some? ==>
              exists i :: First(fields, i, Float64, None) && ValueField(fields).value == fields[i]
  {
    if fields != [] {
      var rest := fields[1..];
      ValueFieldIsFirst(rest);
      if Suits(fields[0], Float64, None) {
        assert First(fields, 0, Float64, None);
      } else if ValueField(rest).Some? {
        var i :| First(rest, i, Float64, None) && ValueField(rest).value == rest[i];
        FirstShifts(fields, Float64, None, i);
      } else {
        assert forall i | 0 < i < |fields| :: fields[i] == rest[i - 1];
      }
    }
  }

  /** Its timestamps are the first time column of the same length. */
  lemma {:induction false} TimeFieldIsFirst(fields: seq<Field>, len: nat)
    ensures TimeField(fields, len).None? <==> forall i | 0 <= i < |fields| :: !Suits(fields[i], Time, Some(len))
    ensures TimeField(fields, len).Some? ==>
              exists i :: First(fields, i, Time, Some(len)) && TimeField(fields, len).value == fields[i]
  {
    if fields != [] {
      var rest := fields[1..];
      TimeFieldIsFirst(rest, len);
      if Suits(fields[0], Time, Some(len)) {
        assert First(fields, 0, Time, Some(len));
      } else if TimeField(rest, len).Some? {
        var i :| First(rest, i, Time, Some(len)) && TimeField(rest, len).value == rest[i];
        FirstShifts(fields, Time, Some(len), i);
      } else {
        assert forall i | 0 < i < |fields| :: fields[i] == rest[i - 1];
      }
    }
  }

  predicate Suits(f: Field, ty: FieldType, len: Option<nat>) {
    f.ty == ty && (len.Some? ==> f.Len() == len.value)
  }

  /** Field `i` is the first of its type and, when it matters, length. */
  ghost predicate First(fields: seq<Field>, i: int, ty: FieldType, len: Option<nat>) {
    0 <= i < |fields| && Suits(fields[i], ty, len) && forall j | 0 <= j < i :: !Suits(fields[j], ty, len)
  }

  lemma FirstShifts(fields: seq<Field>, ty: FieldType, len: Option<nat>, i: int)
    requires fields != [] && !Suits(fields[0], ty, len) && First(fields[1..], i, ty, len)
    ensures First(fields, i + 1, ty, len) && fields[i + 1] == fields[1..][i]
  {
    assert forall j | 0 < j < |fields| :: fields[j] == fields[1..][j - 1];
  }

  /** The vertical bounds never collapse and contain every finite value. */
  lemma BoundsContainValues(frame: Frame, i: nat)
    requires ValueField(frame.fields).Some? && i < |ValueField(frame.fields).value.Values()|
    requires var vs := ValueField(frame.fields).value.Values(); ValueRange(vs).Some? && vs[i].Fin?
    ensures var b, v := BoundsFor(frame), ValueField(frame.fields).value.Values()[i].r;
            b.y.0 < v < b.y.1 && b.x.0 < b.x.1
  {
    ExtentCovers(ValueField(frame.fields).value.Values(), i);
  }
}
