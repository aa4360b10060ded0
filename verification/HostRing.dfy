/** The bounded, time-retained ring of host samples and the coverage verdict that
    a query over it carries. Timestamps are exact reals; samples are opaque except
    for the metric that a query extracts. */
module HostRing {
  import opened Wrappers

  const RING_CAP: nat := 86_400
  const RETENTION: real := 86_400.0
  const COVERAGE_SLACK: real := 2.0
  const MAX_SAMPLE_GAP: real := 1.0 + COVERAGE_SLACK

  /** One snapshot; each metric may be missing. */
  datatype HostSample = HostSample(cpuPct: Option<real>, memUsed: Option<real>, load1: Option<real>)

  datatype Entry = Entry(ts: real, sample: HostSample)

  ghost predicate Sorted(r: seq<Entry>) {
    forall i, j | 0 <= i < j < |r| :: r[i].ts <= r[j].ts
  }

  // ------------------------------------------------------------ linear filters

  /** The entries with `lo <= ts <= hi`, in order. */
  function Between(r: seq<Entry>, lo: real, hi: real): (s: seq<Entry>) {
    if r == [] then []
    else
      var rest := Between(r[1..], lo, hi);
      if lo <= r[0].ts <= hi then [r[0]] + rest else rest
  }

  function LastN(r: seq<Entry>, n: nat): (s: seq<Entry>) {
    if |r| <= n then r else r[|r| - n..]
  }

  ghost predicate IsSuffix(s: seq<Entry>, r: seq<Entry>) {
    |s| <= |r| && s == r[|r| - |s|..]
  }

  lemma {:induction false} BetweenConcat(a: seq<Entry>, b: seq<Entry>, lo: real, hi: real)
    ensures Between(a + b, lo, hi) == Between(a, lo, hi) + Between(b, lo, hi)
    decreases |a|
  {
    if a == [] {
      assert a + b == b;
    } else {
      assert (a + b)[1..] == a[1..] + b;
      BetweenConcat(a[1..], b, lo, hi);
    }
  }

  lemma {:induction false} BetweenAll(r: seq<Entry>, lo: real, hi: real)
    requires forall i | 0 <= i < |r| :: lo <= r[i].ts <= hi
    ensures Between(r, lo, hi) == r
  {
    if r != [] {
      BetweenAll(r[1..], lo, hi);
    }
  }

  lemma {:induction false} BetweenNone(r: seq<Entry>, lo: real, hi: real)
    requires forall i | 0 <= i < |r| :: !(lo <= r[i].ts <= hi)
    ensures Between(r, lo, hi) == []
  {
    if r != [] {
      BetweenNone(r[1..], lo, hi);
    }
  }

  /** In a sorted sequence the filter is a contiguous slice. */
  lemma SliceIsBetween(r: seq<Entry>, lo: real, hi: real, start: nat, end: nat)
    requires start <= end <= |r|
    requires forall i | 0 <= i < start :: r[i].ts < lo
    requires forall i | start <= i < end :: lo <= r[i].ts <= hi
    requires forall i | end <= i < |r| :: hi < r[i].ts
    ensures r[start..end] == Between(r, lo, hi)
  {
    var a, b, c := r[..start], r[start..end], r[end..];
    assert r == a + (b + c);
    BetweenConcat(a, b + c, lo, hi);
    BetweenConcat(b, c, lo, hi);
    BetweenNone(a, lo, hi);
    BetweenAll(b, lo, hi);
    BetweenNone(c, lo, hi);
  }

  // ---------------------------------------------------------- admitting samples

  /** The ring after one sample: what the new clock reading leaves standing, then
      the sample, then the newest `RING_CAP` of them. */
  function Admitted(r: seq<Entry>, e: Entry): (r': seq<Entry>) {
    LastN(Between(r, e.ts - RETENTION, e.ts) + [e], RING_CAP)
  }

  /** The ring after a history of admissions, oldest first. */
  function RingAfter(history: seq<Entry>): (r: seq<Entry>) {
    if history == [] then []
    else Admitted(RingAfter(history[..|history| - 1]), history[|history| - 1])
  }

  /** Binary search: the length of the longest prefix that satisfies `before`. */
  method PartitionPoint(r: seq<Entry>, before: Entry -> bool) returns (k: nat)
    requires forall i, j | 0 <= i < j < |r| && before(r[j]) :: before(r[i])
    ensures k <= |r|
    ensures forall i | 0 <= i < k :: before(r[i])
    ensures forall i | k <= i < |r| :: !before(r[i])
    ensures k < |r| ==> !before(r[k])
  {
    var lo, hi := 0, |r|;
    while lo < hi
      invariant 0 <= lo <= hi <= |r|
      invariant forall i | 0 <= i < lo :: before(r[i])
      invariant forall i | hi <= i < |r| :: !before(r[i])
    {
      var mid := (lo + hi) / 2;
      if before(r[mid]) {
        lo := mid + 1;
      } else {
        hi := mid;
      }
    }
    k := lo;
  }

  // ------------------------------------------------------- extracting a metric

  datatype Coverage = Complete | Partial(retainedFrom: Option<real>)

  datatype Frame = Frame(times: seq<real>, values: seq<real>, coverage: Coverage)

  predicate Recognized(expr: string) {
    expr == "host_cpu_pct" || expr == "host_mem_used" || expr == "host_load1"
  }

  function Extract(expr: string, sample: HostSample): (v: Option<real>) {
    if expr == "host_cpu_pct" then sample.cpuPct
    else if expr == "host_mem_used" then sample.memUsed
    else if expr == "host_load1" then sample.load1
    else None
  }

  /** The entries that carry the metric. */
  function Present(r: seq<Entry>, expr: string): (s: seq<Entry>)
    ensures forall i | 0 <= i < |s| :: Extract(expr, s[i].sample).Some?
  {
    if r == [] then []
    else
      var init, e := Present(r[..|r| - 1], expr), r[|r| - 1];
      if Extract(expr, e.sample).Some? then init + [e] else init
  }

  function Times(r: seq<Entry>): (ts: seq<real>) {
    seq(|r|, i requires 0 <= i < |r| => r[i].ts)
  }

  function Values(r: seq<Entry>, expr: string): (vs: seq<real>)
    requires forall i | 0 <= i < |r| :: Extract(expr, r[i].sample).Some?
  {
    seq(|r|, i requires 0 <= i < |r| => Extract(expr, r[i].sample).value)
  }

  lemma PresentSteps(r: seq<Entry>, e: Entry, expr: string)
    ensures Present(r + [e], expr) == Present(r, expr) + if Extract(expr, e.sample).Some? then [e] else []
  {
    assert (r + [e])[..|r|] == r;
  }

  /** Collect the two columns of a frame from a slice of the ring. */
  method Columns(r: seq<Entry>, expr: string) returns (times: seq<real>, values: seq<real>)
    ensures times == Times(Present(r, expr)) && values == Values(Present(r, expr), expr)
  {
    times, values := [], [];
    for i := 0 to |r|
      invariant times == Times(Present(r[..i], expr)) && values == Values(Present(r[..i], expr), expr)
    {
      PresentSteps(r[..i], r[i], expr);
      assert r[..i] + [r[i]] == r[..i + 1];
      var v := Extract(expr, r[i].sample);
      if v.Some? {
        times := times + [r[i].ts];
        values := values + [v.value];
      }
    }
    assert r[..|r|] == r;
  }

  /** The sample carries `v` for the metric of that name. */
  predicate Measures(expr: string, sample: HostSample, v: real) {
    || (expr == "host_cpu_pct" && sample.cpuPct == Some(v))
    || (expr == "host_mem_used" && sample.memUsed == Some(v))
    || (expr == "host_load1" && sample.load1 == Some(v))
  }

  /** The sample carries some value for it. */
  predicate Carries(expr: string, sample: HostSample) {
    || (expr == "host_cpu_pct" && sample.cpuPct.Some?)
    || (expr == "host_mem_used" && sample.memUsed.Some?)
    || (expr == "host_load1" && sample.load1.Some?)
  }

  /** Row k of the columns is entry `picks[k]` of the ring; the picked entries are those
      in the window that carry the metric, all of them, in order. */
  ghost predicate Rows(r: seq<Entry>, expr: string, from: real, to: real,
                       times: seq<real>, values: seq<real>, picks: seq<nat>) {
    && |times| == |values| == |picks|
    && (forall k | 0 <= k < |picks| ::
          && picks[k] < |r|
          && from <= r[picks[k]].ts <= to && times[k] == r[picks[k]].ts
          && Measures(expr, r[picks[k]].sample, values[k]))
    && (forall k, l | 0 <= k < l < |picks| :: picks[k] < picks[l])
    && (forall i | 0 <= i < |r| && from <= r[i].ts <= to && Carries(expr, r[i].sample) :: i in picks)
  }

  lemma ShownGrows(init: seq<Entry>, e: Entry, expr: string, from: real, to: real)
    ensures Present(Between(init + [e], from, to), expr) ==
            Present(Between(init, from, to), expr) + if from <= e.ts <= to && Carries(expr, e.sample) then [e] else []
  {
    var before := Between(init, from, to);
    BetweenConcat(init, [e], from, to);
    assert Between([e], from, to) == if from <= e.ts <= to then [e] else [];
    if from <= e.ts <= to {
      PresentSteps(before, e, expr);
    } else {
      assert before + [] == before;
    }
  }

  /** The filtered, extracted columns are exactly those rows. */
  lemma {:induction false} ColumnsAreRows(r: seq<Entry>, expr: string, from: real, to: real) returns (picks: seq<nat>)
    ensures var shown := Present(Between(r, from, to), expr);
            Rows(r, expr, from, to, Times(shown), Values(shown, expr), picks)
  {
    if r == [] {
      picks := [];
    } else {
      var n := |r| - 1;
      var init, e := r[..n], r[n];
      var earlier := ColumnsAreRows(init, expr, from, to);
      assert r == init + [e];
      ShownGrows(init, e, expr, from, to);
      RowsGrow(init, e, expr, from, to, earlier);
      if from <= e.ts <= to && Carries(expr, e.sample) {
        picks := earlier + [n];
      } else {
        var shown := Present(Between(init, from, to), expr);
        assert shown + [] == shown;
        picks := earlier;
      }
    }
  }

  lemma RowsGrow(init: seq<Entry>, e: Entry, expr: string, from: real, to: real, earlier: seq<nat>)
    requires var shown := Present(Between(init, from, to), expr);
             Rows(init, expr, from, to, Times(shown), Values(shown, expr), earlier)
    ensures var shown := Present(Between(init, from, to), expr);
            if from <= e.ts <= to && Carries(expr, e.sample) then
              Rows(init + [e], expr, from, to, Times(shown + [e]), Values(shown + [e], expr), earlier + [|init|])
            else Rows(init + [e], expr, from, to, Times(shown), Values(shown, expr), earlier)
  {
    var shown := Present(Between(init, from, to), expr);
    if from <= e.ts <= to && Carries(expr, e.sample) {
      var v := Extract(expr, e.sample).value;
      RowsTake(init, e, expr, from, to, Times(shown), Values(shown, expr), earlier, v);
      assert Times(shown + [e]) == Times(shown) + [e.ts] && Values(shown + [e], expr) == Values(shown, expr) + [v];
    } else {
      RowsPass(init, e, expr, from, to, Times(shown), Values(shown, expr), earlier);
    }
  }

  lemma RowsTake(init: seq<Entry>, e: Entry, expr: string, from: real, to: real,
                 times: seq<real>, values: seq<real>, picks: seq<nat>, v: real)
    requires Rows(init, expr, from, to, times, values, picks) && from <= e.ts <= to && Measures(expr, e.sample, v)
    ensures Rows(init + [e], expr, from, to, times + [e.ts], values + [v], picks + [|init|])
  {
    var r := init + [e];
    assert forall i | 0 <= i < |init| :: r[i] == init[i];
    assert r[|init|] == e && (picks + [|init|])[|picks|] == |init|;
    assert forall i | i in picks :: i in picks + [|init|];
  }

  lemma RowsPass(init: seq<Entry>, e: Entry, expr: string, from: real, to: real,
                 times: seq<real>, values: seq<real>, picks: seq<nat>)
    requires Rows(init, expr, from, to, times, values, picks) && !(from <= e.ts <= to && Carries(expr, e.sample))
    ensures Rows(init + [e], expr, from, to, times, values, picks)
  {
    var r := init + [e];
    assert forall i | 0 <= i < |init| :: r[i] == init[i];
    assert r[|init|] == e;
  }

  // ------------------------------------------------------ the coverage verdict

  function CoverageFor(front: Option<real>, from: real): (c: Coverage) {
    if front.Some? && front.value <= from + COVERAGE_SLACK then Complete else Partial(front)
  }

  method HasInteriorGap(points: seq<real>) returns (gap: bool)
    ensures gap <==> Gapped(points)
  {
    for k := 0 to |points|
      invariant forall i {:trigger points[i]} | 0 < i < k :: points[i] - points[i - 1] <= MAX_SAMPLE_GAP
    {
      if k > 0 && points[k] - points[k - 1] > MAX_SAMPLE_GAP {
        return true;
      }
    }
    gap := false;
  }

  function Min(x: real, y: real): (m: real) { if x <= y then x else y }

  function TrailingPoint(sampleFollows: bool, last: Option<real>, from: real, to: real, now: real): (p: Option<real>) {
    if sampleFollows then Some(to)
    else
      var effectiveEnd := Min(to, now);
      if effectiveEnd >= from && last.Some? && effectiveEnd > last.value then Some(effectiveEnd) else None
  }

  /** The timestamps whose spacing is judged: the retained ones clipped to the
      window. */
  function Points(r: seq<Entry>, from: real, start: nat, end: nat, trailing: Option<real>): (ps: seq<real>)
    requires start <= end <= |r|
  {
    (if start > 0 then [from] else [])
    + Times(r[start..end])
    + if trailing.Some? then [trailing.value] else []
  }

  /** How far into the window samples can be expected: to its end when a retained
      sample follows it, otherwise no further than the live clock or the newest
      retained sample, whichever is later. */
  function Horizon(r: seq<Entry>, to: real, now: real): (h: real) {
    if r == [] then Min(to, now)
    else
      var newest := r[|r| - 1].ts;
      if newest > to then to else if newest > Min(to, now) then newest else Min(to, now)
  }

  /** The end the documentation promises: the window's own when a retained sample
      follows it, otherwise no later than the live clock. */
  function PromisedEnd(r: seq<Entry>, to: real, now: real): (end: real) {
    if r != [] && r[|r| - 1].ts > to then to else Min(to, now)
  }

  /** The code keeps that promise exactly when the newest sample is not one from
      beyond the clock that lies inside the window. */
  lemma HorizonExact(r: seq<Entry>, to: real, now: real)
    ensures Horizon(r, to, now) == PromisedEnd(r, to, now) <==>
            r == [] || r[|r| - 1].ts > to || r[|r| - 1].ts <= Min(to, now)
    ensures PromisedEnd(r, to, now) <= Horizon(r, to, now)
  {
  }

  ghost predicate HoldsSample(r: seq<Entry>, a: real, b: real) {
    exists i :: 0 <= i < |r| && a < r[i].ts < b
  }

  /** Samples begin in time, and every open stretch longer than the tolerated gap
      inside `[from, horizon]` holds one. */
  ghost predicate Covered(r: seq<Entry>, from: real, horizon: real) {
    && r != []
    && r[0].ts <= from + COVERAGE_SLACK
    && forall a: real, b: real | from <= a && b <= horizon && b - a > MAX_SAMPLE_GAP :: HoldsSample(r, a, b)
  }

  /** Looking past the clock errs on one side only: what is judged covered is covered
      as far as promised. */
  lemma CompleteKeepsPromise(r: seq<Entry>, from: real, to: real, now: real)
    requires Covered(r, from, Horizon(r, to, now))
    ensures Covered(r, from, PromisedEnd(r, to, now))
  {
    HorizonExact(r, to, now);
  }

  /** A ring that is covered as far as the clock reads, and is judged partial: its
      newest sample is from before the clock stepped back. */
  lemma ClockStepJudgedPartial(sample: HostSample)
    ensures var r := [Entry(0.0, sample), Entry(1.0, sample), Entry(9.0, sample)];
            Covered(r, 0.0, PromisedEnd(r, 20.0, 1.0)) && !Covered(r, 0.0, Horizon(r, 20.0, 1.0))
  {
    var r := [Entry(0.0, sample), Entry(1.0, sample), Entry(9.0, sample)];
    assert !HoldsSample(r, 1.0, 9.0);
  }

  /** The verdict agrees with the promised end on this ring and window. */
  ghost predicate VerdictAsPromised(r: seq<Entry>, from: real, to: real, now: real) {
    Covered(r, from, Horizon(r, to, now)) <==> Covered(r, from, PromisedEnd(r, to, now))
  }

  /** For a newest sample, a window's end and a clock, the verdict is as promised on
      every ring and every window exactly when that sample is not past the clock and
      inside the window. */
  lemma VerdictExact(newest: Entry, to: real, now: real)
    ensures (forall r: seq<Entry>, from: real | Sorted(r) && r != [] && r[|r| - 1] == newest ::
               VerdictAsPromised(r, from, to, now)) <==>
            newest.ts > to || newest.ts <= Min(to, now)
  {
    if newest.ts > to || newest.ts <= Min(to, now) {
      forall r: seq<Entry>, from: real | Sorted(r) && r != [] && r[|r| - 1] == newest
        ensures VerdictAsPromised(r, from, to, now)
      {
        HorizonExact(r, to, now);
      }
    } else {
      var p := (newest.ts + Min(to, now)) / 2.0 - MAX_SAMPLE_GAP;
      var r := [Entry(p, newest.sample), newest];
      assert Sorted(r) && r[|r| - 1] == newest;
      assert Horizon(r, to, now) == newest.ts && PromisedEnd(r, to, now) == Min(to, now);
      assert newest.ts - p > MAX_SAMPLE_GAP && !HoldsSample(r, p, newest.ts);
      assert !VerdictAsPromised(r, p, to, now);
    }
  }

  /** In figures: samples begin at most two seconds late, and every open stretch longer
      than three seconds holds one. */
  lemma CoveredInSeconds(r: seq<Entry>, from: real, horizon: real)
    ensures Covered(r, from, horizon) <==>
            && r != [] && r[0].ts <= from + 2.0
            && forall a: real, b: real | from <= a && b <= horizon && b - a > 3.0 :: HoldsSample(r, a, b)
  {
  }

  /** Where the two binary searches land. */
  ghost predicate Cuts(r: seq<Entry>, from: real, to: real, start: nat, end: nat) {
    && start <= |r| && end <= |r|
    && (forall i | 0 <= i < start :: r[i].ts < from) && (forall i | start <= i < |r| :: from <= r[i].ts)
    && (forall i | 0 <= i < end :: r[i].ts <= to) && (forall i | end <= i < |r| :: to < r[i].ts)
  }

  ghost function WindowPoints(r: seq<Entry>, from: real, to: real, now: real, start: nat, end: nat): seq<real>
    requires start <= |r| && end <= |r|
  {
    var first := if start < end then start else end;
    var last := if end > first then Some(r[end - 1].ts) else if first > 0 then Some(from) else None;
    Points(r, from, first, end, TrailingPoint(|r| > end, last, from, to, now))
  }

  ghost predicate Gapped(points: seq<real>) {
    exists i {:trigger points[i]} :: 0 < i < |points| && points[i] - points[i - 1] > MAX_SAMPLE_GAP
  }

  lemma SliceIsWindow(r: seq<Entry>, from: real, to: real, start: nat, end: nat)
    requires Cuts(r, from, to, start, end)
    ensures r[if start < end then start else end..end] == Between(r, from, to)
  {
    if start <= end {
      SliceIsBetween(r, from, to, start, end);
    } else {
      BetweenNone(r, from, to);
    }
  }

  /** The spacing test decides coverage exactly. */
  lemma GapVerdict(r: seq<Entry>, from: real, to: real, now: real, start: nat, end: nat)
    requires Sorted(r) && Cuts(r, from, to, start, end)
    ensures Covered(r, from, Horizon(r, to, now)) <==>
            && CoverageFor(if r == [] then None else Some(r[0].ts), from).Complete?
            && !Gapped(WindowPoints(r, from, to, now, start, end))
  {
    if r != [] && r[0].ts <= from + COVERAGE_SLACK {
      var ps := WindowPoints(r, from, to, now, start, end);
      var h := Horizon(r, to, now);
      if Gapped(ps) {
        var i :| 0 < i < |ps| && ps[i] - ps[i - 1] > MAX_SAMPLE_GAP;
        GapIsBare(r, from, to, now, start, end, i);
      } else {
        forall a: real, b: real | from <= a && b <= h && b - a > MAX_SAMPLE_GAP ensures HoldsSample(r, a, b) {
          StretchIsHeld(r, from, to, now, start, end, a, b);
        }
      }
    }
  }

  lemma GapIsBare(r: seq<Entry>, from: real, to: real, now: real, start: nat, end: nat, i: nat)
    requires r != [] && Sorted(r) && Cuts(r, from, to, start, end)
    requires var ps := WindowPoints(r, from, to, now, start, end);
             0 < i < |ps| && ps[i] - ps[i - 1] > MAX_SAMPLE_GAP
    ensures var ps := WindowPoints(r, from, to, now, start, end);
            && from <= ps[i - 1] && ps[i] <= Horizon(r, to, now)
            && !HoldsSample(r, ps[i - 1], ps[i])
  {
    if end < start {
      CrossedCuts(r, from, to, start, end);
    } else {
      GapInOrder(r, from, to, now, start, end, i);
    }
  }

  lemma GapInOrder(r: seq<Entry>, from: real, to: real, now: real, start: nat, end: nat, i: nat)
    requires r != [] && Sorted(r) && Cuts(r, from, to, start, end) && start <= end
    requires 0 < i < |WindowPoints(r, from, to, now, start, end)|
    ensures var ps := WindowPoints(r, from, to, now, start, end);
            && from <= ps[i - 1] && ps[i] <= Horizon(r, to, now)
            && !HoldsSample(r, ps[i - 1], ps[i])
  {
    var ps := WindowPoints(r, from, to, now, start, end);
    var lead := if start > 0 then 1 else 0;
    var k := start + i - lead;  // the entry at or after which point i lies
    assert lead <= i - 1 ==> ps[i - 1] == r[k - 1].ts;
    if k < end {
      assert ps[i] == r[k].ts;
    } else {
      assert k == end;
    }
  }

  lemma StretchIsHeld(r: seq<Entry>, from: real, to: real, now: real, start: nat, end: nat, a: real, b: real)
    requires r != [] && Sorted(r) && Cuts(r, from, to, start, end)
    requires r[0].ts <= from + COVERAGE_SLACK && !Gapped(WindowPoints(r, from, to, now, start, end))
    requires from <= a && b <= Horizon(r, to, now) && b - a > MAX_SAMPLE_GAP
    ensures HoldsSample(r, a, b)
  {
    if end < start {
      CrossedCuts(r, from, to, start, end);
    }
    var k := start;
    while k < end && r[k].ts <= a
      invariant start <= k <= end
      invariant forall j | start <= j < k :: r[j].ts <= a
    {
      k := k + 1;
    }
    if k < end {
      SampleWithinGap(r, from, to, now, start, end, a, k);
      assert a < r[k].ts < b;
    } else {
      StretchReachesEnd(r, from, to, now, start, end, a, b);
    }
  }

  lemma CrossedCuts(r: seq<Entry>, from: real, to: real, start: nat, end: nat)
    requires Cuts(r, from, to, start, end) && end < start
    ensures to < from
  {
    assert to < r[end].ts < from;
  }

  /** The first sample after `a` follows it within the tolerated gap. */
  lemma SampleWithinGap(r: seq<Entry>, from: real, to: real, now: real, start: nat, end: nat, a: real, k: nat)
    requires Sorted(r) && Cuts(r, from, to, start, end) && start <= k < end
    requires r[0].ts <= from + COVERAGE_SLACK && !Gapped(WindowPoints(r, from, to, now, start, end))
    requires from <= a && (k > start ==> r[k - 1].ts <= a)
    ensures r[k].ts - a <= MAX_SAMPLE_GAP
  {
    var ps := WindowPoints(r, from, to, now, start, end);
    var p := k - start + if start > 0 then 1 else 0;
    assert ps[p] == r[k].ts;
    if p > 0 {
      assert ps[p - 1] == if k > start then r[k - 1].ts else from;
      assert ps[p] - ps[p - 1] <= MAX_SAMPLE_GAP;
    }
  }

  /** With every sample of the window at or before `a`, what is left up to the
      horizon is itself part of a judged interval. */
  lemma StretchReachesEnd(r: seq<Entry>, from: real, to: real, now: real, start: nat, end: nat, a: real, b: real)
    requires r != [] && Sorted(r) && Cuts(r, from, to, start, end) && start <= end
    requires r[0].ts <= from + COVERAGE_SLACK && !Gapped(WindowPoints(r, from, to, now, start, end))
    requires from <= a < b <= Horizon(r, to, now)
    requires forall j | start <= j < end :: r[j].ts <= a
    ensures b - a <= MAX_SAMPLE_GAP
  {
    if end > 0 {
      var ps := WindowPoints(r, from, to, now, start, end);
      var n := |ps| - 1;
      assert n >= 1 && ps[n] == Horizon(r, to, now) && ps[n - 1] <= a;
      assert ps[n] - ps[n - 1] <= MAX_SAMPLE_GAP;
    }
  }

  /** Slice the window out of the ring by binary search and judge its spacing. */
  method Window(r: seq<Entry>, from: real, to: real, now: real) returns (slice: seq<Entry>, coverage: Coverage)
    requires Sorted(r)
    ensures slice == Between(r, from, to)
    ensures coverage.Complete? <==> Covered(r, from, Horizon(r, to, now))
    ensures coverage.Partial? ==> coverage.retainedFrom == if r == [] then None else Some(r[0].ts)
  {
    var start := PartitionPoint(r, (x: Entry) => x.ts < from);
    var end := PartitionPoint(r, (x: Entry) => x.ts <= to);
    coverage := Judge(r, from, to, now, start, end);
    SliceIsWindow(r, from, to, start, end);
    var sampleStart := if start < end then start else end;
    slice := r[sampleStart..end];
  }

  /** The verdict, from the spacing of the retained timestamps in the window. */
  method Judge(r: seq<Entry>, from: real, to: real, now: real, start: nat, end: nat) returns (coverage: Coverage)
    requires Sorted(r) && Cuts(r, from, to, start, end)
    ensures coverage.Complete? <==> Covered(r, from, Horizon(r, to, now))
    ensures coverage.Partial? ==> coverage.retainedFrom == if r == [] then None else Some(r[0].ts)
  {
    coverage := CoverageFor(if r == [] then None else Some(r[0].ts), from);
    var sampleStart := if start < end then start else end;
    var lastPoint := if end > sampleStart then Some(r[end - 1].ts)
                     else if sampleStart > 0 then Some(from) else None;
    var trailing := TrailingPoint(|r| > end, lastPoint, from, to, now);
    var hasGap := HasInteriorGap(Points(r, from, sampleStart, end, trailing));
    assert hasGap == Gapped(WindowPoints(r, from, to, now, start, end));
    GapVerdict(r, from, to, now, start, end);
    if hasGap && coverage.Complete? {
      coverage := Partial(Some(r[0].ts));
    }
  }

  class Source {
    /** The retained samples, oldest first (the deque behind the mutex). */
    var ring: seq<Entry>

    ghost predicate Valid()
      reads this
    {
      Sorted(ring)
    }

    constructor ()
      ensures Valid() && ring == []
    {
      ring := [];
    }

    /** Admit a sample against the current wall clock, which may have stepped back. */
    method Admit(ts: real, sample: HostSample)
      requires Valid()
      modifies this
      ensures Valid()
      ensures ring == Admitted(old(ring), Entry(ts, sample))
    {
      var cutoff := ts - RETENTION;
      var e := Entry(ts, sample);
      var r, start := EvictBefore(ring, cutoff);
      r := RetractAfter(ring, start, ts, r);
      BetweenSubset(ring, cutoff, ts);
      var index := PartitionPoint(r, (x: Entry) => x.ts <= ts);
      assert index == |r|;
      r := r[..index] + [e] + r[index..];
      assert r == Between(ring, cutoff, ts) + [e];
      AdmitKeepsShape(ring, e);
      ring := TrimFront(r);
    }

    /** A `(time, value)` frame for `expr` over the inclusive window `[from, to]`
        and a truthful verdict on how much of the window was sampled. */
    method FrameForAt(expr: string, from: real, to: real, now: real) returns (frame: Frame)
      requires Valid()
      ensures expr !in ["host_cpu_pct", "host_mem_used", "host_load1"] ==> frame == Frame([], [], Complete)
      ensures expr in ["host_cpu_pct", "host_mem_used", "host_load1"] ==>
                exists picks :: Rows(ring, expr, from, to, frame.times, frame.values, picks)
      ensures Recognized(expr) ==>
                && frame.times == Times(Present(Between(ring, from, to), expr))
                && frame.values == Values(Present(Between(ring, from, to), expr), expr)
                && (frame.coverage.Complete? <==> Covered(ring, from, Horizon(ring, to, now)))
                && (frame.coverage.Partial? ==>
                      frame.coverage.retainedFrom == if ring == [] then None else Some(ring[0].ts))
    {
      if !Recognized(expr) {
        return Frame([], [], Complete);
      }
      var slice, coverage := Window(ring, from, to, now);
      var times, values := Columns(slice, expr);
      ghost var picks := ColumnsAreRows(ring, expr, from, to);
      frame := Frame(times, values, coverage);
    }
  }

  /** Pop entries older than the cutoff off the front. */
  method EvictBefore(ring: seq<Entry>, cutoff: real) returns (r: seq<Entry>, ghost start: nat)
    ensures start <= |ring| && r == ring[start..]
    ensures forall i | 0 <= i < start :: ring[i].ts < cutoff
    ensures start < |ring| ==> ring[start].ts >= cutoff
  {
    r, start := ring, 0;
    while |r| > 0 && r[0].ts < cutoff
      invariant 0 <= start <= |ring| && r == ring[start..]
      invariant forall i | 0 <= i < start :: ring[i].ts < cutoff
      decreases |r|
    {
      r := r[1..];
      start := start + 1;
    }
  }

  /** Pop entries newer than the clock off the back; with the front already evicted
      what remains is the linear filter. */
  method RetractAfter(ring: seq<Entry>, ghost start: nat, ts: real, front: seq<Entry>) returns (r: seq<Entry>)
    requires Sorted(ring) && start <= |ring| && front == ring[start..]
    requires forall i | 0 <= i < start :: ring[i].ts < ts - RETENTION
    requires start < |ring| ==> ring[start].ts >= ts - RETENTION
    ensures r == Between(ring, ts - RETENTION, ts)
  {
    r := front;
    ghost var end := |ring|;
    while |r| > 0 && r[|r| - 1].ts > ts
      invariant start <= end <= |ring| && r == ring[start..end]
      invariant forall i | end <= i < |ring| :: ring[i].ts > ts
      decreases |r|
    {
      r := r[..|r| - 1];
      end := end - 1;
    }
    SliceIsBetween(ring, ts - RETENTION, ts, start, end);
  }

  /** Drop the oldest entries beyond the capacity, one at a time. */
  method TrimFront(full: seq<Entry>) returns (r: seq<Entry>)
    ensures r == LastN(full, RING_CAP)
  {
    r := full;
    while |r| > RING_CAP
      invariant |r| <= |full| && r == full[|full| - |r|..]
      invariant |full| > RING_CAP ==> |r| >= RING_CAP
      invariant |full| <= RING_CAP ==> r == full
      decreases |r|
    {
      r := r[1..];
    }
  }

  predicate Invalidates(later: Entry, e: Entry) {
    later.ts < e.ts || e.ts < later.ts - 86_400.0
  }

  /** The samples among the first `upTo` that no later admission has invalidated:
      no later clock read earlier than the sample, or beyond its retention. */
  function Standing(history: seq<Entry>, upTo: nat): (s: seq<Entry>)
    requires upTo <= |history|
  {
    if upTo == 0 then []
    else
      var before := Standing(history, upTo - 1);
      if Overtaken(history, upTo - 1) then before else before + [history[upTo - 1]]
  }

  predicate Overtaken(history: seq<Entry>, i: nat)
    requires i < |history|
  {
    exists j | i < j < |history| :: Invalidates(history[j], history[i])
  }

  lemma {:induction false} StandingSteps(history: seq<Entry>, e: Entry, upTo: nat)
    requires upTo <= |history|
    ensures Standing(history + [e], upTo) == Between(Standing(history, upTo), e.ts - RETENTION, e.ts)
    decreases upTo
  {
    if upTo > 0 {
      var x := history[upTo - 1];
      var h := history + [e];
      StandingSteps(history, e, upTo - 1);
      BetweenConcat(Standing(history, upTo - 1), [x], e.ts - RETENTION, e.ts);
      assert Between([x], e.ts - RETENTION, e.ts) == if Invalidates(e, x) then [] else [x];
      assert h[upTo - 1] == x;
      assert forall j | upTo <= j < |history| :: h[j] == history[j];
      assert h[|history|] == e;
      assert Overtaken(h, upTo - 1) <==> Overtaken(history, upTo - 1) || Invalidates(e, x);
    }
  }

  lemma {:induction false} BetweenSubset(r: seq<Entry>, lo: real, hi: real)
    ensures |Between(r, lo, hi)| <= |r|
    ensures forall i | 0 <= i < |Between(r, lo, hi)| :: lo <= Between(r, lo, hi)[i].ts <= hi
    ensures Sorted(r) ==> Sorted(Between(r, lo, hi))
    ensures forall x | x in Between(r, lo, hi) :: x in r
  {
    if r != [] {
      BetweenSubset(r[1..], lo, hi);
      var rest := Between(r[1..], lo, hi);
      if Sorted(r) {
        assert forall i | 0 <= i < |rest| :: rest[i] in r[1..];
      }
    }
  }

  lemma BetweenSuffix(s: seq<Entry>, r: seq<Entry>, lo: real, hi: real)
    requires IsSuffix(s, r)
    ensures IsSuffix(Between(s, lo, hi), Between(r, lo, hi))
  {
    var front := r[..|r| - |s|];
    assert r == front + s;
    BetweenConcat(front, s, lo, hi);
  }

  /** One admission keeps the ring sorted, bounded, fresh and ending in the sample. */
  lemma AdmitKeepsShape(r: seq<Entry>, e: Entry)
    requires Sorted(r)
    ensures var r' := Admitted(r, e);
            && Sorted(r')
            && 1 <= |r'| <= RING_CAP
            && r'[|r'| - 1] == e
            && (forall i | 0 <= i < |r'| :: e.ts - RETENTION <= r'[i].ts <= e.ts)
  {
    BetweenSubset(r, e.ts - RETENTION, e.ts);
  }

  /** And it drops no more than it must: the entries that still stand are kept, oldest
      ones excepted when there are more than the capacity allows. */
  lemma AdmitKeepsStanding(r: seq<Entry>, e: Entry, i: nat)
    requires i < |r|
    ensures var r', all := Admitted(r, e), Between(r, e.ts - RETENTION, e.ts) + [e];
            IsSuffix(r', all) && |r'| == if |all| <= 86_400 then |all| else 86_400
    ensures e.ts - 86_400.0 <= r[i].ts <= e.ts <==> r[i] in Between(r, e.ts - RETENTION, e.ts)
  {
    BetweenSubset(r, e.ts - RETENTION, e.ts);
    if e.ts - RETENTION <= r[i].ts <= e.ts {
      BetweenHolds(r, e.ts - RETENTION, e.ts, i);
    }
  }

  lemma {:induction false} BetweenHolds(r: seq<Entry>, lo: real, hi: real, i: nat)
    requires i < |r| && lo <= r[i].ts <= hi
    ensures r[i] in Between(r, lo, hi)
  {
    if i > 0 {
      BetweenHolds(r[1..], lo, hi, i - 1);
    }
  }

  /** What every sequence of admissions leaves behind, timestamps in any order. */
  lemma {:induction false} RingInvariant(history: seq<Entry>)
    requires history != []
    ensures var r, newest := RingAfter(history), history[|history| - 1];
            && Sorted(r)
            && 1 <= |r| <= 86_400
            && r[|r| - 1] == newest
            && (forall i | 0 <= i < |r| :: newest.ts - 86_400.0 <= r[i].ts <= newest.ts)
  {
    var init := history[..|history| - 1];
    if init != [] {
      RingInvariant(init);
    }
    AdmitKeepsShape(RingAfter(init), history[|history| - 1]);
  }

  /** The ring holds nothing but standing samples, the newest of them, and all of
      them while the capacity has not been reached. */
  lemma {:induction false} RingHoldsStanding(history: seq<Entry>)
    ensures IsSuffix(RingAfter(history), Standing(history, |history|))
    ensures |history| <= RING_CAP ==> RingAfter(history) == Standing(history, |history|)
    ensures |RingAfter(history)| <= |history|
  {
    if history != [] {
      var n := |history| - 1;
      var init, e := history[..n], history[n];
      assert history == init + [e];
      RingHoldsStanding(init);
      RingGrows(init, e);
      StandingGrows(init, e);
      AdmitKeepsSuffix(RingAfter(init), Standing(init, n), e);
      BetweenSubset(RingAfter(init), e.ts - RETENTION, e.ts);
    }
  }

  lemma RingGrows(init: seq<Entry>, e: Entry)
    ensures RingAfter(init + [e]) == Admitted(RingAfter(init), e)
  {
    assert (init + [e])[..|init|] == init;
  }

  lemma StandingGrows(init: seq<Entry>, e: Entry)
    ensures Standing(init + [e], |init| + 1) ==
            Between(Standing(init, |init|), e.ts - RETENTION, e.ts) + [e]
  {
    StandingSteps(init, e, |init|);
    assert !Overtaken(init + [e], |init|);
  }

  lemma AdmitKeepsSuffix(s: seq<Entry>, r: seq<Entry>, e: Entry)
    requires IsSuffix(s, r)
    ensures IsSuffix(Admitted(s, e), Between(r, e.ts - RETENTION, e.ts) + [e])
  {
    BetweenSuffix(s, r, e.ts - RETENTION, e.ts);
  }
}
