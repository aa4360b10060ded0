/** The windows of the engine's cycles told from outside: from the commands the loop has
    taken, the clock readings of its cycles, and nothing else. */
module EngineHistory {
  import opened Wrappers
  import QueryCycle
  import opened QueryEngine
  import opened EngineLoop

  /** A cycle: the clock when it began, and how many commands had been taken by then. */
  datatype Begun = Begun(now: int, after: nat)

  /** The loop, with every command it has taken and every cycle it has begun. */
  datatype Trace = Trace(s: State, taken: seq<Command>, cycles: seq<Begun>)

  function Clock(step: Step): (now: int) {
    if step.Tick? || step.Take? || step.Sweep? then step.now else 0
  }

  function Traced(t: Trace, cal: Calendar, step: Step): (t': Trace) {
    var s := Next(t.s, cal, step);
    var taken := if |s.queue| < |t.s.queue| then t.taken + [t.s.queue[0]] else t.taken;
    Trace(s, taken, if |s.windows| > |t.s.windows| then t.cycles + [Begun(Clock(step), |taken|)] else t.cycles)
  }

  function TraceOf(duration: nat, visible: bool, cal: Calendar, steps: seq<Step>): (t: Trace) {
    if steps == [] then Trace(Init(duration, visible), [], [])
    else Traced(TraceOf(duration, visible, cal, steps[..|steps| - 1]), cal, steps[|steps| - 1])
  }

  // ------------------------------------------------- what the commands asked for

  /** The width of the last range that was set, else the one the engine began with. */
  function Width(taken: seq<Command>, duration: nat): (w: nat) {
    if taken == [] then duration
    else
      var init, cmd := taken[..|taken| - 1], taken[|taken| - 1];
      if cmd.SetTimeRange? && cmd.range.to >= cmd.range.from then cmd.range.to - cmd.range.from
      else if cmd.SetTimeRange? then 0
      else Width(init, duration)
  }

  /** The last of the pauses and resumes was a pause. */
  function Paused(taken: seq<Command>): (p: bool) {
    if taken == [] then false
    else
      var cmd := taken[|taken| - 1];
      if cmd.Pause? then true else if cmd.Resume? then false else Paused(taken[..|taken| - 1])
  }

  /** What the last hide or show said, else the gate's first state. */
  function Shown(taken: seq<Command>, visible: bool): (shown: bool) {
    if taken == [] then visible
    else
      var cmd := taken[|taken| - 1];
      if cmd.Visible? then cmd.shown else Shown(taken[..|taken| - 1], visible)
  }

  /** A cycle samples the clock when it is the first, or when the loop is not paused. */
  predicate Samples(cycles: seq<Begun>, taken: seq<Command>, k: nat)
    requires k < |cycles| && cycles[k].after <= |taken|
  {
    k == 0 || !Paused(taken[..cycles[k].after])
  }

  /** `to` is the greatest reading sampled by the first `n` cycles. */
  ghost predicate GreatestSample(cycles: seq<Begun>, taken: seq<Command>, n: nat, to: int)
    requires n <= |cycles| && Ordered(cycles, taken)
  {
    && (exists k | 0 <= k < n :: Samples(cycles, taken, k) && cycles[k].now == to)
    && (forall k | 0 <= k < n && Samples(cycles, taken, k) :: cycles[k].now <= to)
  }

  /** The window is as wide as asked, when the calendar can express its start. */
  predicate AsWide(window: QueryCycle.TimeRange, width: nat, cal: Calendar) {
    window.to - window.from == if width <= cal.longest && window.to - width >= cal.earliest then width else 0
  }

  ghost predicate Ordered(cycles: seq<Begun>, taken: seq<Command>) {
    forall k | 0 <= k < |cycles| :: cycles[k].after <= |taken|
  }

  /** The window of cycle `k` is what the taken commands and the clock call for. */
  ghost predicate Fits(cycles: seq<Begun>, taken: seq<Command>, k: nat, window: QueryCycle.TimeRange,
                       duration: nat, cal: Calendar)
    requires k < |cycles| && Ordered(cycles, taken)
  {
    && GreatestSample(cycles, taken, k + 1, window.to)
    && AsWide(window, Width(taken[..cycles[k].after], duration), cal)
  }

  /** Every window of the run is. */
  ghost predicate WindowsAsAsked(t: Trace, duration: nat, cal: Calendar) {
    && |t.cycles| == |t.s.windows| && Ordered(t.cycles, t.taken)
    && forall k | 0 <= k < |t.cycles| :: Fits(t.cycles, t.taken, k, t.s.windows[k], duration, cal)
  }

  ghost predicate EngineAsAsked(t: Trace, duration: nat, visible: bool) {
    && t.s.engine.duration == Width(t.taken, duration)
    && t.s.engine.paused == Paused(t.taken)
    && t.s.engine.hidden == !Shown(t.taken, visible)
    && t.s.engine.lastTo == if t.s.windows == [] then None else Some(t.s.windows[|t.s.windows| - 1].to)
  }

  ghost predicate Inv(t: Trace, duration: nat, visible: bool, cal: Calendar) {
    WindowsAsAsked(t, duration, cal) && EngineAsAsked(t, duration, visible)
  }

  // ---------------------------------------------------------- one step at a time

  lemma TakenGrows(taken: seq<Command>, cmd: Command, e: Engine, duration: nat, visible: bool)
    requires e.duration == Width(taken, duration) && e.paused == Paused(taken) && e.hidden == !Shown(taken, visible)
    ensures var e' := Applied(e, cmd).0;
            && e'.duration == Width(taken + [cmd], duration) && e'.paused == Paused(taken + [cmd])
            && e'.hidden == !Shown(taken + [cmd], visible) && e'.lastTo == e.lastTo
  {
    assert (taken + [cmd])[..|taken|] == taken;
  }

  lemma SampleKept(cycles: seq<Begun>, taken: seq<Command>, cycles': seq<Begun>, taken': seq<Command>, n: nat, to: int)
    requires n <= |cycles| && cycles <= cycles' && taken <= taken'
    requires Ordered(cycles, taken) && Ordered(cycles', taken') && GreatestSample(cycles, taken, n, to)
    ensures GreatestSample(cycles', taken', n, to)
  {
    assert forall k | 0 <= k < n :: taken'[..cycles[k].after] == taken[..cycles[k].after];
    assert forall k | 0 <= k < n :: Samples(cycles', taken', k) <==> Samples(cycles, taken, k);
    var k :| 0 <= k < n && Samples(cycles, taken, k) && cycles[k].now == to;
    assert Samples(cycles', taken', k) && cycles'[k].now == to;
  }

  lemma FitsKept(cycles: seq<Begun>, taken: seq<Command>, cycles': seq<Begun>, taken': seq<Command>, k: nat,
                 window: QueryCycle.TimeRange, duration: nat, cal: Calendar)
    requires k < |cycles| && cycles <= cycles' && taken <= taken' && Ordered(cycles, taken) && Ordered(cycles', taken')
    requires Fits(cycles, taken, k, window, duration, cal)
    ensures Fits(cycles', taken', k, window, duration, cal)
  {
    SampleKept(cycles, taken, cycles', taken', k + 1, window.to);
    assert taken'[..cycles[k].after] == taken[..cycles[k].after];
  }

  /** A loop that has taken one more command and begun no cycle. */
  lemma CommandKeepsInv(t: Trace, t': Trace, cmd: Command, duration: nat, visible: bool, cal: Calendar)
    requires Inv(t, duration, visible, cal)
    requires t'.taken == t.taken + [cmd] && t'.cycles == t.cycles && t'.s.windows == t.s.windows
    requires t'.s.engine == Applied(t.s.engine, cmd).0
    ensures Inv(t', duration, visible, cal)
  {
    TakenGrows(t.taken, cmd, t.s.engine, duration, visible);
    forall k | 0 <= k < |t.cycles| ensures Fits(t'.cycles, t'.taken, k, t'.s.windows[k], duration, cal) {
      FitsKept(t.cycles, t.taken, t'.cycles, t'.taken, k, t.s.windows[k], duration, cal);
    }
  }

  /** A loop that has begun one more cycle, with no command taken since. */
  lemma CycleKeepsInv(t: Trace, t': Trace, now: int, duration: nat, visible: bool, cal: Calendar)
    requires Inv(t, duration, visible, cal)
    requires t'.taken == t.taken && t'.cycles == t.cycles + [Begun(now, |t.taken|)]
    requires t'.s.engine == Resolved(t.s.engine, cal, now).0
    requires t'.s.windows == t.s.windows + [Resolved(t.s.engine, cal, now).1]
    ensures Inv(t', duration, visible, cal)
  {
    var m := |t.cycles|;
    forall k | 0 <= k < |t'.cycles| ensures Fits(t'.cycles, t'.taken, k, t'.s.windows[k], duration, cal) {
      if k < m {
        FitsKept(t.cycles, t.taken, t'.cycles, t'.taken, k, t.s.windows[k], duration, cal);
      } else {
        NewSample(t, t', now, duration, visible, cal);
        assert t.taken[..|t.taken|] == t.taken;
      }
    }
  }

  lemma NewSample(t: Trace, t': Trace, now: int, duration: nat, visible: bool, cal: Calendar)
    requires Inv(t, duration, visible, cal)
    requires t'.taken == t.taken && t'.cycles == t.cycles + [Begun(now, |t.taken|)]
    ensures Ordered(t'.cycles, t'.taken)
    ensures GreatestSample(t'.cycles, t'.taken, |t'.cycles|, Resolved(t.s.engine, cal, now).1.to)
  {
    var m, to := |t.cycles|, Resolved(t.s.engine, cal, now).1.to;
    assert t.taken[..|t.taken|] == t.taken;
    assert t'.cycles[m] == Begun(now, |t.taken|);
    assert Samples(t'.cycles, t'.taken, m) <==> m == 0 || !t.s.engine.paused;
    if m > 0 {
      var last := t.s.windows[m - 1].to;
      assert Fits(t.cycles, t.taken, m - 1, t.s.windows[m - 1], duration, cal);
      SampleKept(t.cycles, t.taken, t'.cycles, t'.taken, m, last);
      if to == last {
        var k :| 0 <= k < m && Samples(t'.cycles, t'.taken, k) && t'.cycles[k].now == last;
        assert Samples(t'.cycles, t'.taken, k) && t'.cycles[k].now == to;
      } else {
        assert Samples(t'.cycles, t'.taken, m) && t'.cycles[m].now == to;
      }
    } else {
      assert Samples(t'.cycles, t'.taken, 0) && t'.cycles[0].now == to;
    }
  }

  /** The engine before a cycle that the step may begin. */
  function Heard(s: State, s': State): (e: Engine) {
    if |s'.queue| < |s.queue| then Applied(s.engine, s.queue[0]).0 else s.engine
  }

  /** A step takes at most one command, and then begins at most one cycle. */
  lemma StepEffect(s: State, cal: Calendar, step: Step)
    ensures var s' := Next(s, cal, step);
            var e := Heard(s, s');
            if |s'.windows| > |s.windows|
            then s'.engine == Resolved(e, cal, Clock(step)).0
                 && s'.windows == s.windows + [Resolved(e, cal, Clock(step)).1]
            else s'.engine == e && s'.windows == s.windows
  {
    match step {
      case Take(now) =>
        if s.queue != [] && s.phase.Waiting? {
          assert TakeWaiting(s, cal, now).queue == s.queue[1..];
        } else if s.queue != [] && s.phase.Cycling? {
          assert TakeCycling(s).queue == s.queue[1..];
        }
      case Sweep(now) =>
        if s.phase.Sweeping? {
          assert s.queue != [] ==> SweepOne(s, cal, now).queue == s.queue[1..];
        }
      case _ =>
    }
  }

  lemma TracedKeepsInv(t: Trace, cal: Calendar, step: Step, duration: nat, visible: bool)
    requires Inv(t, duration, visible, cal)
    ensures Inv(Traced(t, cal, step), duration, visible, cal)
  {
    StepEffect(t.s, cal, step);
    EffectKeepsInv(t, Traced(t, cal, step), Clock(step), cal, duration, visible);
  }

  lemma EffectKeepsInv(t: Trace, t': Trace, now: int, cal: Calendar, duration: nat, visible: bool)
    requires Inv(t, duration, visible, cal)
    requires t'.taken == if |t'.s.queue| < |t.s.queue| then t.taken + [t.s.queue[0]] else t.taken
    requires var e := Heard(t.s, t'.s);
             if |t'.s.windows| > |t.s.windows|
             then && t'.s.engine == Resolved(e, cal, now).0
                  && t'.s.windows == t.s.windows + [Resolved(e, cal, now).1]
                  && t'.cycles == t.cycles + [Begun(now, |t'.taken|)]
             else t'.s.engine == e && t'.s.windows == t.s.windows && t'.cycles == t.cycles
    ensures Inv(t', duration, visible, cal)
  {
    var mid := Trace(t.s.(engine := Heard(t.s, t'.s)), t'.taken, t.cycles);
    if |t'.s.queue| < |t.s.queue| {
      CommandKeepsInv(t, mid, t.s.queue[0], duration, visible, cal);
    }
    if |t'.s.windows| > |t.s.windows| {
      CycleKeepsInv(mid, t', now, duration, visible, cal);
    }
  }

  lemma {:induction false} TraceKeepsInv(duration: nat, visible: bool, cal: Calendar, steps: seq<Step>)
    ensures Inv(TraceOf(duration, visible, cal, steps), duration, visible, cal)
  {
    if steps != [] {
      var init := steps[..|steps| - 1];
      TraceKeepsInv(duration, visible, cal, init);
      TracedKeepsInv(TraceOf(duration, visible, cal, init), cal, steps[|steps| - 1], duration, visible);
    }
  }

  lemma {:induction false} RunSnoc(s: State, cal: Calendar, steps: seq<Step>)
    requires steps != []
    ensures Run(s, cal, steps) == Next(Run(s, cal, steps[..|steps| - 1]), cal, steps[|steps| - 1])
    decreases |steps|
  {
    if |steps| > 1 {
      var rest := steps[1..];
      RunSnoc(Next(s, cal, steps[0]), cal, rest);
      assert steps[..|steps| - 1][1..] == rest[..|rest| - 1];
    }
  }

  lemma {:induction false} TraceIsRun(duration: nat, visible: bool, cal: Calendar, steps: seq<Step>)
    ensures TraceOf(duration, visible, cal, steps).s == Run(Init(duration, visible), cal, steps)
  {
    if steps != [] {
      RunSnoc(Init(duration, visible), cal, steps);
      TraceIsRun(duration, visible, cal, steps[..|steps| - 1]);
    }
  }

  /** Over every run: each window ends at the greatest clock reading that its cycle and
      the ones before it sampled, where the first cycle and every cycle that is not
      paused samples the clock; and it is as wide as the last range that was set, or as
      the engine began with, whenever the calendar can express its start. */
  lemma WindowsFollowCommands(duration: nat, visible: bool, cal: Calendar, steps: seq<Step>)
    ensures var t := TraceOf(duration, visible, cal, steps);
            && t.s == Run(Init(duration, visible), cal, steps)
            && WindowsAsAsked(t, duration, cal)
  {
    TraceKeepsInv(duration, visible, cal, steps);
    TraceIsRun(duration, visible, cal, steps);
  }

  /** The commands that were sent while some sender was alive, in order. */
  function Posted(steps: seq<Step>): (cmds: seq<Command>) {
    if steps == [] then []
    else
      var init, step := steps[..|steps| - 1], steps[|steps| - 1];
      Posted(init) + if step.Post? && Hangup !in init then [step.cmd] else []
  }

  /** Every command sent is taken once, in order, or still queued. */
  lemma {:induction false} TakenInOrder(duration: nat, visible: bool, cal: Calendar, steps: seq<Step>)
    ensures var t := TraceOf(duration, visible, cal, steps);
            t.taken + t.s.queue == Posted(steps) && (t.s.open <==> Hangup !in steps)
  {
    if steps != [] {
      var init, step := steps[..|steps| - 1], steps[|steps| - 1];
      var t := TraceOf(duration, visible, cal, init);
      TakenInOrder(duration, visible, cal, init);
      assert steps == init + [step];
      assert Hangup in steps <==> Hangup in init || step == Hangup;
      QueueMoves(t.s, cal, step);
      OneMoves(t.taken, t.s.queue, Next(t.s, cal, step).queue,
               if step.Post? && t.s.open then [step.cmd] else []);
    }
  }

  lemma OneMoves(taken: seq<Command>, queue: seq<Command>, queue': seq<Command>, more: seq<Command>)
    requires queue' == queue + more || (queue != [] && more == [] && queue' == queue[1..])
    ensures (if |queue'| < |queue| then taken + [queue[0]] else taken) + queue' == taken + queue + more
  {
    if |queue'| < |queue| {
      assert queue == [queue[0]] + queue[1..];
    }
  }

  lemma QueueMoves(s: State, cal: Calendar, step: Step)
    ensures var s' := Next(s, cal, step);
            && (s'.open <==> s.open && !step.Hangup?)
            && (s'.queue == s.queue + (if step.Post? && s.open then [step.cmd] else [])
                || (s.queue != [] && !step.Post? && s'.queue == s.queue[1..]))
  {
  }

  // -------------------------------------------------- which commands are accepted

  /** The command asks for a refresh, given that the tab is shown or not. */
  predicate Asks(cmd: Command, shown: bool) {
    if shown then cmd.Requery? || cmd.SetTimeRange? || cmd.Resume? else cmd == Visible(true)
  }

  lemma AppliedAsks(e: Engine, cmd: Command)
    ensures Applied(e, cmd).1 == Asks(cmd, !e.hidden)
  {
  }

  lemma WaitingResponds(s: State, cal: Calendar, now: int)
    requires s.phase.Waiting?
    ensures |Next(s, cal, Tick(now)).windows| == |s.windows| + if !s.engine.hidden && !s.engine.paused then 1 else 0
    ensures s.queue != [] ==>
              |Next(s, cal, Take(now)).windows| == |s.windows| + if Asks(s.queue[0], !s.engine.hidden) then 1 else 0
  {
    if s.queue != [] {
      AppliedAsks(s.engine, s.queue[0]);
    }
  }

  lemma CyclingResponds(s: State, cal: Calendar, now: int)
    requires s.phase.Cycling? && s.queue != []
    ensures var s' := Next(s, cal, Take(now));
            && s'.owed == (s.owed || Asks(s.queue[0], !s.engine.hidden))
            && (s'.phase.Cycling? <==> s.queue[0] != Visible(false) && !s.queue[0].SetTimeRange?)
            && |s'.windows| == |s.windows|
  {
    AppliedAsks(s.engine, s.queue[0]);
  }

  lemma SweepingResponds(s: State, cal: Calendar, now: int)
    requires s.phase.Sweeping? && s.queue != []
    ensures var s' := Next(s, cal, Sweep(now));
            s'.owed == (s.owed || Asks(s.queue[0], !s.engine.hidden)) && |s'.windows| == |s.windows|
  {
    AppliedAsks(s.engine, s.queue[0]);
  }

  /** Over every run, when the loop waits: a command that asks for a refresh begins a
      cycle at once, any other does not, and a tick begins one exactly when the tab is
      shown and not paused. */
  lemma WaitingLoopResponds(duration: nat, visible: bool, cal: Calendar, steps: seq<Step>, now: int)
    ensures var t := TraceOf(duration, visible, cal, steps);
            t.s.phase.Waiting? ==>
              && (|Next(t.s, cal, Tick(now)).windows| ==
                  |t.s.windows| + if Shown(t.taken, visible) && !Paused(t.taken) then 1 else 0)
              && (t.s.queue != [] ==>
                    |Next(t.s, cal, Take(now)).windows| ==
                    |t.s.windows| + if Asks(t.s.queue[0], Shown(t.taken, visible)) then 1 else 0)
  {
    var t := TraceOf(duration, visible, cal, steps);
    TraceKeepsInv(duration, visible, cal, steps);
    if t.s.phase.Waiting? {
      WaitingResponds(t.s, cal, now);
    }
  }

  /** While a cycle runs: such a command leaves a cycle owed, a hide or a new range ends
      the running one, and no other command does. */
  lemma CyclingLoopResponds(duration: nat, visible: bool, cal: Calendar, steps: seq<Step>, now: int)
    ensures var t := TraceOf(duration, visible, cal, steps);
            var s' := Next(t.s, cal, Take(now));
            t.s.queue != [] && t.s.phase.Cycling? ==>
              && s'.owed == (t.s.owed || Asks(t.s.queue[0], Shown(t.taken, visible)))
              && (s'.phase.Cycling? <==> t.s.queue[0] != Visible(false) && !t.s.queue[0].SetTimeRange?)
              && |s'.windows| == |t.s.windows|
  {
    var t := TraceOf(duration, visible, cal, steps);
    TraceKeepsInv(duration, visible, cal, steps);
    if t.s.queue != [] && t.s.phase.Cycling? {
      CyclingResponds(t.s, cal, now);
    }
  }

  /** Between cycles: such a command leaves a cycle owed, and no cycle begins before the
      queue is empty. */
  lemma SweepingLoopResponds(duration: nat, visible: bool, cal: Calendar, steps: seq<Step>, now: int)
    ensures var t := TraceOf(duration, visible, cal, steps);
            var s' := Next(t.s, cal, Sweep(now));
            t.s.queue != [] && t.s.phase.Sweeping? ==>
              s'.owed == (t.s.owed || Asks(t.s.queue[0], Shown(t.taken, visible))) && |s'.windows| == |t.s.windows|
  {
    var t := TraceOf(duration, visible, cal, steps);
    TraceKeepsInv(duration, visible, cal, steps);
    if t.s.queue != [] && t.s.phase.Sweeping? {
      SweepingResponds(t.s, cal, now);
    }
  }
}
