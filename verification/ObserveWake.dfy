/** The engine's command loop, its result channel and the wake gate composed: what the
    gate skips while a tab is hidden is made up for when it is shown. The UI is one
    thread and the engine one task; each step is one atomic action of either. */
module ObserveWake {
  import opened Wrappers
  import opened QueryEngine
  import Loop = EngineLoop
  import Gate = WakeGate

  datatype State = State(
    loop: Loop.State,
    gate: Gate.State,
    left: nat,              // panels the running cycle has not delivered yet
    sending: bool,          // a finished panel waits for room in the result channel
    flip: Option<bool>)     // the gate has been set, its command is not sent yet

  datatype Step =
    | Flip(visible: bool)   // UI: set_visible stores into the gate ...
    | Announce              // ... and then sends the command
    | Post(cmd: Command)    // UI: any other command
    | Drained | Receive     // UI: tick
    | Tick(now: int) | Take(now: int) | Sweep(now: int) | Settle   // engine
    | Join                  // engine: a panel's job is joined, its result is to be sent
    | Send | LoadVisible | SwapPending | Wake                      // engine

  function Init(duration: nat, visible: bool): (s: State) {
    State(Loop.Init(duration, visible), Gate.Init(visible), 0, false, None)
  }

  predicate UiFree(s: State) {
    s.gate.ui == Gate.Elsewhere && s.flip.None?
  }

  /** The engine is neither sending a result nor deciding on a wake. */
  predicate EngineFree(s: State) {
    s.gate.producer == Gate.Working && !s.sending
  }

  /** An engine step; a cycle that begins has every panel to deliver. */
  function Looped(s: State, panels: nat, cal: Calendar, step: Loop.Step): (s': State) {
    var loop := Loop.Next(s.loop, cal, step);
    s.(loop := loop, left := if |loop.windows| > |s.loop.windows| then panels else s.left)
  }

  function Next(s: State, panels: nat, cal: Calendar, step: Step): (s': State) {
    match step
    case Flip(v) =>
      if UiFree(s) && s.gate.visible != v
      then s.(gate := Gate.Next(s.gate, Gate.SetVisible(v)), flip := Some(v)) else s
    case Announce =>
      if s.flip.Some? then s.(loop := Loop.Next(s.loop, cal, Loop.Post(Visible(s.flip.value))), flip := None) else s
    case Post(cmd) =>
      if UiFree(s) && !cmd.Visible? then s.(loop := Loop.Next(s.loop, cal, Loop.Post(cmd))) else s
    case Drained => if s.flip.None? then s.(gate := Gate.Next(s.gate, Gate.Drained)) else s
    case Receive => s.(gate := Gate.Next(s.gate, Gate.Receive))
    case Tick(now) => if EngineFree(s) then Looped(s, panels, cal, Loop.Tick(now)) else s
    case Take(now) => if EngineFree(s) then Looped(s, panels, cal, Loop.Take(now)) else s
    case Sweep(now) => if EngineFree(s) then Looped(s, panels, cal, Loop.Sweep(now)) else s
    case Settle => if EngineFree(s) && s.left == 0 then Looped(s, panels, cal, Loop.Settle) else s
    case Join => if EngineFree(s) && s.loop.phase.Cycling? && s.left > 0 then s.(sending := true) else s
    case Send =>
      if s.sending && s.gate.queued < Gate.RESULT_CHANNEL_CAPACITY
      then s.(gate := Gate.Next(s.gate, Gate.Send), left := if s.left > 0 then s.left - 1 else 0, sending := false)
      else s
    case LoadVisible => s.(gate := Gate.Next(s.gate, Gate.LoadVisible))
    case SwapPending => s.(gate := Gate.Next(s.gate, Gate.SwapPending))
    case Wake => s.(gate := Gate.Next(s.gate, Gate.Wake))
  }

  function Run(s: State, panels: nat, cal: Calendar, steps: seq<Step>): (s': State)
    decreases |steps|
  {
    if steps == [] then s else Run(Next(s, panels, cal, steps[0]), panels, cal, steps[1..])
  }

  // ------------------------------------------- the gate is ahead of the engine

  /** Whether the engine will be hidden once it has taken the queued commands. */
  function HiddenAfter(hidden: bool, queue: seq<Command>): (h: bool)
    decreases |queue|
  {
    if queue == [] then hidden
    else HiddenAfter(if queue[0].Visible? then !queue[0].shown else hidden, queue[1..])
  }

  lemma {:induction false} HiddenAfterSnoc(hidden: bool, queue: seq<Command>, cmd: Command)
    ensures HiddenAfter(hidden, queue + [cmd]) == if cmd.Visible? then !cmd.shown else HiddenAfter(hidden, queue)
    decreases |queue|
  {
    if queue == [] {
      assert queue + [cmd] == [cmd];
    } else {
      assert (queue + [cmd])[1..] == queue[1..] + [cmd];
      HiddenAfterSnoc(if queue[0].Visible? then !queue[0].shown else hidden, queue[1..], cmd);
    }
  }

  lemma {:induction false} HideIsQueued(hidden: bool, queue: seq<Command>)
    requires HiddenAfter(hidden, queue)
    ensures hidden || Visible(false) in queue
    decreases |queue|
  {
    if queue != [] {
      HideIsQueued(if queue[0].Visible? then !queue[0].shown else hidden, queue[1..]);
    }
  }

  /** The commands sent and about to be sent take the engine where the gate is. */
  ghost predicate GateAhead(s: State) {
    s.gate.visible == if s.flip.Some? then s.flip.value else !HiddenAfter(s.loop.engine.hidden, s.loop.queue)
  }

  /** A result will yet be sent and followed by a look at the gate, or the engine is on
      its way to be hidden, from where it returns with a refresh. */
  ghost predicate WillWake(s: State) {
    || s.loop.engine.hidden || Visible(false) in s.loop.queue || s.flip == Some(false)
    || s.loop.owed
    || (s.loop.phase.Cycling? && s.left > 0)
    || s.gate.producer == Gate.Sent || s.gate.producer == Gate.SawVisible
  }

  ghost predicate Inv(s: State, panels: nat) {
    && Gate.Inv(s.gate) && Loop.Requests(s.loop) && GateAhead(s)
    && s.loop.open && !s.loop.phase.Stopped?
    && (s.gate.producer != Gate.Working ==> s.loop.phase.Cycling? && !s.sending && panels > 0)
    && (s.sending ==> s.loop.phase.Cycling? && s.left > 0)
    && s.left <= panels
    && (s.gate.skipped && !s.gate.pending ==> panels > 0 && WillWake(s))
  }

  /** Where an engine step that takes no result leaves the loop. */
  lemma LoopedKeepsInv(s: State, panels: nat, cal: Calendar, step: Loop.Step)
    requires Inv(s, panels) && EngineFree(s) && (step.Tick? || step.Take? || step.Sweep?)
    ensures Inv(Looped(s, panels, cal, step), panels)
  {
    var s' := Looped(s, panels, cal, step);
    Loop.NextKeepsRequests(s.loop, cal, step);
    TakenStaysAhead(s, panels, cal, step);
    if s.gate.skipped && !s.gate.pending {
      LoopedWillWake(s, panels, cal, step);
    }
  }

  /** What is left of a queue after at most one command has been received. */
  lemma TakenStaysAhead(s: State, panels: nat, cal: Calendar, step: Loop.Step)
    requires GateAhead(s) && s.loop.open && !s.loop.phase.Stopped? && (step.Tick? || step.Take? || step.Sweep?)
    ensures GateAhead(Looped(s, panels, cal, step))
    ensures Loop.Next(s.loop, cal, step).open && !Loop.Next(s.loop, cal, step).phase.Stopped?
  {
  }

  lemma LoopedWillWake(s: State, panels: nat, cal: Calendar, step: Loop.Step)
    requires WillWake(s) && panels > 0 && Loop.Requests(s.loop) && s.loop.open && EngineFree(s)
    requires step.Tick? || step.Take? || step.Sweep?
    ensures WillWake(Looped(s, panels, cal, step))
  {
    if Visible(false) in s.loop.queue {
      assert s.loop.queue == [s.loop.queue[0]] + s.loop.queue[1..];
    }
  }

  lemma UiKeepsInv(s: State, panels: nat, cal: Calendar, step: Step)
    requires Inv(s, panels) && (step.Flip? || step.Drained? || step.Receive?)
    ensures Inv(Next(s, panels, cal, step), panels)
  {
  }

  lemma PostedKeepsInv(s: State, panels: nat, cal: Calendar, step: Step)
    requires Inv(s, panels) && (step.Announce? || step.Post?)
    ensures Inv(Next(s, panels, cal, step), panels)
  {
    if step.Announce? && s.flip.Some? {
      HiddenAfterSnoc(s.loop.engine.hidden, s.loop.queue, Visible(s.flip.value));
    } else if step.Post? {
      HiddenAfterSnoc(s.loop.engine.hidden, s.loop.queue, step.cmd);
    }
  }

  lemma ProducerKeepsInv(s: State, panels: nat, cal: Calendar, step: Step)
    requires Inv(s, panels)
    requires step.Settle? || step.Join? || step.Send? || step.LoadVisible? || step.SwapPending? || step.Wake?
    ensures Inv(Next(s, panels, cal, step), panels)
  {
    if step.LoadVisible? && !s.gate.visible && s.flip.None? {
      HideIsQueued(s.loop.engine.hidden, s.loop.queue);
    }
  }

  lemma NextKeepsInv(s: State, panels: nat, cal: Calendar, step: Step)
    requires Inv(s, panels)
    ensures Inv(Next(s, panels, cal, step), panels)
  {
    match step {
      case Tick(now) => if EngineFree(s) { LoopedKeepsInv(s, panels, cal, Loop.Tick(now)); }
      case Take(now) => if EngineFree(s) { LoopedKeepsInv(s, panels, cal, Loop.Take(now)); }
      case Sweep(now) => if EngineFree(s) { LoopedKeepsInv(s, panels, cal, Loop.Sweep(now)); }
      case Flip(_) => UiKeepsInv(s, panels, cal, step);
      case Announce => PostedKeepsInv(s, panels, cal, step);
      case Post(_) => PostedKeepsInv(s, panels, cal, step);
      case Drained => UiKeepsInv(s, panels, cal, step);
      case Receive => UiKeepsInv(s, panels, cal, step);
      case _ => ProducerKeepsInv(s, panels, cal, step);
    }
  }

  lemma {:induction false} RunKeepsInv(s: State, panels: nat, cal: Calendar, steps: seq<Step>)
    requires Inv(s, panels)
    ensures Inv(Run(s, panels, cal, steps), panels)
    decreases |steps|
  {
    if steps != [] {
      NextKeepsInv(s, panels, cal, steps[0]);
      RunKeepsInv(Next(s, panels, cal, steps[0]), panels, cal, steps[1..]);
    }
  }

  // ------------------------------------------------------------- shown results

  /** The engine waits for room in the channel: until the UI receives, it does nothing. */
  predicate Blocked(s: State) {
    s.sending && s.gate.queued == Gate.RESULT_CHANNEL_CAPACITY
  }

  /** Nothing happens until the UI acts or the ticker fires. */
  predicate AtRest(s: State) {
    UiFree(s) && (Blocked(s) || (s.loop.phase.Waiting? && s.loop.queue == []))
  }

  /** Over every interleaving, hides and shows included: when a shown tab comes to rest
      with results waiting, a wake has fired since the UI last cleared the flag, unless
      the engine is blocked on a full channel after a result found the tab hidden. */
  lemma ShownResultsWake(duration: nat, visible: bool, panels: nat, cal: Calendar, steps: seq<Step>)
    ensures var s := Run(Init(duration, visible), panels, cal, steps);
            AtRest(s) && s.gate.visible && s.gate.queued > 0 ==> s.gate.wakes >= 1 || (Blocked(s) && s.gate.skipped)
  {
    RunKeepsInv(Init(duration, visible), panels, cal, steps);
  }

  ghost predicate NeverHidden(steps: seq<Step>) {
    forall i | 0 <= i < |steps| :: steps[i] != Flip(false)
  }

  /** A tab that stays shown skips nothing. */
  lemma {:induction false} ShownNeverSkips(s: State, panels: nat, cal: Calendar, steps: seq<Step>)
    requires s.gate.visible && !s.gate.skipped && NeverHidden(steps)
    ensures Run(s, panels, cal, steps).gate.visible && !Run(s, panels, cal, steps).gate.skipped
    decreases |steps|
  {
    if steps != [] {
      StepNeverSkips(s, panels, cal, steps[0]);
      ShownNeverSkips(Next(s, panels, cal, steps[0]), panels, cal, steps[1..]);
    }
  }

  lemma StepNeverSkips(s: State, panels: nat, cal: Calendar, step: Step)
    requires s.gate.visible && !s.gate.skipped && step != Flip(false)
    ensures Next(s, panels, cal, step).gate.visible && !Next(s, panels, cal, step).gate.skipped
  {
  }

  /** What a UI can rely on: once it has ticked while the tab is shown, every rest with
      results waiting has a wake, blocked engine or not, until the tab is hidden. */
  lemma TickedResultsWake(duration: nat, visible: bool, panels: nat, cal: Calendar, before: seq<Step>, after: seq<Step>)
    ensures var shown := Run(Init(duration, visible), panels, cal, before);
            var s := Run(Init(duration, visible), panels, cal, before + ([Drained] + after));
            UiFree(shown) && shown.gate.visible && NeverHidden(after) && AtRest(s) && s.gate.queued > 0 ==>
              s.gate.wakes >= 1
  {
    var shown := Run(Init(duration, visible), panels, cal, before);
    var steps := [Drained] + after;
    RunConcat(Init(duration, visible), panels, cal, before, steps);
    RunKeepsInv(Init(duration, visible), panels, cal, before + steps);
    assert steps[0] == Drained && steps[1..] == after;
    if UiFree(shown) && shown.gate.visible && NeverHidden(after) {
      ShownNeverSkips(Next(shown, panels, cal, Drained), panels, cal, after);
    }
  }

  // ------------------------------------------------------ the engine can stall

  /** Whatever happens, a shown dashboard of this size that comes to rest with results
      waiting has been woken for them. */
  ghost predicate AlwaysWakes(panels: nat) {
    forall duration: nat, visible: bool, cal: Calendar, steps: seq<Step> ::
      Woken(Run(Init(duration, visible), panels, cal, steps))
  }

  predicate Woken(s: State) {
    AtRest(s) && s.gate.visible && s.gate.queued > 0 ==> s.gate.wakes >= 1
  }

  /** `n` results have found the tab hidden since it was last drained. */
  predicate Unwoken(s: State, n: nat) {
    && s.gate == Gate.State(false, false, n, Gate.Working, Gate.Elsewhere, 0, 0, n > 0, false)
    && !s.sending && s.flip.None? && s.loop.open
  }

  /** The engine is hidden and waits. */
  predicate Parked(s: State, n: nat) {
    Unwoken(s, n) && s.loop.phase.Waiting? && s.loop.engine.hidden && s.loop.queue == []
  }

  /** The tab was shown and hidden again, and the engine has taken the first of it. */
  predicate Caught(s: State, n: nat) {
    && Unwoken(s, n) && s.loop.phase.Cycling? && !s.loop.engine.hidden && s.left > 0
    && s.loop.queue == [Visible(false)]
  }

  const HIDE: seq<Step> := [Flip(false), Announce, Take(0)]
  const TOGGLE: seq<Step> := [Flip(true), Announce, Flip(false), Announce, Take(0)]
  const SKIP: seq<Step> := [Join, Send, LoadVisible, Take(0), Sweep(0)]
  const ROUND: seq<Step> := TOGGLE + SKIP
  const STALL: seq<Step> := [Join, Flip(true), Announce]

  lemma {:induction false} RunConcat(s: State, panels: nat, cal: Calendar, a: seq<Step>, b: seq<Step>)
    ensures Run(s, panels, cal, a + b) == Run(Run(s, panels, cal, a), panels, cal, b)
    decreases |a|
  {
    if a == [] {
      assert a + b == b;
    } else {
      assert (a + b)[1..] == a[1..] + b;
      RunConcat(Next(s, panels, cal, a[0]), panels, cal, a[1..], b);
    }
  }

  lemma RunTwo(s: State, panels: nat, cal: Calendar, a: Step, b: Step)
    ensures Run(s, panels, cal, [a, b]) == Next(Next(s, panels, cal, a), panels, cal, b)
  {
    assert [a, b][1..] == [b];
    assert Run(Next(s, panels, cal, a), panels, cal, [b]) == Next(Next(s, panels, cal, a), panels, cal, b);
  }

  lemma RunThree(s: State, panels: nat, cal: Calendar, a: Step, b: Step, c: Step)
    ensures Run(s, panels, cal, [a, b, c]) == Next(Next(Next(s, panels, cal, a), panels, cal, b), panels, cal, c)
  {
    assert [a, b, c][1..] == [b, c];
    RunTwo(Next(s, panels, cal, a), panels, cal, b, c);
  }

  /** The tab is shown; the engine has not noticed. */
  predicate Shown(s: State, n: nat) {
    && s.gate == Gate.State(true, false, n, Gate.Working, Gate.Elsewhere, 0, 0, n > 0, false)
    && !s.sending && s.flip.None? && s.loop.open
    && s.loop.phase.Waiting? && s.loop.engine.hidden && s.loop.queue == [Visible(true)]
  }

  lemma ShowQueues(s: State, n: nat, panels: nat, cal: Calendar)
    requires Parked(s, n)
    ensures Shown(Run(s, panels, cal, [Flip(true), Announce]), n)
  {
    RunTwo(s, panels, cal, Flip(true), Announce);
  }

  lemma HideCatches(s: State, n: nat, panels: nat, cal: Calendar)
    requires Shown(s, n) && panels > 0
    ensures Caught(Run(s, panels, cal, [Flip(false), Announce, Take(0)]), n)
  {
    RunThree(s, panels, cal, Flip(false), Announce, Take(0));
    var s' := Next(Next(s, panels, cal, Flip(false)), panels, cal, Announce);
    assert s'.loop.queue == [Visible(true), Visible(false)] && s'.loop.queue[1..] == [Visible(false)];
    assert Unwoken(s', n);
  }

  lemma ToggleCatches(s: State, n: nat, panels: nat, cal: Calendar)
    requires Parked(s, n) && panels > 0
    ensures Caught(Run(s, panels, cal, TOGGLE), n)
  {
    var shown, away := [Flip(true), Announce], [Flip(false), Announce, Take(0)];
    assert TOGGLE == shown + away;
    RunConcat(s, panels, cal, shown, away);
    ShowQueues(s, n, panels, cal);
    HideCatches(Run(s, panels, cal, shown), n, panels, cal);
  }

  /** One more result finds the tab hidden. */
  lemma SendSkips(s: State, n: nat, panels: nat, cal: Calendar)
    requires Caught(s, n) && n < Gate.RESULT_CHANNEL_CAPACITY
    ensures var s' := Run(s, panels, cal, [Join, Send, LoadVisible]); Unwoken(s', n + 1) && s'.loop == s.loop
  {
    RunThree(s, panels, cal, Join, Send, LoadVisible);
  }

  /** The engine takes the queued hide, drops the cycle and waits. */
  lemma HideParks(s: State, n: nat, panels: nat, cal: Calendar)
    requires Unwoken(s, n) && s.loop.phase.Cycling? && !s.loop.engine.hidden && s.loop.queue == [Visible(false)]
    ensures Parked(Run(s, panels, cal, [Take(0), Sweep(0)]), n)
  {
    RunTwo(s, panels, cal, Take(0), Sweep(0));
    assert s.loop.queue[1..] == [];
  }

  lemma SkipParks(s: State, n: nat, panels: nat, cal: Calendar)
    requires Caught(s, n) && n < Gate.RESULT_CHANNEL_CAPACITY
    ensures Parked(Run(s, panels, cal, SKIP), n + 1)
  {
    var send, park := [Join, Send, LoadVisible], [Take(0), Sweep(0)];
    assert SKIP == send + park;
    RunConcat(s, panels, cal, send, park);
    SendSkips(s, n, panels, cal);
    HideParks(Run(s, panels, cal, send), n + 1, panels, cal);
  }

  function Rounds(n: nat): (steps: seq<Step>) {
    if n == 0 then [] else Rounds(n - 1) + ROUND
  }

  lemma RoundPiles(s: State, n: nat, panels: nat, cal: Calendar)
    requires Parked(s, n) && panels > 0 && n < Gate.RESULT_CHANNEL_CAPACITY
    ensures Parked(Run(s, panels, cal, ROUND), n + 1)
  {
    RunConcat(s, panels, cal, TOGGLE, SKIP);
    ToggleCatches(s, n, panels, cal);
    SkipParks(Run(s, panels, cal, TOGGLE), n, panels, cal);
  }

  lemma {:induction false} RoundsPile(s: State, n: nat, panels: nat, cal: Calendar)
    requires Parked(s, 0) && panels > 0 && n <= Gate.RESULT_CHANNEL_CAPACITY
    ensures Parked(Run(s, panels, cal, Rounds(n)), n)
  {
    if n > 0 {
      RoundsPile(s, n - 1, panels, cal);
      RunConcat(s, panels, cal, Rounds(n - 1), ROUND);
      RoundPiles(Run(s, panels, cal, Rounds(n - 1)), n - 1, panels, cal);
    }
  }

  lemma HideParksFirst(panels: nat, cal: Calendar)
    ensures Parked(Run(Init(0, true), panels, cal, HIDE), 0)
  {
    RunThree(Init(0, true), panels, cal, Flip(false), Announce, Take(0));
  }

  lemma StallBlocks(s: State, panels: nat, cal: Calendar)
    requires Caught(s, Gate.RESULT_CHANNEL_CAPACITY)
    ensures var s' := Run(s, panels, cal, STALL);
            Blocked(s') && AtRest(s') && s'.gate.visible && s'.gate.wakes == 0
  {
    RunThree(s, panels, cal, Join, Flip(true), Announce);
  }

  /** The exception is real for any dashboard: hidden and shown again in step with the
      engine, it fills the channel with results that woke nobody. Shown in the end, it
      has sixteen results waiting, the engine blocked on the next, and no wake. */
  lemma ShownButStalled(panels: nat, cal: Calendar)
    requires panels > 0
    ensures var s := Run(Init(0, true), panels, cal, HIDE + (Rounds(16) + (TOGGLE + STALL)));
            Blocked(s) && AtRest(s) && s.gate.visible && s.gate.queued == 16 && s.gate.wakes == 0
  {
    var first := Run(Init(0, true), panels, cal, HIDE);
    var s := Run(first, panels, cal, Rounds(16));
    HideParksFirst(panels, cal);
    RoundsPile(first, 16, panels, cal);
    RunConcat(Init(0, true), panels, cal, HIDE, Rounds(16) + (TOGGLE + STALL));
    RunConcat(first, panels, cal, Rounds(16), TOGGLE + STALL);
    RunConcat(s, panels, cal, TOGGLE, STALL);
    ToggleCatches(s, 16, panels, cal);
    StallBlocks(Run(s, panels, cal, TOGGLE), panels, cal);
  }

  /** So without a tick since it was shown, the wake is certain exactly for an empty
      dashboard, to which nothing is ever sent. */
  lemma AlwaysWakesExact(panels: nat)
    ensures AlwaysWakes(panels) <==> panels == 0
  {
    if panels == 0 {
      forall duration: nat, visible: bool, cal: Calendar, steps: seq<Step>
        ensures Woken(Run(Init(duration, visible), panels, cal, steps))
      {
        RunKeepsInv(Init(duration, visible), panels, cal, steps);
        ShownResultsWake(duration, visible, panels, cal, steps);
      }
    } else {
      var cal := Calendar(0, 0);
      ShownButStalled(panels, cal);
      assert !Woken(Run(Init(0, true), panels, cal, HIDE + (Rounds(16) + (TOGGLE + STALL))));
    }
  }
}
