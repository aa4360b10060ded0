/** The engine's select loop over whole runs: commands that arrive at any moment,
    refresh cycles, hide and show, and the coalescing of refresh requests. */
module EngineLoop {
  import opened Wrappers
  import opened QueryCycle
  import opened QueryEngine

  datatype Phase =
    | Waiting               // in the select of the outer loop
    | Cycling(asked: bool)  // a cycle is running; a refresh was asked for meanwhile
    | Sweeping(asked: bool) // the cycle is over, queued commands are being taken
    | Stopped

  datatype State = State(
    engine: Engine,
    phase: Phase,
    queue: seq<Command>,
    open: bool,                 // some command sender is alive
    // History:
    owed: bool,                 // a request was accepted and no cycle has begun since
    batches: nat,               // how often the loop came to owe a cycle
    tickCycles: nat,            // cycles begun by the ticker
    requestCycles: nat,         // cycles begun by accepted requests
    hiddenCycles: nat,          // cycles begun while hidden
    windows: seq<TimeRange>)    // the window of every cycle, in order

  datatype Step =
    | Post(cmd: Command)
    | Hangup
    | Tick(now: int)
    | Take(now: int)            // the outer select or the running cycle receives a command
    | Settle                    // the running cycle delivers its last panel
    | SinkGone                  // the running cycle finds the result channel closed
    | Sweep(now: int)           // try_recv after a cycle

  function Init(duration: nat, gateVisible: bool): (s: State) {
    State(Engine(duration, None, false, !gateVisible), Waiting, [], true, false, 0, 0, 0, 0, [])
  }

  function BeginCycle(s: State, cal: Calendar, now: int): (s': State) {
    var (engine, window) := Resolved(s.engine, cal, now);
    s.(engine := engine, phase := Cycling(false), owed := false, windows := s.windows + [window],
       hiddenCycles := s.hiddenCycles + if s.engine.hidden then 1 else 0)
  }

  /** Receive the next queued command: its effect, and whether it asks for a refresh. */
  function Receive(s: State): (r: (State, bool))
    requires s.queue != []
  {
    var (engine, asks) := Applied(s.engine, s.queue[0]);
    (s.(engine := engine, queue := s.queue[1..], owed := s.owed || asks,
        batches := s.batches + if asks && !s.owed then 1 else 0), asks)
  }

  function ByRequest(s: State): (s': State) {
    s.(requestCycles := s.requestCycles + 1)
  }

  function TakeWaiting(s: State, cal: Calendar, now: int): (s': State)
    requires s.queue != []
  {
    var (t, asks) := Receive(s);
    if asks then ByRequest(BeginCycle(t, cal, now)) else t
  }

  function TakeCycling(s: State): (s': State)
    requires s.queue != [] && s.phase.Cycling?
  {
    var (t, asks) := Receive(s);
    match s.queue[0]
    case Visible(false) => t.(phase := Sweeping(false))
    case SetTimeRange(_) => t.(phase := Sweeping(true))
    case _ => t.(phase := Cycling(s.phase.asked || asks))
  }

  function SweepOne(s: State, cal: Calendar, now: int): (s': State)
    requires s.phase.Sweeping?
  {
    if s.queue != [] then
      var (t, asks) := Receive(s);
      t.(phase := Sweeping(s.phase.asked || asks))
    else if !s.open then s.(phase := Stopped)
    else if !s.phase.asked || s.engine.hidden then s.(phase := Waiting)
    else ByRequest(BeginCycle(s, cal, now))
  }

  function Next(s: State, cal: Calendar, step: Step): (s': State) {
    match step
    case Post(cmd) => if s.open then s.(queue := s.queue + [cmd]) else s
    case Hangup => s.(open := false)
    case Tick(now) =>
      if s.phase != Waiting || s.engine.hidden || s.engine.paused then s
      else
        var t := BeginCycle(s, cal, now);
        t.(tickCycles := t.tickCycles + 1)
    case Take(now) =>
      if s.queue == [] then
        if !s.open && (s.phase.Waiting? || s.phase.Cycling?) then s.(phase := Stopped) else s
      else if s.phase.Waiting? then TakeWaiting(s, cal, now)
      else if s.phase.Cycling? then TakeCycling(s)
      else s
    case Settle => if s.phase.Cycling? then s.(phase := Sweeping(s.phase.asked)) else s
    case SinkGone => if s.phase.Cycling? then s.(phase := Stopped) else s
    case Sweep(now) => if s.phase.Sweeping? then SweepOne(s, cal, now) else s
  }

  function Run(s: State, cal: Calendar, steps: seq<Step>): (s': State)
    decreases |steps|
  {
    if steps == [] then s else Run(Next(s, cal, steps[0]), cal, steps[1..])
  }

  // ----------------------------------------------------------------- invariant

  function Bit(b: bool): (n: nat) { if b then 1 else 0 }

  ghost predicate Requests(s: State) {
    && s.hiddenCycles == 0
    && (s.phase.Cycling? ==> !s.engine.hidden && s.owed == s.phase.asked)
    && (s.phase.Sweeping? ==> (s.phase.asked ==> s.owed) && (s.owed && !s.engine.hidden ==> s.phase.asked))
    && (s.phase.Waiting? ==> s.engine.hidden || !s.owed)
    && s.requestCycles + Bit(s.owed) == s.batches
    && |s.windows| == s.tickCycles + s.requestCycles
  }

  ghost predicate WindowsAdvance(ws: seq<TimeRange>) {
    && (forall i | 0 <= i < |ws| :: ws[i].from <= ws[i].to)
    && (forall i, j | 0 <= i < j < |ws| :: ws[i].to <= ws[j].to)
  }

  ghost predicate Windows(s: State) {
    && WindowsAdvance(s.windows)
    && s.engine.lastTo == if s.windows == [] then None else Some(s.windows[|s.windows| - 1].to)
  }

  lemma AppliedKeepsWindow(e: Engine, cmd: Command)
    ensures Applied(e, cmd).0.lastTo == e.lastTo
  {
  }

  lemma BeginKeepsWindows(s: State, cal: Calendar, now: int)
    requires Windows(s)
    ensures Windows(BeginCycle(s, cal, now))
  {
  }

  lemma ReceiveKeepsWindows(s: State)
    requires Windows(s) && s.queue != []
    ensures Windows(Receive(s).0)
  {
    AppliedKeepsWindow(s.engine, s.queue[0]);
  }

  lemma TakeWaitingKeepsWindows(s: State, cal: Calendar, now: int)
    requires Windows(s) && s.queue != []
    ensures Windows(TakeWaiting(s, cal, now))
  {
    ReceiveKeepsWindows(s);
    BeginKeepsWindows(Receive(s).0, cal, now);
  }

  lemma TakeCyclingKeepsWindows(s: State)
    requires Windows(s) && s.queue != [] && s.phase.Cycling?
    ensures Windows(TakeCycling(s))
  {
    ReceiveKeepsWindows(s);
  }

  lemma SweepKeepsWindows(s: State, cal: Calendar, now: int)
    requires Windows(s) && s.phase.Sweeping?
    ensures Windows(SweepOne(s, cal, now))
  {
    if s.queue != [] {
      ReceiveKeepsWindows(s);
    } else {
      BeginKeepsWindows(s, cal, now);
    }
  }

  lemma NextKeepsWindows(s: State, cal: Calendar, step: Step)
    requires Windows(s)
    ensures Windows(Next(s, cal, step))
  {
    match step {
      case Tick(now) => BeginKeepsWindows(s, cal, now);
      case Take(now) =>
        if s.queue != [] && s.phase.Waiting? {
          TakeWaitingKeepsWindows(s, cal, now);
        } else if s.queue != [] && s.phase.Cycling? {
          TakeCyclingKeepsWindows(s);
        }
      case Sweep(now) =>
        if s.phase.Sweeping? {
          SweepKeepsWindows(s, cal, now);
        }
      case _ =>
    }
  }

  lemma TakeWaitingKeepsRequests(s: State, cal: Calendar, now: int)
    requires Requests(s) && s.queue != [] && s.phase.Waiting?
    ensures Requests(TakeWaiting(s, cal, now))
  {
  }

  lemma TakeCyclingKeepsRequests(s: State)
    requires Requests(s) && s.queue != [] && s.phase.Cycling?
    ensures Requests(TakeCycling(s))
  {
  }

  lemma SweepKeepsRequests(s: State, cal: Calendar, now: int)
    requires Requests(s) && s.phase.Sweeping?
    ensures Requests(SweepOne(s, cal, now))
  {
  }

  lemma NextKeepsRequests(s: State, cal: Calendar, step: Step)
    requires Requests(s)
    ensures Requests(Next(s, cal, step))
  {
    match step {
      case Take(now) =>
        if s.queue != [] && s.phase.Waiting? {
          TakeWaitingKeepsRequests(s, cal, now);
        } else if s.queue != [] && s.phase.Cycling? {
          TakeCyclingKeepsRequests(s);
        }
      case Sweep(now) =>
        if s.phase.Sweeping? {
          SweepKeepsRequests(s, cal, now);
        }
      case _ =>
    }
  }

  lemma {:induction false} RunKeeps(s: State, cal: Calendar, steps: seq<Step>)
    requires Requests(s) && Windows(s)
    ensures Requests(Run(s, cal, steps)) && Windows(Run(s, cal, steps))
    decreases |steps|
  {
    if steps != [] {
      NextKeepsRequests(s, cal, steps[0]);
      NextKeepsWindows(s, cal, steps[0]);
      RunKeeps(Next(s, cal, steps[0]), cal, steps[1..]);
    }
  }

  /** Over every sequence of commands and moments: no cycle begins while hidden; when
      the loop waits it is hidden or every accepted request has been followed by a
      cycle; and however many requests are accepted between two cycles, together they
      cause one. */
  lemma RequestsCoalesce(duration: nat, visible: bool, cal: Calendar, steps: seq<Step>)
    ensures var s := Run(Init(duration, visible), cal, steps);
            && s.hiddenCycles == 0
            && (s.phase.Waiting? ==> s.engine.hidden || !s.owed)
            && s.requestCycles + Bit(s.owed) == s.batches
            && |s.windows| == s.tickCycles + s.requestCycles
  {
    RunKeeps(Init(duration, visible), cal, steps);
  }

  /** Over every run and any clock, the windows of successive cycles are well formed
      and never end earlier than the one before. */
  lemma WindowsNeverRegress(duration: nat, visible: bool, cal: Calendar, steps: seq<Step>)
    ensures WindowsAdvance(Run(Init(duration, visible), cal, steps).windows)
  {
    RunKeeps(Init(duration, visible), cal, steps);
  }
}
