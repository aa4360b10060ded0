/** The engine's own state: what each command does to it and how a refresh resolves
    its query window. Times are instants of the wall clock. */
module QueryEngine {
  import opened Wrappers
  import opened QueryCycle

  datatype Command =
    | Requery
    | SetTimeRange(range: TimeRange)
    | Pause
    | Resume
    | Visible(shown: bool)

  /** What the calendar library can represent: its longest duration and its earliest
      instant. */
  datatype Calendar = Calendar(longest: nat, earliest: int)

  datatype Engine = Engine(duration: nat, lastTo: Option<int>, paused: bool, hidden: bool)

  function Duration(range: TimeRange): (d: nat) {
    if range.to < range.from then 0 else range.to - range.from
  }

  /** The engine after a command, and whether it asks for an immediate refresh. */
  function Applied(e: Engine, cmd: Command): (r: (Engine, bool)) {
    match cmd
    case Requery => (e, !e.hidden)
    case SetTimeRange(range) => (e.(duration := Duration(range)), !e.hidden)
    case Pause => (e.(paused := true), false)
    case Resume => (e.(paused := false), !e.hidden)
    case Visible(shown) =>
      if shown == !e.hidden then (e, false) else (e.(hidden := !shown), shown)
  }

  /** The window of a refresh that samples the clock at `now`. */
  function Resolved(e: Engine, cal: Calendar, now: int): (r: (Engine, TimeRange)) {
    var to := if e.paused && e.lastTo.Some? then e.lastTo.value
              else if e.lastTo.Some? && now < e.lastTo.value then e.lastTo.value
              else now;
    var from := if e.duration <= cal.longest && to - e.duration >= cal.earliest then to - e.duration else to;
    (e.(lastTo := Some(to)), TimeRange(from, to))
  }

  class QueryEngine {
    const cal: Calendar
    var duration: nat
    var lastTo: Option<int>
    var paused: bool
    var hidden: bool

    function Value(): (e: Engine)
      reads this
    {
      Engine(duration, lastTo, paused, hidden)
    }

    constructor (cal: Calendar, duration: nat, gateVisible: bool)
      ensures this.cal == cal && Value() == Engine(duration, None, false, !gateVisible)
    {
      this.cal, this.duration, lastTo, paused, hidden := cal, duration, None, false, !gateVisible;
    }

    method ApplyCommand(cmd: Command) returns (refresh: bool)
      modifies this
      ensures (Value(), refresh) == Applied(old(Value()), cmd)
    {
      match cmd {
        case Requery =>
          refresh := !hidden;
        case SetTimeRange(range) =>
          duration := Duration(range);
          refresh := !hidden;
        case Pause =>
          paused := true;
          refresh := false;
        case Resume =>
          paused := false;
          refresh := !hidden;
        case Visible(shown) =>
          if !shown {
            if !hidden {
              hidden := true;
            }
            refresh := false;
          } else if hidden {
            hidden := false;
            refresh := true;
          } else {
            refresh := false;
          }
      }
    }

    /** Resolve once per refresh: the end never moves back, and stays put while paused. */
    method ResolveWindow(now: int) returns (range: TimeRange)
      modifies this
      ensures (Value(), range) == Resolved(old(Value()), cal, now)
      ensures range.from <= range.to && lastTo == Some(range.to)
      ensures old(lastTo).Some? ==> range.to >= old(lastTo).value
      ensures old(paused) && old(lastTo).Some? ==> range.to == old(lastTo).value
    {
      var to := now;
      if paused && lastTo.Some? {
        to := lastTo.value;
      } else if lastTo.Some? && now < lastTo.value {
        to := lastTo.value;
      }
      lastTo := Some(to);
      var from := to;
      if duration <= cal.longest && to - duration >= cal.earliest {
        from := to - duration;
      }
      range := TimeRange(from, to);
    }
  }
}
