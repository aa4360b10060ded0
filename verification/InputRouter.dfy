/** The process-wide input router of the standalone harness: one reader thread that
    outlives runs, and events handed from run to run. */
module InputRouter {
  import opened Wrappers

  const PENDING_EVENT_CAPACITY: nat := 16

  /** A terminal event; only its identity matters here. */
  type Event = nat

  type RunId = nat

  // ------------------------------------------------------- the router's state

  datatype Router = Router(sink: Option<RunId>, readerAlive: bool, pending: seq<Event>)

  datatype Attachment = Attachment(spawnReader: bool, replay: seq<Event>)

  datatype Route = Continue | Stop

  function Attached(r: Router, run: RunId): (r': Router) {
    Router(Some(run), true, [])
  }

  function Detached(r: Router): (r': Router) {
    r.(sink := None)
  }

  function Parked(r: Router, e: Event): (r': Router) {
    if |r.pending| < PENDING_EVENT_CAPACITY then r.(pending := r.pending + [e]) else r
  }

  /** The router after routing `e`; `open` says whether the sink's receiver lives. */
  function Routed(r: Router, e: Event, open: bool): (r': Router) {
    if r.sink.Some? && open then r
    else Parked(r, e).(sink := None, readerAlive := false)
  }

  function ReaderStopped(r: Router): (r': Router) {
    r.(readerAlive := false)
  }

  function SpawnFinished(r: Router, shouldSpawn: bool, spawned: bool): (r': Router) {
    if shouldSpawn && !spawned then ReaderStopped(r) else r
  }

  /** The mutable router behind the process-wide lock. */
  class InputRouter {
    var sink: Option<RunId>
    var readerAlive: bool
    var pending: seq<Event>

    function Value(): (r: Router)
      reads this
    {
      Router(sink, readerAlive, pending)
    }

    constructor ()
      ensures Value() == Router(None, false, [])
    {
      sink, readerAlive, pending := None, false, [];
    }

    method Attach(run: RunId) returns (attached: Option<Attachment>)
      modifies this
      ensures old(sink).Some? ==> attached == None && Value() == old(Value())
      ensures old(sink).None? ==>
                && attached == Some(Attachment(!old(readerAlive), old(pending)))
                && Value() == Attached(old(Value()), run)
    {
      if sink.Some? {
        return None;
      }
      sink := Some(run);
      var replay := pending;
      pending := [];
      var spawnReader := !readerAlive;
      readerAlive := true;
      return Some(Attachment(spawnReader, replay));
    }

    method Detach()
      modifies this
      ensures Value() == Detached(old(Value()))
    {
      sink := None;
    }

    /** Hand `e` to the attached run, or park it and stop the reader. */
    method RouteEvent(e: Event, open: bool) returns (route: Route)
      modifies this
      ensures Value() == Routed(old(Value()), e, open)
      ensures route == Continue <==> old(sink).Some? && open
    {
      if sink.Some? {
        if !open {
          Park(e);
          sink := None;
          readerAlive := false;
          return Stop;
        }
        return Continue;
      }
      Park(e);
      readerAlive := false;
      return Stop;
    }

    method Park(e: Event)
      modifies this
      ensures Value() == Parked(old(Value()), e)
    {
      if |pending| < PENDING_EVENT_CAPACITY {
        pending := pending + [e];
      }
    }

    method StopReader()
      modifies this
      ensures Value() == ReaderStopped(old(Value()))
    {
      readerAlive := false;
    }

    method FinishSpawn(shouldSpawn: bool, spawned: bool)
      modifies this
      ensures Value() == SpawnFinished(old(Value()), shouldSpawn, spawned)
    {
      if shouldSpawn && !spawned {
        StopReader();
      }
    }
  }

  // ------------------------------------------------------------- whole systems

  /** How far one call of the harness's `run` has got. */
  datatype Phase =
    | Replaying(rest: seq<Event>)  // parked events still to be sent to itself
    | Looping                      // terminal set up, reader started if it owed one
    | Ending                       // the loop returned, or setup failed
    | Finished                     // the spawn outcome is recorded, detaching next
    | Left                         // the sink is cleared, the receiver still lives

  datatype Run = Run(spawnReader: bool, spawned: bool, phase: Phase)

  datatype System = System(
    router: Router,
    runs: map<RunId, Run>,                 // calls that have attached and not returned
    readers: map<nat, Option<Event>>,      // live reader threads and the event each holds
    nextRun: RunId,
    nextReader: nat,
    read: seq<Event>,                      // every event read, in order
    handed: seq<(RunId, Event)>,           // every event put into a run's channel, in order
    orphaned: bool)                        // some run unwound while it owed a reader

  datatype Step =
    | AttachRun                    // router.attach under the lock
    | Replay(run: RunId)           // send one parked event, or move on when none is left
    | StartLoop(run: RunId)        // terminal ready: spawn the reader if one is owed
    | FailSetup(run: RunId)        // terminal, tile or thread could not be set up
    | ExitLoop(run: RunId)
    | Unwind(run: RunId)           // a panic in setup or loop: the spawn outcome is never recorded
    | RecordSpawn(run: RunId)      // router.reader_spawn_finished
    | DetachRun(run: RunId)        // router.detach
    | Return(run: RunId)           // the receiver is dropped
    | Read(reader: nat, event: Event)
    | RouteRead(reader: nat)       // router.route
    | ReadError(reader: nat)       // router.reader_stopped

  function Init(): (s: System) {
    System(Router(None, false, []), map[], map[], 0, 0, [], [], false)
  }

  predicate InPhase(s: System, run: RunId, phase: Phase) {
    run in s.runs && s.runs[run].phase == phase
  }

  function To(s: System, run: RunId, phase: Phase): (s': System)
    requires run in s.runs
  {
    s.(runs := s.runs[run := s.runs[run].(phase := phase)])
  }

  function Next(s: System, step: Step): (s': System) {
    match step
    case AttachRun =>
      if s.router.sink.Some? then s
      else s.(router := Attached(s.router, s.nextRun), nextRun := s.nextRun + 1,
              runs := s.runs[s.nextRun := Run(!s.router.readerAlive, false, Replaying(s.router.pending))])
    case Replay(run) =>
      if run !in s.runs || !s.runs[run].phase.Replaying? || s.runs[run].phase.rest == [] then s
      else
        var rest := s.runs[run].phase.rest;
        To(s, run, Replaying(rest[1..])).(handed := s.handed + [(run, rest[0])])
    case StartLoop(run) =>
      if !InPhase(s, run, Replaying([])) then s
      else if !s.runs[run].spawnReader then To(s, run, Looping)
      else s.(runs := s.runs[run := s.runs[run].(phase := Looping, spawned := true)],
              readers := s.readers[s.nextReader := None], nextReader := s.nextReader + 1)
    case FailSetup(run) => if InPhase(s, run, Replaying([])) then To(s, run, Ending) else s
    case ExitLoop(run) => if InPhase(s, run, Looping) then To(s, run, Ending) else s
    case Unwind(run) =>
      if InPhase(s, run, Replaying([])) || InPhase(s, run, Looping)
      then To(s, run, Finished).(orphaned := s.orphaned || Owes(s.runs[run]))
      else s
    case RecordSpawn(run) =>
      if InPhase(s, run, Ending)
      then To(s, run, Finished).(router := SpawnFinished(s.router, s.runs[run].spawnReader, s.runs[run].spawned))
      else s
    case DetachRun(run) =>
      if InPhase(s, run, Finished) then To(s, run, Left).(router := Detached(s.router)) else s
    case Return(run) =>
      if InPhase(s, run, Left) then s.(runs := s.runs - {run}) else s
    case Read(reader, event) =>
      if reader in s.readers && s.readers[reader].None?
      then s.(readers := s.readers[reader := Some(event)], read := s.read + [event]) else s
    case RouteRead(reader) =>
      if reader !in s.readers || s.readers[reader].None? then s
      else
        var e := s.readers[reader].value;
        var open := s.router.sink.Some? && s.router.sink.value in s.runs;
        var s' := s.(router := Routed(s.router, e, open));
        if s.router.sink.Some? && open
        then s'.(handed := s.handed + [(s.router.sink.value, e)], readers := s.readers[reader := None])
        else s'.(readers := s.readers - {reader})
    case ReadError(reader) =>
      if reader in s.readers && s.readers[reader].None?
      then s.(router := ReaderStopped(s.router), readers := s.readers - {reader}) else s
  }

  function RunAll(s: System, steps: seq<Step>): (s': System)
    decreases |steps|
  {
    if steps == [] then s else RunAll(Next(s, steps[0]), steps[1..])
  }

  // ----------------------------------------------------------------- invariant

  predicate Owes(r: Run) {
    r.spawnReader && !r.spawned && (r.phase.Replaying? || r.phase.Ending?)
  }

  /** A run holds the sink from its attach until it detaches; nobody else does. */
  ghost predicate OneRun(s: System) {
    && (forall id | id in s.runs :: id < s.nextRun)
    && (forall id | id in s.runs && s.runs[id].phase != Left :: s.router.sink == Some(id))
    && (s.router.sink.Some? ==> s.router.sink.value in s.runs && s.runs[s.router.sink.value].phase != Left)
    && (forall id | id in s.runs && s.runs[id].phase.Looping? :: s.runs[id].spawnReader == s.runs[id].spawned)
    && (forall id | id in s.runs && s.runs[id].phase.Replaying? :: !s.runs[id].spawned)
  }

  /** `readerAlive` is the truth unless a run has unwound: a reader lives or the attached
      run owes one, never both, never two. After that it stays set, with no reader. */
  ghost predicate OneReader(s: System) {
    && (forall t | t in s.readers :: t < s.nextReader)
    && (forall t, u | t in s.readers && u in s.readers :: t == u)
    && (forall t | t in s.readers :: s.router.readerAlive)
    && (forall id | id in s.runs && Owes(s.runs[id]) :: s.router.readerAlive && s.readers == map[])
    && (s.router.readerAlive ==>
          s.readers != map[] || s.orphaned || exists id :: id in s.runs && Owes(s.runs[id]))
    && (s.orphaned ==> s.router.readerAlive && Dead(s))
  }

  /** No reader lives and no run owes one. */
  ghost predicate Dead(s: System) {
    s.readers == map[] && forall id | id in s.runs :: !Owes(s.runs[id])
  }

  /** At most one event is parked, and only while no reader could overtake it. */
  ghost predicate ParkedAlone(s: System) {
    && |s.router.pending| <= 1
    && (s.router.pending != [] ==> s.router.sink.None? && s.readers == map[] && !s.router.readerAlive)
    && (forall id | id in s.runs && s.runs[id].phase.Replaying? && s.runs[id].phase.rest != [] ::
          |s.runs[id].phase.rest| == 1 && s.readers == map[])
  }

  function Unsent(s: System): (es: seq<Event>) {
    if s.router.sink.Some? && s.router.sink.value in s.runs && s.runs[s.router.sink.value].phase.Replaying?
    then s.runs[s.router.sink.value].phase.rest else []
  }

  /** The events that live readers hold, unrouted. */
  ghost function InHand(s: System): (es: seq<Event>) {
    if s.readers == map[] then []
    else
      var t :| t in s.readers;
      if s.readers[t].Some? then [s.readers[t].value] else []
  }

  function Events(handed: seq<(RunId, Event)>): (es: seq<Event>) {
    seq(|handed|, i requires 0 <= i < |handed| => handed[i].1)
  }

  /** Every event read is handed over exactly once and in order, or is still parked,
      about to be replayed, or in the reader's hand. */
  ghost predicate Conserved(s: System) {
    s.read == Events(s.handed) + Unsent(s) + s.router.pending + InHand(s)
  }

  ghost predicate Inv(s: System) {
    OneRun(s) && OneReader(s) && ParkedAlone(s) && Conserved(s)
  }

  lemma NextKeepsOneRun(s: System, step: Step)
    requires OneRun(s)
    ensures OneRun(Next(s, step))
  {
    if step.AttachRun? || step.Read? || step.RouteRead? || step.ReadError? {
      OtherStepKeepsOneRun(s, step);
    } else if step.StartLoop? || step.Replay? {
      StartKeepsOneRun(s, step);
    } else {
      EndKeepsOneRun(s, step);
    }
  }

  lemma OtherStepKeepsOneRun(s: System, step: Step)
    requires OneRun(s) && (step.AttachRun? || step.Read? || step.RouteRead? || step.ReadError?)
    ensures OneRun(Next(s, step))
  {
  }

  lemma StartKeepsOneRun(s: System, step: Step)
    requires OneRun(s) && (step.StartLoop? || step.Replay?)
    ensures OneRun(Next(s, step))
  {
  }

  lemma EndKeepsOneRun(s: System, step: Step)
    requires OneRun(s)
    requires step.FailSetup? || step.ExitLoop? || step.Unwind? || step.RecordSpawn? || step.DetachRun? || step.Return?
    ensures OneRun(Next(s, step))
  {
  }

  lemma NextKeepsOneReader(s: System, step: Step)
    requires OneRun(s) && OneReader(s)
    ensures OneReader(Next(s, step))
  {
    if step.AttachRun? {
      var s' := Next(s, step);
      assert s' != s && !s.router.readerAlive ==> Owes(s'.runs[s.nextRun]);
    } else if step.Read? || step.RouteRead? || step.ReadError? {
      ReaderStepKeepsOneReader(s, step);
    } else {
      RunStepKeepsOneReader(s, step);
    }
  }

  lemma ReaderStepKeepsOneReader(s: System, step: Step)
    requires OneRun(s) && OneReader(s) && (step.Read? || step.RouteRead? || step.ReadError?)
    ensures OneReader(Next(s, step))
  {
    var s' := Next(s, step);
    assert step.reader in s.readers ==> s.readers != map[];
    assert step.Read? && step.reader in s.readers ==> step.reader in s'.readers;
  }

  lemma RunStepKeepsOneReader(s: System, step: Step)
    requires OneRun(s) && OneReader(s) && !(step.AttachRun? || step.Read? || step.RouteRead? || step.ReadError?)
    ensures OneReader(Next(s, step))
  {
    if step.StartLoop? {
      StartKeepsOneReader(s, step.run);
    } else if step.Unwind? || step.RecordSpawn? {
      EndingKeepsOneReader(s, step);
    } else {
      PhaseKeepsOneReader(s, step);
    }
  }

  /** Steps that leave alone the readers, the router's flag and who owes a reader. */
  lemma PhaseKeepsOneReader(s: System, step: Step)
    requires OneRun(s) && OneReader(s)
    requires step.Replay? || step.FailSetup? || step.ExitLoop? || step.DetachRun? || step.Return?
    ensures OneReader(Next(s, step))
  {
    PhaseKeepsOwners(s, step);
    SameOwners(s, Next(s, step));
  }

  ghost predicate OwedAlike(s: System, s': System) {
    && (forall id | id in s'.runs && Owes(s'.runs[id]) :: id in s.runs && Owes(s.runs[id]))
    && (forall id | id in s.runs && Owes(s.runs[id]) :: id in s'.runs && Owes(s'.runs[id]))
  }

  lemma PhaseKeepsOwners(s: System, step: Step)
    requires OneRun(s)
    requires step.Replay? || step.FailSetup? || step.ExitLoop? || step.DetachRun? || step.Return?
    ensures OwedAlike(s, Next(s, step))
  {
  }

  lemma SameOwners(s: System, s': System)
    requires OneReader(s) && OwedAlike(s, s')
    requires s'.readers == s.readers && s'.nextReader == s.nextReader && s'.orphaned == s.orphaned
    requires s'.router.readerAlive == s.router.readerAlive
    ensures OneReader(s')
  {
  }

  lemma EndingKeepsOneReader(s: System, step: Step)
    requires OneRun(s) && OneReader(s) && (step.Unwind? || step.RecordSpawn?)
    ensures OneReader(Next(s, step))
  {
    var s' := Next(s, step);
    if s' != s {
      assert forall id | id in s.runs && Owes(s.runs[id]) :: id == step.run;
      assert forall id | id in s'.runs :: !Owes(s'.runs[id]);
    }
  }

  lemma StartKeepsOneReader(s: System, run: RunId)
    requires OneRun(s) && OneReader(s)
    ensures OneReader(Next(s, StartLoop(run)))
  {
    var s' := Next(s, StartLoop(run));
    if s' != s {
      assert forall id | id in s.runs && Owes(s.runs[id]) :: id == run;
      assert s.runs[run].spawnReader ==> s.nextReader in s'.readers;
    }
  }

  lemma NextKeepsParkedAlone(s: System, step: Step)
    requires OneRun(s) && OneReader(s) && ParkedAlone(s)
    ensures ParkedAlone(Next(s, step))
  {
    if step.Read? || step.RouteRead? || step.ReadError? {
      ReaderStepKeepsParkedAlone(s, step);
    } else {
      RunStepKeepsParkedAlone(s, step);
    }
  }

  lemma ReaderStepKeepsParkedAlone(s: System, step: Step)
    requires OneRun(s) && OneReader(s) && ParkedAlone(s) && (step.Read? || step.RouteRead? || step.ReadError?)
    ensures ParkedAlone(Next(s, step))
  {
  }

  lemma RunStepKeepsParkedAlone(s: System, step: Step)
    requires OneRun(s) && OneReader(s) && ParkedAlone(s) && !(step.Read? || step.RouteRead? || step.ReadError?)
    ensures ParkedAlone(Next(s, step))
  {
  }

  lemma InHandIs(s: System, t: nat)
    requires OneReader(s) && t in s.readers
    ensures InHand(s) == if s.readers[t].Some? then [s.readers[t].value] else []
  {
  }

  lemma EventsSnoc(handed: seq<(RunId, Event)>, run: RunId, e: Event)
    ensures Events(handed + [(run, e)]) == Events(handed) + [e]
  {
  }

  lemma NextKeepsConserved(s: System, step: Step)
    requires Inv(s)
    ensures Conserved(Next(s, step))
  {
    if step.Read? || step.RouteRead? || step.ReadError? {
      NextKeepsOneReader(s, step);
      ReaderStepConserves(s, step);
    } else if step.StartLoop? {
      NextKeepsOneReader(s, step);
      StartConserves(s, step.run);
    } else {
      RunStepConserves(s, step);
    }
  }

  lemma ReaderStepConserves(s: System, step: Step)
    requires Inv(s) && (step.Read? || step.RouteRead? || step.ReadError?) && OneReader(Next(s, step))
    ensures Conserved(Next(s, step))
  {
    var s' := Next(s, step);
    if s' != s {
      InHandIs(s, step.reader);
      if step.reader in s'.readers {
        InHandIs(s', step.reader);
      } else {
        assert s'.readers == map[];
      }
      if step.RouteRead? && s.router.sink.Some? {
        EventsSnoc(s.handed, s.router.sink.value, s.readers[step.reader].value);
      }
    }
  }

  lemma StartConserves(s: System, run: RunId)
    requires Inv(s) && OneReader(Next(s, StartLoop(run)))
    ensures Conserved(Next(s, StartLoop(run)))
  {
    var s' := Next(s, StartLoop(run));
    if s' != s && s.runs[run].spawnReader {
      assert Owes(s.runs[run]);
      InHandIs(s', s.nextReader);
    }
  }

  lemma RunStepConserves(s: System, step: Step)
    requires Inv(s) && !(step.StartLoop? || step.Read? || step.RouteRead? || step.ReadError?)
    ensures Conserved(Next(s, step))
  {
    var s' := Next(s, step);
    if step.Replay? && s' != s {
      var rest := s.runs[step.run].phase.rest;
      EventsSnoc(s.handed, step.run, rest[0]);
      assert rest == [rest[0]] + rest[1..];
    }
  }

  lemma NextKeepsInv(s: System, step: Step)
    requires Inv(s)
    ensures Inv(Next(s, step))
  {
    NextKeepsOneRun(s, step);
    NextKeepsOneReader(s, step);
    NextKeepsParkedAlone(s, step);
    NextKeepsConserved(s, step);
  }

  lemma {:induction false} RunKeepsInv(s: System, steps: seq<Step>)
    requires Inv(s)
    ensures Inv(RunAll(s, steps))
    decreases |steps|
  {
    if steps != [] {
      NextKeepsInv(s, steps[0]);
      RunKeepsInv(Next(s, steps[0]), steps[1..]);
    }
  }

  /** Over every interleaving of runs and readers: at most one reader lives, at most
      one event is parked, so the bounded queue never drops one, and every event
      read is handed to one run exactly once, in read order, or is still on its way. */
  lemma InputConserved(steps: seq<Step>)
    ensures var s := RunAll(Init(), steps);
            && (forall t, u | t in s.readers && u in s.readers :: t == u)
            && |s.router.pending| <= 1 < PENDING_EVENT_CAPACITY
            && s.read == Events(s.handed) + Unsent(s) + s.router.pending + InHand(s)
  {
    RunKeepsInv(Init(), steps);
  }

  /** Over every interleaving, an event is handed only to the run that holds the sink at
      that moment, be it read just then or parked before. */
  lemma HandedToAttached(steps: seq<Step>, step: Step)
    ensures var s := RunAll(Init(), steps);
            var s' := Next(s, step);
            s'.handed == s.handed ||
            (exists e :: s.router.sink.Some? && s'.handed == s.handed + [(s.router.sink.value, e)])
  {
    var s := RunAll(Init(), steps);
    RunKeepsInv(Init(), steps);
    HandsToSink(s, step);
  }

  lemma HandsToSink(s: System, step: Step)
    requires OneRun(s)
    ensures var s' := Next(s, step);
            s'.handed == s.handed ||
            (exists e :: s.router.sink.Some? && s'.handed == s.handed + [(s.router.sink.value, e)])
  {
    var s' := Next(s, step);
    if s'.handed != s.handed {
      var e := s'.handed[|s.handed|].1;
      assert s'.handed == s.handed + [(s.router.sink.value, e)];
    }
  }

  /** A routed event never meets a closed receiver: whoever holds the sink has not
      returned. The router's arm for a failed send is never taken. */
  lemma SinkAlwaysOpen(steps: seq<Step>)
    ensures var s := RunAll(Init(), steps);
            s.router.sink.Some? ==> s.router.sink.value in s.runs && s.runs[s.router.sink.value].phase != Left
  {
    RunKeepsInv(Init(), steps);
  }

  /** The reader flag lies exactly when some run has unwound while it owed a reader:
      then, and only then, it is set although no reader lives or is owed. */
  lemma FlagLiesExactly(steps: seq<Step>)
    ensures var s := RunAll(Init(), steps); s.router.readerAlive && Dead(s) <==> s.orphaned
  {
    RunKeepsInv(Init(), steps);
  }

  lemma DeadReadsNothing(s: System, step: Step)
    requires Inv(s) && s.orphaned
    ensures Next(s, step).orphaned && Next(s, step).read == s.read
  {
  }

  /** And input is then dead for good: no event is ever read again, whatever runs
      attach later. */
  lemma {:induction false} DeadForGood(s: System, steps: seq<Step>)
    requires Inv(s) && s.orphaned
    ensures RunAll(s, steps).orphaned && RunAll(s, steps).read == s.read
    decreases |steps|
  {
    if steps != [] {
      NextKeepsInv(s, steps[0]);
      DeadReadsNothing(s, steps[0]);
      DeadForGood(Next(s, steps[0]), steps[1..]);
    }
  }

  /** A first run whose tile panics while it is built leaves the second looping without
      a reader. */
  lemma PanicKillsInput()
    ensures var s := RunAll(RunAll(Init(), [AttachRun, Unwind(0), DetachRun(0)]), [Return(0), AttachRun, StartLoop(1)]);
            InPhase(s, 1, Looping) && Dead(s) && s.orphaned
  {
    UnwoundFirst();
    StartsUnread(RunAll(Init(), [AttachRun, Unwind(0), DetachRun(0)]));
  }

  lemma UnwoundFirst()
    ensures var s := RunAll(Init(), [AttachRun, Unwind(0), DetachRun(0)]);
            && s.orphaned && s.router == Router(None, true, []) && s.nextRun == 1 && s.readers == map[]
            && s.runs == map[0 := Run(true, false, Left)]
  {
    RunThree(Init(), AttachRun, Unwind(0), DetachRun(0));
    var s := Next(Next(Next(Init(), AttachRun), Unwind(0)), DetachRun(0));
    assert s.runs == map[0 := Run(true, false, Left)];
  }

  lemma StartsUnread(s: System)
    requires s.orphaned && s.router == Router(None, true, []) && s.nextRun == 1 && s.readers == map[]
    requires s.runs == map[0 := Run(true, false, Left)]
    ensures var s' := RunAll(s, [Return(0), AttachRun, StartLoop(1)]);
            InPhase(s', 1, Looping) && Dead(s') && s'.orphaned
  {
    RunThree(s, Return(0), AttachRun, StartLoop(1));
    var s1 := Next(s, Return(0));
    assert s1.runs == map[];
    var s2 := Next(s1, AttachRun);
    assert s2.runs == map[1 := Run(false, false, Replaying([]))];
  }

  lemma RunThree(s: System, a: Step, b: Step, c: Step)
    ensures RunAll(s, [a, b, c]) == Next(Next(Next(s, a), b), c)
  {
    var s1 := Next(s, a);
    var s2 := Next(s1, b);
    assert [a, b, c][1..] == [b, c] && [b, c][1..] == [c];
    assert RunAll(s2, [c]) == Next(s2, c);
    assert RunAll(s1, [b, c]) == RunAll(s2, [c]);
  }
}
