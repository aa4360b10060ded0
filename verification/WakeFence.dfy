/** The wake gate when the UI's store to the pending flag may be delayed: the store is
    buffered, and becomes visible to the engine at some later moment. A `Release` store
    alone does not keep it ahead of the reads of the channel that follow it. */
module WakeFence {
  import opened WakeGate

  /** `buffered`: the UI has stored `false` and the engine cannot see it yet. */
  datatype Buffered = Buffered(gate: State, buffered: bool)

  datatype Action =
    | Gate(step: Step)   // any step but the clearing of the flag
    | Store              // UI: drained(), into the buffer
    | Flush              // the store becomes visible

  /** The UI's last read of a drain, the one that finds the channel empty. */
  predicate EndsDrain(s: Buffered, step: Step) {
    step.Receive? && s.gate.ui == Draining && s.gate.queued == 0
  }

  /** One step. With `fenced` the store is visible before the read that ends a drain. */
  function After(s: Buffered, fenced: bool, action: Action): (s': Buffered) {
    match action
    case Gate(step) =>
      if step.Drained? || (fenced && s.buffered && EndsDrain(s, step)) then s
      else s.(gate := Next(s.gate, step))
    case Store =>
      if s.gate.ui == Elsewhere && !s.buffered then Buffered(s.gate.(ui := Draining), true) else s
    case Flush =>
      if s.buffered then Buffered(Cleared(s.gate), false) else s
  }

  /** The flag is clear, and a new period begins. */
  function Cleared(g: State): (g': State) {
    g.(pending := false, wakes := 0, claims := 0, skipped := false, openedMidWake := g.producer == MustWake)
  }

  function RunBuffered(s: Buffered, fenced: bool, actions: seq<Action>): (s': Buffered)
    decreases |actions|
  {
    if actions == [] then s else RunBuffered(After(s, fenced, actions[0]), fenced, actions[1..])
  }

  function Start(visible: bool): (s: Buffered) {
    Buffered(Init(visible), false)
  }

  /** No result waits unannounced: the promise of the gate. */
  predicate Announced(g: State) {
    g.queued > 0 && g.producer == Working && g.ui == Elsewhere ==> g.wakes >= 1 || g.skipped
  }

  /** Whatever the interleaving, no result is ever left waiting unannounced. */
  ghost predicate NeverLost(fenced: bool) {
    forall visible: bool, actions: seq<Action> :: Announced(RunBuffered(Start(visible), fenced, actions).gate)
  }

  ghost predicate FencedInv(s: Buffered) {
    Inv(s.gate) && (s.buffered ==> s.gate.ui == Draining)
  }

  lemma AfterKeepsInv(s: Buffered, action: Action)
    requires FencedInv(s)
    ensures FencedInv(After(s, true, action))
  {
    if action.Gate? {
      NextKeepsInv(s.gate, action.step);
    }
  }

  lemma {:induction false} RunKeepsFenced(s: Buffered, actions: seq<Action>)
    requires FencedInv(s)
    ensures FencedInv(RunBuffered(s, true, actions))
    decreases |actions|
  {
    if actions != [] {
      AfterKeepsInv(s, actions[0]);
      RunKeepsFenced(After(s, true, actions[0]), actions[1..]);
    }
  }

  lemma {:induction false} BufferedConcat(s: Buffered, fenced: bool, a: seq<Action>, b: seq<Action>)
    ensures RunBuffered(s, fenced, a + b) == RunBuffered(RunBuffered(s, fenced, a), fenced, b)
    decreases |a|
  {
    if a == [] {
      assert a + b == b;
    } else {
      assert (a + b)[1..] == a[1..] + b;
      BufferedConcat(After(s, fenced, a[0]), fenced, a[1..], b);
    }
  }

  lemma BufferedTwo(s: Buffered, fenced: bool, a: Action, b: Action)
    ensures RunBuffered(s, fenced, [a, b]) == After(After(s, fenced, a), fenced, b)
  {
    assert [a, b][1..] == [b];
    assert RunBuffered(After(s, fenced, a), fenced, [b]) == After(After(s, fenced, a), fenced, b);
  }

  lemma BufferedThree(s: Buffered, fenced: bool, a: Action, b: Action, c: Action)
    ensures RunBuffered(s, fenced, [a, b, c]) == After(After(After(s, fenced, a), fenced, b), fenced, c)
  {
    assert [a, b, c][1..] == [b, c];
    BufferedTwo(After(s, fenced, a), fenced, b, c);
  }

  const SENT: seq<Action> := [Gate(Send), Gate(LoadVisible), Gate(SwapPending)]
  const DRAIN: seq<Action> := [Gate(Wake), Store, Gate(Receive)]
  const LEAVE: seq<Action> := [Gate(Receive), Gate(Send), Gate(LoadVisible)]
  const ARRIVE: seq<Action> := [Gate(SwapPending), Flush]

  const CLAIMED: Buffered := Buffered(State(true, true, 1, MustWake, Elsewhere, 0, 1, false, false), false)
  const DRAINED: Buffered := Buffered(State(true, true, 0, Working, Draining, 1, 1, false, false), true)
  const RESENT: Buffered := Buffered(State(true, true, 1, SawVisible, Elsewhere, 1, 1, false, false), true)
  const SILENT: Buffered := Buffered(State(true, false, 1, Working, Elsewhere, 0, 0, false, false), false)

  lemma SentClaims()
    ensures RunBuffered(Start(true), false, SENT) == CLAIMED
  {
    BufferedThree(Start(true), false, Gate(Send), Gate(LoadVisible), Gate(SwapPending));
  }

  lemma DrainBuffers()
    ensures RunBuffered(CLAIMED, false, DRAIN) == DRAINED
  {
    BufferedThree(CLAIMED, false, Gate(Wake), Store, Gate(Receive));
  }

  lemma LeaveUnflushed()
    ensures RunBuffered(DRAINED, false, LEAVE) == RESENT
  {
    BufferedThree(DRAINED, false, Gate(Receive), Gate(Send), Gate(LoadVisible));
  }

  lemma ArriveTooLate()
    ensures RunBuffered(RESENT, false, ARRIVE) == SILENT
  {
    BufferedTwo(RESENT, false, Gate(SwapPending), Flush);
  }

  lemma BufferedPhases(s: Buffered, a: seq<Action>, b: seq<Action>, c: seq<Action>, d: seq<Action>)
    ensures RunBuffered(s, false, a + (b + (c + d))) ==
            RunBuffered(RunBuffered(RunBuffered(RunBuffered(s, false, a), false, b), false, c), false, d)
  {
    var s1 := RunBuffered(s, false, a);
    BufferedConcat(s, false, a, b + (c + d));
    BufferedConcat(s1, false, b, c + d);
    BufferedConcat(RunBuffered(s1, false, b), false, c, d);
  }

  /** A result wakes the UI, which drains it and leaves while its store is still on the
      way. The next result finds the flag set and wakes nobody; then the store arrives:
      one result waits, nobody is at work, and no wake has fired. */
  lemma DelayedStoreLosesWake()
    ensures RunBuffered(Start(true), false, SENT + (DRAIN + (LEAVE + ARRIVE))) == SILENT
    ensures !Announced(SILENT.gate)
  {
    BufferedPhases(Start(true), SENT, DRAIN, LEAVE, ARRIVE);
    SentClaims();
    DrainBuffers();
    LeaveUnflushed();
    ArriveTooLate();
  }

  /** The gate keeps its promise exactly when the store is visible before the read that
      ends the drain. */
  lemma NoLostWakeExact(fenced: bool)
    ensures NeverLost(fenced) <==> fenced
  {
    if fenced {
      forall visible: bool, actions: seq<Action>
        ensures Announced(RunBuffered(Start(visible), fenced, actions).gate)
      {
        RunKeepsFenced(Start(visible), actions);
      }
    } else {
      DelayedStoreLosesWake();
      assert !Announced(RunBuffered(Start(true), false, SENT + (DRAIN + (LEAVE + ARRIVE))).gate);
    }
  }
}
