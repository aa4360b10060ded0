/** The coalesced wake shared by the query engine (producer) and the UI (consumer),
    as the interleaving of their atomic steps. Results are counted, not inspected. */
module WakeGate {

  const RESULT_CHANNEL_CAPACITY: nat := 16

  /** Where the producer stands between sending a result and going back to work. */
  datatype Producer =
    | Working
    | Sent         // a result is in the channel, the visibility load comes next
    | SawVisible   // the load found the tab visible, the swap comes next
    | MustWake     // the swap found no pending wake, the callback comes next

  datatype Ui = Elsewhere | Draining

  datatype State = State(
    visible: bool,
    pending: bool,
    queued: nat,
    producer: Producer,
    ui: Ui,
    // History of the period since the UI last cleared the pending flag:
    wakes: nat,        // callbacks that fired
    claims: nat,       // swaps that found the flag clear
    skipped: bool,     // some result found the tab hidden
    openedMidWake: bool)  // the flag was cleared between a swap and its callback

  datatype Step =
    | Send | LoadVisible | SwapPending | Wake   // producer: send, then WakeGate::wake
    | Drained | Receive                         // UI: ObserveApp::tick
    | SetVisible(visible: bool)                 // UI: ObserveApp::set_visible

  function Init(visible: bool): (s: State) {
    State(visible, false, 0, Working, Elsewhere, 0, 0, false, false)
  }

  /** One atomic step; a step that is not enabled changes nothing. */
  function Next(s: State, step: Step): (s': State) {
    match step
    case Send =>
      if s.producer == Working && s.queued < RESULT_CHANNEL_CAPACITY
      then s.(queued := s.queued + 1, producer := Sent) else s
    case LoadVisible =>
      if s.producer != Sent then s
      else if s.visible then s.(producer := SawVisible)
      else s.(producer := Working, skipped := true)
    case SwapPending =>
      if s.producer != SawVisible then s
      else if s.pending then s.(producer := Working)
      else s.(pending := true, producer := MustWake, claims := s.claims + 1)
    case Wake =>
      if s.producer == MustWake then s.(producer := Working, wakes := s.wakes + 1) else s
    case Drained =>
      if s.ui == Elsewhere
      then s.(pending := false, ui := Draining, wakes := 0, claims := 0, skipped := false,
              openedMidWake := s.producer == MustWake)
      else s
    case Receive =>
      if s.ui != Draining then s
      else if s.queued == 0 then s.(ui := Elsewhere)
      else s.(queued := s.queued - 1)
    case SetVisible(v) =>
      if s.ui == Elsewhere then s.(visible := v) else s
  }

  /** Any interleaving, as the sequence of its steps. */
  function Run(s: State, steps: seq<Step>): (s': State)
    decreases |steps|
  {
    if steps == [] then s else Run(Next(s, steps[0]), steps[1..])
  }

  function Bit(b: bool): (n: nat) { if b then 1 else 0 }

  ghost predicate Inv(s: State) {
    && s.claims == Bit(s.pending)
    && s.wakes + Bit(s.producer == MustWake) == s.claims + Bit(s.openedMidWake)
    && (s.queued > 0 ==>
          s.ui == Draining || s.pending || s.producer == Sent || s.producer == SawVisible || s.skipped)
  }

  lemma NextKeepsInv(s: State, step: Step)
    requires Inv(s)
    ensures Inv(Next(s, step))
  {
  }

  lemma {:induction false} RunKeepsInv(s: State, steps: seq<Step>)
    requires Inv(s)
    ensures Inv(Run(s, steps))
    decreases |steps|
  {
    if steps != [] {
      NextKeepsInv(s, steps[0]);
      RunKeepsInv(Next(s, steps[0]), steps[1..]);
    }
  }

  ghost predicate NeverHidden(steps: seq<Step>) {
    forall i | 0 <= i < |steps| :: steps[i] != SetVisible(false)
  }

  /** A tab that stays visible skips nothing. */
  lemma {:induction false} VisibleNeverSkips(s: State, steps: seq<Step>)
    requires NeverHidden(steps) && s.visible && !s.skipped
    ensures !Run(s, steps).skipped
    decreases |steps|
  {
    if steps != [] {
      VisibleNeverSkips(Next(s, steps[0]), steps[1..]);
    }
  }

  /** No result is stranded: when both sides are idle and results wait, a wake has
      fired since the UI last cleared the flag, unless a result found the tab hidden
      since then, which cannot happen while the tab stays visible. */
  lemma NoLostWake(visible: bool, steps: seq<Step>)
    ensures var s := Run(Init(visible), steps);
            && (s.queued > 0 && s.producer == Working && s.ui == Elsewhere ==> s.wakes >= 1 || s.skipped)
            && (visible && NeverHidden(steps) ==> !s.skipped)
  {
    RunKeepsInv(Init(visible), steps);
    if visible && NeverHidden(steps) {
      VisibleNeverSkips(Init(visible), steps);
    }
  }

  ghost predicate NeverShown(steps: seq<Step>) {
    forall i | 0 <= i < |steps| :: steps[i] != SetVisible(true)
  }

  /** A hidden tab is left alone: while it stays hidden no wake fires, but for one that
      was decided before. */
  lemma {:induction false} HiddenNeverWakes(s: State, steps: seq<Step>)
    requires !s.visible && s.producer != SawVisible && s.producer != MustWake && NeverShown(steps)
    ensures var s' := Run(s, steps); s'.wakes <= s.wakes && s'.claims <= s.claims && s'.producer != MustWake
    decreases |steps|
  {
    if steps != [] {
      HiddenNeverWakes(Next(s, steps[0]), steps[1..]);
    }
  }

  /** Wakes are coalesced: in one period at most one swap wins, and two callbacks fire
      exactly when one that was decided before the period came late and the period's
      own has fired too. */
  lemma WakesCoalesce(visible: bool, steps: seq<Step>)
    ensures var s := Run(Init(visible), steps);
            && s.claims <= 1 && s.wakes <= 2
            && (s.wakes > 1 <==> s.openedMidWake && s.claims == 1 && s.producer != MustWake)
  {
    RunKeepsInv(Init(visible), steps);
  }

  /** That late callback is real: the UI clears the flag between a swap and its
      callback, and two callbacks fire before it clears the flag again. */
  lemma LateWakeDoubles()
    ensures var s := Run(Init(true),
              [Send, LoadVisible, SwapPending, Drained, Wake, Send, LoadVisible, SwapPending, Wake]);
            s.wakes == 2 && s.ui == Draining && s.queued == 2
  {
    var s := Init(true);
    var first, rest := [Send, LoadVisible, SwapPending, Drained, Wake], [Send, LoadVisible, SwapPending, Wake];
    RunConcat(s, first, rest);
    assert first + rest == [Send, LoadVisible, SwapPending, Drained, Wake, Send, LoadVisible, SwapPending, Wake];
  }

  lemma {:induction false} RunConcat(s: State, a: seq<Step>, b: seq<Step>)
    ensures Run(s, a + b) == Run(Run(s, a), b)
    decreases |a|
  {
    if a == [] {
      assert a + b == b;
    } else {
      assert (a + b)[1..] == a[1..] + b;
      RunConcat(Next(s, a[0]), a[1..], b);
    }
  }
}
