/** The change-hook pulse of the standalone harness: any number of producers publish
    and post, one event loop receives and pumps. Modelled as atomic steps. */
module PumpSignal {

  datatype Message = Pump | Input

  datatype Producer =
    | Idle
    | Published(n: nat)  // publication n is visible, the hook is about to swap
    | Posting            // the swap found the flag clear, the send comes next
    | Refused            // the send failed, the flag is about to be cleared

  datatype Loop =
    | Waiting
    | GotPump            // a pulse was taken, the acknowledging swap comes next
    | MustPump(n: nat)   // n + 1 calls of the tile's pump remain in this iteration
    | Gone               // the loop returned and its receiver is dropped

  datatype State = State(
    queued: bool,
    channel: seq<Message>,
    producers: map<nat, Producer>,
    loop: Loop,
    published: nat,   // publications made so far
    seen: nat)        // publications the tile's last pump read

  datatype Step =
    | Publish(p: nat) | Swap(p: nat) | Send(p: nat) | Clear(p: nat)
    | Key                                   // the reader sends a terminal event
    | Receive | Acknowledge | Tick | PumpTile
    | Exit                                  // the tile asked to, drawing failed, or input ended

  function Of(s: State, p: nat): (pc: Producer) {
    if p in s.producers then s.producers[p] else Idle
  }

  function Init(): (s: State) {
    State(false, [], map[], MustPump(0), 0, 0)
  }

  function Next(s: State, step: Step): (s': State) {
    match step
    case Publish(p) =>
      if Of(s, p) != Idle then s
      else s.(published := s.published + 1, producers := s.producers[p := Published(s.published + 1)])
    case Swap(p) =>
      if !Of(s, p).Published? then s
      else s.(queued := true, producers := s.producers[p := if s.queued then Idle else Posting])
    case Send(p) =>
      if Of(s, p) != Posting then s
      else if s.loop.Gone? then s.(producers := s.producers[p := Refused])
      else s.(channel := s.channel + [Pump], producers := s.producers[p := Idle])
    case Clear(p) =>
      if Of(s, p) != Refused then s else s.(queued := false, producers := s.producers[p := Idle])
    case Key =>
      if s.loop.Gone? then s else s.(channel := s.channel + [Input])
    case Receive =>
      if s.loop != Waiting || s.channel == [] then s
      else s.(channel := s.channel[1..], loop := if s.channel[0] == Pump then GotPump else MustPump(0))
    case Acknowledge =>
      if s.loop != GotPump then s else s.(queued := false, loop := MustPump(1))
    case Tick =>
      if s.loop != Waiting then s else s.(loop := MustPump(1))
    case PumpTile =>
      if !s.loop.MustPump? then s
      else s.(seen := s.published, loop := if s.loop.n == 0 then Waiting else MustPump(s.loop.n - 1))
    case Exit =>
      if s.loop.MustPump? || s.loop.Waiting? then s.(loop := Gone, channel := []) else s
  }

  function Run(s: State, steps: seq<Step>): (s': State)
    decreases |steps|
  {
    if steps == [] then s else Run(Next(s, steps[0]), steps[1..])
  }

  function Pulses(channel: seq<Message>): (n: nat) {
    if channel == [] then 0 else (if channel[0] == Pump then 1 else 0) + Pulses(channel[1..])
  }

  lemma {:induction false} PulsesSnoc(channel: seq<Message>, m: Message)
    ensures Pulses(channel + [m]) == Pulses(channel) + if m == Pump then 1 else 0
  {
    if channel != [] {
      assert (channel + [m])[1..] == channel[1..] + [m];
      PulsesSnoc(channel[1..], m);
    } else {
      assert channel + [m] == [m];
    }
  }

  ghost predicate Posts(s: State, p: nat) {
    Of(s, p) == Posting || Of(s, p) == Refused
  }

  /** Exactly one holder answers for a set flag: a producer that won the swap, a
      pulse in the channel, or the loop about to acknowledge. */
  ghost predicate OneToken(s: State) {
    && Pulses(s.channel) <= 1
    && (Pulses(s.channel) == 1 ==> s.queued && s.loop != GotPump && forall p: nat :: !Posts(s, p))
    && (s.loop == GotPump ==> s.queued && forall p: nat :: !Posts(s, p))
    && (forall p: nat :: Posts(s, p) ==> s.queued)
    && (forall p: nat, q: nat :: Posts(s, p) && Posts(s, q) ==> p == q)
    && (s.queued && !s.loop.Gone? ==>
          Pulses(s.channel) == 1 || s.loop == GotPump || exists p: nat :: Posts(s, p))
    && (!s.loop.Gone? ==> forall p: nat :: Of(s, p) != Refused)
    && (s.loop.Gone? ==> s.channel == [])
  }

  ghost predicate PublisherOf(s: State, n: nat) {
    exists p: nat :: Of(s, p) == Published(n)
  }

  /** Whatever the tile has not seen is still on its way to it. */
  ghost predicate UnseenIsComing(s: State) {
    && s.seen <= s.published
    && (!s.loop.Gone? ==> forall n: nat | s.seen < n <= s.published ::
          PublisherOf(s, n) || s.queued || s.loop.MustPump?)
  }

  lemma NextKeepsToken(s: State, step: Step)
    requires OneToken(s)
    ensures OneToken(Next(s, step))
  {
    match step {
      case Publish(p) => PublishKeepsToken(s, p);
      case Swap(p) => SwapKeepsToken(s, p);
      case Send(p) => SendKeepsToken(s, p);
      case Clear(p) => ClearKeepsToken(s, p);
      case Key =>
        PulsesSnoc(s.channel, Input);
        SameProducers(s, Next(s, step));
      case _ => LoopKeepsToken(s, step);
    }
  }

  /** Only what producer `p` is doing has changed. */
  ghost predicate OnlyProducer(s: State, s': State, p: nat) {
    forall q: nat | q != p :: Of(s', q) == Of(s, q)
  }

  lemma SameProducers(s: State, s': State)
    requires s'.producers == s.producers
    ensures forall q: nat :: Of(s', q) == Of(s, q)
    ensures forall q: nat :: Posts(s', q) <==> Posts(s, q)
  {
  }

  lemma PublishKeepsToken(s: State, p: nat)
    requires OneToken(s)
    ensures OneToken(Next(s, Publish(p)))
  {
    var s' := Next(s, Publish(p));
    assert OnlyProducer(s, s', p);
    assert forall q: nat :: Posts(s', q) <==> Posts(s, q);
  }

  lemma SwapKeepsToken(s: State, p: nat)
    requires OneToken(s)
    ensures OneToken(Next(s, Swap(p)))
  {
    var s' := Next(s, Swap(p));
    assert OnlyProducer(s, s', p);
    assert s.queued || s' == s || Posts(s', p);
    assert forall q: nat | q != p :: Posts(s', q) <==> Posts(s, q);
  }

  lemma SendKeepsToken(s: State, p: nat)
    requires OneToken(s)
    ensures OneToken(Next(s, Send(p)))
  {
    var s' := Next(s, Send(p));
    PulsesSnoc(s.channel, Pump);
    assert OnlyProducer(s, s', p);
    assert Of(s, p) == Posting ==> Posts(s, p);
    assert forall q: nat | q != p :: Posts(s', q) <==> Posts(s, q);
  }

  lemma ClearKeepsToken(s: State, p: nat)
    requires OneToken(s)
    ensures OneToken(Next(s, Clear(p)))
  {
    var s' := Next(s, Clear(p));
    assert OnlyProducer(s, s', p);
    assert Of(s, p) == Refused ==> Posts(s, p);
    assert forall q: nat | q != p :: Posts(s', q) <==> Posts(s, q);
  }

  lemma LoopKeepsToken(s: State, step: Step)
    requires OneToken(s)
    requires step.Receive? || step.Acknowledge? || step.Tick? || step.PumpTile? || step.Exit?
    ensures OneToken(Next(s, step))
  {
    SameProducers(s, Next(s, step));
  }

  lemma NextKeepsComing(s: State, step: Step)
    requires UnseenIsComing(s) && OneToken(s)
    ensures UnseenIsComing(Next(s, step))
  {
    var s' := Next(s, step);
    if !s'.loop.Gone? {
      forall n: nat | s'.seen < n <= s'.published ensures PublisherOf(s', n) || s'.queued || s'.loop.MustPump? {
        if n <= s.published && PublisherOf(s, n) {
          var p :| Of(s, p) == Published(n);
          assert step != Swap(p) ==> Of(s', p) == Published(n);
        } else if n > s.published {
          assert Of(s', step.p) == Published(n);
        }
      }
    }
  }

  lemma {:induction false} RunKeeps(s: State, steps: seq<Step>)
    requires OneToken(s) && UnseenIsComing(s)
    ensures OneToken(Run(s, steps)) && UnseenIsComing(Run(s, steps))
    decreases |steps|
  {
    if steps != [] {
      NextKeepsToken(s, steps[0]);
      NextKeepsComing(s, steps[0]);
      RunKeeps(Next(s, steps[0]), steps[1..]);
    }
  }

  /** For any number of producers and any interleaving the channel never holds two
      pulses, a set flag has exactly one holder (a producer that won the swap, a queued
      pulse, or the loop about to acknowledge), and a publication the tile has not seen
      still has its producer about to post, such a holder, or a loop about to pump. */
  lemma PulsesCoalesce(steps: seq<Step>)
    ensures var s := Run(Init(), steps);
            && Pulses(s.channel) <= 1
            && (s.loop == GotPump ==> s.queued)
            && OneToken(s)
            && UnseenIsComing(s)
  {
    RunKeeps(Init(), steps);
  }

  /** So coalescing loses nothing: once everything has come to rest the tile has
      seen every publication. */
  lemma NothingLost(steps: seq<Step>)
    requires var s := Run(Init(), steps);
             s.loop == Waiting && s.channel == [] && forall p: nat :: Of(s, p) == Idle
    ensures Run(Init(), steps).seen == Run(Init(), steps).published
  {
    RunKeeps(Init(), steps);
    var s := Run(Init(), steps);
    assert !PublisherOf(s, s.published);
    assert forall p: nat :: !Posts(s, p);
  }

  /** Publication `n` has been made, and has been seen unless the loop is at work. */
  ghost predicate SeenByRest(s: State, n: nat) {
    n <= s.published && (s.loop.Waiting? ==> s.seen >= n)
  }

  lemma {:induction false} RunKeepsSeen(s: State, steps: seq<Step>, n: nat)
    requires s.seen <= s.published && n <= s.published
    requires s.seen >= n || s.loop.GotPump? || s.loop.MustPump? || s.loop.Gone?
    ensures SeenByRest(Run(s, steps), n)
    decreases |steps|
  {
    if steps != [] {
      RunKeepsSeen(Next(s, steps[0]), steps[1..], n);
    }
  }

  /** Whatever the loop wakes for, a pulse, a deadline or mere input, it pumps: by the
      time it waits again the tile has seen everything published before. */
  lemma EveryWakePumps(before: seq<Step>, wake: Step, after: seq<Step>)
    requires wake.Receive? || wake.Tick?
    ensures var s := Run(Init(), before);
            s.loop.Waiting? && (wake.Receive? ==> s.channel != []) ==>
              SeenByRest(Run(Next(s, wake), after), s.published)
  {
    var s := Run(Init(), before);
    RunKeeps(Init(), before);
    if s.loop.Waiting? && (wake.Receive? ==> s.channel != []) {
      RunKeepsSeen(Next(s, wake), after, s.published);
    }
  }
}
