/** The per-worktree activity FSM: one observation folded into the marks, and what
    its edges mean in terms of the observations that led to them. */
module Activity {
  import opened Wrappers

  datatype Agentness = Unknown | Present | Absent

  datatype Signals = Signals(busy: bool, agent: Agentness)

  /** `state` is "none", "active", "waiting" or "read"; anything else counts as
      "none". */
  datatype Marks = Marks(
    state: string,
    quietSince: Option<real>,
    busySince: Option<real>,
    lastActiveAt: Option<real>)

  datatype Config = Config(quietGrace: real, resumeGrace: real, redRequiresAgent: bool)

  const CLEAN: Marks := Marks("none", None, None, None)

  predicate IsRed(m: Marks) {
    m.state == "waiting" || m.state == "read"
  }

  function Settled(m: Marks): (m': Marks) {
    Marks("none", None, None, m.lastActiveAt)
  }

  predicate NoAgent(cfg: Config, sig: Signals) {
    cfg.redRequiresAgent && sig.agent == Absent
  }

  /** The marks after one more look at the worktree. */
  function Step(m0: Marks, sig: Signals, cfg: Config, now: real): (m': Marks) {
    var m := if sig.busy then m0.(busySince := Some(m0.busySince.UnwrapOr(now)), quietSince := None)
             else m0.(busySince := None);
    if IsRed(m) then
      if NoAgent(cfg, sig) && !sig.busy then Settled(m)
      else if sig.busy && now - m.busySince.UnwrapOr(now) >= cfg.resumeGrace
      then m.(state := "active", quietSince := None, lastActiveAt := Some(now))
      else m
    else if m.state == "active" then
      if sig.busy then m.(lastActiveAt := Some(now))
      else
        var since := m.quietSince.UnwrapOr(now);
        var noted := m.(quietSince := Some(since));
        if now - since >= cfg.quietGrace then
          if NoAgent(cfg, sig) then Settled(noted) else noted.(state := "waiting")
        else noted
    else
      if sig.busy then m.(state := "active", quietSince := None, lastActiveAt := Some(now)) else m
  }

  // -------------------------------------------------------------------- runs

  /** What happens to a worktree: an observation, or the user looking at its tab. */
  datatype Event = Saw(sig: Signals, now: real) | Acked

  function Apply(m: Marks, cfg: Config, e: Event): (m': Marks) {
    match e
    case Saw(sig, now) => Step(m, sig, cfg, now)
    case Acked => if m.state == "waiting" then m.(state := "read") else m
  }

  /** The marks after a history that began clean. */
  function After(cfg: Config, run: seq<Event>): (m: Marks) {
    if run == [] then CLEAN else Apply(After(cfg, run[..|run| - 1]), cfg, run[|run| - 1])
  }

  /** From index `k`, an observation, to the end of the run every observation has
      this polarity. */
  ghost predicate Streak(run: seq<Event>, k: nat, busy: bool) {
    k < |run| && run[k].Saw? && forall i | k <= i < |run| && run[i].Saw? :: run[i].sig.busy == busy
  }

  /** The unbroken streak at the end of the run begins at index `k`. */
  ghost predicate StreakBegins(run: seq<Event>, k: nat, busy: bool) {
    Streak(run, k, busy) && forall j: nat | j < k :: !Streak(run, j, busy)
  }

  /** The stamp is the time at which the streak at the end of the run began; there is
      none exactly when the last observation had the other polarity. */
  ghost predicate StampsStreak(run: seq<Event>, busy: bool, since: Option<real>) {
    match since
    case None => forall k: nat :: !Streak(run, k, busy)
    case Some(t) => exists k: nat :: StreakBegins(run, k, busy) && run[k].now == t
  }

  lemma StreakGrows(run: seq<Event>, e: Event, k: nat, busy: bool)
    ensures Streak(run + [e], k, busy) <==>
            if k == |run| then e.Saw? && e.sig.busy == busy
            else Streak(run, k, busy) && (e.Saw? ==> e.sig.busy == busy)
  {
    var grown := run + [e];
    assert forall i | 0 <= i < |run| :: grown[i] == run[i];
    assert grown[|run|] == e;
  }

  lemma StampGrows(run: seq<Event>, e: Event, busy: bool, since: Option<real>)
    requires StampsStreak(run, busy, since)
    ensures StampsStreak(run + [e], busy,
              if e.Acked? then since else if e.sig.busy == busy then Some(since.UnwrapOr(e.now)) else None)
  {
    var grown := run + [e];
    forall k: nat ensures Streak(grown, k, busy) <==>
        if k == |run| then e.Saw? && e.sig.busy == busy
        else Streak(run, k, busy) && (e.Saw? ==> e.sig.busy == busy) {
      StreakGrows(run, e, k, busy);
    }
    if since.Some? && (e.Saw? ==> e.sig.busy == busy) {
      var k: nat :| StreakBegins(run, k, busy) && run[k].now == since.value;
      assert grown[k] == run[k];
      assert StreakBegins(grown, k, busy);
    } else if e.Saw? && e.sig.busy == busy {
      assert grown[|run|] == e;
      assert StreakBegins(grown, |run|, busy);
    }
  }

  /** The two stamps mean what they are named for. A red dot may have lost its quiet
      stamp to a busy blip, so the quiet stamp is claimed for white dots only. */
  lemma {:induction false} StampsAreStreaks(cfg: Config, run: seq<Event>)
    ensures StampsStreak(run, true, After(cfg, run).busySince)
    ensures After(cfg, run).state == "active" ==> StampsStreak(run, false, After(cfg, run).quietSince)
    ensures After(cfg, run).state in ["none", "active", "waiting", "read"]
  {
    if run != [] {
      var init, e := run[..|run| - 1], run[|run| - 1];
      StampsAreStreaks(cfg, init);
      assert init + [e] == run;
      var m := After(cfg, init);
      StampGrows(init, e, true, m.busySince);
      if m.state == "active" {
        StampGrows(init, e, false, m.quietSince);
      } else if e.Saw? && e.sig.busy {
        BusyEndsQuiet(init, e);
      }
    }
  }

  lemma BusyEndsQuiet(run: seq<Event>, e: Event)
    requires e.Saw? && e.sig.busy
    ensures StampsStreak(run + [e], false, None)
  {
    forall k: nat ensures !Streak(run + [e], k, false) {
      StreakGrows(run, e, k, false);
    }
  }

  ghost predicate StreakSpans(run: seq<Event>, busy: bool, now: real, grace: real) {
    exists k: nat :: StreakBegins(run, k, busy) && now - run[k].now >= grace
  }

  /** A white dot turns red exactly when the unbroken quiet streak that this
      observation ends spans the grace and an agent may be there; with a positive
      grace that takes at least two quiet observations. */
  lemma WaitingEdge(cfg: Config, run: seq<Event>, sig: Signals, now: real)
    requires After(cfg, run).state == "active"
    ensures var run' := run + [Saw(sig, now)];
            && (After(cfg, run').state == "waiting" <==>
                  && !sig.busy && !(cfg.redRequiresAgent && sig.agent == Absent)
                  && StreakSpans(run', false, now, cfg.quietGrace))
            && (After(cfg, run').state == "waiting" && cfg.quietGrace > 0.0 ==>
                  exists k: nat | k < |run| :: StreakBegins(run', k, false) && now - run'[k].now >= cfg.quietGrace)
  {
    var e := Saw(sig, now);
    var run' := run + [e];
    assert run'[..|run|] == run;
    StampsAreStreaks(cfg, run);
    StampGrows(run, e, false, After(cfg, run).quietSince);
    UniqueBeginning(run', false);
    if After(cfg, run').state == "waiting" {
      var k: nat :| StreakBegins(run', k, false) && run'[k].now == After(cfg, run').quietSince.value;
      assert now - run'[k].now >= cfg.quietGrace;
      assert k == |run| ==> run'[k] == e;
    }
  }

  /** A dot that has just turned red says since when: the beginning of the quiet streak. */
  lemma WaitingSince(cfg: Config, run: seq<Event>, sig: Signals, now: real)
    requires After(cfg, run).state == "active"
    ensures var run' := run + [Saw(sig, now)];
            After(cfg, run').state == "waiting" ==> StampsStreak(run', false, After(cfg, run').quietSince)
  {
    var e := Saw(sig, now);
    assert (run + [e])[..|run|] == run;
    StampsAreStreaks(cfg, run);
    StampGrows(run, e, false, After(cfg, run).quietSince);
  }

  /** The other ends of a white dot: work keeps it, and it disappears exactly when the
      unbroken quiet streak spans the grace and no agent can be there. */
  lemma ActiveEdges(cfg: Config, run: seq<Event>, sig: Signals, now: real)
    requires After(cfg, run).state == "active"
    ensures var run' := run + [Saw(sig, now)];
            && (After(cfg, run').state == "none" <==>
                  && !sig.busy && cfg.redRequiresAgent && sig.agent == Absent
                  && StreakSpans(run', false, now, cfg.quietGrace))
            && (After(cfg, run').state == "active" <==>
                  sig.busy || !StreakSpans(run', false, now, cfg.quietGrace))
  {
    var e := Saw(sig, now);
    var run' := run + [e];
    assert run'[..|run|] == run;
    StampsAreStreaks(cfg, run);
    StampGrows(run, e, false, After(cfg, run).quietSince);
    UniqueBeginning(run', false);
    if sig.busy {
      BusyEndsQuiet(run, e);
    } else {
      StreakGrows(run, e, |run|, false);
      StampGivesSpan(run', now, now - cfg.quietGrace, After(cfg, run).quietSince.UnwrapOr(now));
    }
  }

  lemma StampGivesSpan(run: seq<Event>, now: real, latest: real, since: real)
    requires StampsStreak(run, false, Some(since))
    ensures StreakSpans(run, false, now, now - latest) <==> since <= latest
  {
    UniqueBeginning(run, false);
  }

  /** Any work wakes a worktree that shows nothing, and stamps it; nothing else moves
      it. From clean marks one busy observation is enough. */
  lemma WakeEdge(cfg: Config, run: seq<Event>, sig: Signals, now: real)
    requires After(cfg, run).state == "none"
    ensures var m := After(cfg, run + [Saw(sig, now)]);
            && (m.state == "active" <==> sig.busy) && (m.state == "none" <==> !sig.busy)
            && m.lastActiveAt == if sig.busy then Some(now) else After(cfg, run).lastActiveAt
  {
    assert (run + [Saw(sig, now)])[..|run|] == run;
  }

  /** The same for marks in a legacy or unknown state, which no run from clean marks has. */
  lemma UnknownStateWakes(m: Marks, sig: Signals, cfg: Config, now: real)
    requires m.state !in ["active", "waiting", "read"]
    ensures Step(m, sig, cfg, now).state == if sig.busy then "active" else m.state
  {
  }

  /** Looking at a waiting worktree's tab marks it read; looking changes nothing else. */
  lemma AckedEdge(cfg: Config, run: seq<Event>)
    ensures var m, m' := After(cfg, run), After(cfg, run + [Acked]);
            && (m.state == "waiting" ==> m'.state == "read") && (m.state != "waiting" ==> m'.state == m.state)
            && m'.quietSince == m.quietSince && m'.busySince == m.busySince && m'.lastActiveAt == m.lastActiveAt
  {
    assert (run + [Acked])[..|run|] == run;
  }

  lemma UniqueBeginning(run: seq<Event>, busy: bool)
    ensures forall j: nat, k: nat | StreakBegins(run, j, busy) && StreakBegins(run, k, busy) :: j == k
  {
  }

  /** A red dot turns white exactly when the unbroken busy streak that this
      observation ends spans the resume grace, loses its dot exactly when it is quiet
      and known to have no agent, and is otherwise kept. */
  lemma ResumeEdge(cfg: Config, run: seq<Event>, sig: Signals, now: real)
    requires IsRed(After(cfg, run))
    ensures var run' := run + [Saw(sig, now)];
            && (After(cfg, run').state == "active" <==> sig.busy && StreakSpans(run', true, now, cfg.resumeGrace))
            && (After(cfg, run').state == "none" <==> !sig.busy && cfg.redRequiresAgent && sig.agent == Absent)
            && (After(cfg, run').state == After(cfg, run).state
                || After(cfg, run').state == "active" || After(cfg, run').state == "none")
  {
    var e := Saw(sig, now);
    var run' := run + [e];
    assert run'[..|run|] == run;
    StampsAreStreaks(cfg, run);
    StampGrows(run, e, true, After(cfg, run).busySince);
    UniqueBeginning(run', true);
  }

  /** A worktree that is always known to have no agent never shows red. */
  lemma {:induction false} AbsentNeverRed(cfg: Config, run: seq<Event>)
    requires cfg.redRequiresAgent
    requires forall i | 0 <= i < |run| && run[i].Saw? :: run[i].sig.agent == Absent
    ensures !IsRed(After(cfg, run))
  {
    if run != [] {
      AbsentNeverRed(cfg, run[..|run| - 1]);
    }
  }

  /** The observation at `k` was busy and left the worktree active. */
  ghost predicate WorkedAt(cfg: Config, run: seq<Event>, k: nat) {
    k < |run| && run[k].Saw? && run[k].sig.busy && After(cfg, run[..k + 1]).state == "active"
  }

  ghost predicate StampsLastWork(cfg: Config, run: seq<Event>, at: Option<real>) {
    match at
    case None => forall k: nat :: !WorkedAt(cfg, run, k)
    case Some(t) => exists k: nat
          :: WorkedAt(cfg, run, k) && run[k].now == t && forall j: nat | k < j :: !WorkedAt(cfg, run, j)
  }

  /** The recency stamp is the latest observation at which the worktree worked; waiting,
      acknowledging and settling all carry it through. */
  lemma {:induction false} RecencyIsLastWork(cfg: Config, run: seq<Event>)
    ensures StampsLastWork(cfg, run, After(cfg, run).lastActiveAt)
  {
    if run != [] {
      var n := |run| - 1;
      RecencyIsLastWork(cfg, run[..n]);
      WorkGrows(cfg, run);
      assert run[..n + 1] == run;
      ApplyStampsWork(After(cfg, run[..n]), cfg, run[n]);
      StampCarries(cfg, run, After(cfg, run[..n]).lastActiveAt);
    }
  }

  /** One event moves the recency stamp exactly when it is work. */
  lemma ApplyStampsWork(m: Marks, cfg: Config, e: Event)
    ensures var m' := Apply(m, cfg, e);
            m'.lastActiveAt ==
            if e.Saw? && e.sig.busy && m'.state == "active" then Some(e.now) else m.lastActiveAt
  {
  }

  lemma StampCarries(cfg: Config, run: seq<Event>, before: Option<real>)
    requires run != [] && StampsLastWork(cfg, run[..|run| - 1], before)
    ensures StampsLastWork(cfg, run, if WorkedAt(cfg, run, |run| - 1) then Some(run[|run| - 1].now) else before)
  {
    var n := |run| - 1;
    WorkGrows(cfg, run);
    if !WorkedAt(cfg, run, n) && before.Some? {
      var init := run[..n];
      var k: nat :| WorkedAt(cfg, init, k) && init[k].now == before.value &&
                 forall j: nat | k < j :: !WorkedAt(cfg, init, j);
      assert WorkedAt(cfg, run, k) && run[k] == init[k];
      assert forall j: nat | k < j :: !WorkedAt(cfg, run, j);
    }
  }

  lemma WorkGrows(cfg: Config, run: seq<Event>)
    requires run != []
    ensures forall k: nat | k != |run| - 1 :: WorkedAt(cfg, run, k) <==> WorkedAt(cfg, run[..|run| - 1], k)
  {
    forall k: nat | k != |run| - 1 ensures WorkedAt(cfg, run, k) <==> WorkedAt(cfg, run[..|run| - 1], k) {
      if k < |run| - 1 {
        assert run[..|run| - 1][..k + 1] == run[..k + 1];
      }
    }
  }
}
