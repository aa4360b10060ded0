/** One refresh cycle of the Observe query engine: a sliding window of panel jobs,
    each of which finishes or panics in any order. */
module QueryCycle {
  import opened Wrappers

  const MAX_CONCURRENT_PANELS: nat := 4
  const MAX_TARGETS_PER_PANEL: nat := 32

  datatype TimeRange = TimeRange(from: int, to: int)

  datatype Target = Target(refId: string, alias: Option<string>, hide: bool)

  datatype Panel = Panel(id: nat, datasource: string, targets: seq<Target>)

  type Identity = (string, string)

  datatype Answer = Frames(count: nat) | Failed(message: string)

  datatype TargetUpdate = TargetUpdate(refId: string, legend: string, result: Answer)

  datatype PanelUpdate = PanelUpdate(panelId: nat, targets: seq<TargetUpdate>, window: TimeRange)

  // ------------------------------------------------------------ one panel's job

  function IdentityOf(t: Target): (id: Identity) {
    (t.refId, if t.alias.Some? && t.alias.value != "" then t.alias.value else t.refId)
  }

  /** The identities of a panel's targets that are not hidden. */
  function Shown(targets: seq<Target>): (ids: seq<Identity>) {
    if targets == [] then []
    else (if targets[0].hide then [] else [IdentityOf(targets[0])]) + Shown(targets[1..])
  }

  const OMITTED: Identity := ("\U{2026}", "\U{2026}")

  /** The identities recorded when a job is spawned: the first targets, and a marker
      when there are more. */
  function TargetIds(panel: Panel): (ids: seq<Identity>) {
    var shown := Shown(panel.targets);
    if |shown| > MAX_TARGETS_PER_PANEL then shown[..MAX_TARGETS_PER_PANEL] + [OMITTED] else shown
  }

  /** What the job itself reports, target by target. `answers` are the datasource's
      replies, when the panel's datasource exists. */
  method PanelJob(panel: Panel, sourceFound: bool, answers: nat -> Answer) returns (results: seq<TargetUpdate>)
    ensures results == JobResults(panel, sourceFound, answers)
  {
    var shown := Shown(panel.targets);
    var n := if |shown| > MAX_TARGETS_PER_PANEL then MAX_TARGETS_PER_PANEL else |shown|;
    results := [];
    for i := 0 to n
      invariant |results| == i
      invariant forall j | 0 <= j < i
                  :: results[j] == TargetUpdate(shown[j].0, shown[j].1, Reply(panel, sourceFound, answers, j))
    {
      var result := if sourceFound then answers(i) else Failed("no datasource '" + panel.datasource + "'");
      results := results + [TargetUpdate(shown[i].0, shown[i].1, result)];
    }
    if |shown| > MAX_TARGETS_PER_PANEL {
      results := results + [TargetUpdate(OMITTED.0, OMITTED.1, Failed("additional targets omitted (limit 32)"))];
    }
  }

  function Reply(panel: Panel, sourceFound: bool, answers: nat -> Answer, i: nat): (a: Answer) {
    if i >= MAX_TARGETS_PER_PANEL then Failed("additional targets omitted (limit 32)")
    else if sourceFound then answers(i)
    else Failed("no datasource '" + panel.datasource + "'")
  }

  function JobResults(panel: Panel, sourceFound: bool, answers: nat -> Answer): (results: seq<TargetUpdate>) {
    var ids := TargetIds(panel);
    seq(|ids|, i requires 0 <= i < |ids| => TargetUpdate(ids[i].0, ids[i].1, Reply(panel, sourceFound, answers, i)))
  }

  /** What is reported for a job that panicked, from the identities kept for it. */
  function PanicResults(ids: seq<Identity>, message: string): (results: seq<TargetUpdate>) {
    seq(|ids|, i requires 0 <= i < |ids| =>
      TargetUpdate(ids[i].0, ids[i].1, Failed("panel query panicked: " + message)))
  }

  function Identities(results: seq<TargetUpdate>): (ids: seq<Identity>) {
    seq(|results|, i requires 0 <= i < |results| => (results[i].refId, results[i].legend))
  }

  /** A target's identity: its reference and its alias, or the reference again where
      there is no alias or an empty one. */
  predicate Identifies(id: Identity, t: Target) {
    && id.0 == t.refId
    && (t.alias.None? || t.alias == Some("") ==> id.1 == t.refId)
    && (t.alias.Some? && t.alias.value != "" ==> id.1 == t.alias.value)
  }

  /** Target `picks[i]` is the i-th that is not hidden, and `ids[i]` its identity. */
  ghost predicate NotHidden(targets: seq<Target>, ids: seq<Identity>, picks: seq<nat>) {
    && |ids| == |picks|
    && (forall i | 0 <= i < |picks| ::
          picks[i] < |targets| && !targets[picks[i]].hide && Identifies(ids[i], targets[picks[i]]))
    && (forall i, j | 0 <= i < j < |picks| :: picks[i] < picks[j])
    && (forall k: nat | k < |targets| && !targets[k].hide :: k in picks)
  }

  lemma {:induction false} ShownAreNotHidden(targets: seq<Target>, n: nat) returns (picks: seq<nat>)
    requires n <= |targets|
    ensures NotHidden(targets[..n], Shown(targets[..n]), picks)
  {
    if n == 0 {
      picks := [];
    } else {
      var t := targets[n - 1];
      var earlier := ShownAreNotHidden(targets, n - 1);
      assert targets[..n] == targets[..n - 1] + [t];
      ShownSnoc(targets[..n - 1], t);
      picks := if t.hide then earlier else earlier + [n - 1];
      NotHiddenGrows(targets[..n - 1], t, Shown(targets[..n - 1]), earlier);
    }
  }

  lemma {:induction false} ShownSnoc(targets: seq<Target>, t: Target)
    ensures Shown(targets + [t]) == Shown(targets) + if t.hide then [] else [IdentityOf(t)]
  {
    if targets == [] {
      assert targets + [t] == [t];
    } else {
      assert (targets + [t])[1..] == targets[1..] + [t];
      ShownSnoc(targets[1..], t);
    }
  }

  lemma NotHiddenGrows(targets: seq<Target>, t: Target, ids: seq<Identity>, picks: seq<nat>)
    requires NotHidden(targets, ids, picks)
    ensures t.hide ==> NotHidden(targets + [t], ids + [], picks)
    ensures !t.hide ==> NotHidden(targets + [t], ids + [IdentityOf(t)], picks + [|targets|])
  {
    var all := targets + [t];
    assert ids + [] == ids;
    assert forall k: nat | k < |targets| :: all[k] == targets[k];
    assert all[|targets|] == t;
    if !t.hide {
      assert (picks + [|targets|])[|picks|] == |targets|;
      assert forall k | k in picks :: k in picks + [|targets|];
    }
  }

  /** What a finished job reports: target by target the datasource's own answers, in
      order, for the first 32 that are not hidden, and one marker for all the others. */
  lemma JobReportsAnswers(panel: Panel, answers: nat -> Answer) returns (picks: seq<nat>)
    ensures NotHidden(panel.targets, Shown(panel.targets), picks)
    ensures var results, n := JobResults(panel, true, answers), |picks|;
            && |results| == (if n <= 32 then n else 33)
            && (forall i | 0 <= i < |results| && i < 32 ::
                  results[i].result == answers(i) && (results[i].refId, results[i].legend) == Shown(panel.targets)[i])
            && (n > 32 ==> (results[32].refId, results[32].legend) == OMITTED && results[32].result.Failed?)
  {
    picks := ShownAreNotHidden(panel.targets, |panel.targets|);
    assert panel.targets[..|panel.targets|] == panel.targets;
  }

  /** Without its datasource, and after a panic, every reported target has failed. */
  lemma JobReportsFailure(panel: Panel, answers: nat -> Answer, message: string)
    ensures forall u | u in JobResults(panel, false, answers) :: u.result.Failed?
    ensures forall u | u in PanicResults(TargetIds(panel), message) ::
              u.result == Failed("panel query panicked: " + message)
  {
  }

  // ------------------------------------------------------------------ the cycle

  type TaskId = nat

  /** `started` panels have been spawned so far; `pending` says which panel each live
      task queries; `jobIds` is what the engine remembers of it; `sent` are the
      updates sent, and `sentFor` the panels they were sent for. */
  datatype Cycle = Cycle(
    started: nat,
    pending: map<TaskId, nat>,
    jobIds: map<TaskId, (nat, seq<Identity>)>,
    nextTask: TaskId,
    sent: seq<PanelUpdate>,
    sentFor: seq<nat>)

  datatype Event =
    | Finished(task: TaskId, sourceFound: bool, answers: nat -> Answer)
    | Panicked(task: TaskId, message: string)

  function SpawnNext(panels: seq<Panel>, c: Cycle): (c': Cycle) {
    if c.started >= |panels| then c
    else
      var panel := panels[c.started];
      c.(started := c.started + 1, nextTask := c.nextTask + 1,
         pending := c.pending[c.nextTask := c.started],
         jobIds := c.jobIds[c.nextTask := (panel.id, TargetIds(panel))])
  }

  function SpawnMany(panels: seq<Panel>, c: Cycle, n: nat): (c': Cycle) {
    if n == 0 then c else SpawnNext(panels, SpawnMany(panels, c, n - 1))
  }

  const IDLE: Cycle := Cycle(0, map[], map[], 0, [], [])

  function Begin(panels: seq<Panel>): (c: Cycle) {
    SpawnMany(panels, IDLE, MAX_CONCURRENT_PANELS)
  }

  function Join(panels: seq<Panel>, window: TimeRange, c: Cycle, e: Event): (c': Cycle)
    requires e.task in c.pending && c.pending[e.task] < |panels|
  {
    var task, i := e.task, c.pending[e.task];
    var rest := c.(pending := c.pending - {task}, jobIds := c.jobIds - {task});
    match e
    case Finished(_, sourceFound, answers) =>
      rest.(sent := c.sent + [PanelUpdate(panels[i].id, JobResults(panels[i], sourceFound, answers), window)],
            sentFor := c.sentFor + [i])
    case Panicked(_, message) =>
      if task !in c.jobIds then rest
      else
        var (id, ids) := c.jobIds[task];
        rest.(sent := c.sent + [PanelUpdate(id, PanicResults(ids, message), window)], sentFor := c.sentFor + [i])
  }

  function Next(panels: seq<Panel>, window: TimeRange, c: Cycle, e: Event): (c': Cycle) {
    if e.task !in c.pending || c.pending[e.task] >= |panels| then c
    else SpawnNext(panels, Join(panels, window, c, e))
  }

  function Run(panels: seq<Panel>, window: TimeRange, c: Cycle, events: seq<Event>): (c': Cycle)
    decreases |events|
  {
    if events == [] then c else Run(panels, window, Next(panels, window, c, events[0]), events[1..])
  }

  // ------------------------------------------------------------------ invariant

  ghost predicate InFlight(pending: map<TaskId, nat>, panel: nat) {
    exists t :: t in pending && pending[t] == panel
  }

  /** The started panels are split between tasks in flight and updates sent, without
      overlap. */
  ghost predicate Split(started: nat, pending: map<TaskId, nat>, sentFor: seq<nat>) {
    && (forall t | t in pending :: pending[t] < started)
    && (forall t, u | t in pending && u in pending && pending[t] == pending[u] :: t == u)
    && (forall k | 0 <= k < |sentFor| :: sentFor[k] < started)
    && (forall k, l | 0 <= k < l < |sentFor| :: sentFor[k] != sentFor[l])
    && (forall k, t | 0 <= k < |sentFor| && t in pending :: sentFor[k] != pending[t])
    && (forall i | 0 <= i < started :: i in sentFor || InFlight(pending, i))
  }

  /** Not started, in flight and delivered partition the dashboard. */
  ghost predicate Partitioned(panels: seq<Panel>, c: Cycle) {
    c.started <= |panels| && Split(c.started, c.pending, c.sentFor)
  }

  /** The engine's bookkeeping matches the live tasks, and the window is kept full. */
  ghost predicate Tracked(panels: seq<Panel>, c: Cycle) {
    && c.jobIds.Keys == c.pending.Keys
    && (forall t | t in c.pending :: t < c.nextTask)
    && (forall t | t in c.pending :: c.pending[t] < |panels| &&
          c.jobIds[t] == (panels[c.pending[t]].id, TargetIds(panels[c.pending[t]])))
    && |c.pending| <= MAX_CONCURRENT_PANELS
  }

  /** Every update carries its panel's id and identities and the cycle's window. */
  ghost predicate Faithful(panels: seq<Panel>, window: TimeRange, c: Cycle) {
    && |c.sent| == |c.sentFor|
    && forall k | 0 <= k < |c.sent| ::
         && c.sentFor[k] < |panels|
         && c.sent[k].panelId == panels[c.sentFor[k]].id
         && Identities(c.sent[k].targets) == TargetIds(panels[c.sentFor[k]])
         && c.sent[k].window == window
  }

  ghost predicate Full(panels: seq<Panel>, c: Cycle) {
    c.started == |panels| || |c.pending| == MAX_CONCURRENT_PANELS
  }

  ghost predicate Inv(panels: seq<Panel>, window: TimeRange, c: Cycle) {
    Partitioned(panels, c) && Tracked(panels, c) && Faithful(panels, window, c)
  }

  lemma SplitGrows(started: nat, pending: map<TaskId, nat>, sentFor: seq<nat>, task: TaskId)
    requires Split(started, pending, sentFor) && task !in pending
    ensures Split(started + 1, pending[task := started], sentFor)
  {
    var pending' := pending[task := started];
    assert pending'[task] == started;
    forall i | 0 <= i < started + 1 ensures i in sentFor || InFlight(pending', i) {
      if i < started && InFlight(pending, i) {
        var t :| t in pending && pending[t] == i;
        assert pending'[t] == i;
      }
    }
  }

  lemma SplitMoves(started: nat, pending: map<TaskId, nat>, sentFor: seq<nat>, task: TaskId)
    requires Split(started, pending, sentFor) && task in pending
    ensures Split(started, pending - {task}, sentFor + [pending[task]])
  {
    var pending', sentFor' := pending - {task}, sentFor + [pending[task]];
    forall i | 0 <= i < started ensures i in sentFor' || InFlight(pending', i) {
      if i in sentFor {
        var k :| 0 <= k < |sentFor| && sentFor[k] == i;
        assert sentFor'[k] == i;
      } else {
        var t :| t in pending && pending[t] == i;
        if t == task {
          assert sentFor'[|sentFor|] == i;
        } else {
          assert t in pending' && pending'[t] == i;
        }
      }
    }
  }

  lemma SpawnKeepsPartition(panels: seq<Panel>, c: Cycle)
    requires Partitioned(panels, c) && c.nextTask !in c.pending
    ensures Partitioned(panels, SpawnNext(panels, c))
  {
    if c.started < |panels| {
      SplitGrows(c.started, c.pending, c.sentFor, c.nextTask);
    }
  }

  lemma OneMore<V>(m: map<TaskId, V>, task: TaskId, v: V)
    requires task !in m
    ensures |m[task := v]| == |m| + 1
  {
    assert m[task := v].Keys == m.Keys + {task};
  }

  lemma OneLess<V>(m: map<TaskId, V>, task: TaskId)
    requires task in m
    ensures |m - {task}| == |m| - 1
  {
    assert (m - {task}).Keys == m.Keys - {task};
  }

  lemma SpawnKeepsTracked(panels: seq<Panel>, c: Cycle)
    requires Tracked(panels, c) && |c.pending| < MAX_CONCURRENT_PANELS
    ensures var c' := SpawnNext(panels, c);
            Tracked(panels, c') && |c'.pending| == |c.pending| + if c.started < |panels| then 1 else 0
  {
    if c.started < |panels| {
      OneMore(c.pending, c.nextTask, c.started);
    }
  }

  lemma JoinKeepsPartition(panels: seq<Panel>, window: TimeRange, c: Cycle, e: Event)
    requires Partitioned(panels, c) && e.task in c.pending && e.task in c.jobIds
    ensures Partitioned(panels, Join(panels, window, c, e))
  {
    SplitMoves(c.started, c.pending, c.sentFor, e.task);
  }

  lemma JoinKeepsTracked(panels: seq<Panel>, window: TimeRange, c: Cycle, e: Event)
    requires Tracked(panels, c) && e.task in c.pending
    ensures var c' := Join(panels, window, c, e); Tracked(panels, c') && |c'.pending| == |c.pending| - 1
  {
    OneLess(c.pending, e.task);
  }

  /** A job reports the same identities whether it finished or panicked. */
  lemma SameIdentitiesEitherWay(panel: Panel, sourceFound: bool, answers: nat -> Answer, message: string)
    ensures Identities(JobResults(panel, sourceFound, answers)) ==
            Identities(PanicResults(TargetIds(panel), message)) == TargetIds(panel)
  {
  }

  lemma JoinKeepsFaithful(panels: seq<Panel>, window: TimeRange, c: Cycle, e: Event)
    requires Tracked(panels, c) && Faithful(panels, window, c) && e.task in c.pending
    ensures Faithful(panels, window, Join(panels, window, c, e))
  {
    var panel := panels[c.pending[e.task]];
    match e
    case Finished(_, sourceFound, answers) => SameIdentitiesEitherWay(panel, sourceFound, answers, "");
    case Panicked(_, message) => SameIdentitiesEitherWay(panel, true, i => Frames(0), message);
  }

  lemma JoinKeepsInv(panels: seq<Panel>, window: TimeRange, c: Cycle, e: Event)
    requires Inv(panels, window, c) && Full(panels, c) && e.task in c.pending
    ensures var c' := Join(panels, window, c, e);
            Inv(panels, window, c') && FullTo(panels, c', MAX_CONCURRENT_PANELS - 1)
  {
    JoinKeepsPartition(panels, window, c, e);
    JoinKeepsTracked(panels, window, c, e);
    JoinKeepsFaithful(panels, window, c, e);
  }

  lemma NextKeepsInv(panels: seq<Panel>, window: TimeRange, c: Cycle, e: Event)
    requires Inv(panels, window, c) && Full(panels, c)
    ensures Inv(panels, window, Next(panels, window, c, e)) && Full(panels, Next(panels, window, c, e))
  {
    if e.task in c.pending {
      var joined := Join(panels, window, c, e);
      JoinKeepsInv(panels, window, c, e);
      RefillKeepsInv(panels, window, joined, MAX_CONCURRENT_PANELS - 1);
      assert Next(panels, window, c, e) == SpawnNext(panels, joined);
    }
  }

  /** `n` tasks are in flight, or every panel has been started. */
  ghost predicate FullTo(panels: seq<Panel>, c: Cycle, n: nat) {
    |c.pending| <= n && (c.started == |panels| || |c.pending| == n)
  }

  lemma RefillKeepsInv(panels: seq<Panel>, window: TimeRange, c: Cycle, n: nat)
    requires Inv(panels, window, c) && FullTo(panels, c, n) && n < MAX_CONCURRENT_PANELS
    ensures Inv(panels, window, SpawnNext(panels, c)) && FullTo(panels, SpawnNext(panels, c), n + 1)
  {
    SpawnKeepsPartition(panels, c);
    SpawnKeepsTracked(panels, c);
  }

  lemma IdleInv(panels: seq<Panel>, window: TimeRange)
    ensures Inv(panels, window, IDLE) && FullTo(panels, IDLE, 0)
  {
    assert IDLE.pending == map[] && IDLE.sentFor == [];
    assert Split(0, IDLE.pending, IDLE.sentFor);
  }

  lemma {:induction false} SpawnManyKeepsInv(panels: seq<Panel>, window: TimeRange, c: Cycle, n: nat)
    requires Inv(panels, window, c) && FullTo(panels, c, 0) && n <= MAX_CONCURRENT_PANELS
    ensures Inv(panels, window, SpawnMany(panels, c, n)) && FullTo(panels, SpawnMany(panels, c, n), n)
  {
    if n > 0 {
      SpawnManyKeepsInv(panels, window, c, n - 1);
      RefillKeepsInv(panels, window, SpawnMany(panels, c, n - 1), n - 1);
    }
  }

  lemma BeginKeepsInv(panels: seq<Panel>, window: TimeRange)
    ensures Inv(panels, window, Begin(panels)) && Full(panels, Begin(panels))
  {
    IdleInv(panels, window);
    SpawnManyKeepsInv(panels, window, IDLE, MAX_CONCURRENT_PANELS);
  }

  lemma {:induction false} RunKeepsInv(panels: seq<Panel>, window: TimeRange, c: Cycle, events: seq<Event>)
    requires Inv(panels, window, c) && Full(panels, c)
    ensures Inv(panels, window, Run(panels, window, c, events)) && Full(panels, Run(panels, window, c, events))
    decreases |events|
  {
    if events != [] {
      NextKeepsInv(panels, window, c, events[0]);
      RunKeepsInv(panels, window, Next(panels, window, c, events[0]), events[1..]);
    }
  }

  /** A joined task sends one update, for its own panel: the datasource's answers when it
      finished, a failure for every target when it panicked. */
  lemma JoinSendsResults(panels: seq<Panel>, window: TimeRange, c: Cycle, e: Event)
    requires Inv(panels, window, c) && e.task in c.pending
    ensures var c', panel := Join(panels, window, c, e), panels[c.pending[e.task]];
            && |c'.sent| == |c.sent| + 1 && c'.sent[..|c.sent|] == c.sent
            && c'.sent[|c.sent|].panelId == panel.id && c'.sent[|c.sent|].window == window
            && (e.Finished? ==> c'.sent[|c.sent|].targets == JobResults(panel, e.sourceFound, e.answers))
            && (e.Panicked? ==>
                  && Identities(c'.sent[|c.sent|].targets) == TargetIds(panel)
                  && forall u | u in c'.sent[|c.sent|].targets ::
                       u.result == Failed("panel query panicked: " + e.message))
  {
    var panel := panels[c.pending[e.task]];
    if e.Panicked? {
      SameIdentitiesEitherWay(panel, true, i => Frames(0), e.message);
    }
  }

  /** In every reachable state of a cycle: not started, in flight and delivered panels
      partition the dashboard, at most four are in flight and never fewer while some
      have not started, and the kept identities are those of exactly the live tasks. */
  lemma CycleInvariant(panels: seq<Panel>, window: TimeRange, events: seq<Event>)
    ensures var c := Run(panels, window, Begin(panels), events);
            && Inv(panels, window, c)
            && |c.pending| <= 4 && (c.started == |panels| || |c.pending| == 4)
  {
    BeginKeepsInv(panels, window);
    RunKeepsInv(panels, window, Begin(panels), events);
  }

  /** A cycle with nothing left in flight has delivered exactly one update per panel,
      all with the cycle's window and each with its panel's identities. */
  lemma CompleteDeliversEachPanelOnce(panels: seq<Panel>, window: TimeRange, events: seq<Event>)
    requires Run(panels, window, Begin(panels), events).pending == map[]
    ensures var c := Run(panels, window, Begin(panels), events);
            && Faithful(panels, window, c)
            && (forall k, l | 0 <= k < l < |c.sentFor| :: c.sentFor[k] != c.sentFor[l])
            && (forall k | 0 <= k < |c.sentFor| :: c.sentFor[k] < |panels|)
            && (forall i | 0 <= i < |panels| :: i in c.sentFor)
  {
    CycleInvariant(panels, window, events);
    var c := Run(panels, window, Begin(panels), events);
    assert forall i | 0 <= i < c.started :: !InFlight(c.pending, i);
  }

  /** The select loop itself: join whatever completes next, send its update, spawn the
      next panel, until nothing is in flight or the schedule stops. */
  method QueryAll(panels: seq<Panel>, window: TimeRange, schedule: seq<Event>) returns (c: Cycle, complete: bool)
    ensures c == Run(panels, window, Begin(panels), schedule)
    ensures complete <==> c.pending == map[]
    ensures Inv(panels, window, c) && Full(panels, c)
  {
    c := IDLE;
    for n := 0 to MAX_CONCURRENT_PANELS
      invariant c == SpawnMany(panels, IDLE, n)
    {
      c := SpawnNext(panels, c);
    }
    BeginKeepsInv(panels, window);
    ghost var rest := schedule;
    for i := 0 to |schedule|
      invariant rest == schedule[i..]
      invariant Run(panels, window, c, rest) == Run(panels, window, Begin(panels), schedule)
      invariant Inv(panels, window, c) && Full(panels, c)
    {
      var e := schedule[i];
      NextKeepsInv(panels, window, c, e);
      if e.task in c.pending {
        c := Join(panels, window, c, e);
        c := SpawnNext(panels, c);
      }
      rest := rest[1..];
    }
    complete := c.pending == map[];
  }
}
