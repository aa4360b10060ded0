/** The render cache of reduced series and the panel generations it is keyed by. */
module SeriesCache {
  import opened Wrappers
  import opened Reduction
  import opened Series

  const U64: nat := 0x1_0000_0000_0000_0000

  type PanelId = nat

  /** One target's result: the frames it returned, none when it failed. */
  datatype TargetUpdate = TargetUpdate(refId: string, frames: seq<Frame>)

  datatype PanelUpdate = PanelUpdate(panel: PanelId, targets: seq<TargetUpdate>, window: (Num, Num))

  // -------------------------------------------------------------- the view-model

  datatype App = App(
    counter: nat,
    generations: map<PanelId, nat>,
    panels: map<PanelId, seq<TargetUpdate>>,
    windows: map<PanelId, (Num, Num)>)

  function Updated(a: App, u: PanelUpdate): (a': App) {
    var next := (a.counter + 1) % U64;
    App(next, a.generations[u.panel := next], a.panels[u.panel := u.targets], a.windows[u.panel := u.window])
  }

  class ObserveApp {
    var counter: nat
    var generations: map<PanelId, nat>
    var panels: map<PanelId, seq<TargetUpdate>>
    var windows: map<PanelId, (Num, Num)>
    var results: seq<PanelUpdate>   // the channel from the engine

    function Value(): (a: App)
      reads this
    {
      App(counter, generations, panels, windows)
    }

    constructor ()
      ensures Value() == App(0, map[], map[], map[]) && results == []
    {
      counter, generations, panels, windows, results := 0, map[], map[], map[], [];
    }

    method ApplyUpdate(u: PanelUpdate)
      modifies this
      ensures Value() == Updated(old(Value()), u) && results == old(results)
    {
      counter := (counter + 1) % U64;
      generations := generations[u.panel := counter];
      panels := panels[u.panel := u.targets];
      windows := windows[u.panel := u.window];
    }

    /** Drain every waiting result, oldest first. */
    method Tick() returns (changed: bool)
      modifies this
      ensures Value() == UpdatedAll(old(Value()), old(results)) && results == []
      ensures changed <==> old(results) != []
    {
      changed := false;
      while results != []
        invariant UpdatedAll(Value(), results) == UpdatedAll(old(Value()), old(results))
        invariant changed || results == old(results)
        invariant changed ==> old(results) != []
        decreases |results|
      {
        var u := results[0];
        results := results[1..];
        ApplyUpdate(u);
        changed := true;
      }
    }
  }

  function UpdatedAll(a: App, us: seq<PanelUpdate>): (a': App)
    decreases |us|
  {
    if us == [] then a else UpdatedAll(Updated(a, us[0]), us[1..])
  }

  // ------------------------------------------------------------------- the cache

  datatype SeriesId = SeriesId(panel: PanelId, refId: string, shown: seq<string>, target: nat, frame: nat)

  datatype ReductionKey = ReductionKey(generation: nat, window: Option<(Num, Num)>, width: nat)

  /** `reductions` counts the series that had to be reduced. */
  datatype Cache = Cache(
    entries: map<SeriesId, (ReductionKey, ReducedSeries)>,
    touched: set<SeriesId>,
    reductions: nat)

  function Fresh(frame: Frame, key: ReductionKey): (s: ReducedSeries) {
    Reduce(frame, BoundsFor(frame), key.window, key.width)
  }

  function Looked(c: Cache, id: SeriesId, key: ReductionKey, frame: Frame): (r: (Cache, ReducedSeries)) {
    var hit := id in c.entries && c.entries[id].0 == key;
    var entries := if hit then c.entries else c.entries[id := (key, Fresh(frame, key))];
    (Cache(entries, c.touched + {id}, c.reductions + if hit then 0 else 1), entries[id].1)
  }

  function Finished(c: Cache): (c': Cache) {
    c.(entries := map id | id in c.entries && id in c.touched :: c.entries[id])
  }

  class RenderCache {
    var entries: map<SeriesId, (ReductionKey, ReducedSeries)>
    var touched: set<SeriesId>
    var reductions: nat

    function Value(): (c: Cache)
      reads this
    {
      Cache(entries, touched, reductions)
    }

    constructor ()
      ensures Value() == Cache(map[], {}, 0)
    {
      entries, touched, reductions := map[], {}, 0;
    }

    method Clear()
      modifies this
      ensures Value() == Cache(map[], {}, old(reductions))
    {
      entries, touched := map[], {};
    }

    method BeginPass()
      modifies this
      ensures Value() == old(Value()).(touched := {})
    {
      touched := {};
    }

    method FinishPass()
      modifies this
      ensures Value() == Finished(old(Value()))
    {
      entries := map id | id in entries && id in touched :: entries[id];
    }

    method Lookup(id: SeriesId, key: ReductionKey, frame: Frame) returns (s: ReducedSeries)
      modifies this
      ensures (Value(), s) == Looked(old(Value()), id, key, frame)
    {
      touched := touched + {id};
      if id !in entries || entries[id].0 != key {
        entries := entries[id := (key, Fresh(frame, key))];
        reductions := reductions + 1;
      }
      s := entries[id].1;
    }
  }

  // ------------------------------------------------ updates and render passes

  datatype System = System(app: App, cache: Cache, updates: nat, drawn: set<SeriesId>)

  datatype Step =
    | Update(update: PanelUpdate)
    | BeginPass
    | Draw(panel: PanelId, target: nat, frame: nat, width: nat)   // one timeseries entry
    | FinishPass
    | Clear

  predicate Drawable(a: App, panel: PanelId, target: nat, frame: nat) {
    && panel in a.panels && panel in a.generations && panel in a.windows
    && target < |a.panels[panel]| && frame < |a.panels[panel][target].frames|
  }

  function RefIds(targets: seq<TargetUpdate>): (ids: seq<string>) {
    seq(|targets|, i requires 0 <= i < |targets| => targets[i].refId)
  }

  function IdOf(a: App, panel: PanelId, target: nat, frame: nat): (id: SeriesId)
    requires Drawable(a, panel, target, frame)
  {
    SeriesId(panel, a.panels[panel][target].refId, RefIds(a.panels[panel]), target, frame)
  }

  function KeyOf(a: App, panel: PanelId, width: nat): (key: ReductionKey)
    requires panel in a.generations && panel in a.windows
  {
    ReductionKey(a.generations[panel], Some(a.windows[panel]), width)
  }

  function Next(s: System, step: Step): (s': System) {
    match step
    case Update(u) => s.(app := Updated(s.app, u), updates := s.updates + 1)
    case BeginPass => s.(cache := s.cache.(touched := {}), drawn := {})
    case Draw(panel, target, frame, width) =>
      if !Drawable(s.app, panel, target, frame) then s
      else
        var id := IdOf(s.app, panel, target, frame);
        var (cache, _) := Looked(s.cache, id, KeyOf(s.app, panel, width), s.app.panels[panel][target].frames[frame]);
        s.(cache := cache, drawn := s.drawn + {id})
    case FinishPass => s.(cache := Finished(s.cache))
    case Clear => s.(cache := Cache(map[], {}, s.cache.reductions), drawn := {})
  }

  function Run(s: System, steps: seq<Step>): (s': System)
    decreases |steps|
  {
    if steps == [] then s else Run(Next(s, steps[0]), steps[1..])
  }

  const START: System := System(App(0, map[], map[], map[]), Cache(map[], {}, 0), 0, {})

  /** Generations count updates; each panel's was given out by some update. */
  ghost predicate Counted(s: System) {
    && s.app.counter == s.updates
    && (forall p | p in s.app.generations :: s.app.generations[p] <= s.updates)
  }

  /** An entry made for a panel's current generation is the reduction of what that
      panel shows now. */
  ghost predicate EntryCurrent(a: App, id: SeriesId, e: (ReductionKey, ReducedSeries)) {
    id.panel in a.generations && a.generations[id.panel] == e.0.generation ==>
      && Drawable(a, id.panel, id.target, id.frame)
      && e.1 == Fresh(a.panels[id.panel][id.target].frames[id.frame], e.0)
  }

  ghost predicate EntriesCurrent(s: System) {
    forall id | id in s.cache.entries ::
      s.cache.entries[id].0.generation <= s.updates && EntryCurrent(s.app, id, s.cache.entries[id])
  }

  /** A pass touches exactly what it draws, and holds an entry for it. */
  ghost predicate TouchedDrawn(s: System) {
    s.cache.touched == s.drawn && s.drawn <= s.cache.entries.Keys
  }

  ghost predicate Inv(s: System) {
    Counted(s) && EntriesCurrent(s) && TouchedDrawn(s)
  }

  lemma UpdateKeepsInv(s: System, u: PanelUpdate)
    requires Inv(s) && s.updates + 1 < U64
    ensures Inv(Next(s, Update(u)))
  {
    forall id | id in s.cache.entries ensures EntryCurrent(Updated(s.app, u), id, s.cache.entries[id]) {
      EntrySurvivesUpdate(s.app, u, id, s.cache.entries[id]);
    }
  }

  /** An update retires the entries of its panel and leaves the others alone. */
  lemma EntrySurvivesUpdate(a: App, u: PanelUpdate, id: SeriesId, e: (ReductionKey, ReducedSeries))
    requires EntryCurrent(a, id, e) && e.0.generation <= a.counter && a.counter + 1 < U64
    ensures EntryCurrent(Updated(a, u), id, e)
    ensures id.panel == u.panel ==> Updated(a, u).generations[id.panel] != e.0.generation
  {
    var a' := Updated(a, u);
    assert a'.generations[u.panel] == a.counter + 1;
    if id.panel != u.panel {
      assert Drawable(a, id.panel, id.target, id.frame) <==> Drawable(a', id.panel, id.target, id.frame);
    }
  }

  lemma DrawKeepsInv(s: System, panel: PanelId, target: nat, frame: nat, width: nat)
    requires Inv(s)
    ensures Inv(Next(s, Draw(panel, target, frame, width)))
  {
  }

  /** A lookup returns what a fresh reduction of the shown frame would. */
  lemma LookupIsFresh(s: System, panel: PanelId, target: nat, frame: nat, width: nat)
    requires Inv(s) && Drawable(s.app, panel, target, frame)
    ensures var shown, key := s.app.panels[panel][target].frames[frame], KeyOf(s.app, panel, width);
            Looked(s.cache, IdOf(s.app, panel, target, frame), key, shown).1 == Fresh(shown, key)
  {
    var id := IdOf(s.app, panel, target, frame);
    if id in s.cache.entries {
      assert EntryCurrent(s.app, id, s.cache.entries[id]);
    }
  }

  function Updates(steps: seq<Step>): (n: nat) {
    if steps == [] then 0 else (if steps[0].Update? then 1 else 0) + Updates(steps[1..])
  }

  lemma {:induction false} RunKeepsInv(s: System, steps: seq<Step>)
    requires Inv(s) && s.updates + Updates(steps) < U64
    ensures Inv(Run(s, steps))
    decreases |steps|
  {
    if steps != [] {
      match steps[0] {
        case Update(u) => UpdateKeepsInv(s, u);
        case Draw(panel, target, frame, width) => DrawKeepsInv(s, panel, target, frame, width);
        case _ =>
      }
      RunKeepsInv(Next(s, steps[0]), steps[1..]);
    }
  }

  /** For every interleaving of panel updates and render passes with fewer than 2^64
      updates, drawing through the cache shows exactly what drawing without it would. */
  lemma CacheIsTransparent(steps: seq<Step>, panel: PanelId, target: nat, frame: nat, width: nat)
    requires Updates(steps) < U64 && Drawable(Run(START, steps).app, panel, target, frame)
    ensures var s := Run(START, steps);
            var shown, key := s.app.panels[panel][target].frames[frame], KeyOf(s.app, panel, width);
            Looked(s.cache, IdOf(s.app, panel, target, frame), key, shown).1 ==
            Reduce(shown, BoundsFor(shown), Some(s.app.windows[panel]), width)
  {
    RunKeepsInv(START, steps);
    LookupIsFresh(Run(START, steps), panel, target, frame, width);
  }

  /** After a pass the cache holds exactly the series drawn in that pass. */
  lemma PassKeepsOnlyDrawn(steps: seq<Step>)
    requires Updates(steps) < U64
    ensures var s := Run(START, steps); Next(s, FinishPass).cache.entries.Keys == s.drawn
  {
    RunKeepsInv(START, steps);
  }

  /** The cache saves work: a draw reduces exactly when the series has no entry for its
      panel's current generation, window and width. */
  lemma DrawReducesOnMiss(s: System, panel: PanelId, target: nat, frame: nat, width: nat)
    requires Drawable(s.app, panel, target, frame)
    ensures var id, key := IdOf(s.app, panel, target, frame), KeyOf(s.app, panel, width);
            var s' := Next(s, Draw(panel, target, frame, width));
            && s'.cache.reductions ==
               s.cache.reductions + (if id in s.cache.entries && s.cache.entries[id].0 == key then 0 else 1)
            && id in s'.cache.entries && s'.cache.entries[id].0 == key && id in s'.cache.touched
  {
  }

  /** The series drawn is on record for what its panel shows. */
  ghost predicate OnRecord(s: System, panel: PanelId, target: nat, frame: nat, width: nat) {
    && Drawable(s.app, panel, target, frame)
    && var id := IdOf(s.app, panel, target, frame);
       id in s.cache.entries && id in s.cache.touched && s.cache.entries[id].0 == KeyOf(s.app, panel, width)
  }

  lemma NextPassKeepsRecord(s: System, panel: PanelId, target: nat, frame: nat, width: nat)
    requires OnRecord(s, panel, target, frame, width)
    ensures var next := Next(Next(s, FinishPass), BeginPass);
            next.cache.reductions == s.cache.reductions && next.app == s.app &&
            Next(next, Draw(panel, target, frame, width)).cache.reductions == s.cache.reductions
  {
    var next := Next(Next(s, FinishPass), BeginPass);
    DrawReducesOnMiss(next, panel, target, frame, width);
  }

  /** What is drawn again in the next pass is not reduced again. */
  lemma RedrawIsFree(s: System, panel: PanelId, target: nat, frame: nat, width: nat)
    requires Drawable(s.app, panel, target, frame)
    ensures var draw := Draw(panel, target, frame, width);
            var first := Next(s, draw);
            Next(Next(Next(first, FinishPass), BeginPass), draw).cache.reductions == first.cache.reductions
  {
    DrawReducesOnMiss(s, panel, target, frame, width);
    NextPassKeepsRecord(Next(s, Draw(panel, target, frame, width)), panel, target, frame, width);
  }

  /** After every run, what an update has replaced is reduced again. */
  lemma UpdatedIsRedrawn(steps: seq<Step>, panel: PanelId, target: nat, frame: nat, width: nat, u: PanelUpdate)
    requires Updates(steps) + 1 < U64
    requires u.panel == panel && target < |u.targets| && frame < |u.targets[target].frames|
    ensures var s := Run(START, steps);
            Next(Next(s, Update(u)), Draw(panel, target, frame, width)).cache.reductions == s.cache.reductions + 1
  {
    RunKeepsInv(START, steps);
    RunCountsUpdates(START, steps);
    UpdateForcesReduction(Run(START, steps), panel, target, frame, width, u);
  }

  lemma {:induction false} RunCountsUpdates(s: System, steps: seq<Step>)
    ensures Run(s, steps).updates == s.updates + Updates(steps)
    decreases |steps|
  {
    if steps != [] {
      RunCountsUpdates(Next(s, steps[0]), steps[1..]);
    }
  }

  lemma UpdateForcesReduction(s: System, panel: PanelId, target: nat, frame: nat, width: nat, u: PanelUpdate)
    requires Counted(s) && s.updates + 1 < U64
    requires forall id | id in s.cache.entries :: s.cache.entries[id].0.generation <= s.updates
    requires u.panel == panel && target < |u.targets| && frame < |u.targets[target].frames|
    ensures Next(Next(s, Update(u)), Draw(panel, target, frame, width)).cache.reductions == s.cache.reductions + 1
  {
    var s' := Next(s, Update(u));
    assert s'.app.generations[panel] == s.updates + 1;
    DrawReducesOnMiss(s', panel, target, frame, width);
  }

  // ------------------------------------------------------------ what is shown

  /** Update `k` is the last one for the panel. */
  predicate Latest(us: seq<PanelUpdate>, panel: PanelId, k: nat) {
    k < |us| && us[k].panel == panel && forall j | k < j < |us| :: us[j].panel != panel
  }

  /** After any updates a panel shows the targets and the window of its latest one, and
      its generation is that update's number; without one it shows nothing. */
  lemma {:induction false} ShowsLatest(us: seq<PanelUpdate>, panel: PanelId, n: nat)
    requires n <= |us| < U64
    ensures var a := UpdatedAll(App(0, map[], map[], map[]), us[..n]);
            && a.counter == n
            && (forall k: nat | Latest(us[..n], panel, k) ::
                  && panel in a.panels && a.panels[panel] == us[k].targets
                  && panel in a.windows && a.windows[panel] == us[k].window
                  && panel in a.generations && a.generations[panel] == k + 1)
            && ((forall k: nat :: !Latest(us[..n], panel, k)) ==>
                  panel !in a.panels && panel !in a.windows && panel !in a.generations)
  {
    if n == 0 {
      assert us[..n] == [];
    } else {
      ShowsLatest(us, panel, n - 1);
      assert us[..n] == us[..n - 1] + [us[n - 1]];
      UpdatedSnoc(App(0, map[], map[], map[]), us[..n - 1], us[n - 1]);
      LatestGrows(us[..n - 1], us[n - 1], panel);
    }
  }

  lemma {:induction false} UpdatedSnoc(a: App, us: seq<PanelUpdate>, u: PanelUpdate)
    ensures UpdatedAll(a, us + [u]) == Updated(UpdatedAll(a, us), u)
    decreases |us|
  {
    if us == [] {
      assert us + [u] == [u];
      assert UpdatedAll(Updated(a, u), []) == Updated(a, u);
    } else {
      assert (us + [u])[1..] == us[1..] + [u];
      UpdatedSnoc(Updated(a, us[0]), us[1..], u);
    }
  }

  lemma LatestGrows(us: seq<PanelUpdate>, u: PanelUpdate, panel: PanelId)
    ensures forall k: nat :: Latest(us + [u], panel, k) <==>
              if u.panel == panel then k == |us| else Latest(us, panel, k)
  {
    var all := us + [u];
    assert forall j | 0 <= j < |us| :: all[j] == us[j];
    assert all[|us|] == u;
  }
}
