/** The automation rule planner: debounce, once-per-key and the two sliding-window
    limits, evaluated against per-rule ledgers. Predicate matching and template
    rendering are parameters. */
module Automation {
  import opened Wrappers
  import opened Ordering

  // ---------------------------------------------------------- 64-bit seconds

  const I64_MIN: int := -0x8000_0000_0000_0000
  const I64_MAX: int := 0x7FFF_FFFF_FFFF_FFFF
  type i64 = x: int | I64_MIN <= x <= I64_MAX witness 0

  const HOUR: i64 := 3_600
  const MAX_ONCE_KEYS: nat := 2_048

  function SaturatingSub(a: i64, b: i64): (d: i64) {
    if a - b < I64_MIN then I64_MIN else if a - b > I64_MAX then I64_MAX else a - b
  }

  // ------------------------------------------------------------------- model

  datatype Event = Event(key: string, kind: string, targetRule: Option<string>, fromAutomation: bool)

  datatype Rule = Rule(
    id: string,
    enabled: bool,
    event: string,
    cap: string,
    debounceSecs: nat,
    oncePerKey: bool,
    maxPerHour: nat,
    maxActionPerHour: nat)

  /** What the planner takes from code outside it: the rule's predicate, and the
      rendered parameters (absent when a template is invalid). */
  datatype Env = Env(matches: (Rule, Event) -> bool, render: (Rule, Event) -> Option<map<string, string>>)

  datatype RuleState = RuleState(
    enabledOverride: Option<bool>,
    lastFiredAt: Option<i64>,
    recentFires: seq<i64>,
    actionFires: map<string, seq<i64>>,
    onceKeys: set<string>)

  const FRESH: RuleState := RuleState(None, None, [], map[], {})

  type Ledgers = map<string, RuleState>

  datatype SkipReason =
    | Disabled | Debounced | OncePerKey | RuleRateLimited | ActionRateLimited
    | UnsupportedAction | LoopSuppressed | InvalidTemplate

  datatype Decision =
    | Planned(ruleId: string, key: string, cap: string, params: map<string, string>, next: RuleState)
    | Skipped(ruleId: string, key: string, reason: SkipReason)

  const SUPPORTED_ACTION_CAPS: seq<string> := ["sessions.open", "merge.add", "notify.push", "tools.run"]

  // ----------------------------------------------------- counting in a window

  /** The times in the half-open window `(lo, hi]`, in order. */
  function InWindow(s: seq<i64>, lo: int, hi: int): (w: seq<i64>) {
    if s == [] then []
    else
      var init, x := InWindow(s[..|s| - 1], lo, hi), s[|s| - 1];
      if lo < x <= hi then init + [x] else init
  }

  function Count(s: seq<i64>, lo: int, hi: int): (n: nat) {
    |InWindow(s, lo, hi)|
  }

  lemma CountSnoc(s: seq<i64>, x: i64, lo: int, hi: int)
    ensures Count(s + [x], lo, hi) == Count(s, lo, hi) + if lo < x <= hi then 1 else 0
  {
    assert (s + [x])[..|s|] == s;
  }

  lemma {:induction false} CountPruned(s: seq<i64>, lo: int, hi: int, lo': int, hi': int)
    requires forall i | 0 <= i < |s| && lo' < s[i] <= hi' :: lo < s[i] <= hi
    ensures Count(InWindow(s, lo, hi), lo', hi') == Count(s, lo', hi')
  {
    if s != [] {
      var init, x := s[..|s| - 1], s[|s| - 1];
      CountPruned(init, lo, hi, lo', hi');
      if lo < x <= hi {
        CountSnoc(InWindow(init, lo, hi), x, lo', hi');
      }
    }
  }

  lemma {:induction false} CountShrinks(s: seq<i64>, lo: int, hi: int, lo': int, hi': int)
    requires forall i | 0 <= i < |s| && lo < s[i] <= hi :: lo' < s[i] <= hi'
    ensures Count(s, lo, hi) <= Count(s, lo', hi')
  {
    if s != [] {
      CountShrinks(s[..|s| - 1], lo, hi, lo', hi');
    }
  }

  lemma {:induction false} InWindowBounds(s: seq<i64>, lo: int, hi: int)
    ensures forall i | 0 <= i < Count(s, lo, hi) :: lo < InWindow(s, lo, hi)[i] <= hi
  {
    if s != [] {
      InWindowBounds(s[..|s| - 1], lo, hi);
    }
  }

  function HourCount(times: seq<i64>, from: int): (n: nat) {
    Count(times, from, from + HOUR)
  }

  /** No window of one hour holds more than `limit` of the times. */
  ghost predicate Limited(times: seq<i64>, limit: nat) {
    forall from: int :: HourCount(times, from) <= limit
  }

  ghost predicate NoneAfter(times: seq<i64>, now: int) {
    forall i | 0 <= i < |times| :: times[i] <= now
  }

  /** Nothing lies within the hour that begins after `now`. */
  ghost predicate NoneSoonAfter(times: seq<i64>, now: int) {
    forall i | 0 <= i < |times| :: !(now < times[i] < now + HOUR)
  }

  /** The sliding-window argument behind both limits: admitting at a time that no
      other follows within the hour, with the window that ends there not full, leaves
      no window overfull. */
  lemma AdmissionKeepsLimit(times: seq<i64>, now: i64, limit: nat)
    requires Limited(times, limit) && NoneSoonAfter(times, now)
    requires Count(times, now - HOUR, now) < limit
    ensures Limited(times + [now], limit)
  {
    forall from: int ensures HourCount(times + [now], from) <= limit {
      CountSnoc(times, now, from, from + HOUR);
      assert HourCount(times, from) <= limit;
      if from < now <= from + HOUR {
        CountShrinks(times, from, from + HOUR, now - HOUR, now);
      }
    }
  }

  // -------------------------------------------------------- the rule ledgers

  function Current(state: Ledgers, id: string): (rs: RuleState) {
    if id in state then state[id] else FRESH
  }

  function Fires(rs: RuleState, cap: string): (ts: seq<i64>) {
    if cap in rs.actionFires then rs.actionFires[cap] else []
  }

  /** Fires of one capability in `(lo, hi]`, summed over all ledgers. */
  ghost function Total(state: Ledgers, cap: string, lo: int, hi: int): (n: nat)
    decreases |state|
  {
    if state == map[] then 0
    else
      var id :| id in state;
      Count(Fires(state[id], cap), lo, hi) + Total(state - {id}, cap, lo, hi)
  }

  /** The sum does not depend on the order in which ledgers are visited. */
  lemma {:induction false} TotalSplits(state: Ledgers, id: string, cap: string, lo: int, hi: int)
    requires id in state
    ensures Total(state, cap, lo, hi) ==
            Count(Fires(state[id], cap), lo, hi) + Total(state - {id}, cap, lo, hi)
    decreases |state|
  {
    var k :| k in state && Total(state, cap, lo, hi) ==
                           Count(Fires(state[k], cap), lo, hi) + Total(state - {k}, cap, lo, hi);
    if k != id {
      TotalSplits(state - {k}, id, cap, lo, hi);
      TotalSplits(state - {id}, k, cap, lo, hi);
      assert state - {k} - {id} == state - {id} - {k};
    }
  }

  lemma TotalUpdates(state: Ledgers, id: string, next: RuleState, cap: string, lo: int, hi: int)
    ensures Total(state[id := next], cap, lo, hi) + Count(Fires(Current(state, id), cap), lo, hi) ==
            Total(state, cap, lo, hi) + Count(Fires(next, cap), lo, hi)
  {
    TotalSplits(state[id := next], id, cap, lo, hi);
    assert state[id := next] - {id} == state - {id};
    if id in state {
      TotalSplits(state, id, cap, lo, hi);
    } else {
      assert state - {id} == state;
    }
  }

  // ---------------------------------------------------------------- planning

  function Evict(keys: set<string>): (kept: set<string>)
    decreases |keys|
  {
    if |keys| <= MAX_ONCE_KEYS then keys else Evict(keys - {Smallest(keys)})
  }

  function Prune(fires: map<string, seq<i64>>, lo: int, hi: int): (kept: map<string, seq<i64>>) {
    map cap | cap in fires && InWindow(fires[cap], lo, hi) != [] :: InWindow(fires[cap], lo, hi)
  }

  function Debounce(rule: Rule): (d: i64) {
    if rule.debounceSecs > I64_MAX then I64_MAX else rule.debounceSecs
  }

  /** The ledger that an admitted fire leaves behind. */
  function AfterFire(current: RuleState, rule: Rule, key: string, now: i64): (next: RuleState) {
    var lo := SaturatingSub(now, HOUR);
    var kept := Prune(current.actionFires, lo, now);
    current.(
      lastFiredAt := Some(now),
      recentFires := InWindow(current.recentFires, lo, now) + [now],
      actionFires := kept[rule.cap := (if rule.cap in kept then kept[rule.cap] else []) + [now]],
      onceKeys := if rule.oncePerKey then Evict(current.onceKeys + {key}) else current.onceKeys)
  }

  ghost function Decide(env: Env, rule: Rule, event: Event, state: Ledgers, now: i64): (d: Decision) {
    var current := Current(state, rule.id);
    var lo := SaturatingSub(now, HOUR);
    if !(if current.enabledOverride.Some? then current.enabledOverride.value else rule.enabled)
    then Skipped(rule.id, event.key, Disabled)
    else if event.fromAutomation then Skipped(rule.id, event.key, LoopSuppressed)
    else if rule.cap !in SUPPORTED_ACTION_CAPS then Skipped(rule.id, event.key, UnsupportedAction)
    else if rule.oncePerKey && event.key in current.onceKeys then Skipped(rule.id, event.key, SkipReason.OncePerKey)
    else if current.lastFiredAt.Some? && SaturatingSub(now, current.lastFiredAt.value) < Debounce(rule)
    then Skipped(rule.id, event.key, Debounced)
    else if Count(current.recentFires, lo, now) >= rule.maxPerHour then Skipped(rule.id, event.key, RuleRateLimited)
    else if Total(state, rule.cap, lo, now) >= rule.maxActionPerHour
    then Skipped(rule.id, event.key, ActionRateLimited)
    else
      var params := env.render(rule, event);
      if params.None? then Skipped(rule.id, event.key, InvalidTemplate)
      else Planned(rule.id, event.key, rule.cap, params.value, AfterFire(current, rule, event.key, now))
  }

  predicate Considered(env: Env, rule: Rule, event: Event) {
    && (event.targetRule.None? || event.targetRule.value == rule.id)
    && rule.event == event.kind
    && env.matches(rule, event)
  }

  /** The ledgers after the accepted transitions of `decisions` are persisted. */
  function Persist(state: Ledgers, decisions: seq<Decision>): (state': Ledgers) {
    if decisions == [] then state
    else
      var before, d := Persist(state, decisions[..|decisions| - 1]), decisions[|decisions| - 1];
      if d.Planned? then before[d.ruleId := d.next] else before
  }

  /** The decisions for one event: rules in config order, each seeing the fires the
      earlier ones admitted. */
  ghost function Plan(env: Env, rules: seq<Rule>, event: Event, state: Ledgers, now: i64): (ds: seq<Decision>) {
    if rules == [] then []
    else
      var init, rule := Plan(env, rules[..|rules| - 1], event, state, now), rules[|rules| - 1];
      if Considered(env, rule, event) then init + [Decide(env, rule, event, Persist(state, init), now)] else init
  }

  method ActionRecent(state: Ledgers, cap: string, lo: int, hi: int) returns (n: nat)
    ensures n == Total(state, cap, lo, hi)
  {
    n := 0;
    var rest := state;
    while rest != map[]
      invariant n + Total(rest, cap, lo, hi) == Total(state, cap, lo, hi)
      decreases |rest|
    {
      var id :| id in rest;
      TotalSplits(rest, id, cap, lo, hi);
      n := n + Count(Fires(rest[id], cap), lo, hi);
      rest := rest - {id};
    }
  }

  method EvaluateOne(env: Env, rule: Rule, event: Event, state: Ledgers, now: i64) returns (d: Decision)
    ensures d == Decide(env, rule, event, state, now)
  {
    var current := Current(state, rule.id);
    var enabled := if current.enabledOverride.Some? then current.enabledOverride.value else rule.enabled;
    if !enabled {
      return Skipped(rule.id, event.key, Disabled);
    }
    if event.fromAutomation {
      return Skipped(rule.id, event.key, LoopSuppressed);
    }
    if rule.cap !in SUPPORTED_ACTION_CAPS {
      return Skipped(rule.id, event.key, UnsupportedAction);
    }
    if rule.oncePerKey && event.key in current.onceKeys {
      return Skipped(rule.id, event.key, SkipReason.OncePerKey);
    }
    if current.lastFiredAt.Some? && SaturatingSub(now, current.lastFiredAt.value) < Debounce(rule) {
      return Skipped(rule.id, event.key, Debounced);
    }
    var lo := SaturatingSub(now, HOUR);
    if Count(current.recentFires, lo, now) >= rule.maxPerHour {
      return Skipped(rule.id, event.key, RuleRateLimited);
    }
    var actionRecent := ActionRecent(state, rule.cap, lo, now);
    if actionRecent >= rule.maxActionPerHour {
      return Skipped(rule.id, event.key, ActionRateLimited);
    }
    var params := env.render(rule, event);
    if params.None? {
      return Skipped(rule.id, event.key, InvalidTemplate);
    }
    return Planned(rule.id, event.key, rule.cap, params.value, AfterFire(current, rule, event.key, now));
  }

  method Evaluate(env: Env, rules: seq<Rule>, event: Event, state: Ledgers, now: i64)
    returns (decisions: seq<Decision>)
    ensures decisions == Plan(env, rules, event, state, now)
  {
    var scratch := state;
    decisions := [];
    for i := 0 to |rules|
      invariant decisions == Plan(env, rules[..i], event, state, now)
      invariant scratch == Persist(state, decisions)
    {
      assert rules[..i + 1][..i] == rules[..i];
      if Considered(env, rules[i], event) {
        var d := EvaluateOne(env, rules[i], event, scratch, now);
        if d.Planned? {
          scratch := scratch[d.ruleId := d.next];
        }
        assert (decisions + [d])[..|decisions|] == decisions;
        decisions := decisions + [d];
      }
    }
    assert rules[..|rules|] == rules;
  }
}
