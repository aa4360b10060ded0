/** What the planner decides, told from the rule, the event and the ledgers alone: which
    rules are asked, when one acts, and why it does not. */
module AutomationDecisions {
  import opened Wrappers
  import opened Automation
  import opened AutomationRuns

  // ------------------------------------------------------------------ refusals

  /** The rule is asked about the event at all. */
  predicate Asked(env: Env, rule: Rule, event: Event) {
    && rule.event == event.kind && env.matches(rule, event)
    && (event.targetRule.Some? ==> event.targetRule.value == rule.id)
  }

  /** Positions of the times in the hour that ends now; no time precedes the smallest
      one, at which the hour's open end stops. */
  ghost function InHour(times: seq<i64>, now: i64): (ixs: set<nat>) {
    set i: nat | i < |times| && now - 3_600 < times[i] <= now && (now - 3_600 < I64_MIN ==> times[i] != I64_MIN)
  }

  /** The same over all ledgers, for one capability. */
  ghost function AllInHour(state: Ledgers, cap: string, now: i64): (fires: set<(string, nat)>) {
    set id, i | id in state && i in InHour(Fires(state[id], cap), now) :: (id, i)
  }

  /** The refusal applies to the rule, given the ledgers it meets. */
  ghost predicate Applies(reason: SkipReason, env: Env, rule: Rule, event: Event, state: Ledgers, now: i64) {
    var ledger := if rule.id in state then state[rule.id] else RuleState(None, None, [], map[], {});
    match reason
    case Disabled => ledger.enabledOverride == Some(false) || (ledger.enabledOverride.None? && !rule.enabled)
    case LoopSuppressed => event.fromAutomation
    case UnsupportedAction => rule.cap !in {"sessions.open", "merge.add", "notify.push", "tools.run"}
    case OncePerKey => rule.oncePerKey && event.key in ledger.onceKeys
    case Debounced =>
      ledger.lastFiredAt.Some? && now - ledger.lastFiredAt.value < rule.debounceSecs
      && now - ledger.lastFiredAt.value < I64_MAX
    case RuleRateLimited => |InHour(ledger.recentFires, now)| >= rule.maxPerHour
    case ActionRateLimited => |AllInHour(state, rule.cap, now)| >= rule.maxActionPerHour
    case InvalidTemplate => env.render(rule, event).None?
  }

  /** The order in which refusals are given. */
  const ORDER: seq<SkipReason> := [Disabled, LoopSuppressed, UnsupportedAction, SkipReason.OncePerKey, Debounced,
                                   RuleRateLimited, ActionRateLimited, InvalidTemplate]

  /** Refusal `k` of the order is the first that applies. */
  ghost predicate FirstRefusal(k: nat, env: Env, rule: Rule, event: Event, state: Ledgers, now: i64) {
    && k < 8 && Applies(ORDER[k], env, rule, event, state, now)
    && forall j | 0 <= j < k :: !Applies(ORDER[j], env, rule, event, state, now)
  }

  ghost predicate Unrefused(env: Env, rule: Rule, event: Event, state: Ledgers, now: i64) {
    forall reason: SkipReason :: !Applies(reason, env, rule, event, state, now)
  }

  // ------------------------------------------------------------------- counting

  lemma {:induction false} CountIs(times: seq<i64>, now: i64)
    ensures Count(times, SaturatingSub(now, HOUR), now) == |InHour(times, now)|
  {
    if times == [] {
      assert InHour(times, now) == {};
    } else {
      var n := |times| - 1;
      CountIs(times[..n], now);
      HourGrows(times[..n], times[n], now);
      assert times[..n] + [times[n]] == times;
    }
  }

  lemma HourGrows(times: seq<i64>, t: i64, now: i64)
    ensures |InHour(times + [t], now)| == |InHour(times, now)| + if SaturatingSub(now, HOUR) < t <= now then 1 else 0
  {
    var n := |times|;
    assert forall i: nat | i < n :: (times + [t])[i] == times[i];
    assert InHour(times + [t], now) == InHour(times, now) + if SaturatingSub(now, HOUR) < t <= now then {n} else {};
  }

  ghost function Tagged(id: string, ixs: set<nat>): (tagged: set<(string, nat)>) {
    set i | i in ixs :: (id, i)
  }

  lemma {:induction false} TagCount(id: string, ixs: set<nat>)
    ensures |Tagged(id, ixs)| == |ixs|
  {
    if ixs == {} {
      assert Tagged(id, ixs) == {};
    } else {
      var k :| k in ixs;
      TagCount(id, ixs - {k});
      assert Tagged(id, ixs) == Tagged(id, ixs - {k}) + {(id, k)};
    }
  }

  lemma AllSplits(state: Ledgers, id: string, cap: string, now: i64)
    requires id in state
    ensures |AllInHour(state, cap, now)| ==
            |AllInHour(state - {id}, cap, now)| + |InHour(Fires(state[id], cap), now)|
  {
    var rest, tagged := AllInHour(state - {id}, cap, now), Tagged(id, InHour(Fires(state[id], cap), now));
    TagCount(id, InHour(Fires(state[id], cap), now));
    assert AllInHour(state, cap, now) == rest + tagged;
    assert rest !! tagged;
  }

  lemma {:induction false} TotalIs(state: Ledgers, cap: string, now: i64)
    ensures Total(state, cap, SaturatingSub(now, HOUR), now) == |AllInHour(state, cap, now)|
    decreases |state|
  {
    if state == map[] {
      assert AllInHour(state, cap, now) == {};
    } else {
      var id :| id in state;
      TotalSplits(state, id, cap, SaturatingSub(now, HOUR), now);
      TotalIs(state - {id}, cap, now);
      CountIs(Fires(state[id], cap), now);
      AllSplits(state, id, cap, now);
    }
  }

  // ------------------------------------------------------------------ one rule

  /** The decision is what the refusals call for. */
  ghost predicate Decided(d: Decision, env: Env, rule: Rule, event: Event, state: Ledgers, now: i64) {
    && d.ruleId == rule.id && d.key == event.key
    && (d.Planned? <==> Unrefused(env, rule, event, state, now))
    && (d.Planned? ==>
          && d.cap == rule.cap && Some(d.params) == env.render(rule, event)
          && d.next.lastFiredAt == Some(now)
          && (!rule.oncePerKey ==> d.next.onceKeys == if rule.id in state then state[rule.id].onceKeys else {})
          && d.next.enabledOverride == (if rule.id in state then state[rule.id].enabledOverride else None))
    && (d.Skipped? ==> exists k: nat :: FirstRefusal(k, env, rule, event, state, now) && d.reason == ORDER[k])
  }

  lemma DebounceIs(rule: Rule, last: i64, now: i64)
    ensures SaturatingSub(now, last) < Debounce(rule) <==> now - last < rule.debounceSecs && now - last < I64_MAX
  {
  }

  /** Which refusals apply, in the terms of the planner's own tests. */
  lemma RefusalsAre(env: Env, rule: Rule, event: Event, state: Ledgers, now: i64)
    ensures var current, lo := Current(state, rule.id), SaturatingSub(now, HOUR);
            && (Applies(UnsupportedAction, env, rule, event, state, now) <==> rule.cap !in SUPPORTED_ACTION_CAPS)
            && (Applies(Debounced, env, rule, event, state, now) <==>
                  current.lastFiredAt.Some? && SaturatingSub(now, current.lastFiredAt.value) < Debounce(rule))
            && (Applies(RuleRateLimited, env, rule, event, state, now) <==>
                  Count(current.recentFires, lo, now) >= rule.maxPerHour)
            && (Applies(ActionRateLimited, env, rule, event, state, now) <==>
                  Total(state, rule.cap, lo, now) >= rule.maxActionPerHour)
  {
    var current := Current(state, rule.id);
    CountIs(current.recentFires, now);
    TotalIs(state, rule.cap, now);
    if current.lastFiredAt.Some? {
      DebounceIs(rule, current.lastFiredAt.value, now);
    }
    var caps := SUPPORTED_ACTION_CAPS;
    assert caps[0] == "sessions.open" && caps[1] == "merge.add" && caps[2] == "notify.push" && caps[3] == "tools.run";
  }

  lemma FirstApplies(env: Env, rule: Rule, event: Event, state: Ledgers, now: i64, k: nat)
    requires k < 8 && Decide(env, rule, event, state, now) == Skipped(rule.id, event.key, ORDER[k])
    ensures FirstRefusal(k, env, rule, event, state, now)
  {
    RefusalsAre(env, rule, event, state, now);
  }

  /** The place of a refusal in the order. */
  function Place(reason: SkipReason): (k: nat)
    ensures k < 8 && ORDER[k] == reason
  {
    match reason
    case Disabled => 0
    case LoopSuppressed => 1
    case UnsupportedAction => 2
    case OncePerKey => 3
    case Debounced => 4
    case RuleRateLimited => 5
    case ActionRateLimited => 6
    case InvalidTemplate => 7
  }

  lemma PlannedUnrefused(env: Env, rule: Rule, event: Event, state: Ledgers, now: i64)
    requires Decide(env, rule, event, state, now).Planned?
    ensures Unrefused(env, rule, event, state, now)
  {
    RefusalsAre(env, rule, event, state, now);
  }

  lemma OneDecided(env: Env, rule: Rule, event: Event, state: Ledgers, now: i64)
    ensures Decided(Decide(env, rule, event, state, now), env, rule, event, state, now)
  {
    var d := Decide(env, rule, event, state, now);
    if d.Skipped? {
      FirstApplies(env, rule, event, state, now, Place(d.reason));
    } else {
      PlannedUnrefused(env, rule, event, state, now);
    }
  }

  // ------------------------------------------------------------------ one event

  /** Rule `j` of the event is decided against the ledgers that the decisions on the
      rules before it leave. */
  ghost function Met(env: Env, rules: seq<Rule>, event: Event, state: Ledgers, now: i64, j: nat): (met: Ledgers)
    requires j <= |rules|
  {
    Persist(state, Plan(env, rules[..j], event, state, now))
  }

  /** The positions of the rules that are asked, in order. */
  ghost predicate AskedAt(env: Env, rules: seq<Rule>, event: Event, at: seq<nat>) {
    && (forall i | 0 <= i < |at| :: at[i] < |rules| && Asked(env, rules[at[i]], event))
    && (forall i, j | 0 <= i < j < |at| :: at[i] < at[j])
    && (forall j | 0 <= j < |rules| && Asked(env, rules[j], event) :: j in at)
  }

  /** An event's decisions are those of the rules asked, each with its action or its
      first refusal. */
  ghost predicate PlanFollows(env: Env, rules: seq<Rule>, event: Event, state: Ledgers, now: i64, at: seq<nat>)
    requires AskedAt(env, rules, event, at)
  {
    var plan := Plan(env, rules, event, state, now);
    && |plan| == |at|
    && forall i | 0 <= i < |at| :: DecidedAt(env, rules, event, state, now, at[i], plan[i])
  }

  ghost predicate DecidedAt(env: Env, rules: seq<Rule>, event: Event, state: Ledgers, now: i64, j: nat, d: Decision) {
    j < |rules| && Decided(d, env, rules[j], event, Met(env, rules, event, state, now, j), now)
  }

  lemma EarlierDecided(env: Env, rules: seq<Rule>, event: Event, state: Ledgers, now: i64, j: nat, d: Decision)
    requires rules != [] && DecidedAt(env, rules[..|rules| - 1], event, state, now, j, d)
    ensures DecidedAt(env, rules, event, state, now, j, d)
  {
    assert rules[..|rules| - 1][..j] == rules[..j];
  }

  lemma AskedGrows(env: Env, rules: seq<Rule>, event: Event, at: seq<nat>)
    requires rules != [] && AskedAt(env, rules[..|rules| - 1], event, at)
    ensures var n := |rules| - 1;
            AskedAt(env, rules, event, if Asked(env, rules[n], event) then at + [n] else at)
  {
    var n := |rules| - 1;
    if Asked(env, rules[n], event) {
      assert (at + [n])[|at|] == n;
      assert forall j | j in at :: j in at + [n];
    }
  }

  lemma LastDecided(env: Env, rules: seq<Rule>, event: Event, state: Ledgers, now: i64) returns (last: seq<Decision>)
    requires rules != []
    ensures var n := |rules| - 1;
            && Plan(env, rules, event, state, now) == Plan(env, rules[..n], event, state, now) + last
            && |last| == (if Asked(env, rules[n], event) then 1 else 0)
            && (last != [] ==> DecidedAt(env, rules, event, state, now, n, last[0]))
  {
    var n := |rules| - 1;
    var plan := Plan(env, rules[..n], event, state, now);
    if Asked(env, rules[n], event) {
      last := [Decide(env, rules[n], event, Persist(state, plan), now)];
      OneDecided(env, rules[n], event, Persist(state, plan), now);
    } else {
      last := [];
      assert plan + last == plan;
    }
  }

  /** Every event is answered so: one decision for each rule asked, in order. */
  lemma {:induction false} PlanDecides(env: Env, rules: seq<Rule>, event: Event, state: Ledgers, now: i64)
    returns (at: seq<nat>)
    ensures AskedAt(env, rules, event, at) && PlanFollows(env, rules, event, state, now, at)
  {
    if rules == [] {
      at := [];
    } else {
      var n := |rules| - 1;
      var earlier := PlanDecides(env, rules[..n], event, state, now);
      var last := LastDecided(env, rules, event, state, now);
      AskedGrows(env, rules, event, earlier);
      at := if Asked(env, rules[n], event) then earlier + [n] else earlier;
      FollowsGrow(env, rules, event, state, now, earlier, at, last);
    }
  }

  lemma FollowsGrow(env: Env, rules: seq<Rule>, event: Event, state: Ledgers, now: i64,
                    earlier: seq<nat>, at: seq<nat>, last: seq<Decision>)
    requires rules != [] && AskedAt(env, rules[..|rules| - 1], event, earlier) && AskedAt(env, rules, event, at)
    requires PlanFollows(env, rules[..|rules| - 1], event, state, now, earlier)
    requires Plan(env, rules, event, state, now) == Plan(env, rules[..|rules| - 1], event, state, now) + last
    requires (last == [] && at == earlier) || (|last| == 1 && at == earlier + [|rules| - 1]
                                               && DecidedAt(env, rules, event, state, now, |rules| - 1, last[0]))
    ensures PlanFollows(env, rules, event, state, now, at)
  {
    var plan := Plan(env, rules[..|rules| - 1], event, state, now);
    forall i | 0 <= i < |at| ensures DecidedAt(env, rules, event, state, now, at[i], (plan + last)[i]) {
      if i < |earlier| {
        EarlierDecided(env, rules, event, state, now, earlier[i], plan[i]);
      }
    }
  }

  // ------------------------------------------------------------ runs of deliveries

  /** The ledgers that rule `j` of delivery `p` meets. */
  ghost function MetAt(env: Env, run: seq<Delivery>, p: nat, j: nat): (met: Ledgers)
    requires p < |run| && j <= |run[p].rules|
  {
    Met(env, run[p].rules, run[p].event, Persisted(env, run[..p]), run[p].now, j)
  }

  /** Rule `j` of delivery `p` earns an action: it is asked and nothing refuses it. */
  ghost predicate Earns(env: Env, run: seq<Delivery>, p: nat, j: nat)
    requires p < |run| && j < |run[p].rules|
  {
    && Asked(env, run[p].rules[j], run[p].event)
    && Unrefused(env, run[p].rules[j], run[p].event, MetAt(env, run, p, j), run[p].now)
  }

  ghost function EarnedIn(env: Env, run: seq<Delivery>, p: nat, n: nat): (fires: seq<Fire>)
    requires p < |run| && n <= |run[p].rules|
  {
    if n == 0 then []
    else
      var rule := run[p].rules[n - 1];
      EarnedIn(env, run, p, n - 1)
      + if Earns(env, run, p, n - 1) then [Fire(rule.id, run[p].event.key, rule.cap, run[p].now)] else []
  }

  /** The actions earned over the first `p` deliveries, in order. */
  ghost function Earned(env: Env, run: seq<Delivery>, p: nat): (fires: seq<Fire>)
    requires p <= |run|
  {
    if p == 0 then [] else Earned(env, run, p - 1) + EarnedIn(env, run, p - 1, |run[p - 1].rules|)
  }

  lemma {:induction false} EventEarns(env: Env, run: seq<Delivery>, p: nat, n: nat)
    requires p < |run| && n <= |run[p].rules|
    ensures var d, before := run[p], Persisted(env, run[..p]);
            FiresIn(Plan(env, d.rules[..n], d.event, before, d.now), d.now) == EarnedIn(env, run, p, n)
  {
    if n > 0 {
      var d, before := run[p], Persisted(env, run[..p]);
      var rule, met := d.rules[n - 1], MetAt(env, run, p, n - 1);
      var plan := Plan(env, d.rules[..n - 1], d.event, before, d.now);
      EventEarns(env, run, p, n - 1);
      assert d.rules[..n][..n - 1] == d.rules[..n - 1];
      if Considered(env, rule, d.event) {
        OneDecided(env, rule, d.event, met, d.now);
        DecisionSnoc(before, plan, Decide(env, rule, d.event, met, d.now), d.now);
      }
    }
  }

  /** The planner acts exactly when it should: over every run of deliveries whose
      transitions were persisted, the actions returned are those of the rules that are
      asked and that nothing refuses, in order. */
  lemma {:induction false} ActionsAreEarned(env: Env, run: seq<Delivery>, p: nat)
    requires p <= |run|
    ensures Actions(env, run[..p]) == Earned(env, run, p)
  {
    if p > 0 {
      var d := run[p - 1];
      assert run[..p][..p - 1] == run[..p - 1];
      ActionsAreEarned(env, run, p - 1);
      EventEarns(env, run, p - 1, |d.rules|);
      assert d.rules[..|d.rules|] == d.rules;
    }
  }
}
