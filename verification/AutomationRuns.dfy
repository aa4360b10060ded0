/** What the planner guarantees over whole runs in which every accepted transition
    is persisted: spacing, the per-rule limit and the action-wide limit. */
module AutomationRuns {
  import opened Wrappers
  import opened Automation

  /** One rule considered for one event at one clock reading. */
  datatype Attempt = Attempt(rule: Rule, event: Event, now: i64)

  /** One admitted action. */
  datatype Fire = Fire(rule: string, key: string, cap: string, at: i64)

  /** One event delivered to the planner, with the rules in force. */
  datatype Delivery = Delivery(rules: seq<Rule>, event: Event, now: i64)

  // -------------------------------------------------------- runs of attempts

  ghost function Fold(env: Env, start: Ledgers, tries: seq<Attempt>): (state: Ledgers) {
    if tries == [] then start else Advance(env, Fold(env, start, tries[..|tries| - 1]), tries[|tries| - 1])
  }

  /** The ledgers after a run of attempts that starts from nothing. */
  ghost function StateAfter(env: Env, tries: seq<Attempt>): (state: Ledgers) {
    Fold(env, map[], tries)
  }

  ghost function Advance(env: Env, state: Ledgers, t: Attempt): (state': Ledgers) {
    var d := Decide(env, t.rule, t.event, state, t.now);
    if d.Planned? then state[t.rule.id := d.next] else state
  }

  lemma FoldGrows(env: Env, start: Ledgers, tries: seq<Attempt>, t: Attempt)
    ensures Fold(env, start, tries + [t]) == Advance(env, Fold(env, start, tries), t)
  {
    assert (tries + [t])[..|tries|] == tries;
  }

  lemma {:induction false} FoldConcat(env: Env, start: Ledgers, a: seq<Attempt>, b: seq<Attempt>)
    ensures Fold(env, start, a + b) == Fold(env, Fold(env, start, a), b)
    decreases |b|
  {
    if b == [] {
      assert a + b == a;
    } else {
      var init, t := b[..|b| - 1], b[|b| - 1];
      assert a + b == (a + init) + [t];
      FoldGrows(env, start, a + init, t);
      FoldConcat(env, start, a, init);
    }
  }

  ghost predicate Admitted(env: Env, tries: seq<Attempt>, t: Attempt) {
    Decide(env, t.rule, t.event, StateAfter(env, tries), t.now).Planned?
  }

  function FireOf(t: Attempt): (f: Fire) {
    Fire(t.rule.id, t.event.key, t.rule.cap, t.now)
  }

  ghost function LogFrom(env: Env, start: Ledgers, tries: seq<Attempt>): (log: seq<Fire>) {
    if tries == [] then []
    else
      var before, t := tries[..|tries| - 1], tries[|tries| - 1];
      if Decide(env, t.rule, t.event, Fold(env, start, before), t.now).Planned?
      then LogFrom(env, start, before) + [FireOf(t)] else LogFrom(env, start, before)
  }

  /** The admitted actions of a run of attempts, in order. */
  ghost function Log(env: Env, tries: seq<Attempt>): (log: seq<Fire>) {
    LogFrom(env, map[], tries)
  }

  lemma LogGrows(env: Env, start: Ledgers, tries: seq<Attempt>, t: Attempt)
    ensures LogFrom(env, start, tries + [t]) == LogFrom(env, start, tries) +
            if Decide(env, t.rule, t.event, Fold(env, start, tries), t.now).Planned? then [FireOf(t)] else []
  {
    assert (tries + [t])[..|tries|] == tries;
  }

  lemma {:induction false} LogConcat(env: Env, start: Ledgers, a: seq<Attempt>, b: seq<Attempt>)
    ensures LogFrom(env, start, a + b) == LogFrom(env, start, a) + LogFrom(env, Fold(env, start, a), b)
    decreases |b|
  {
    if b == [] {
      assert a + b == a;
    } else {
      var init, t := b[..|b| - 1], b[|b| - 1];
      assert a + b == (a + init) + [t];
      LogGrows(env, start, a + init, t);
      LogConcat(env, start, a, init);
      FoldConcat(env, start, a, init);
    }
  }

  /** The admission times of one rule, in order of admission. */
  function RuleTimes(log: seq<Fire>, id: string): (ts: seq<i64>) {
    if log == [] then []
    else
      var init, f := RuleTimes(log[..|log| - 1], id), log[|log| - 1];
      if f.rule == id then init + [f.at] else init
  }

  /** The admission times of one capability, whichever rule fired. */
  function CapTimes(log: seq<Fire>, cap: string): (ts: seq<i64>) {
    if log == [] then []
    else
      var init, f := CapTimes(log[..|log| - 1], cap), log[|log| - 1];
      if f.cap == cap then init + [f.at] else init
  }

  // ------------------------------------------ one event is a run of attempts

  function Attempts(env: Env, rules: seq<Rule>, event: Event, now: i64): (tries: seq<Attempt>) {
    if rules == [] then []
    else
      var init, rule := Attempts(env, rules[..|rules| - 1], event, now), rules[|rules| - 1];
      if Considered(env, rule, event) then init + [Attempt(rule, event, now)] else init
  }

  /** The flat sequence of attempts behind a sequence of deliveries. */
  function AllAttempts(env: Env, run: seq<Delivery>): (tries: seq<Attempt>) {
    if run == [] then []
    else
      var d := run[|run| - 1];
      AllAttempts(env, run[..|run| - 1]) + Attempts(env, d.rules, d.event, d.now)
  }

  /** The ledgers a caller holds that persists every decision of every delivery. */
  ghost function Persisted(env: Env, run: seq<Delivery>): (state: Ledgers) {
    if run == [] then map[]
    else
      var before, d := Persisted(env, run[..|run| - 1]), run[|run| - 1];
      Persist(before, Plan(env, d.rules, d.event, before, d.now))
  }

  /** The actions among the decisions for one event. */
  function FiresIn(plan: seq<Decision>, now: i64): (fires: seq<Fire>) {
    if plan == [] then []
    else
      var init, d := FiresIn(plan[..|plan| - 1], now), plan[|plan| - 1];
      if d.Planned? then init + [Fire(d.ruleId, d.key, d.cap, now)] else init
  }

  /** Every action the planner returned over a run of deliveries. */
  ghost function Actions(env: Env, run: seq<Delivery>): (fires: seq<Fire>) {
    if run == [] then []
    else
      var init, d := run[..|run| - 1], run[|run| - 1];
      Actions(env, init) + FiresIn(Plan(env, d.rules, d.event, Persisted(env, init), d.now), d.now)
  }

  lemma {:induction false} PlanIsRunOfAttempts(env: Env, state: Ledgers, rules: seq<Rule>, event: Event, now: i64)
    ensures Persist(state, Plan(env, rules, event, state, now)) == Fold(env, state, Attempts(env, rules, event, now))
    ensures FiresIn(Plan(env, rules, event, state, now), now) == LogFrom(env, state, Attempts(env, rules, event, now))
  {
    if rules != [] {
      var init, rule := rules[..|rules| - 1], rules[|rules| - 1];
      PlanIsRunOfAttempts(env, state, init, event, now);
      if Considered(env, rule, event) {
        var plan, t := Plan(env, init, event, state, now), Attempt(rule, event, now);
        PersistGrows(env, state, plan, t);
        FoldGrows(env, state, Attempts(env, init, event, now), t);
        LogGrows(env, state, Attempts(env, init, event, now), t);
      }
    }
  }

  lemma PersistGrows(env: Env, state: Ledgers, plan: seq<Decision>, t: Attempt)
    ensures var d := Decide(env, t.rule, t.event, Persist(state, plan), t.now);
            && Persist(state, plan + [d]) == Advance(env, Persist(state, plan), t)
            && FiresIn(plan + [d], t.now) == FiresIn(plan, t.now) + if d.Planned? then [FireOf(t)] else []
  {
    var d := Decide(env, t.rule, t.event, Persist(state, plan), t.now);
    PlannedNames(env, Persist(state, plan), t);
    DecisionSnoc(state, plan, d, t.now);
  }

  lemma PlannedNames(env: Env, state: Ledgers, t: Attempt)
    ensures var d := Decide(env, t.rule, t.event, state, t.now);
            d.ruleId == t.rule.id && (d.Planned? ==> Fire(d.ruleId, d.key, d.cap, t.now) == FireOf(t))
  {
  }

  lemma DecisionSnoc(state: Ledgers, plan: seq<Decision>, d: Decision, now: i64)
    ensures Persist(state, plan + [d]) ==
            if d.Planned? then Persist(state, plan)[d.ruleId := d.next] else Persist(state, plan)
    ensures FiresIn(plan + [d], now) ==
            FiresIn(plan, now) + if d.Planned? then [Fire(d.ruleId, d.key, d.cap, now)] else []
  {
    assert (plan + [d])[..|plan|] == plan;
  }

  /** A scratch ledger inside each event and persistence between events amount to
      one sequence of attempts. */
  lemma {:induction false} PersistedIsRunOfAttempts(env: Env, run: seq<Delivery>)
    ensures Persisted(env, run) == StateAfter(env, AllAttempts(env, run))
    ensures Actions(env, run) == Log(env, AllAttempts(env, run))
  {
    if run != [] {
      var init, d := run[..|run| - 1], run[|run| - 1];
      PersistedIsRunOfAttempts(env, init);
      PlanIsRunOfAttempts(env, Persisted(env, init), d.rules, d.event, d.now);
      FoldConcat(env, map[], AllAttempts(env, init), Attempts(env, d.rules, d.event, d.now));
      LogConcat(env, map[], AllAttempts(env, init), Attempts(env, d.rules, d.event, d.now));
    }
  }

  // -------------------------------------------------- the saturated window

  ghost predicate AfterMin(times: seq<i64>) {
    forall i | 0 <= i < |times| :: times[i] > I64_MIN
  }

  lemma {:induction false} CountStrict(s: seq<i64>, lo: int, hi: int, i: nat)
    requires i < |s| && s[i] == lo <= hi
    ensures Count(s, lo, hi) < Count(s, lo - 1, hi)
  {
    var init := s[..|s| - 1];
    CountShrinks(init, lo, hi, lo - 1, hi);
    if i < |s| - 1 {
      CountStrict(init, lo, hi, i);
    }
  }

  /** The window start saturates at the smallest clock value. The count is then
      right exactly when nothing fired at that very instant. */
  lemma WindowExact(times: seq<i64>, now: i64)
    ensures Count(times, SaturatingSub(now, HOUR), now) == Count(times, now - HOUR, now) <==>
            !(now - HOUR < I64_MIN && exists i | 0 <= i < |times| :: times[i] == I64_MIN)
  {
    var lo := SaturatingSub(now, HOUR);
    CountShrinks(times, lo, now, now - HOUR, now);
    if now - HOUR < I64_MIN && exists i | 0 <= i < |times| :: times[i] == I64_MIN {
      var i :| 0 <= i < |times| && times[i] == I64_MIN;
      CountStrict(times, lo, now, i);
      CountShrinks(times, I64_MIN - 1, now, now - HOUR, now);
    } else {
      CountShrinks(times, now - HOUR, now, lo, now);
    }
  }

  /** The debounce test keeps fires `debounceSecs` apart for every pair of clock
      readings exactly when the setting fits a signed 64-bit integer. */
  lemma DebounceExact(rule: Rule)
    ensures (forall now: i64, last: i64 :: SaturatingSub(now, last) >= Debounce(rule)
               ==> now - last >= rule.debounceSecs)
            <==> rule.debounceSecs <= I64_MAX
  {
    if rule.debounceSecs > I64_MAX {
      assert SaturatingSub(I64_MAX, 0) >= Debounce(rule);
    }
  }

  // --------------------------------------------- one rule, whatever the clock

  ghost predicate Spaced(times: seq<i64>, gap: int) {
    forall i, j | 0 <= i < j < |times| :: times[j] - times[i] >= gap
  }

  ghost predicate GapBound(tries: seq<Attempt>, id: string, gap: nat) {
    forall i | 0 <= i < |tries| && tries[i].rule.id == id :: gap <= Debounce(tries[i].rule)
  }

  ghost predicate RuleBound(tries: seq<Attempt>, id: string, limit: nat) {
    forall i | 0 <= i < |tries| && tries[i].rule.id == id :: tries[i].rule.maxPerHour <= limit
  }

  ghost predicate ClockAfterMin(tries: seq<Attempt>) {
    forall i | 0 <= i < |tries| :: tries[i].now > I64_MIN
  }

  /** The rule's ledger is faithful to its true history inside any window that can
      still matter. */
  ghost predicate RuleLedgerFaithful(rs: RuleState, ts: seq<i64>) {
    && rs.lastFiredAt == (if ts == [] then None else Some(ts[|ts| - 1]))
    && (ts == [] ==> rs.recentFires == [])
    && (ts != [] ==>
          && NoneAfter(ts, ts[|ts| - 1]) && NoneAfter(rs.recentFires, ts[|ts| - 1])
          && forall lo: int, hi: int | lo >= SaturatingSub(ts[|ts| - 1], HOUR) ::
               Count(rs.recentFires, lo, hi) == Count(ts, lo, hi))
  }

  lemma RuleStep(rs: RuleState, ts: seq<i64>, rule: Rule, key: string, now: i64, gap: nat)
    requires RuleLedgerFaithful(rs, ts) && Spaced(ts, gap) && gap <= Debounce(rule)
    requires rs.lastFiredAt.Some? ==> SaturatingSub(now, rs.lastFiredAt.value) >= Debounce(rule)
    ensures RuleLedgerFaithful(AfterFire(rs, rule, key, now), ts + [now])
    ensures Spaced(ts + [now], gap)
  {
    var lo := SaturatingSub(now, HOUR);
    var pruned := InWindow(rs.recentFires, lo, now);
    if ts != [] {
      assert now - ts[|ts| - 1] >= gap;
    }
    InWindowBounds(rs.recentFires, lo, now);
    forall lo': int, hi: int | lo' >= lo ensures Count(pruned + [now], lo', hi) == Count(ts + [now], lo', hi) {
      CountPruned(rs.recentFires, lo, now, lo', hi);
      CountSnoc(pruned, now, lo', hi);
      CountSnoc(ts, now, lo', hi);
    }
    SpacedSnoc(ts, now, gap);
  }

  lemma SpacedSnoc(ts: seq<i64>, now: i64, gap: nat)
    requires Spaced(ts, gap) && (ts != [] ==> now - ts[|ts| - 1] >= gap)
    ensures Spaced(ts + [now], gap)
  {
  }

  lemma RuleTimesGrow(log: seq<Fire>, f: Fire, id: string)
    ensures RuleTimes(log + [f], id) == if f.rule == id then RuleTimes(log, id) + [f.at] else RuleTimes(log, id)
  {
    assert (log + [f])[..|log|] == log;
  }

  /** Over any run and any clock, even one that steps backwards: a rule's admissions
      never go back in time and lie at least the debounce apart, and its ledger agrees
      with its history. */
  lemma {:induction false} RuleSpacing(env: Env, tries: seq<Attempt>, id: string, gap: nat)
    requires GapBound(tries, id, gap)
    ensures var ts := RuleTimes(Log(env, tries), id);
            Spaced(ts, gap) && RuleLedgerFaithful(Current(StateAfter(env, tries), id), ts)
  {
    if tries != [] {
      var before, t := tries[..|tries| - 1], tries[|tries| - 1];
      RuleSpacing(env, before, id, gap);
      assert before + [t] == tries;
      var state, log := StateAfter(env, before), Log(env, before);
      FoldGrows(env, map[], before, t);
      LogGrows(env, map[], before, t);
      if Admitted(env, before, t) {
        RuleTimesGrow(log, FireOf(t), id);
        PlannedInTime(env, state, t);
        if t.rule.id == id {
          RuleStep(Current(state, id), RuleTimes(log, id), t.rule, t.event.key, t.now, gap);
        }
      }
    }
  }

  /** What an admission says about the rule's own ledger. */
  lemma PlannedInTime(env: Env, state: Ledgers, t: Attempt)
    requires Decide(env, t.rule, t.event, state, t.now).Planned?
    ensures var rs := Current(state, t.rule.id);
            && (rs.lastFiredAt.Some? ==> SaturatingSub(t.now, rs.lastFiredAt.value) >= Debounce(t.rule))
            && Count(rs.recentFires, SaturatingSub(t.now, HOUR), t.now) < t.rule.maxPerHour
            && Advance(env, state, t) == state[t.rule.id := AfterFire(rs, t.rule, t.event.key, t.now)]
  {
  }

  /** No attempt of rule `id` falls into the first hour of the clock's range after an
      earlier one at its very beginning. */
  ghost predicate RuleSparesMin(tries: seq<Attempt>, id: string) {
    forall i, j | 0 <= i < j < |tries| && tries[i].rule.id == id && tries[j].rule.id == id ::
      tries[i].now == I64_MIN ==> tries[j].now >= I64_MIN + HOUR
  }

  lemma {:induction false} RuleTimesFrom(env: Env, tries: seq<Attempt>, id: string, k: nat)
    requires k < |RuleTimes(Log(env, tries), id)|
    ensures exists i :: 0 <= i < |tries| && tries[i].rule.id == id && tries[i].now == RuleTimes(Log(env, tries), id)[k]
  {
    var n := |tries| - 1;
    var before, t := tries[..n], tries[n];
    var log := Log(env, before);
    var ts := RuleTimes(log, id);
    RuleTimesGrow(log, FireOf(t), id);
    if k < |ts| {
      RuleTimesFrom(env, before, id, k);
      var i :| 0 <= i < n && before[i].rule.id == id && before[i].now == ts[k];
      assert tries[i].rule.id == id && tries[i].now == ts[k];
    } else {
      assert tries[n].rule.id == id;
    }
  }

  lemma RuleTimesSpareMin(env: Env, before: seq<Attempt>, t: Attempt, id: string)
    requires RuleSparesMin(before + [t], id) && t.rule.id == id && t.now < I64_MIN + HOUR
    ensures AfterMin(RuleTimes(Log(env, before), id))
  {
    var ts, all := RuleTimes(Log(env, before), id), before + [t];
    forall k | 0 <= k < |ts| ensures ts[k] > I64_MIN {
      RuleTimesFrom(env, before, id, k);
      var i :| 0 <= i < |before| && before[i].rule.id == id && before[i].now == ts[k];
      assert all[i] == before[i] && all[|before|] == t;
    }
  }

  lemma AttemptKeepsRuleLimit(env: Env, before: seq<Attempt>, t: Attempt, limit: nat)
    requires Admitted(env, before, t) && t.rule.maxPerHour <= limit
    requires Limited(RuleTimes(Log(env, before), t.rule.id), limit) && RuleSparesMin(before + [t], t.rule.id)
    ensures Limited(RuleTimes(Log(env, before), t.rule.id) + [t.now], limit)
  {
    var id := t.rule.id;
    RuleSpacing(env, before, id, 0);
    PlannedInTime(env, StateAfter(env, before), t);
    if t.now < I64_MIN + HOUR {
      RuleTimesSpareMin(env, before, t, id);
    }
    RuleAdmission(Current(StateAfter(env, before), id), RuleTimes(Log(env, before), id), t.rule, t.now, limit);
  }

  /** Over any run and any clock that spares its smallest value, no hour holds more
      admissions of a rule than its limit. */
  lemma {:induction false} RuleLimit(env: Env, tries: seq<Attempt>, id: string, limit: nat)
    requires RuleBound(tries, id, limit) && RuleSparesMin(tries, id)
    ensures Limited(RuleTimes(Log(env, tries), id), limit)
  {
    if tries == [] {
      assert forall from: int :: HourCount([], from) == 0;
    } else {
      var before, t := tries[..|tries| - 1], tries[|tries| - 1];
      assert before + [t] == tries;
      RuleLimit(env, before, id, limit);
      LogGrows(env, map[], before, t);
      if Admitted(env, before, t) {
        RuleTimesGrow(Log(env, before), FireOf(t), id);
        if t.rule.id == id {
          AttemptKeepsRuleLimit(env, before, t, limit);
        }
      }
    }
  }

  lemma RuleAdmission(rs: RuleState, ts: seq<i64>, rule: Rule, now: i64, limit: nat)
    requires RuleLedgerFaithful(rs, ts) && Limited(ts, limit) && rule.maxPerHour <= limit
    requires rs.lastFiredAt.Some? ==> SaturatingSub(now, rs.lastFiredAt.value) >= Debounce(rule)
    requires Count(rs.recentFires, SaturatingSub(now, HOUR), now) < rule.maxPerHour
    requires now - HOUR < I64_MIN ==> AfterMin(ts)
    ensures Limited(ts + [now], limit)
  {
    WindowExact(ts, now);
    AdmissionKeepsLimit(ts, now, limit);
  }

  // ------------------------------------------- one capability, all its rules

  function Readings(tries: seq<Attempt>): (ts: seq<i64>) {
    seq(|tries|, i requires 0 <= i < |tries| => tries[i].now)
  }

  predicate Near(a: int, b: int) {
    -HOUR < a - b < HOUR
  }

  /** `x` may be read after `ts`: if the clock has been within an hour of `x`, it has
      not been past `x` since. */
  ghost predicate Follows(ts: seq<i64>, x: int) {
    forall i, k | 0 <= i <= k < |ts| && Near(ts[i], x) :: ts[k] <= x
  }

  /** The clock never steps back into an hour it has already touched. */
  ghost predicate NeverReturns(ts: seq<i64>) {
    forall j | 0 <= j < |ts| :: Follows(ts[..j], ts[j])
  }

  ghost predicate Nondecreasing(ts: seq<i64>) {
    forall i, j | 0 <= i < j < |ts| :: ts[i] <= ts[j]
  }

  lemma SteadyClockNeverReturns(ts: seq<i64>)
    requires Nondecreasing(ts)
    ensures NeverReturns(ts)
  {
  }

  ghost predicate CapBound(tries: seq<Attempt>, cap: string, limit: nat) {
    forall i | 0 <= i < |tries| && tries[i].rule.cap == cap :: tries[i].rule.maxActionPerHour <= limit
  }

  ghost predicate Among(ts: seq<i64>, readings: seq<i64>) {
    forall i | 0 <= i < |ts| :: ts[i] in readings
  }

  /** In the window up to any reading that may follow, the disjoint per-rule ledgers
      sum to exactly the admitted actions. */
  ghost predicate LedgersSumToLog(state: Ledgers, ts: seq<i64>, cap: string, readings: seq<i64>) {
    forall lo: int, x: int | Follows(readings, x) && lo >= x - HOUR :: SumsTo(state, ts, cap, lo, x)
  }

  ghost predicate SumsTo(state: Ledgers, ts: seq<i64>, cap: string, lo: int, hi: int) {
    Total(state, cap, lo, hi) == Count(ts, lo, hi)
  }

  /** A ledger holds readings of the clock, none later than its rule's last fire. */
  ghost predicate Grounded(rs: RuleState, cap: string, readings: seq<i64>) {
    var fires := Fires(rs, cap);
    && AfterMin(fires) && Among(fires, readings)
    && (rs.lastFiredAt.None? ==> fires == [])
    && (rs.lastFiredAt.Some? ==> NoneAfter(fires, rs.lastFiredAt.value))
  }

  ghost predicate AllGrounded(state: Ledgers, cap: string, readings: seq<i64>) {
    forall id | id in state :: Grounded(state[id], cap, readings)
  }

  lemma FiresAfter(current: RuleState, rule: Rule, key: string, now: i64, cap: string)
    ensures Fires(AfterFire(current, rule, key, now), cap) ==
            InWindow(Fires(current, cap), SaturatingSub(now, HOUR), now) + if cap == rule.cap then [now] else []
  {
  }

  function Extended(ts: seq<i64>, cap: string, rule: Rule, now: i64): (ts': seq<i64>) {
    if cap == rule.cap then ts + [now] else ts
  }

  /** The clock reads `now`, and a rule whose ledger is `rs` has not fired later. */
  ghost predicate Timely(rs: RuleState, readings: seq<i64>, now: i64) {
    now > I64_MIN && Follows(readings, now) && (rs.lastFiredAt.Some? ==> rs.lastFiredAt.value <= now)
  }

  /** What pruning drops can no longer lie in a window that matters: a reading that
      drops it has left its hour, and the clock will not return there. */
  lemma FiresCounted(current: RuleState, rule: Rule, key: string, now: i64, cap: string, readings: seq<i64>,
                     lo: int, x: int)
    requires Grounded(current, cap, readings) && Timely(current, readings, now)
    requires Follows(readings + [now], x) && lo >= x - HOUR
    ensures Count(Fires(AfterFire(current, rule, key, now), cap), lo, x) ==
            Count(Extended(Fires(current, cap), cap, rule, now), lo, x)
  {
    var fires, start := Fires(current, cap), SaturatingSub(now, HOUR);
    var kept := InWindow(fires, start, now);
    FiresAfter(current, rule, key, now, cap);
    forall i | 0 <= i < |fires| && lo < fires[i] <= x ensures start < fires[i] <= now {
      PassedMeansPast(readings, now, fires[i], x);
    }
    CountPruned(fires, start, now, lo, x);
    CountSnoc(kept, now, lo, x);
    CountSnoc(fires, now, lo, x);
    assert kept + [] == kept;
  }

  lemma PassedMeansPast(readings: seq<i64>, now: i64, f: i64, x: int)
    requires f in readings && Near(f, x) && Follows(readings + [now], x)
    ensures now <= x
  {
    var i :| 0 <= i < |readings| && readings[i] == f;
    var all := readings + [now];
    assert all[i] == f && all[|readings|] == now;
  }

  lemma FiresGrounded(current: RuleState, rule: Rule, key: string, now: i64, cap: string, readings: seq<i64>)
    requires Grounded(current, cap, readings) && now > I64_MIN
    ensures Grounded(AfterFire(current, rule, key, now), cap, readings + [now])
  {
    FiresAfter(current, rule, key, now, cap);
    InWindowBounds(Fires(current, cap), SaturatingSub(now, HOUR), now);
    InWindowAmong(Fires(current, cap), SaturatingSub(now, HOUR), now, readings);
  }

  lemma {:induction false} InWindowAmong(ts: seq<i64>, lo: int, hi: int, readings: seq<i64>)
    requires Among(ts, readings)
    ensures Among(InWindow(ts, lo, hi), readings)
  {
    if ts != [] {
      InWindowAmong(ts[..|ts| - 1], lo, hi, readings);
    }
  }

  ghost function Fired(state: Ledgers, rule: Rule, key: string, now: i64): (state': Ledgers) {
    state[rule.id := AfterFire(Current(state, rule.id), rule, key, now)]
  }

  lemma SumStep(state: Ledgers, ts: seq<i64>, cap: string, rule: Rule, key: string, now: i64,
                readings: seq<i64>, lo: int, x: int)
    requires Grounded(Current(state, rule.id), cap, readings) && Timely(Current(state, rule.id), readings, now)
    requires Follows(readings + [now], x) && lo >= x - HOUR && SumsTo(state, ts, cap, lo, x)
    ensures SumsTo(Fired(state, rule, key, now), Extended(ts, cap, rule, now), cap, lo, x)
  {
    var current := Current(state, rule.id);
    var next := AfterFire(current, rule, key, now);
    var n, m := Count(Fires(current, cap), lo, x), Count(Fires(next, cap), lo, x);
    assert Total(state[rule.id := next], cap, lo, x) + n == Total(state, cap, lo, x) + m by {
      TotalUpdates(state, rule.id, next, cap, lo, x);
    }
    assert m - n == Count(Extended(ts, cap, rule, now), lo, x) - Count(ts, lo, x) by {
      FiresCounted(current, rule, key, now, cap, readings, lo, x);
      CountSnoc(ts, now, lo, x);
      CountSnoc(Fires(current, cap), now, lo, x);
    }
  }

  ghost predicate CapInvariant(state: Ledgers, ts: seq<i64>, cap: string, limit: nat, readings: seq<i64>) {
    && Limited(ts, limit) && AfterMin(ts) && Among(ts, readings)
    && AllGrounded(state, cap, readings)
    && LedgersSumToLog(state, ts, cap, readings)
  }

  lemma FollowsShorter(readings: seq<i64>, now: i64, x: int)
    requires Follows(readings + [now], x)
    ensures Follows(readings, x)
  {
    var all := readings + [now];
    assert forall i | 0 <= i < |readings| :: all[i] == readings[i];
  }

  /** A reading that admits nothing leaves the invariant in place. */
  lemma CapReading(state: Ledgers, ts: seq<i64>, cap: string, limit: nat, readings: seq<i64>, now: i64)
    requires CapInvariant(state, ts, cap, limit, readings)
    ensures CapInvariant(state, ts, cap, limit, readings + [now])
  {
    forall lo: int, x: int | Follows(readings + [now], x) && lo >= x - HOUR ensures SumsTo(state, ts, cap, lo, x) {
      FollowsShorter(readings, now, x);
    }
  }

  lemma CapStep(state: Ledgers, ts: seq<i64>, cap: string, rule: Rule, key: string, now: i64, readings: seq<i64>)
    requires AllGrounded(state, cap, readings) && LedgersSumToLog(state, ts, cap, readings)
    requires Timely(Current(state, rule.id), readings, now)
    ensures AllGrounded(Fired(state, rule, key, now), cap, readings + [now])
    ensures LedgersSumToLog(Fired(state, rule, key, now), Extended(ts, cap, rule, now), cap, readings + [now])
  {
    FiresGrounded(Current(state, rule.id), rule, key, now, cap, readings);
    forall lo: int, x: int | Follows(readings + [now], x) && lo >= x - HOUR
      ensures SumsTo(Fired(state, rule, key, now), Extended(ts, cap, rule, now), cap, lo, x)
    {
      FollowsShorter(readings, now, x);
      SumStep(state, ts, cap, rule, key, now, readings, lo, x);
    }
  }

  lemma FollowsMeansNoneSoonAfter(ts: seq<i64>, readings: seq<i64>, now: i64)
    requires Among(ts, readings) && Follows(readings, now)
    ensures NoneSoonAfter(ts, now)
  {
    forall i | 0 <= i < |ts| ensures !(now < ts[i] < now + HOUR) {
      var k :| 0 <= k < |readings| && readings[k] == ts[i];
    }
  }

  lemma CapAdmission(state: Ledgers, ts: seq<i64>, cap: string, limit: nat, rule: Rule, key: string, now: i64,
                     readings: seq<i64>)
    requires CapInvariant(state, ts, cap, limit, readings) && Timely(Current(state, rule.id), readings, now)
    requires rule.cap == cap ==> Total(state, cap, SaturatingSub(now, HOUR), now) < limit
    ensures CapInvariant(Fired(state, rule, key, now), Extended(ts, cap, rule, now), cap, limit, readings + [now])
  {
    CapStep(state, ts, cap, rule, key, now, readings);
    if rule.cap == cap {
      assert SumsTo(state, ts, cap, SaturatingSub(now, HOUR), now);
      WindowExact(ts, now);
      FollowsMeansNoneSoonAfter(ts, readings, now);
      AdmissionKeepsLimit(ts, now, limit);
    }
  }

  /** With a clock that never returns to an hour it has left, no hour holds more
      actions of a capability than its limit, whichever rules fired them and however
      many in one event; and the rules' ledgers add up to exactly those actions. */
  lemma {:induction false} ActionLimit(env: Env, tries: seq<Attempt>, cap: string, limit: nat)
    requires CapBound(tries, cap, limit) && ClockAfterMin(tries) && NeverReturns(Readings(tries))
    ensures CapInvariant(StateAfter(env, tries), CapTimes(Log(env, tries), cap), cap, limit, Readings(tries))
  {
    if tries == [] {
      assert forall from: int :: HourCount([], from) == 0;
    } else {
      var before, t := tries[..|tries| - 1], tries[|tries| - 1];
      NeverReturnsShorter(tries);
      ActionLimit(env, before, cap, limit);
      AttemptKeepsCapInvariant(env, before, t, cap, limit);
      assert before + [t] == tries;
    }
  }

  lemma NeverReturnsShorter(tries: seq<Attempt>)
    requires tries != [] && NeverReturns(Readings(tries))
    ensures var before, t := tries[..|tries| - 1], tries[|tries| - 1];
            NeverReturns(Readings(before)) && Follows(Readings(before), t.now)
  {
    var n := |tries| - 1;
    var before, ts := Readings(tries[..n]), Readings(tries);
    assert ts[..n] == before;
    forall j | 0 <= j < n ensures Follows(before[..j], before[j]) {
      assert ts[..j] == before[..j];
    }
  }

  lemma PlannedFacts(env: Env, state: Ledgers, t: Attempt)
    requires Decide(env, t.rule, t.event, state, t.now).Planned?
    ensures Advance(env, state, t) == Fired(state, t.rule, t.event.key, t.now)
    ensures Total(state, t.rule.cap, SaturatingSub(t.now, HOUR), t.now) < t.rule.maxActionPerHour
    ensures var last := Current(state, t.rule.id).lastFiredAt; last.Some? ==> last.value <= t.now
  {
  }

  lemma AdvanceKeepsCapInvariant(env: Env, state: Ledgers, ts: seq<i64>, cap: string, limit: nat, t: Attempt,
                                 readings: seq<i64>)
    requires CapInvariant(state, ts, cap, limit, readings)
    requires t.now > I64_MIN && Follows(readings, t.now) && (t.rule.cap == cap ==> t.rule.maxActionPerHour <= limit)
    ensures var planned := Decide(env, t.rule, t.event, state, t.now).Planned?;
            CapInvariant(Advance(env, state, t),
                         if planned then Extended(ts, cap, t.rule, t.now) else ts, cap, limit, readings + [t.now])
  {
    if Decide(env, t.rule, t.event, state, t.now).Planned? {
      PlannedFacts(env, state, t);
      CapAdmission(state, ts, cap, limit, t.rule, t.event.key, t.now, readings);
    } else {
      CapReading(state, ts, cap, limit, readings, t.now);
    }
  }

  lemma AttemptKeepsCapInvariant(env: Env, before: seq<Attempt>, t: Attempt, cap: string, limit: nat)
    requires CapInvariant(StateAfter(env, before), CapTimes(Log(env, before), cap), cap, limit, Readings(before))
    requires t.now > I64_MIN && Follows(Readings(before), t.now) &&
             (t.rule.cap == cap ==> t.rule.maxActionPerHour <= limit)
    ensures CapInvariant(StateAfter(env, before + [t]), CapTimes(Log(env, before + [t]), cap),
                         cap, limit, Readings(before + [t]))
  {
    var state, log := StateAfter(env, before), Log(env, before);
    AdvanceKeepsCapInvariant(env, state, CapTimes(log, cap), cap, limit, t, Readings(before));
    assert StateAfter(env, before + [t]) == Advance(env, state, t) by {
      FoldGrows(env, map[], before, t);
    }
    assert CapTimes(Log(env, before + [t]), cap) ==
           if Admitted(env, before, t) then Extended(CapTimes(log, cap), cap, t.rule, t.now)
           else CapTimes(log, cap) by {
      LogGrows(env, map[], before, t);
      CapTimesGrow(log, FireOf(t), cap);
    }
    assert Readings(before + [t]) == Readings(before) + [t.now];
  }

  lemma CapTimesGrow(log: seq<Fire>, f: Fire, cap: string)
    ensures CapTimes(log + [f], cap) == if f.cap == cap then CapTimes(log, cap) + [f.at] else CapTimes(log, cap)
  {
    assert (log + [f])[..|log|] == log;
  }

  // ------------------------------------------------------ runs of deliveries

  function Moments(run: seq<Delivery>): (ts: seq<i64>) {
    seq(|run|, i requires 0 <= i < |run| => run[i].now)
  }

  ghost predicate GapConfigured(run: seq<Delivery>, id: string, gap: nat) {
    forall i, j | 0 <= i < |run| && 0 <= j < |run[i].rules| && run[i].rules[j].id == id ::
      gap <= Debounce(run[i].rules[j])
  }

  ghost predicate RuleConfigured(run: seq<Delivery>, id: string, limit: nat) {
    forall i, j | 0 <= i < |run| && 0 <= j < |run[i].rules| && run[i].rules[j].id == id ::
      run[i].rules[j].maxPerHour <= limit
  }

  /** As configuration demands, no rule is listed twice. */
  ghost predicate DistinctIds(rules: seq<Rule>) {
    forall i, j | 0 <= i < j < |rules| :: rules[i].id != rules[j].id
  }

  ghost predicate RulesDistinct(run: seq<Delivery>) {
    forall i | 0 <= i < |run| :: DistinctIds(run[i].rules)
  }

  /** `limit` bounds what every rule of a capability allows. */
  ghost predicate CapConfigured(run: seq<Delivery>, cap: string, limit: nat) {
    forall i, j | 0 <= i < |run| && 0 <= j < |run[i].rules| && run[i].rules[j].cap == cap ::
      run[i].rules[j].maxActionPerHour <= limit
  }

  ghost predicate FromRun(run: seq<Delivery>, t: Attempt) {
    exists i, j :: 0 <= i < |run| && 0 <= j < |run[i].rules| && run[i].rules[j] == t.rule && run[i].now == t.now
  }

  ghost predicate AllFromRun(run: seq<Delivery>, tries: seq<Attempt>) {
    forall i | 0 <= i < |tries| :: FromRun(run, tries[i])
  }

  lemma {:induction false} AttemptsFromRules(env: Env, rules: seq<Rule>, event: Event, now: i64)
    ensures forall i | 0 <= i < |Attempts(env, rules, event, now)| ::
              Attempts(env, rules, event, now)[i].rule in rules && Attempts(env, rules, event, now)[i].now == now
  {
    if rules != [] {
      AttemptsFromRules(env, rules[..|rules| - 1], event, now);
    }
  }

  lemma {:induction false} AttemptsFromRun(env: Env, run: seq<Delivery>)
    ensures AllFromRun(run, AllAttempts(env, run))
  {
    if run != [] {
      var n := |run| - 1;
      var init, d := run[..n], run[n];
      var past, block := AllAttempts(env, init), Attempts(env, d.rules, d.event, d.now);
      AttemptsFromRun(env, init);
      AttemptsFromRules(env, d.rules, d.event, d.now);
      forall i | 0 <= i < |past| ensures FromRun(run, past[i]) {
        var k, j :| 0 <= k < |init| && 0 <= j < |init[k].rules| &&
                    init[k].rules[j] == past[i].rule && init[k].now == past[i].now;
        assert run[k].rules[j] == past[i].rule;
      }
      forall i | 0 <= i < |block| ensures FromRun(run, block[i]) {
        var j :| 0 <= j < |d.rules| && d.rules[j] == block[i].rule;
        assert run[n].rules[j] == block[i].rule;
      }
    }
  }

  /** The same readings, each as often as its delivery makes attempts. */
  lemma {:induction false} AttemptsFollow(env: Env, run: seq<Delivery>, x: int)
    requires Follows(Moments(run), x)
    ensures Follows(Readings(AllAttempts(env, run)), x)
  {
    if run != [] {
      var n := |run| - 1;
      var init, d := run[..n], run[n];
      var past, block := AllAttempts(env, init), Attempts(env, d.rules, d.event, d.now);
      assert Moments(run) == Moments(init) + [d.now];
      FollowsShorter(Moments(init), d.now, x);
      AttemptsFollow(env, init, x);
      AttemptsFromRun(env, init);
      AttemptsFromRules(env, d.rules, d.event, d.now);
      assert Readings(past + block) == Readings(past) + Readings(block);
      forall i | 0 <= i < |past| ensures Readings(past)[i] in Moments(init) {
        var k, j :| 0 <= k < |init| && 0 <= j < |init[k].rules| &&
                    init[k].rules[j] == past[i].rule && init[k].now == past[i].now;
        assert Moments(init)[k] == past[i].now;
      }
      FollowsBlock(Readings(past), Readings(block), Moments(init), d.now, x);
    }
  }

  lemma FollowsBlock(past: seq<i64>, block: seq<i64>, moments: seq<i64>, now: i64, x: int)
    requires Follows(past, x) && Among(past, moments) && Follows(moments + [now], x)
    requires forall i | 0 <= i < |block| :: block[i] == now
    ensures Follows(past + block, x)
  {
    var all := past + block;
    forall i, k | 0 <= i <= k < |all| && Near(all[i], x) ensures all[k] <= x {
      if k >= |past| {
        if i < |past| {
          PassedMeansPast(moments, now, past[i], x);
        } else {
          assert (moments + [now])[|moments|] == now;
        }
      }
    }
  }

  lemma {:induction false} AttemptsNeverReturn(env: Env, run: seq<Delivery>)
    requires NeverReturns(Moments(run))
    ensures NeverReturns(Readings(AllAttempts(env, run)))
  {
    if run != [] {
      var n := |run| - 1;
      var init, d := run[..n], run[n];
      var past, block := AllAttempts(env, init), Attempts(env, d.rules, d.event, d.now);
      assert Moments(run)[..n] == Moments(init);
      forall j | 0 <= j < n ensures Follows(Moments(init)[..j], Moments(init)[j]) {
        assert Moments(run)[..j] == Moments(init)[..j];
      }
      AttemptsNeverReturn(env, init);
      AttemptsFollow(env, init, d.now);
      AttemptsFromRules(env, d.rules, d.event, d.now);
      NeverReturnsBlock(Readings(past), Readings(block), d.now);
      assert Readings(past + block) == Readings(past) + Readings(block);
    }
  }

  lemma NeverReturnsBlock(past: seq<i64>, block: seq<i64>, now: i64)
    requires NeverReturns(past) && Follows(past, now)
    requires forall i | 0 <= i < |block| :: block[i] == now
    ensures NeverReturns(past + block)
  {
    var all := past + block;
    forall j | 0 <= j < |all| ensures Follows(all[..j], all[j]) {
      if j < |past| {
        assert all[..j] == past[..j];
      } else {
        assert all[..j] == past + block[..j - |past|];
      }
    }
  }

  /** Spacing of the actions the planner returned, over every run of deliveries whose
      accepted transitions were persisted, whatever the clock. */
  lemma PlannerSpacing(env: Env, run: seq<Delivery>, id: string, gap: nat)
    requires GapConfigured(run, id, gap)
    ensures Spaced(RuleTimes(Actions(env, run), id), gap)
  {
    PersistedIsRunOfAttempts(env, run);
    AttemptsFromRun(env, run);
    RuleSpacing(env, AllAttempts(env, run), id, gap);
  }

  /** The smallest reading is followed by none within the hour. */
  ghost predicate SparesMin(ts: seq<i64>) {
    forall i, j | 0 <= i < j < |ts| && ts[i] == I64_MIN :: ts[j] >= I64_MIN + HOUR
  }

  lemma {:induction false} AttemptsDistinct(env: Env, rules: seq<Rule>, event: Event, now: i64, i: nat, j: nat)
    requires DistinctIds(rules) && i < j < |Attempts(env, rules, event, now)|
    ensures Attempts(env, rules, event, now)[i].rule.id != Attempts(env, rules, event, now)[j].rule.id
  {
    var init := rules[..|rules| - 1];
    var tries := Attempts(env, init, event, now);
    if j < |tries| {
      AttemptsDistinct(env, init, event, now, i, j);
    } else {
      AttemptsFromRules(env, init, event, now);
      assert tries[i].rule in init;
    }
  }

  lemma {:induction false} AttemptsSpareMin(env: Env, run: seq<Delivery>, id: string)
    requires SparesMin(Moments(run)) && RulesDistinct(run)
    ensures RuleSparesMin(AllAttempts(env, run), id)
  {
    if run != [] {
      var n := |run| - 1;
      var init, d := run[..n], run[n];
      var past, block := AllAttempts(env, init), Attempts(env, d.rules, d.event, d.now);
      var tries := past + block;
      assert forall m | 0 <= m < n :: Moments(init)[m] == Moments(run)[m];
      AttemptsSpareMin(env, init, id);
      AttemptsFromRun(env, init);
      AttemptsFromRules(env, d.rules, d.event, d.now);
      forall i, j | 0 <= i < j < |tries| && tries[i].rule.id == id && tries[j].rule.id == id && tries[i].now == I64_MIN
        ensures tries[j].now >= I64_MIN + HOUR
      {
        if i >= |past| {
          AttemptsDistinct(env, d.rules, d.event, d.now, i - |past|, j - |past|);
        } else if j >= |past| {
          MomentOf(init, past[i]);
          var m :| 0 <= m < n && Moments(init)[m] == I64_MIN;
          assert Moments(run)[m] == I64_MIN && Moments(run)[n] == d.now;
        }
      }
    }
  }

  /** The per-rule limit for the actions the planner returned, for any clock that
      spares its smallest value. */
  lemma PlannerRuleLimit(env: Env, run: seq<Delivery>, id: string, limit: nat)
    requires RuleConfigured(run, id, limit) && RulesDistinct(run) && SparesMin(Moments(run))
    ensures Limited(RuleTimes(Actions(env, run), id), limit)
  {
    PersistedIsRunOfAttempts(env, run);
    AttemptsFromRun(env, run);
    AttemptsSpareMin(env, run, id);
    RuleLimit(env, AllAttempts(env, run), id, limit);
  }

  /** The action-wide limit for the actions the planner returned, over every run of
      deliveries whose clock never returns to an hour it has left. */
  lemma PlannerActionLimit(env: Env, run: seq<Delivery>, cap: string, limit: nat)
    requires CapConfigured(run, cap, limit) && AfterMin(Moments(run)) && NeverReturns(Moments(run))
    ensures Limited(CapTimes(Actions(env, run), cap), limit)
  {
    var tries := AllAttempts(env, run);
    PersistedIsRunOfAttempts(env, run);
    AttemptsFromRun(env, run);
    forall i | 0 <= i < |tries| ensures tries[i].now > I64_MIN {
      MomentOf(run, tries[i]);
    }
    AttemptsNeverReturn(env, run);
    ActionLimit(env, tries, cap, limit);
  }

  lemma MomentOf(run: seq<Delivery>, t: Attempt)
    requires FromRun(run, t)
    ensures t.now in Moments(run)
  {
    var i, j :| 0 <= i < |run| && 0 <= j < |run[i].rules| && run[i].rules[j] == t.rule && run[i].now == t.now;
    assert Moments(run)[i] == t.now;
  }
}
