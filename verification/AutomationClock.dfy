/** Exactly which clocks keep the planner's two limits. */
module AutomationClock {
  import opened Wrappers
  import opened Automation
  import opened AutomationRuns

  /** Whatever the rules and events, deliveries at these clock readings never exceed a
      capability's limit in any hour. */
  ghost predicate KeepsActionLimits(ts: seq<i64>) {
    forall env: Env, run: seq<Delivery>, cap: string, limit: nat |
      Moments(run) == ts && CapConfigured(run, cap, limit) ::
      Limited(CapTimes(Actions(env, run), cap), limit)
  }

  /** Whatever the rules and events, deliveries at these clock readings never exceed a
      rule's own limit in any hour. */
  ghost predicate KeepsRuleLimits(ts: seq<i64>) {
    forall env: Env, run: seq<Delivery>, id: string, limit: nat |
      Moments(run) == ts && RulesDistinct(run) && RuleConfigured(run, id, limit) ::
      Limited(RuleTimes(Actions(env, run), id), limit)
  }

  // ------------------------------------------------------------ rules that fire

  const PUSH: string := "notify.push"
  const ANY: Env := Env((r, e) => true, (r, e) => Some(map[]))
  const PING: Event := Event("k", "e", None, false)

  /** A rule without debounce, limited to one fire and one action an hour. */
  function Simple(id: string): (r: Rule) {
    Rule(id, true, "e", PUSH, 0, false, 1, 1)
  }

  /** The ledger of such a rule after a fire that left nothing older in its hour. */
  function Only(at: i64): (rs: RuleState) {
    RuleState(None, Some(at), [at], map[PUSH := [at]], {})
  }

  function At(id: string, now: i64): (t: Attempt) {
    Attempt(Simple(id), PING, now)
  }

  /** A window that ends at `now` does not see a fire at `at`. */
  predicate Unseen(at: i64, now: i64) {
    !(SaturatingSub(now, HOUR) < at <= now)
  }

  lemma WindowOfOne(at: i64, lo: int, hi: int)
    ensures InWindow([at], lo, hi) == if lo < at <= hi then [at] else []
  {
    assert InWindow([], lo, hi) == [];
    assert [at][..0] == [];
  }

  lemma FirstFires(now: i64)
    ensures Decide(ANY, Simple("a"), PING, map[], now).Planned?
    ensures Advance(ANY, map[], At("a", now)) == map["a" := Only(now)]
  {
    assert PUSH == SUPPORTED_ACTION_CAPS[2];
    var kept := Prune(FRESH.actionFires, SaturatingSub(now, HOUR), now);
    assert kept == map[];
    var none: seq<i64> := [];
    assert none + [now] == [now];
    assert InWindow([], SaturatingSub(now, HOUR), now) == [];
  }

  lemma NextLedger(at: i64, now: i64)
    requires Unseen(at, now)
    ensures AfterFire(Only(at), Simple("a"), "k", now) == Only(now)
  {
    var lo := SaturatingSub(now, HOUR);
    WindowOfOne(at, lo, now);
    assert Only(at).actionFires[PUSH] == [at];
    assert Prune(Only(at).actionFires, lo, now) == map[];
    var none: seq<i64> := [];
    assert none + [now] == [now];
  }

  /** A second fire is admitted when the first lies outside its window. */
  lemma UnseenFires(at: i64, id: string, now: i64)
    requires Unseen(at, now) && (id == "a" ==> at <= now)
    ensures Decide(ANY, Simple(id), PING, map["a" := Only(at)], now).Planned?
    ensures id == "a" ==> Advance(ANY, map["a" := Only(at)], At("a", now)) == map["a" := Only(now)]
  {
    var state: Ledgers := map["a" := Only(at)];
    var lo := SaturatingSub(now, HOUR);
    assert PUSH == SUPPORTED_ACTION_CAPS[2];
    WindowOfOne(at, lo, now);
    TotalSplits(state, "a", PUSH, lo, now);
    assert state - {"a"} == map[];
    NextLedger(at, now);
  }

  // --------------------------------------------------- runs that break the limit

  /** Rule `a` is delivered an event at readings `i` and `k`, rule `b` at reading `j`. */
  function RulesAt(i: nat, k: nat, j: nat, p: nat): (rules: seq<Rule>) {
    (if p == i || p == k then [Simple("a")] else []) + if p == j then [Simple("b")] else []
  }

  function Script(ts: seq<i64>, i: nat, k: nat, j: nat): (run: seq<Delivery>) {
    seq(|ts|, p requires 0 <= p < |ts| => Delivery(RulesAt(i, k, j, p), PING, ts[p]))
  }

  /** The attempts behind the first `n` deliveries. */
  function Tries(ts: seq<i64>, i: nat, k: nat, j: nat, n: nat): (tries: seq<Attempt>)
    requires i <= k <= j < |ts|
  {
    (if i < n then [At("a", ts[i])] else [])
    + (if i < k < n then [At("a", ts[k])] else [])
    + if j < n then [At("b", ts[j])] else []
  }

  function TriesAt(i: nat, k: nat, j: nat, p: nat, now: i64): (tries: seq<Attempt>) {
    (if p == i || p == k then [At("a", now)] else []) + if p == j then [At("b", now)] else []
  }

  lemma AttemptsAt(i: nat, k: nat, j: nat, p: nat, now: i64)
    ensures Attempts(ANY, RulesAt(i, k, j, p), PING, now) == TriesAt(i, k, j, p, now)
  {
    var a, b := [Simple("a")], [Simple("b")];
    assert Attempts(ANY, [], PING, now) == [];
    assert a[..0] == [] && b[..0] == [] && (a + b)[..1] == a;
  }

  lemma TriesGrow(ts: seq<i64>, i: nat, k: nat, j: nat, p: nat)
    requires i <= k <= j < |ts| && p < |ts|
    ensures Tries(ts, i, k, j, p + 1) == Tries(ts, i, k, j, p) + TriesAt(i, k, j, p, ts[p])
  {
  }

  lemma AllAttemptsGrow(env: Env, run: seq<Delivery>, d: Delivery)
    ensures AllAttempts(env, run + [d]) == AllAttempts(env, run) + Attempts(env, d.rules, d.event, d.now)
  {
    assert (run + [d])[..|run|] == run;
  }

  lemma {:induction false} ScriptAttempts(ts: seq<i64>, i: nat, k: nat, j: nat, n: nat)
    requires i <= k <= j < |ts| && n <= |ts|
    ensures AllAttempts(ANY, Script(ts, i, k, j)[..n]) == Tries(ts, i, k, j, n)
  {
    if n > 0 {
      var run, p := Script(ts, i, k, j), n - 1;
      assert run[..n] == run[..p] + [run[p]];
      AllAttemptsGrow(ANY, run[..p], run[p]);
      ScriptAttempts(ts, i, k, j, p);
      AttemptsAt(i, k, j, p, ts[p]);
      TriesGrow(ts, i, k, j, p);
    }
  }

  lemma OneTry(before: seq<Attempt>, t: Attempt)
    requires Admitted(ANY, before, t)
    ensures StateAfter(ANY, before + [t]) == Advance(ANY, StateAfter(ANY, before), t)
    ensures CapTimes(Log(ANY, before + [t]), t.rule.cap) == CapTimes(Log(ANY, before), t.rule.cap) + [t.now]
    ensures RuleTimes(Log(ANY, before + [t]), t.rule.id) == RuleTimes(Log(ANY, before), t.rule.id) + [t.now]
  {
    FoldGrows(ANY, map[], before, t);
    LogGrows(ANY, map[], before, t);
    RuleTimesGrow(Log(ANY, before), FireOf(t), t.rule.id);
    CapTimesGrow(Log(ANY, before), FireOf(t), t.rule.cap);
  }

  /** Rule `a` has fired, last at `at`, and nothing else has. */
  ghost predicate AlonePushed(tries: seq<Attempt>, times: seq<i64>, at: i64) {
    && StateAfter(ANY, tries) == map["a" := Only(at)]
    && CapTimes(Log(ANY, tries), PUSH) == times && RuleTimes(Log(ANY, tries), "a") == times
  }

  lemma FirstPush(now: i64)
    ensures AlonePushed([At("a", now)], [now], now)
  {
    FirstFires(now);
    OneTry([], At("a", now));
    assert [] + [At("a", now)] == [At("a", now)];
  }

  lemma NextPush(tries: seq<Attempt>, times: seq<i64>, at: i64, now: i64)
    requires AlonePushed(tries, times, at) && Unseen(at, now) && at <= now
    ensures AlonePushed(tries + [At("a", now)], times + [now], now)
  {
    UnseenFires(at, "a", now);
    OneTry(tries, At("a", now));
  }

  lemma OtherPush(tries: seq<Attempt>, times: seq<i64>, at: i64, now: i64)
    requires AlonePushed(tries, times, at) && Unseen(at, now)
    ensures CapTimes(Log(ANY, tries + [At("b", now)]), PUSH) == times + [now]
  {
    UnseenFires(at, "b", now);
    OneTry(tries, At("b", now));
  }

  /** Both fires of `a` are admitted, and `b` fires because it sees neither. */
  lemma ScriptFires(ts: seq<i64>, i: nat, k: nat, j: nat)
    requires i <= k <= j < |ts|
    requires i < k ==> Unseen(ts[i], ts[k]) && ts[i] <= ts[k]
    requires Unseen(ts[k], ts[j])
    ensures CapTimes(Actions(ANY, Script(ts, i, k, j)), PUSH) ==
            [ts[i]] + (if i < k then [ts[k]] else []) + [ts[j]]
  {
    var run := Script(ts, i, k, j);
    PersistedIsRunOfAttempts(ANY, run);
    ScriptAttempts(ts, i, k, j, |ts|);
    assert run[..|ts|] == run;
    TriesPush(ts, i, k, j);
  }

  lemma TriesPush(ts: seq<i64>, i: nat, k: nat, j: nat)
    requires i <= k <= j < |ts|
    requires i < k ==> Unseen(ts[i], ts[k]) && ts[i] <= ts[k]
    requires Unseen(ts[k], ts[j])
    ensures CapTimes(Log(ANY, Tries(ts, i, k, j, |ts|)), PUSH) ==
            [ts[i]] + (if i < k then [ts[k]] else []) + [ts[j]]
  {
    var first: seq<Attempt>, times: seq<i64> := [At("a", ts[i])], [ts[i]];
    FirstPush(ts[i]);
    if i < k {
      NextPush(first, times, ts[i], ts[k]);
      OtherPush(first + [At("a", ts[k])], times + [ts[k]], ts[k], ts[j]);
    } else {
      OtherPush(first, times, ts[k], ts[j]);
      assert first + [] == first && times + [] == times;
    }
  }

  lemma TwoInOneHour(a: i64, middle: seq<i64>, b: i64)
    requires Near(a, b)
    ensures !Limited([a] + middle + [b], 1)
  {
    var from := (if a < b then a else b) - 1;
    CountSnoc([a] + middle, b, from, from + HOUR);
    CountAtLeastHead(a, middle, from, from + HOUR);
    assert HourCount([a] + middle + [b], from) >= 2;
  }

  lemma {:induction false} CountAtLeastHead(a: i64, rest: seq<i64>, lo: int, hi: int)
    requires lo < a <= hi
    ensures Count([a] + rest, lo, hi) >= 1
  {
    if rest == [] {
      WindowOfOne(a, lo, hi);
      assert [a] + rest == [a];
    } else {
      var init, x := rest[..|rest| - 1], rest[|rest| - 1];
      CountAtLeastHead(a, init, lo, hi);
      CountSnoc([a] + init, x, lo, hi);
      assert [a] + rest == [a] + init + [x];
    }
  }

  /** Two rules limited to one action an hour both act within one hour. */
  lemma ScriptBreaks(ts: seq<i64>, i: nat, k: nat, j: nat)
    requires i <= k <= j < |ts| && Near(ts[i], ts[j])
    requires i < k ==> Unseen(ts[i], ts[k]) && ts[i] <= ts[k]
    requires Unseen(ts[k], ts[j])
    ensures !KeepsActionLimits(ts)
  {
    var run := Script(ts, i, k, j);
    assert Moments(run) == ts;
    assert CapConfigured(run, PUSH, 1);
    ScriptFires(ts, i, k, j);
    TwoInOneHour(ts[i], if i < k then [ts[k]] else [], ts[j]);
    assert !Limited(CapTimes(Actions(ANY, run), PUSH), 1);
  }

  /** The action-wide limit holds for every configuration exactly on those clocks that
      never return to an hour they have left, and never read their smallest value. */
  lemma ActionLimitExact(ts: seq<i64>)
    ensures KeepsActionLimits(ts) <==> AfterMin(ts) && NeverReturns(ts)
  {
    if AfterMin(ts) && NeverReturns(ts) {
      forall env: Env, run: seq<Delivery>, cap: string, limit: nat
        | Moments(run) == ts && CapConfigured(run, cap, limit)
        ensures Limited(CapTimes(Actions(env, run), cap), limit)
      {
        PlannerActionLimit(env, run, cap, limit);
      }
    } else if !AfterMin(ts) {
      var m :| 0 <= m < |ts| && ts[m] == I64_MIN;
      ScriptBreaks(ts, m, m, m);
    } else {
      var j :| 0 <= j < |ts| && !Follows(ts[..j], ts[j]);
      var before := ts[..j];
      var i, k :| 0 <= i <= k < |before| && Near(before[i], ts[j]) && before[k] > ts[j];
      ReturnBreaks(ts, i, k, j);
    }
  }

  /** The clock reads `ts[k]`, past `ts[j]`, before it returns to the hour of `ts[i]`. */
  lemma ReturnBreaks(ts: seq<i64>, i: nat, k: nat, j: nat)
    requires i <= k < j < |ts| && Near(ts[i], ts[j]) && ts[k] > ts[j]
    ensures !KeepsActionLimits(ts)
  {
    if Near(ts[k], ts[j]) {
      ScriptBreaks(ts, k, k, j);
    } else if ts[i] > ts[j] {
      ScriptBreaks(ts, i, i, j);
    } else {
      ScriptBreaks(ts, i, k, j);
    }
  }

  /** A clock that steps back by a second breaks the limit; one that steps back by
      an hour or more, to where it has not been, does not. */
  lemma StepsBack(t: i64, back: nat)
    requires t - back > I64_MIN && back > 0
    ensures KeepsActionLimits([t, t - back]) <==> back >= HOUR
  {
    var ts: seq<i64> := [t, t - back];
    ActionLimitExact(ts);
    assert ts[..1] == [t] && ts[..0] == [];
    assert ts[0] == t && ts[1] == t - back;
    assert Follows([t], t - back) <==> back >= HOUR by {
      assert [t][0] == t;
    }
    assert Follows([], t);
    assert NeverReturns(ts) <==> Follows(ts[..0], ts[0]) && Follows(ts[..1], ts[1]);
  }

  // ------------------------------------------------------ one rule on its own

  function SoloRules(i: nat, j: nat, p: nat): (rules: seq<Rule>) {
    if p == i || p == j then [Simple("a")] else []
  }

  /** Rule `a` alone, delivered an event at readings `i` and `j`. */
  function Solo(ts: seq<i64>, i: nat, j: nat): (run: seq<Delivery>) {
    seq(|ts|, p requires 0 <= p < |ts| => Delivery(SoloRules(i, j, p), PING, ts[p]))
  }

  function SoloTries(ts: seq<i64>, i: nat, j: nat, n: nat): (tries: seq<Attempt>)
    requires i < j < |ts|
  {
    (if i < n then [At("a", ts[i])] else []) + if j < n then [At("a", ts[j])] else []
  }

  lemma {:induction false} SoloAttempts(ts: seq<i64>, i: nat, j: nat, n: nat)
    requires i < j < |ts| && n <= |ts|
    ensures AllAttempts(ANY, Solo(ts, i, j)[..n]) == SoloTries(ts, i, j, n)
  {
    if n > 0 {
      var run, p := Solo(ts, i, j), n - 1;
      assert run[..n] == run[..p] + [run[p]];
      AllAttemptsGrow(ANY, run[..p], run[p]);
      SoloAttempts(ts, i, j, p);
      assert Attempts(ANY, [], PING, ts[p]) == [];
      assert [Simple("a")][..0] == [];
    }
  }

  lemma SoloFires(ts: seq<i64>, i: nat, j: nat)
    requires i < j < |ts| && Unseen(ts[i], ts[j]) && ts[i] <= ts[j]
    ensures RuleTimes(Actions(ANY, Solo(ts, i, j)), "a") == [ts[i], ts[j]]
  {
    var run := Solo(ts, i, j);
    PersistedIsRunOfAttempts(ANY, run);
    SoloAttempts(ts, i, j, |ts|);
    assert run[..|ts|] == run;
    FirstPush(ts[i]);
    NextPush([At("a", ts[i])], [ts[i]], ts[i], ts[j]);
  }

  /** A fire at the smallest clock value is invisible within the hour: a rule limited
      to one fire an hour fires twice. */
  lemma SoloBreaks(ts: seq<i64>, i: nat, j: nat)
    requires i < j < |ts| && ts[i] == I64_MIN && ts[j] < I64_MIN + HOUR
    ensures !KeepsRuleLimits(ts)
  {
    var run := Solo(ts, i, j);
    assert Moments(run) == ts;
    assert RulesDistinct(run);
    assert RuleConfigured(run, "a", 1);
    SoloFires(ts, i, j);
    TwoInOneHour(ts[i], [], ts[j]);
    assert [ts[i]] + [] + [ts[j]] == [ts[i], ts[j]];
    assert !Limited(RuleTimes(Actions(ANY, run), "a"), 1);
  }

  /** A rule's own limit holds for every configuration exactly on those clocks that do
      not read a value within the hour after their smallest one; stepping back is
      harmless. */
  lemma RuleLimitExact(ts: seq<i64>)
    ensures KeepsRuleLimits(ts) <==> SparesMin(ts)
  {
    if SparesMin(ts) {
      forall env: Env, run: seq<Delivery>, id: string, limit: nat |
        Moments(run) == ts && RulesDistinct(run) && RuleConfigured(run, id, limit)
        ensures Limited(RuleTimes(Actions(env, run), id), limit)
      {
        PlannerRuleLimit(env, run, id, limit);
      }
    } else {
      var i, j :| 0 <= i < j < |ts| && ts[i] == I64_MIN && ts[j] < I64_MIN + HOUR;
      SoloBreaks(ts, i, j);
    }
  }
}
