/** Exactly which deliveries keep the once-per-key promise. */
module AutomationLapse {
  import opened Wrappers
  import opened Ordering
  import opened Automation
  import opened AutomationRuns
  import opened AutomationOnce
  import opened AutomationClock

  /** Whatever the rules and the clock, deliveries of these keys never make a
      once-per-key rule fire twice for one key. */
  ghost predicate KeepsOnce(ks: seq<string>) {
    forall env: Env, run: seq<Delivery>, id: string |
      Keys(run) == ks && RulesDistinct(run) && OnceConfigured(run, id) ::
      NoRepeats(RuleKeys(Actions(env, run), id))
  }

  // ------------------------------------------------ one rule at one clock reading

  const U16_MAX: nat := 65_535

  /** A once-per-key rule without debounce and with the largest limits there are. */
  const ONCE: Rule := Rule("a", true, "e", PUSH, 0, true, U16_MAX, U16_MAX)

  function Ping(key: string): (e: Event) {
    Event(key, "e", None, false)
  }

  function Zeros(n: nat): (ts: seq<i64>) {
    seq(n, i => 0)
  }

  /** Its ledger after `n` fires at instant zero. */
  function Ledger(n: nat, once: set<string>): (rs: RuleState) {
    RuleState(None, Some(0), Zeros(n), map[PUSH := Zeros(n)], once)
  }

  function StateOf(n: nat, once: set<string>): (state: Ledgers) {
    if n == 0 then map[] else map["a" := Ledger(n, once)]
  }

  lemma {:induction false} ZerosStay(n: nat)
    ensures InWindow(Zeros(n), -HOUR, 0) == Zeros(n)
  {
    if n > 0 {
      ZerosStay(n - 1);
      assert Zeros(n)[..n - 1] == Zeros(n - 1);
      assert Zeros(n) == Zeros(n - 1) + [0];
    }
  }

  lemma PruneZeros(n: nat)
    ensures Prune(map[PUSH := Zeros(n)], -HOUR, 0) == if n == 0 then map[] else map[PUSH := Zeros(n)]
  {
    ZerosStay(n);
    var fires := map[PUSH := Zeros(n)];
    assert fires[PUSH] == Zeros(n);
  }

  lemma LedgerGrows(n: nat, once: set<string>, key: string)
    requires n > 0
    ensures AfterFire(Ledger(n, once), ONCE, key, 0) == Ledger(n + 1, Evict(once + {key}))
  {
    var rs := Ledger(n, once);
    var next := AfterFire(rs, ONCE, key, 0);
    assert Zeros(n) + [0] == Zeros(n + 1);
    assert next.recentFires == Zeros(n + 1) by {
      ZerosStay(n);
    }
    assert next.actionFires == map[PUSH := Zeros(n + 1)] by {
      PruneZeros(n);
      var kept := Prune(rs.actionFires, SaturatingSub(0, HOUR), 0);
      assert kept == map[PUSH := Zeros(n)] && kept[PUSH] == Zeros(n);
    }
  }

  lemma FirstLedger(key: string)
    ensures AfterFire(FRESH, ONCE, key, 0) == Ledger(1, Evict({} + {key}))
  {
    assert Prune(FRESH.actionFires, -HOUR, 0) == map[];
    assert InWindow([], -HOUR, 0) == [];
    var none: seq<i64> := [];
    assert none + [0] == Zeros(1);
  }

  lemma TotalOfOne(n: nat, once: set<string>)
    ensures Total(StateOf(n, once), PUSH, -HOUR, 0) == n
  {
    if n > 0 {
      var state := StateOf(n, once);
      ZerosStay(n);
      TotalSplits(state, "a", PUSH, -HOUR, 0);
      assert state - {"a"} == map[];
    }
  }

  /** With its limits not reached, the rule fires exactly when the key is not recorded. */
  lemma FiresUnlessRecorded(n: nat, once: set<string>, key: string)
    requires n < U16_MAX && (n == 0 ==> once == {})
    ensures Decide(ANY, ONCE, Ping(key), StateOf(n, once), 0) ==
            if key in once then Skipped("a", key, SkipReason.OncePerKey)
            else Planned("a", key, PUSH, map[], Ledger(n + 1, Evict(once + {key})))
  {
    TotalOfOne(n, once);
    var state := StateOf(n, once);
    assert Current(state, "a").onceKeys == once && Current(state, "a").enabledOverride.None?;
    assert AfterFire(Current(state, "a"), ONCE, key, 0) == Ledger(n + 1, Evict(once + {key})) by {
      if n == 0 {
        FirstLedger(key);
      } else {
        LedgerGrows(n, once, key);
      }
    }
    assert Count(Current(state, "a").recentFires, -HOUR, 0) == n by {
      ZerosStay(n);
    }
    OnceDecided(state, key, n);
  }

  lemma OnceDecided(state: Ledgers, key: string, n: nat)
    requires n < U16_MAX && Total(state, PUSH, -HOUR, 0) == n
    requires Count(Current(state, "a").recentFires, -HOUR, 0) == n
    requires Current(state, "a").enabledOverride.None?
    requires Current(state, "a").lastFiredAt.Some? ==> Current(state, "a").lastFiredAt.value == 0
    ensures Decide(ANY, ONCE, Ping(key), state, 0) ==
            if key in Current(state, "a").onceKeys then Skipped("a", key, SkipReason.OncePerKey)
            else Planned("a", key, PUSH, map[], AfterFire(Current(state, "a"), ONCE, key, 0))
  {
    assert PUSH == SUPPORTED_ACTION_CAPS[2];
  }

  lemma PlanOfOne(rule: Rule, event: Event, state: Ledgers, now: i64)
    requires event.targetRule.None? && rule.event == event.kind
    ensures Plan(ANY, [], event, state, now) == []
    ensures Plan(ANY, [rule], event, state, now) == [Decide(ANY, rule, event, state, now)]
  {
    assert [rule][..0] == [];
    assert Persist(state, []) == state;
  }

  lemma OneDecision(state: Ledgers, d: Decision, now: i64)
    ensures Persist(state, [d]) == if d.Planned? then state[d.ruleId := d.next] else state
    ensures RuleKeys(FiresIn([d], now), "a") == if d.Planned? && d.ruleId == "a" then [d.key] else []
  {
    DecisionSnoc(state, [], d, now);
    assert [] + [d] == [d] && FiresIn([], now) == [];
    if d.Planned? {
      RuleKeysGrow([], Fire(d.ruleId, d.key, d.cap, now), "a");
    }
  }

  // ---------------------------------------------------------- runs that repeat

  /** The chosen keys are delivered to the rule, the others to no rule. */
  function Keyed(ks: seq<string>, chosen: set<string>): (run: seq<Delivery>) {
    seq(|ks|, p requires 0 <= p < |ks| => Delivery(if ks[p] in chosen then [ONCE] else [], Ping(ks[p]), 0))
  }

  /** What such a run comes to: the keys that fire, and those on record. */
  datatype Record = Record(keys: seq<string>, once: set<string>)

  function Noted(r: Record, key: string): (r': Record) {
    if key in r.once then r else Record(r.keys + [key], Evict(r.once + {key}))
  }

  function Replay(ks: seq<string>, chosen: set<string>): (r: Record) {
    if ks == [] then Record([], {})
    else
      var before, key := Replay(ks[..|ks| - 1], chosen), ks[|ks| - 1];
      if key in chosen then Noted(before, key) else before
  }

  lemma ReplayGrows(ks: seq<string>, key: string, chosen: set<string>)
    ensures Replay(ks + [key], chosen) ==
            if key in chosen then Noted(Replay(ks, chosen), key) else Replay(ks, chosen)
  {
    assert (ks + [key])[..|ks|] == ks;
  }

  lemma {:induction false} ReplayPrefix(ks: seq<string>, rest: seq<string>, chosen: set<string>)
    ensures Replay(ks, chosen).keys <= Replay(ks + rest, chosen).keys
    decreases |rest|
  {
    if rest == [] {
      assert ks + rest == ks;
    } else {
      var init, key := rest[..|rest| - 1], rest[|rest| - 1];
      assert ks + rest == (ks + init) + [key];
      ReplayPrefix(ks, init, chosen);
      ReplayGrows(ks + init, key, chosen);
    }
  }

  lemma {:induction false} ReplayKeepsGreatest(ks: seq<string>, chosen: set<string>)
    ensures Greatest(Replay(ks, chosen).once, KeySet(Replay(ks, chosen).keys))
  {
    if ks == [] {
      assert KeySet([]) == {};
    } else {
      var before, key := Replay(ks[..|ks| - 1], chosen), ks[|ks| - 1];
      ReplayKeepsGreatest(ks[..|ks| - 1], chosen);
      if key in chosen && key !in before.once {
        RecordKeepsGreatest(before.once, KeySet(before.keys), key);
        KeySetGrows(before.keys, key);
      }
    }
  }

  /** The actions and the ledger that a run has come to. */
  ghost predicate Reached(run: seq<Delivery>, r: Record) {
    && Persisted(ANY, run) == StateOf(|r.keys|, r.once)
    && RuleKeys(Actions(ANY, run), "a") == r.keys
    && (r.keys == [] ==> r.once == {})
  }

  lemma DeliveryGrows(run: seq<Delivery>, d: Delivery)
    ensures var state := Persisted(ANY, run);
            var plan := Plan(ANY, d.rules, d.event, state, d.now);
            && Persisted(ANY, run + [d]) == Persist(state, plan)
            && RuleKeys(Actions(ANY, run + [d]), "a") ==
               RuleKeys(Actions(ANY, run), "a") + RuleKeys(FiresIn(plan, d.now), "a")
  {
    var all := run + [d];
    assert all[..|run|] == run && all[|run|] == d;
    RuleKeysConcat(Actions(ANY, run), FiresIn(Plan(ANY, d.rules, d.event, Persisted(ANY, run), d.now), d.now), "a");
  }

  /** The decision on one key, persisted, is what the replay notes. */
  lemma DecisionIsNoted(r: Record, key: string, d: Decision)
    requires d == if key in r.once then Skipped("a", key, SkipReason.OncePerKey)
                  else Planned("a", key, PUSH, map[], Ledger(|r.keys| + 1, Evict(r.once + {key})))
    ensures Persist(StateOf(|r.keys|, r.once), [d]) == StateOf(|Noted(r, key).keys|, Noted(r, key).once)
    ensures r.keys + RuleKeys(FiresIn([d], 0), "a") == Noted(r, key).keys
  {
    var state := StateOf(|r.keys|, r.once);
    OneDecision(state, d, 0);
    if key !in r.once {
      var next := Ledger(|r.keys| + 1, Evict(r.once + {key}));
      assert state["a" := next] == map["a" := next];
    }
  }

  lemma DeliverKey(run: seq<Delivery>, r: Record, key: string)
    requires Reached(run, r) && |r.keys| < U16_MAX
    ensures Reached(run + [Delivery([ONCE], Ping(key), 0)], Noted(r, key))
  {
    var state := StateOf(|r.keys|, r.once);
    DeliveryGrows(run, Delivery([ONCE], Ping(key), 0));
    PlanOfOne(ONCE, Ping(key), state, 0);
    FiresUnlessRecorded(|r.keys|, r.once, key);
    DecisionIsNoted(r, key, Decide(ANY, ONCE, Ping(key), state, 0));
  }

  lemma DeliverToNone(run: seq<Delivery>, r: Record, key: string)
    requires Reached(run, r)
    ensures Reached(run + [Delivery([], Ping(key), 0)], r)
  {
    DeliveryGrows(run, Delivery([], Ping(key), 0));
    PlanOfOne(ONCE, Ping(key), Persisted(ANY, run), 0);
  }

  lemma KeyedGrows(ks: seq<string>, key: string, chosen: set<string>)
    ensures Keyed(ks + [key], chosen) ==
            Keyed(ks, chosen) + [Delivery(if key in chosen then [ONCE] else [], Ping(key), 0)]
  {
  }

  lemma ReplaySteps(ks: seq<string>, key: string, chosen: set<string>)
    requires Reached(Keyed(ks, chosen), Replay(ks, chosen)) && |Replay(ks, chosen).keys| < U16_MAX
    ensures Reached(Keyed(ks + [key], chosen), Replay(ks + [key], chosen))
  {
    KeyedGrows(ks, key, chosen);
    ReplayGrows(ks, key, chosen);
    if key in chosen {
      DeliverKey(Keyed(ks, chosen), Replay(ks, chosen), key);
    } else {
      DeliverToNone(Keyed(ks, chosen), Replay(ks, chosen), key);
    }
  }

  /** The planner's run over the keyed deliveries is the replay. */
  lemma {:induction false} RunIsReplay(ks: seq<string>, chosen: set<string>)
    requires |Replay(ks, chosen).keys| < U16_MAX
    ensures Reached(Keyed(ks, chosen), Replay(ks, chosen))
  {
    if ks == [] {
      assert Keyed(ks, chosen) == [];
    } else {
      var init, key := ks[..|ks| - 1], ks[|ks| - 1];
      assert ks == init + [key];
      ReplayPrefix(init, [key], chosen);
      RunIsReplay(init, chosen);
      ReplaySteps(init, key, chosen);
    }
  }

  lemma {:induction false} DistinctCount(keys: seq<string>)
    requires NoRepeats(keys)
    ensures |KeySet(keys)| == |keys|
  {
    if keys != [] {
      var init, key := keys[..|keys| - 1], keys[|keys| - 1];
      assert init + [key] == keys;
      DistinctCount(init);
      KeySetGrows(init, key);
      assert key !in KeySet(init);
    } else {
      assert KeySet(keys) == {};
    }
  }

  /** Every chosen key delivered has fired. */
  lemma {:induction false} ChosenHaveFired(ks: seq<string>, chosen: set<string>)
    ensures KeySet(Replay(ks, chosen).keys) == chosen * KeySet(ks)
  {
    if ks == [] {
      assert KeySet([]) == {};
    } else {
      var init, key := ks[..|ks| - 1], ks[|ks| - 1];
      var before := Replay(init, chosen);
      assert ks == init + [key];
      KeySetGrows(init, key);
      KeySetGrows(before.keys, key);
      ChosenHaveFired(init, chosen);
      ReplayKeepsGreatest(init, chosen);
    }
  }

  /** The chosen keys are one more than the key set can hold, all have been delivered,
      and the least of them comes again: it fires again. */
  lemma LapseRefires(ks: seq<string>, chosen: set<string>, key: string)
    requires chosen <= KeySet(ks) && |chosen| == MAX_ONCE_KEYS + 1
    requires key in chosen && forall k | k in chosen && k != key :: !Leq(k, key)
    ensures !NoRepeats(Replay(ks + [key], chosen).keys)
  {
    var r := Replay(ks, chosen);
    ReplayGrows(ks, key, chosen);
    ChosenHaveFired(ks, chosen);
    ReplayKeepsGreatest(ks, chosen);
    assert KeySet(r.keys) == chosen;
    LeastIsForgotten(r.once, chosen, key);
    var i :| 0 <= i < |r.keys| && r.keys[i] == key;
    assert Replay(ks + [key], chosen).keys == r.keys + [key];
    assert (r.keys + [key])[i] == (r.keys + [key])[|r.keys|];
  }

  lemma LeastIsForgotten(kept: set<string>, fired: set<string>, key: string)
    requires Greatest(kept, fired) && |fired| == MAX_ONCE_KEYS + 1
    requires key in fired && forall k | k in fired && k != key :: !Leq(k, key)
    ensures key !in kept
  {
    CardinalityBound(kept, fired);
    assert kept != fired;
    var f :| f in fired && f !in kept;
  }

  /** Delivered to the rule, the first of those repeats already shows as a repeated
      action: up to it the rule has fired once for each chosen key. */
  lemma LapseRepeats(ks: seq<string>, chosen: set<string>, j: nat)
    requires j < |ks| && chosen <= KeySet(ks[..j]) && |chosen| == MAX_ONCE_KEYS + 1
    requires ks[j] in chosen && forall k | k in chosen && k != ks[j] :: !Leq(k, ks[j])
    ensures !NoRepeats(RuleKeys(Actions(ANY, Keyed(ks, chosen)), "a"))
  {
    assert ks[..j + 1] == ks[..j] + [ks[j]];
    LapseRefires(ks[..j], chosen, ks[j]);
    var n := FirstRepeat(ks[..j + 1], chosen);
    assert ks[..j + 1][..n] == ks[..n];
    RunIsReplay(ks[..n], chosen);
    assert Keyed(ks, chosen)[..n] == Keyed(ks[..n], chosen);
    ActionsPrefix(Keyed(ks, chosen), n);
    RepeatsPersist(Actions(ANY, Keyed(ks, chosen)[..n]), Actions(ANY, Keyed(ks, chosen)));
  }

  lemma {:induction false} FirstRepeat(ks: seq<string>, chosen: set<string>) returns (n: nat)
    requires !NoRepeats(Replay(ks, chosen).keys) && |chosen| + 1 < U16_MAX
    ensures n <= |ks| && !NoRepeats(Replay(ks[..n], chosen).keys) && |Replay(ks[..n], chosen).keys| < U16_MAX
    decreases |ks|
  {
    assert ks != [];
    var m := |ks| - 1;
    var init := ks[..m];
    assert ks == init + [ks[m]] && ks[..|ks|] == ks;
    if NoRepeats(Replay(init, chosen).keys) {
      n := |ks|;
      DistinctCount(Replay(init, chosen).keys);
      ChosenHaveFired(init, chosen);
      CardinalityBound(chosen * KeySet(init), chosen);
      ReplayGrows(init, ks[m], chosen);
    } else {
      n := FirstRepeat(init, chosen);
      assert init[..n] == ks[..n];
    }
  }

  lemma {:induction false} ActionsPrefix(run: seq<Delivery>, n: nat)
    requires n <= |run|
    ensures Actions(ANY, run[..n]) <= Actions(ANY, run)
    decreases |run|
  {
    if n == |run| {
      assert run[..n] == run;
    } else {
      var init := run[..|run| - 1];
      assert init[..n] == run[..n];
      ActionsPrefix(init, n);
    }
  }

  lemma RepeatsPersist(log: seq<Fire>, longer: seq<Fire>)
    requires log <= longer && !NoRepeats(RuleKeys(log, "a"))
    ensures !NoRepeats(RuleKeys(longer, "a"))
  {
    RuleKeysConcat(log, longer[|log|..], "a");
    assert longer == log + longer[|log|..];
    var keys, all := RuleKeys(log, "a"), RuleKeys(longer, "a");
    var i, j :| 0 <= i < j < |keys| && keys[i] == keys[j];
    assert all[i] == all[j];
  }

  lemma {:induction false} SubsetOfSize(s: set<string>, n: nat) returns (t: set<string>)
    requires n <= |s|
    ensures t <= s && |t| == n
    decreases |s|
  {
    if n == |s| {
      t := s;
    } else {
      var x :| x in s;
      t := SubsetOfSize(s - {x}, n);
    }
  }

  lemma KeyedConfigured(ks: seq<string>, chosen: set<string>)
    ensures RulesDistinct(Keyed(ks, chosen)) && OnceConfigured(Keyed(ks, chosen), "a") && Keys(Keyed(ks, chosen)) == ks
  {
  }

  lemma LapseBreaks(ks: seq<string>, j: nat)
    requires j < |ks| && Lapses(ks, j)
    ensures !KeepsOnce(ks)
  {
    var key := ks[j];
    var above := SubsetOfSize(Above(KeySet(ks[..j]), key), MAX_ONCE_KEYS);
    var chosen := above + {key};
    LeqTotal(key, key);
    assert key !in above && |chosen| == MAX_ONCE_KEYS + 1;
    var i :| 0 <= i < j && ks[..j][i] == key;
    assert key in KeySet(ks[..j]);
    LapseRepeats(ks, chosen, j);
    var run := Keyed(ks, chosen);
    KeyedConfigured(ks, chosen);
    assert !NoRepeats(RuleKeys(Actions(ANY, run), "a"));
  }

  /** For every sequence of delivered keys: no configuration makes a once-per-key rule
      fire twice for one key exactly when no key is repeated after 2,048 greater ones. */
  lemma OncePerKeyExact(ks: seq<string>)
    ensures KeepsOnce(ks) <==> NeverLapses(ks)
  {
    if NeverLapses(ks) {
      forall env: Env, run: seq<Delivery>, id: string | Keys(run) == ks && RulesDistinct(run) && OnceConfigured(run, id)
        ensures NoRepeats(RuleKeys(Actions(env, run), id))
      {
        NeverTwice(env, run, id);
      }
    } else {
      var j :| 0 <= j < |ks| && Lapses(ks, j);
      LapseBreaks(ks, j);
    }
  }

  // --------------------------------------------------------- a run in the concrete

  /** `b`, `bb`, `bbb` and so on. */
  function Later(n: nat): (key: string) {
    seq(n + 1, i => 'b')
  }

  /** `a`, then 2,048 keys that follow it in the alphabet, then `a` again. */
  const FLOOD: seq<string> := ["a"] + seq(MAX_ONCE_KEYS, i requires 0 <= i < MAX_ONCE_KEYS => Later(i)) + ["a"]

  lemma {:induction false} LaterCount(n: nat)
    ensures |KeySet(seq(n, i requires 0 <= i < n => Later(i)))| == n
  {
    var keys := seq(n, i requires 0 <= i < n => Later(i));
    assert forall i | 0 <= i < n :: |keys[i]| == i + 1;
    DistinctCount(keys);
  }

  /** The key `a` is forgotten by the time it returns, and its rule fires again. */
  lemma FloodRepeats()
    ensures !NoRepeats(RuleKeys(Actions(ANY, Keyed(FLOOD, KeySet(FLOOD))), "a"))
  {
    var j := MAX_ONCE_KEYS + 1;
    var later := seq(MAX_ONCE_KEYS, i requires 0 <= i < MAX_ONCE_KEYS => Later(i));
    var first := ["a"] + later;
    assert FLOOD[..j] == first && FLOOD[j] == "a" && FLOOD == first + ["a"];
    LaterCount(MAX_ONCE_KEYS);
    FloodKeys(later);
    LapseRepeats(FLOOD, KeySet(FLOOD), j);
  }

  lemma FloodKeys(later: seq<string>)
    requires forall i | 0 <= i < |later| :: later[i] != [] && later[i][0] == 'b'
    ensures KeySet(["a"] + later) == KeySet(later) + {"a"} == KeySet(["a"] + later + ["a"])
    ensures forall k | k in KeySet(later) :: k != "a" && !Leq(k, "a")
    ensures |KeySet(["a"] + later)| == |KeySet(later)| + 1
  {
    var first := ["a"] + later;
    KeySetGrows(first, "a");
    forall k ensures k in KeySet(first) <==> k in KeySet(later) + {"a"} {
      if k in KeySet(later) {
        var i :| 0 <= i < |later| && later[i] == k;
        assert first[i + 1] == k;
      }
      assert first[0] == "a";
    }
  }
}
