/** Once-per-key over whole runs: what the bounded key set remembers, and for which
    deliveries no key fires twice. */
module AutomationOnce {
  import opened Ordering
  import opened Automation
  import opened AutomationRuns

  /** The keys one rule has fired for, in order. */
  function RuleKeys(log: seq<Fire>, id: string): (keys: seq<string>) {
    if log == [] then []
    else
      var init, f := RuleKeys(log[..|log| - 1], id), log[|log| - 1];
      if f.rule == id then init + [f.key] else init
  }

  function KeySet(keys: seq<string>): (s: set<string>) {
    set i | 0 <= i < |keys| :: keys[i]
  }

  ghost predicate NoRepeats(keys: seq<string>) {
    forall i, j | 0 <= i < j < |keys| :: keys[i] != keys[j]
  }

  ghost predicate AlwaysOnce(tries: seq<Attempt>, id: string) {
    forall i | 0 <= i < |tries| && tries[i].rule.id == id :: tries[i].rule.oncePerKey
  }

  lemma RuleKeysGrow(log: seq<Fire>, f: Fire, id: string)
    ensures RuleKeys(log + [f], id) == if f.rule == id then RuleKeys(log, id) + [f.key] else RuleKeys(log, id)
  {
    assert (log + [f])[..|log|] == log;
  }

  lemma {:induction false} RuleKeysConcat(a: seq<Fire>, b: seq<Fire>, id: string)
    ensures RuleKeys(a + b, id) == RuleKeys(a, id) + RuleKeys(b, id)
  {
    if b == [] {
      assert a + b == a;
    } else {
      var init, f := b[..|b| - 1], b[|b| - 1];
      assert a + b == (a + init) + [f];
      RuleKeysGrow(a + init, f, id);
      RuleKeysConcat(a, init, id);
    }
  }

  lemma KeySetGrows(keys: seq<string>, key: string)
    ensures KeySet(keys + [key]) == KeySet(keys) + {key}
  {
    var s, s' := KeySet(keys), KeySet(keys + [key]);
    forall k | k in s ensures k in s' {
      var i :| 0 <= i < |keys| && keys[i] == k;
      assert (keys + [key])[i] == k;
    }
    assert (keys + [key])[|keys|] == key;
  }

  // --------------------------------------------------- what the key set remembers

  /** `kept` are the greatest of the fired keys, as many as the bound allows. */
  ghost predicate Greatest(kept: set<string>, fired: set<string>) {
    && kept <= fired
    && |kept| == (if |fired| <= 2_048 then |fired| else 2_048)
    && forall k, f | k in kept && f in fired && f !in kept :: Leq(f, k)
  }

  lemma CardinalityBound(a: set<string>, b: set<string>)
    requires a <= b
    ensures |a| <= |b| && (|a| == |b| ==> a == b)
  {
    assert b == a + (b - a);
  }

  lemma EvictOnce(keys: set<string>)
    requires |keys| == MAX_ONCE_KEYS + 1
    ensures Evict(keys) == keys - {Smallest(keys)}
  {
    assert |keys - {Smallest(keys)}| == MAX_ONCE_KEYS;
  }

  /** Recording a key that is not in the set, and evicting, keeps the greatest. */
  lemma RecordKeepsGreatest(kept: set<string>, fired: set<string>, key: string)
    requires Greatest(kept, fired) && key !in kept
    ensures Greatest(Evict(kept + {key}), fired + {key})
  {
    var keys, all := kept + {key}, fired + {key};
    CardinalityBound(kept, fired);
    CardinalityBound(fired, all);
    if |keys| <= MAX_ONCE_KEYS {
      assert kept == fired;
    } else {
      var least := Smallest(keys);
      EvictOnce(keys);
      var kept' := keys - {least};
      assert |kept'| == MAX_ONCE_KEYS;
      CardinalityBound(kept', all);
      forall k, f | k in kept' && f in all && f !in kept' ensures Leq(f, k) {
        if f != least && k == key {
          LeqTransitive(f, least, key);
        }
      }
    }
  }

  /** A forgotten key has as many greater keys before it as the set can hold. */
  lemma ForgottenIsBelow(kept: set<string>, fired: set<string>, key: string)
    requires Greatest(kept, fired) && key in fired && key !in kept
    ensures |Above(fired, key)| >= MAX_ONCE_KEYS
  {
    CardinalityBound(kept, fired);
    forall k | k in kept ensures k in Above(fired, key) {
      if Leq(k, key) {
        LeqAntisymmetric(k, key);
      }
    }
    CardinalityBound(kept, Above(fired, key));
  }

  function Above(keys: set<string>, key: string): (above: set<string>) {
    set k | k in keys && !Leq(k, key)
  }

  lemma OncePlanned(env: Env, state: Ledgers, t: Attempt)
    requires Decide(env, t.rule, t.event, state, t.now).Planned? && t.rule.oncePerKey
    ensures t.event.key !in Current(state, t.rule.id).onceKeys
    ensures Current(Advance(env, state, t), t.rule.id).onceKeys ==
            Evict(Current(state, t.rule.id).onceKeys + {t.event.key})
  {
  }

  lemma OtherKept(env: Env, state: Ledgers, t: Attempt, id: string)
    requires t.rule.id != id || !Decide(env, t.rule, t.event, state, t.now).Planned?
    ensures Current(Advance(env, state, t), id) == Current(state, id)
  {
  }

  /** Over every run of attempts, a once-per-key rule's ledger holds exactly the
      greatest keys it has fired for, whatever their order and the clock. */
  lemma {:induction false} KeptAreGreatest(env: Env, tries: seq<Attempt>, id: string)
    requires AlwaysOnce(tries, id)
    ensures Greatest(Current(StateAfter(env, tries), id).onceKeys, KeySet(RuleKeys(Log(env, tries), id)))
  {
    if tries != [] {
      var before, t := tries[..|tries| - 1], tries[|tries| - 1];
      assert before + [t] == tries;
      var state, log := StateAfter(env, before), Log(env, before);
      KeptAreGreatest(env, before, id);
      FoldGrows(env, map[], before, t);
      LogGrows(env, map[], before, t);
      RuleKeysGrow(log, FireOf(t), id);
      if Admitted(env, before, t) && t.rule.id == id {
        OncePlanned(env, state, t);
        KeySetGrows(RuleKeys(log, id), t.event.key);
        RecordKeepsGreatest(Current(state, id).onceKeys, KeySet(RuleKeys(log, id)), t.event.key);
      } else {
        OtherKept(env, state, t, id);
      }
    } else {
      assert KeySet([]) == {};
    }
  }

  /** A full key set does not forget the oldest key but the least one. A fire whose
      key precedes every recorded key is not recorded at all; any other is. */
  lemma FullSetForgetsLeast(current: RuleState, rule: Rule, key: string, now: i64)
    requires rule.oncePerKey && |current.onceKeys| == MAX_ONCE_KEYS && key !in current.onceKeys
    ensures key in AfterFire(current, rule, key, now).onceKeys <==> exists k | k in current.onceKeys :: !Leq(key, k)
    ensures |AfterFire(current, rule, key, now).onceKeys| == MAX_ONCE_KEYS
  {
    var keys := current.onceKeys + {key};
    var least := Smallest(keys);
    EvictOnce(keys);
    if least != key && Leq(key, least) {
      LeqAntisymmetric(key, least);
    }
  }

  // --------------------------------------------------------- runs of deliveries

  function Keys(run: seq<Delivery>): (ks: seq<string>) {
    seq(|run|, i requires 0 <= i < |run| => run[i].event.key)
  }

  ghost predicate OnceConfigured(run: seq<Delivery>, id: string) {
    forall i, j | 0 <= i < |run| && 0 <= j < |run[i].rules| && run[i].rules[j].id == id ::
      run[i].rules[j].oncePerKey
  }

  /** The ledger after every run of deliveries whose transitions were persisted. */
  lemma LedgerHoldsGreatest(env: Env, run: seq<Delivery>, id: string)
    requires OnceConfigured(run, id)
    ensures Greatest(Current(Persisted(env, run), id).onceKeys, KeySet(RuleKeys(Actions(env, run), id)))
  {
    PersistedIsRunOfAttempts(env, run);
    AttemptsFromRun(env, run);
    KeptAreGreatest(env, AllAttempts(env, run), id);
  }

  /** What one event makes of one rule: no fire, or one whose key was not recorded. */
  ghost predicate FiresOnce(state: Ledgers, keys: seq<string>, key: string, id: string) {
    keys == [] || (keys == [key] && key !in Current(state, id).onceKeys)
  }

  /** The attempts have neither fired for the rule nor changed its ledger. */
  ghost predicate Untouched(env: Env, state: Ledgers, tries: seq<Attempt>, id: string) {
    Current(Fold(env, state, tries), id) == Current(state, id) && RuleKeys(LogFrom(env, state, tries), id) == []
  }

  lemma OtherAttempt(env: Env, state: Ledgers, tries: seq<Attempt>, t: Attempt, id: string)
    requires t.rule.id != id
    ensures RuleKeys(LogFrom(env, state, tries + [t]), id) == RuleKeys(LogFrom(env, state, tries), id)
    ensures Untouched(env, state, tries, id) ==> Untouched(env, state, tries + [t], id)
  {
    FoldGrows(env, state, tries, t);
    LogGrows(env, state, tries, t);
    RuleKeysGrow(LogFrom(env, state, tries), FireOf(t), id);
    OtherKept(env, Fold(env, state, tries), t, id);
    assert LogFrom(env, state, tries) + [] == LogFrom(env, state, tries);
  }

  lemma OwnAttempt(env: Env, state: Ledgers, tries: seq<Attempt>, t: Attempt)
    requires t.rule.oncePerKey && Untouched(env, state, tries, t.rule.id)
    ensures FiresOnce(state, RuleKeys(LogFrom(env, state, tries + [t]), t.rule.id), t.event.key, t.rule.id)
  {
    var state' := Fold(env, state, tries);
    LogGrows(env, state, tries, t);
    RuleKeysGrow(LogFrom(env, state, tries), FireOf(t), t.rule.id);
    if Decide(env, t.rule, t.event, state', t.now).Planned? {
      OncePlanned(env, state', t);
    } else {
      assert LogFrom(env, state, tries) + [] == LogFrom(env, state, tries);
    }
  }

  lemma {:induction false} EventFiresOnce(env: Env, state: Ledgers, rules: seq<Rule>, event: Event, now: i64,
                                          id: string)
    requires DistinctIds(rules) && forall j | 0 <= j < |rules| && rules[j].id == id :: rules[j].oncePerKey
    ensures FiresOnce(state, RuleKeys(LogFrom(env, state, Attempts(env, rules, event, now)), id), event.key, id)
    ensures (forall j | 0 <= j < |rules| :: rules[j].id != id) ==>
              Untouched(env, state, Attempts(env, rules, event, now), id)
  {
    if rules != [] {
      var n := |rules| - 1;
      var init, rule := rules[..n], rules[n];
      EventFiresOnce(env, state, init, event, now, id);
      if Considered(env, rule, event) {
        var tries, t := Attempts(env, init, event, now), Attempt(rule, event, now);
        if rule.id != id {
          OtherAttempt(env, state, tries, t, id);
        } else {
          OwnAttempt(env, state, tries, t);
        }
      }
    }
  }

  lemma {:induction false} RuleKeysFromRun(env: Env, run: seq<Delivery>, id: string)
    requires RulesDistinct(run) && OnceConfigured(run, id)
    ensures KeySet(RuleKeys(Actions(env, run), id)) <= KeySet(Keys(run))
  {
    if run != [] {
      var n := |run| - 1;
      var init := run[..n];
      RuleKeysFromRun(env, init, id);
      DeliveryFiresOnce(env, run, id);
      assert Keys(run) == Keys(init) + [run[n].event.key];
      KeySetGrows(Keys(init), run[n].event.key);
      KeySetGrows(RuleKeys(Actions(env, init), id), run[n].event.key);
    }
  }

  /** The last delivery adds at most one fire of a rule, of a key not recorded. */
  lemma DeliveryFiresOnce(env: Env, run: seq<Delivery>, id: string)
    requires run != [] && RulesDistinct(run) && OnceConfigured(run, id)
    ensures var init, key := run[..|run| - 1], run[|run| - 1].event.key;
            var before, after := RuleKeys(Actions(env, init), id), RuleKeys(Actions(env, run), id);
            after == before ||
            (after == before + [key] && key !in Current(Persisted(env, init), id).onceKeys)
  {
    var init, d := run[..|run| - 1], run[|run| - 1];
    var state := Persisted(env, init);
    PlanIsRunOfAttempts(env, state, d.rules, d.event, d.now);
    EventFiresOnce(env, state, d.rules, d.event, d.now, id);
    RuleKeysConcat(Actions(env, init), FiresIn(Plan(env, d.rules, d.event, state, d.now), d.now), id);
  }

  /** Delivery `j` repeats a key after at least as many greater ones as the key set can
      hold. */
  ghost predicate Lapses(ks: seq<string>, j: nat)
    requires j < |ks|
  {
    ks[j] in ks[..j] && |Above(KeySet(ks[..j]), ks[j])| >= MAX_ONCE_KEYS
  }

  ghost predicate NeverLapses(ks: seq<string>) {
    forall j | 0 <= j < |ks| :: !Lapses(ks, j)
  }

  lemma AboveGrows(a: set<string>, b: set<string>, key: string)
    requires a <= b
    ensures |Above(a, key)| <= |Above(b, key)|
  {
    CardinalityBound(Above(a, key), Above(b, key));
  }

  /** While no repeated key has lapsed, a once-per-key rule fires once for each key,
      over every run of deliveries. */
  lemma {:induction false} NeverTwice(env: Env, run: seq<Delivery>, id: string)
    requires RulesDistinct(run) && OnceConfigured(run, id) && NeverLapses(Keys(run))
    ensures NoRepeats(RuleKeys(Actions(env, run), id))
  {
    if run != [] {
      var n := |run| - 1;
      var init, key := run[..n], run[n].event.key;
      var fired := RuleKeys(Actions(env, init), id);
      assert Keys(run)[..n] == Keys(init);
      forall j | 0 <= j < n ensures !Lapses(Keys(init), j) {
        assert Keys(run)[..j] == Keys(init)[..j];
        assert !Lapses(Keys(run), j);
      }
      NeverTwice(env, init, id);
      DeliveryFiresOnce(env, run, id);
      if key in fired && key !in Current(Persisted(env, init), id).onceKeys {
        LedgerHoldsGreatest(env, init, id);
        var k :| 0 <= k < |fired| && fired[k] == key;
        assert key in KeySet(fired);
        ForgottenIsBelow(Current(Persisted(env, init), id).onceKeys, KeySet(fired), key);
        RuleKeysFromRun(env, init, id);
        AboveGrows(KeySet(fired), KeySet(Keys(init)), key);
        assert Lapses(Keys(run), n);
      }
    }
  }

  lemma FewAreKept(env: Env, tries: seq<Attempt>, id: string)
    requires AlwaysOnce(tries, id) && |KeySet(RuleKeys(Log(env, tries), id))| <= MAX_ONCE_KEYS
    ensures Current(StateAfter(env, tries), id).onceKeys == KeySet(RuleKeys(Log(env, tries), id))
  {
    KeptAreGreatest(env, tries, id);
    CardinalityBound(Current(StateAfter(env, tries), id).onceKeys, KeySet(RuleKeys(Log(env, tries), id)));
  }

  lemma NewKeyNoRepeat(keys: seq<string>, key: string)
    requires NoRepeats(keys) && key !in KeySet(keys)
    ensures NoRepeats(keys + [key])
  {
    assert forall i | 0 <= i < |keys| :: keys[i] in KeySet(keys);
  }

  lemma FewerBefore(log: seq<Fire>, f: Fire, id: string)
    ensures |KeySet(RuleKeys(log, id))| <= |KeySet(RuleKeys(log + [f], id))|
  {
    RuleKeysGrow(log, f, id);
    KeySetGrows(RuleKeys(log, id), f.key);
    CardinalityBound(KeySet(RuleKeys(log, id)), KeySet(RuleKeys(log, id)) + {f.key});
  }

  lemma {:induction false} FewFiredOnce(env: Env, tries: seq<Attempt>, id: string)
    requires AlwaysOnce(tries, id) && |KeySet(RuleKeys(Log(env, tries), id))| <= MAX_ONCE_KEYS
    ensures NoRepeats(RuleKeys(Log(env, tries), id))
  {
    if tries != [] {
      var before, t := tries[..|tries| - 1], tries[|tries| - 1];
      assert before + [t] == tries;
      LogGrows(env, map[], before, t);
      if Admitted(env, before, t) {
        FewerBefore(Log(env, before), FireOf(t), id);
        FewFiredOnce(env, before, id);
        RuleKeysGrow(Log(env, before), FireOf(t), id);
        if t.rule.id == id {
          OncePlanned(env, StateAfter(env, before), t);
          FewAreKept(env, before, id);
          NewKeyNoRepeat(RuleKeys(Log(env, before), id), t.event.key);
        }
      } else {
        assert Log(env, tries) == Log(env, before);
        FewFiredOnce(env, before, id);
      }
    }
  }

  /** In particular while a rule has fired for at most `MAX_ONCE_KEYS` distinct keys,
      whatever was delivered: its ledger then holds exactly those keys. */
  lemma OncePerKeyHolds(env: Env, run: seq<Delivery>, id: string)
    requires OnceConfigured(run, id) && |KeySet(RuleKeys(Actions(env, run), id))| <= MAX_ONCE_KEYS
    ensures NoRepeats(RuleKeys(Actions(env, run), id))
    ensures Current(Persisted(env, run), id).onceKeys == KeySet(RuleKeys(Actions(env, run), id))
  {
    PersistedIsRunOfAttempts(env, run);
    AttemptsFromRun(env, run);
    FewFiredOnce(env, AllAttempts(env, run), id);
    LedgerHoldsGreatest(env, run, id);
    CardinalityBound(Current(Persisted(env, run), id).onceKeys, KeySet(RuleKeys(Actions(env, run), id)));
  }
}
