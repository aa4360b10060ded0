/** When series names meet before repeated ones are numbered: exactly which characters
    in label keys and in metric names make that possible. */
module NameCollisions {
  import opened Wrappers
  import opened Ordering
  import opened LabelText
  import opened SeriesNames

  // --------------------------------------- which characters label keys may use

  /** The characters a key would have to combine to look like several labels. */
  const SYNTAX: set<char> := {'=', '"', ','}

  ghost predicate KeysOver(labels: Labels, chars: set<char>) {
    forall k | k in labels && k != METRIC_NAME :: forall c | c in k :: c in chars
  }

  /** Whatever the response, as long as its label keys use only these characters, two
      series of one metric with different labels get different names. */
  ghost predicate LabelsTell(chars: set<char>) {
    forall items: seq<Item>, i: nat, j: nat | i < j < |items| && TwoOfOneMetric(items[i], items[j], chars) ::
      NameOf(items, i) != NameOf(items, j)
  }

  ghost predicate TwoOfOneMetric(a: Item, b: Item, chars: set<char>) {
    && FromMetric(a) && FromMetric(b) && KeysOver(a.labels, chars) && KeysOver(b.labels, chars)
    && Base(a) == Base(b) && a.labels != b.labels
  }

  lemma {:induction false} OpensNeedsBoth(k: string)
    requires Opens(k)
    ensures '=' in k && '"' in k
  {
    if !(k[0] == '=' && k[1] == '"') {
      OpensNeedsBoth(k[1..]);
    }
  }

  lemma LackingIsLegible(a: Labels, b: Labels, chars: set<char>, c: char)
    requires KeysOver(a, chars) && KeysOver(b, chars) && c in SYNTAX && c !in chars
    ensures Legible(a.Keys + b.Keys)
  {
    var keys := a.Keys + b.Keys;
    assert '=' !in METRIC_NAME && '"' !in METRIC_NAME && ',' !in METRIC_NAME;
    assert forall k | k in keys :: c !in k;
    if c != ',' {
      forall k | k in keys ensures !Opens(k) {
        if Opens(k) {
          OpensNeedsBoth(k);
        }
      }
    }
  }

  lemma LackingTells(chars: set<char>, c: char)
    requires c in SYNTAX && c !in chars
    ensures LabelsTell(chars)
  {
    forall items: seq<Item>, i: nat, j: nat | i < j < |items| && TwoOfOneMetric(items[i], items[j], chars)
      ensures NameOf(items, i) != NameOf(items, j)
    {
      LackingIsLegible(items[i].labels, items[j].labels, chars, c);
      NamesDiffer(items, i, j);
    }
  }

  lemma SyntaxSuffices(chars: set<char>)
    requires SYNTAX <= chars
    ensures TwoOfOneMetric(Item(None, SPLIT), Item(None, FUSED), chars)
  {
    SplitFromFused();
    assert forall k | k in SPLIT || k in FUSED :: forall c | c in k :: c in SYNTAX;
    assert METRIC_NAME !in SPLIT && METRIC_NAME !in FUSED;
  }

  lemma SharedNameBreaks(items: seq<Item>, chars: set<char>)
    requires |items| == 2 && TwoOfOneMetric(items[0], items[1], chars) && NameOf(items, 0) == NameOf(items, 1)
    ensures !LabelsTell(chars)
  {
  }

  lemma SyntaxBreaks(chars: set<char>)
    requires SYNTAX <= chars
    ensures !LabelsTell(chars)
  {
    SyntaxCollides();
    SyntaxSuffices(chars);
    SharedNameBreaks([Item(None, SPLIT), Item(None, FUSED)], chars);
  }

  /** Labels always tell series of one metric apart exactly when label keys may not use
      all three of equals sign, quote and comma. */
  lemma LabelKeysExact(chars: set<char>)
    ensures LabelsTell(chars) <==> !(SYNTAX <= chars)
  {
    if SYNTAX <= chars {
      SyntaxBreaks(chars);
    } else {
      var c :| c in SYNTAX && c !in chars;
      LackingTells(chars, c);
    }
  }

  const SPLIT: Labels := map["" := "", "=" := ""]
  const FUSED_KEY: string := "=\"\",="
  const FUSED: Labels := map[FUSED_KEY := ""]
  const RENDERED: string := "=\"\",==\"\""

  /** A key made of those three characters looks like two labels. */
  lemma SyntaxCollides()
    ensures SPLIT != FUSED
    ensures var items := [Item(None, SPLIT), Item(None, FUSED)];
            NameOf(items, 0) == NameOf(items, 1) == "{" + RENDERED + "}"
  {
    var a, b := Item(None, SPLIT), Item(None, FUSED);
    var items := [a, b];
    assert Group(items, "") == [SPLIT, FUSED] by {
      GroupSnoc([], a, "");
      GroupSnoc([a], b, "");
      assert [] + [a] == [a] && [a] + [b] == items;
    }
    SplitFromFused();
    SplitRendered();
    FusedRendered();
    LabelsOnly([SPLIT, FUSED], SPLIT, 0, {"", "="});
    LabelsOnly([SPLIT, FUSED], FUSED, 1, {FUSED_KEY});
  }

  lemma LabelsOnly(group: seq<Labels>, labels: Labels, index: nat, keys: set<string>)
    requires labels != map[] && keys != {} && keys == Distinguishing(group, "") * labels.Keys
    ensures NameIn(group, "", labels, index) == "{" + LabelSet(Ascending(keys), labels) + "}"
  {
    assert Distinguishing(group, "") != {};
    assert "" + "{" == "{";
  }

  lemma SplitFromFused()
    ensures SPLIT != FUSED && SPLIT != map[] && FUSED != map[]
    ensures var d := Distinguishing([SPLIT, FUSED], "");
            d * SPLIT.Keys == {"", "="} && d * FUSED.Keys == {FUSED_KEY}
  {
    var group := [SPLIT, FUSED];
    assert |FUSED_KEY| == 5 && "" in SPLIT && "=" in SPLIT && FUSED_KEY in FUSED;
    assert FUSED_KEY !in SPLIT && "" !in FUSED && "=" !in FUSED;
    assert forall k | k in SPLIT || k in FUSED :: Lookup(group[0], k) != Lookup(group[1], k);
    assert forall k | k in SPLIT :: k in group[0].Keys;
    assert forall k | k in FUSED :: k in group[1].Keys;
  }

  lemma OneKey(key: string)
    ensures Ascending({key}) == [key]
  {
    assert Smallest({key}) == key && {key} - {key} == {};
    assert Ascending({}) == [];
  }

  lemma FusedRendered()
    ensures LabelSet(Ascending({FUSED_KEY}), FUSED) == RENDERED
  {
    OneKey(FUSED_KEY);
    assert LabelSet([FUSED_KEY], FUSED) == Pair(FUSED_KEY, "") == RENDERED;
  }

  lemma SplitRendered()
    ensures LabelSet(Ascending({"", "="}), SPLIT) == RENDERED
  {
    assert Leq("", "=") && !Leq("=", "");
    assert Smallest({"", "="}) == "" && {"", "="} - {""} == {"="};
    OneKey("=");
    assert Ascending({"", "="}) == ["", "="] && ["", "="][1..] == ["="];
    assert LabelSet(["="], SPLIT) == Pair("=", "") == "==\"\"";
    assert Pair("", "") == "=\"\"";
  }

  // ------------------------------------------------------- across metrics

  /** The series bears none of the labels that tell its metric's series apart, so that
      its metric alone is its name. */
  predicate Plain(items: seq<Item>, i: nat)
    requires i < |items|
  {
    var base := Base(items[i]);
    base != "" && Distinguishing(Group(items, base), base) * items[i].labels.Keys == {}
  }

  /** The series has neither a metric nor a label. */
  predicate Nameless(item: Item) {
    Base(item) == "" && item.labels == map[]
  }

  function Fallback(index: nat): (name: string) {
    FALLBACK_PREFIX + "_" + Decimal(index)
  }

  /** Every name is a bare metric, a fallback, or a metric followed by a brace. */
  lemma NameKinds(items: seq<Item>, i: nat)
    requires i < |items|
    ensures var base, name := Base(items[i]), NameOf(items, i);
            if Plain(items, i) then name == base
            else if Nameless(items[i]) then name == Fallback(i)
            else base + "{" <= name
  {
    var base, labels := Base(items[i]), items[i].labels;
    var group := Group(items, base);
    if |group| == 1 {
      assert Distinguishing(group, base) == {};
    }
    if base != "" && labels.Keys <= {METRIC_NAME} {
      assert Distinguishing(group, base) * labels.Keys == {};
    }
  }

  lemma FirstBrace(a: string, s: string, b: string, t: string)
    requires '{' !in a && '{' !in b && a + "{" <= s && b + "{" <= t && s == t
    ensures a == b
  {
    assert s[|a|] == '{' && t[|b|] == '{';
    assert a == s[..|a|] && b == t[..|b|];
  }

  lemma BraceInside(a: string, s: string)
    requires a + "{" <= s
    ensures '{' in s
  {
    assert s[|a|] == '{';
  }

  lemma NoBraceInFallback(index: nat)
    ensures '{' !in Fallback(index)
  {
  }

  /** Series `i` takes the fallback name, and series `j` bears that name as its metric. */
  predicate FallbackMeets(items: seq<Item>, i: nat, j: nat)
    requires i < |items| && j < |items|
  {
    Nameless(items[i]) && Plain(items, j) && Base(items[j]) == Fallback(i)
  }

  /** Series of different metrics share a name exactly when one has neither metric nor
      label and the other is named by a metric spelled like its fallback, provided no
      metric name contains a brace. */
  lemma MetricsMeetExactly(items: seq<Item>, i: nat, j: nat)
    requires i < |items| && j < |items| && Base(items[i]) != Base(items[j])
    requires '{' !in Base(items[i]) && '{' !in Base(items[j])
    ensures NameOf(items, i) == NameOf(items, j) <==> FallbackMeets(items, i, j) || FallbackMeets(items, j, i)
  {
    NameKinds(items, i);
    NameKinds(items, j);
    NoBraceInFallback(i);
    NoBraceInFallback(j);
    var braced, braced' := !Plain(items, i) && !Nameless(items[i]), !Plain(items, j) && !Nameless(items[j]);
    if braced {
      BraceInside(Base(items[i]), NameOf(items, i));
    }
    if braced' {
      BraceInside(Base(items[j]), NameOf(items, j));
    }
    if braced && braced' && NameOf(items, i) == NameOf(items, j) {
      FirstBrace(Base(items[i]), NameOf(items, i), Base(items[j]), NameOf(items, j));
    }
  }

  /** An unlabelled series takes the fallback name that another bears as its metric. */
  lemma FallbackMayCollide()
    ensures var items := [Item(None, map[]), Item(Some("series_0"), map[METRIC_NAME := "series_0"])];
            NameOf(items, 0) == NameOf(items, 1) == "series_0"
  {
    var a, b := Item(None, map[]), Item(Some("series_0"), map[METRIC_NAME := "series_0"]);
    GroupSnoc([], a, "series_0");
    GroupSnoc([a], b, "series_0");
    assert [] + [a] == [a] && [a] + [b] == [a, b];
    assert FALLBACK_PREFIX + "_" + Decimal(0) == "series_0";
  }

  function Labelled(base: string, x: string): (item: Item) {
    Item(Some(base), map[METRIC_NAME := base, "x" := x])
  }

  /** A metric spelled like the rendered name of another's series, without any fallback. */
  function Spelled(base: string): (m: string) {
    base + "{" + Pair("x", "1") + "}"
  }

  lemma BraceMayCollide(base: string)
    requires base != ""
    ensures var m := Spelled(base);
            var items := [Labelled(base, "1"), Labelled(base, "2"), Item(Some(m), map[METRIC_NAME := m])];
            NameOf(items, 0) == NameOf(items, 2) == m
  {
    var m := Spelled(base);
    var c := Item(Some(m), map[METRIC_NAME := m]);
    assert |m| > |base|;
    PairAndAnother(base, c);
    assert NameIn([c.labels], m, c.labels, 2) == m;
  }

  lemma GroupsOfThree(a: Item, b: Item, c: Item)
    requires Base(a) == Base(b) != Base(c)
    ensures Group([a, b, c], Base(a)) == [a.labels, b.labels] && Group([a, b, c], Base(c)) == [c.labels]
  {
    forall base ensures Group([a, b, c], base) ==
                        (if Base(a) == base then [a.labels] else []) + (if Base(b) == base then [b.labels] else [])
                        + if Base(c) == base then [c.labels] else []
    {
      GroupSnoc([], a, base);
      GroupSnoc([a], b, base);
      GroupSnoc([a, b], c, base);
      assert [] + [a] == [a] && [a] + [b] == [a, b] && [a, b] + [c] == [a, b, c];
    }
  }

  /** Two series of one metric that differ on `x`, and a third of another metric. */
  lemma PairAndAnother(base: string, c: Item)
    requires base != "" && Base(c) != base
    ensures var items := [Labelled(base, "1"), Labelled(base, "2"), c];
            && NameOf(items, 0) == base + "{" + Pair("x", "1") + "}"
            && NameOf(items, 2) == NameIn([c.labels], Base(c), c.labels, 2)
  {
    GroupsOfThree(Labelled(base, "1"), Labelled(base, "2"), c);
    OneLabelTells(base, Labelled(base, "1").labels, Labelled(base, "2").labels);
  }

  /** Two series of one metric that differ on `x` alone are named by it. */
  lemma OneLabelTells(base: string, a: Labels, b: Labels)
    requires base != "" && a == map[METRIC_NAME := base, "x" := "1"] && b == map[METRIC_NAME := base, "x" := "2"]
    ensures NameIn([a, b], base, a, 0) == base + "{" + Pair("x", "1") + "}"
  {
    var group := [a, b];
    assert Lookup(group[0], "x") != Lookup(group[1], "x");
    assert forall k | k in AllKeys(group) :: k == "x" || k == METRIC_NAME;
    assert "x" in group[0].Keys && "x" != METRIC_NAME;
    assert Distinguishing(group, base) == {"x"};
    assert {"x"} * a.Keys == {"x"};
    OneKey("x");
    assert LabelSet(["x"], a) == Pair("x", "1") + [] == Pair("x", "1");
  }

  // -------------------------------------- which characters metrics may use

  ghost predicate MetricOver(item: Item, chars: set<char>) {
    FromMetric(item) && forall c | c in Base(item) :: c in chars
  }

  /** Whatever the response, as long as its metric names use only these characters,
      series of different metrics share a name through the fallback only. */
  ghost predicate FallbackOnly(chars: set<char>) {
    forall items: seq<Item>, i: nat, j: nat | i < |items| && j < |items| && TwoMetrics(items[i], items[j], chars) ::
      NameOf(items, i) == NameOf(items, j) ==> FallbackMeets(items, i, j) || FallbackMeets(items, j, i)
  }

  ghost predicate TwoMetrics(a: Item, b: Item, chars: set<char>) {
    MetricOver(a, chars) && MetricOver(b, chars) && Base(a) != Base(b)
  }

  /** Metrics meet through the fallback only exactly when their names may not use a
      brace. */
  lemma MetricNamesExact(chars: set<char>)
    ensures FallbackOnly(chars) <==> '{' !in chars
  {
    if '{' in chars {
      BraceSuffices(chars);
    } else {
      forall items: seq<Item>, i: nat, j: nat | i < |items| && j < |items| && TwoMetrics(items[i], items[j], chars)
        ensures NameOf(items, i) == NameOf(items, j) ==> FallbackMeets(items, i, j) || FallbackMeets(items, j, i)
      {
        MetricsMeetExactly(items, i, j);
      }
    }
  }

  /** A metric that begins with a brace, twice with a label `x`, and a series without a
      metric whose one label key contains a brace. */
  function Bracing(t: string): (items: seq<Item>)
    ensures |items| == 3
  {
    [Labelled("{" + t, "1"), Labelled("{" + t, "2"), Item(None, map[t + "{x" := "1"])]
  }

  /** Every metric name that begins with a brace meets such a series. */
  lemma BraceMeets(t: string)
    ensures NameOf(Bracing(t), 0) == NameOf(Bracing(t), 2)
  {
    var base, key := "{" + t, t + "{x";
    var c, pair := Item(None, map[key := "1"]), Pair("x", "1");
    PairAndAnother(base, c);
    OneLabelAlone(key, c.labels);
    assert t + "{" + "x" == key;
    PairPrefixed(t + "{", "x", "1");
    Regrouped(t, pair);
  }

  lemma Regrouped(t: string, pair: string)
    ensures ("{" + t) + "{" + pair + "}" == "{" + ((t + "{") + pair) + "}"
  {
  }

  lemma PairPrefixed(p: string, key: string, value: string)
    ensures Pair(p + key, value) == p + Pair(key, value)
  {
  }

  lemma BraceSuffices(chars: set<char>)
    requires '{' in chars
    ensures !FallbackOnly(chars)
  {
    var items := Bracing("");
    var c := items[2];
    BraceMeets("");
    assert "" + "{x" in c.labels && |METRIC_NAME| == 8 && METRIC_NAME !in c.labels;
    assert Base(items[0]) == "{" && forall ch | ch in "{" :: ch == '{';
    assert TwoMetrics(items[0], items[2], chars);
    assert !FallbackMeets(items, 0, 2) && !FallbackMeets(items, 2, 0);
  }

  lemma OneLabelAlone(key: string, labels: Labels)
    requires labels == map[key := "1"]
    ensures NameIn([labels], "", labels, 2) == "{" + Pair(key, "1") + "}"
  {
    assert Distinguishing([labels], "") == {};
    assert labels.Keys * labels.Keys == {key};
    OneKey(key);
    assert LabelSet([key], labels) == Pair(key, "1") + [] == Pair(key, "1");
    assert "" + "{" == "{";
  }
}
