/** Naming Prometheus series: a series is named by its metric and by just those
    labels that tell it from the others of the same metric. */
module SeriesNames {
  import opened Wrappers
  import opened LabelText

  const METRIC_NAME: string := "__name__"
  const FALLBACK_PREFIX: string := "series"

  function Lookup(labels: Labels, key: string): (v: Option<string>) {
    if key in labels then Some(labels[key]) else None
  }

  // ------------------------------------------------------ distinguishing keys

  datatype Item = Item(base: Option<string>, labels: Labels)

  function Base(item: Item): (b: string) {
    if item.base.Some? then item.base.value else ""
  }

  /** A series' metric name is its `__name__` label, when it has one. */
  predicate FromMetric(item: Item) {
    item.base == Lookup(item.labels, METRIC_NAME)
  }

  function Group(items: seq<Item>, base: string): (group: seq<Labels>) {
    if items == [] then []
    else
      var init, item := Group(items[..|items| - 1], base), items[|items| - 1];
      if Base(item) == base then init + [item.labels] else init
  }

  predicate Counts(base: string, key: string) {
    base == "" || key != METRIC_NAME
  }

  function AllKeys(group: seq<Labels>): (keys: set<string>) {
    set i, k | 0 <= i < |group| && k in group[i].Keys :: k
  }

  /** Two members of the group disagree on `key`, or one lacks it. */
  predicate Disagree(group: seq<Labels>, key: string) {
    exists i, j | 0 <= i < |group| && 0 <= j < |group| :: Lookup(group[i], key) != Lookup(group[j], key)
  }

  function Distinguishing(group: seq<Labels>, base: string): (keys: set<string>) {
    set k | k in AllKeys(group) && Counts(base, k) && Disagree(group, k)
  }

  /** What the scan remembers of a key: the first value, how many members have the
      key, and whether a different value was met. */
  datatype Stat = Stat(first: string, present: nat, differs: bool)

  function Bump(stat: Option<Stat>, value: string): (stat': Stat) {
    if stat.None? then Stat(value, 1, false)
    else stat.value.(present := stat.value.present + 1, differs := stat.value.differs || stat.value.first != value)
  }

  ghost function StatOf(group: seq<Labels>, key: string): (stat: Option<Stat>) {
    if group == [] then None
    else
      var init, labels := StatOf(group[..|group| - 1], key), group[|group| - 1];
      if key in labels then Some(Bump(init, labels[key])) else init
  }

  lemma {:induction false} StatMeans(group: seq<Labels>, key: string)
    ensures StatOf(group, key).None? <==> forall i | 0 <= i < |group| :: key !in group[i]
    ensures StatOf(group, key).Some? ==> StatOf(group, key).value.present <= |group|
    ensures StatOf(group, key).Some? ==>
              (StatOf(group, key).value.present == |group| <==> forall i | 0 <= i < |group| :: key in group[i])
    ensures StatOf(group, key).Some? ==>
              exists i | 0 <= i < |group| :: Lookup(group[i], key) == Some(StatOf(group, key).value.first)
    ensures StatOf(group, key).Some? ==>
              (StatOf(group, key).value.differs <==>
                 exists i | 0 <= i < |group| :: key in group[i] && group[i][key] != StatOf(group, key).value.first)
  {
    if group != [] {
      var init, labels := group[..|group| - 1], group[|group| - 1];
      StatMeans(init, key);
      assert forall i | 0 <= i < |init| :: group[i] == init[i];
      assert group[|init|] == labels;
      var before, after := StatOf(init, key), StatOf(group, key);
      if before.Some? {
        var i :| 0 <= i < |init| && Lookup(init[i], key) == Some(before.value.first);
        assert Lookup(group[i], key) == Some(after.value.first);
        if before.value.differs {
          var j :| 0 <= j < |init| && key in init[j] && init[j][key] != before.value.first;
          assert key in group[j] && group[j][key] != after.value.first;
        }
      } else if key in labels {
        assert Lookup(group[|init|], key) == Some(after.value.first);
      }
    }
  }

  /** The one-pass statistics decide disagreement exactly. */
  lemma StatDecides(group: seq<Labels>, key: string)
    requires StatOf(group, key).Some?
    ensures Disagree(group, key) <==>
            StatOf(group, key).value.differs || StatOf(group, key).value.present != |group|
  {
    StatMeans(group, key);
    var stat := StatOf(group, key).value;
    var i :| 0 <= i < |group| && Lookup(group[i], key) == Some(stat.first);
    if stat.differs {
      var j :| 0 <= j < |group| && key in group[j] && group[j][key] != stat.first;
      assert Lookup(group[i], key) != Lookup(group[j], key);
    } else if stat.present != |group| {
      var j :| 0 <= j < |group| && key !in group[j];
      assert Lookup(group[i], key) != Lookup(group[j], key);
    } else {
      assert forall j | 0 <= j < |group| :: Lookup(group[j], key) == Some(stat.first);
    }
  }

  /** Fold one member's labels into the statistics, key by key in any order. */
  method AddLabels(stats: map<string, Stat>, labels: Labels, base: string) returns (stats': map<string, Stat>)
    ensures forall k :: k in stats' <==> k in stats || (k in labels && Counts(base, k))
    ensures forall k | k in stats' ::
              stats'[k] == if k in labels && Counts(base, k) then Bump(StatIn(stats, k), labels[k]) else stats[k]
  {
    stats' := stats;
    var rest := labels.Keys;
    while rest != {}
      invariant rest <= labels.Keys
      invariant forall k :: k in stats' <==> k in stats || (k in labels && k !in rest && Counts(base, k))
      invariant forall k | k in stats' ::
                  stats'[k] == if k in labels && k !in rest && Counts(base, k) then Bump(StatIn(stats, k), labels[k])
                               else stats[k]
      decreases |rest|
    {
      var key :| key in rest;
      rest := rest - {key};
      if base != "" && key == METRIC_NAME {
        continue;
      }
      stats' := stats'[key := Bump(StatIn(stats', key), labels[key])];
    }
  }

  function StatIn(stats: map<string, Stat>, key: string): (stat: Option<Stat>) {
    if key in stats then Some(stats[key]) else None
  }

  /** The keys that tell the members of one group apart, by one pass of statistics. */
  method DistinguishingKeys(group: seq<Labels>, base: string) returns (keys: set<string>)
    ensures keys == Distinguishing(group, base)
  {
    var stats: map<string, Stat> := map[];
    for n := 0 to |group|
      invariant forall k :: StatIn(stats, k) == if Counts(base, k) then StatOf(group[..n], k) else None
    {
      ghost var before := stats;
      stats := AddLabels(stats, group[n], base);
      assert group[..n + 1][..n] == group[..n];
      forall k ensures StatIn(stats, k) == if Counts(base, k) then StatOf(group[..n + 1], k) else None {
        assert StatIn(before, k) == if Counts(base, k) then StatOf(group[..n], k) else None;
      }
    }
    assert group[..|group|] == group;
    keys := set k | k in stats && (stats[k].differs || stats[k].present != |group|);
    forall k ensures k in keys <==> k in Distinguishing(group, base) {
      StatMeans(group, k);
      assert StatIn(stats, k) == if Counts(base, k) then StatOf(group, k) else None;
      if StatOf(group, k).Some? {
        StatDecides(group, k);
      }
    }
  }

  // -------------------------------------------------------------------- names

  function Decimal(n: nat): (s: string)
    ensures s != [] && forall c | c in s :: '0' <= c <= '9'
  {
    if n < 10 then [('0' as int + n) as char] else Decimal(n / 10) + [('0' as int + n % 10) as char]
  }

  /** The name of one series before duplicates are numbered. */
  function NameIn(group: seq<Labels>, base: string, labels: Labels, index: nat): (name: string) {
    var distinguishing := Distinguishing(group, base);
    var keys := (if distinguishing != {} then distinguishing else if base != "" then {} else labels.Keys) * labels.Keys;
    if base != "" && (|group| == 1 || labels.Keys <= {METRIC_NAME}) then base
    else if labels == map[] then FALLBACK_PREFIX + "_" + Decimal(index)
    else if base != "" && keys == {} then base
    else base + "{" + LabelSet(Ascending(keys), labels) + "}"
  }

  function NameOf(items: seq<Item>, index: nat): (name: string)
    requires index < |items|
  {
    var base := Base(items[index]);
    NameIn(Group(items, base), base, items[index].labels, index)
  }

  lemma {:induction false} GroupHolds(items: seq<Item>, base: string, i: nat)
    requires i < |items| && Base(items[i]) == base
    ensures items[i].labels in Group(items, base)
  {
    if i < |items| - 1 {
      GroupHolds(items[..|items| - 1], base, i);
    }
  }

  /** What is rendered of a series: its labels on the distinguishing keys. */
  lemma RenderedDiffer(base: string, d: set<string>, a: Labels, b: Labels, key: string)
    requires Legible(a.Keys + b.Keys)
    requires key in d && Lookup(a, key) != Lookup(b, key)
    ensures base + "{" + LabelSet(Ascending(d * a.Keys), a) + "}"
            != base + "{" + LabelSet(Ascending(d * b.Keys), b) + "}"
  {
    var ka, kb := Ascending(d * a.Keys), Ascending(d * b.Keys);
    var ra, rb := LabelSet(ka, a), LabelSet(kb, b);
    assert (key in ka <==> key in a) && (key in kb <==> key in b);
    if base + "{" + ra + "}" == base + "{" + rb + "}" {
      Unwrap(base, ra, rb);
      LabelSetInjective(ka, a, kb, b);
    }
  }

  lemma Unwrap(base: string, a: string, b: string)
    requires base + "{" + a + "}" == base + "{" + b + "}"
    ensures a == b
  {
    var s, t := base + "{" + a + "}", base + "{" + b + "}";
    assert a == s[|base| + 1..|s| - 1] && b == t[|base| + 1..|t| - 1];
  }

  lemma Disagreement(group: seq<Labels>, base: string, a: Labels, b: Labels, key: string)
    requires a in group && b in group && Lookup(a, key) != Lookup(b, key) && Counts(base, key)
    ensures key in Distinguishing(group, base)
  {
    var i :| 0 <= i < |group| && group[i] == a;
    var j :| 0 <= j < |group| && group[j] == b;
    assert Lookup(group[i], key) != Lookup(group[j], key);
    assert key in group[i].Keys || key in group[j].Keys;
  }

  lemma SameLookups(a: Labels, b: Labels)
    requires forall key :: Lookup(a, key) == Lookup(b, key)
    ensures a == b
  {
    assert forall key :: key in a <==> Lookup(a, key).Some?;
    assert forall key :: key in b <==> Lookup(b, key).Some?;
    assert forall key | key in a :: Lookup(a, key) == Lookup(b, key);
  }

  lemma SomeKeyDiffers(a: Labels, b: Labels)
    requires a != b
    ensures exists key :: Lookup(a, key) != Lookup(b, key)
  {
    if forall key :: Lookup(a, key) == Lookup(b, key) {
      SameLookups(a, b);
    }
  }

  /** In a group that tells two series apart on `key`, each is named by its metric,
      by the fallback when it has no label at all, or by its distinguishing labels. */
  lemma NameShape(group: seq<Labels>, base: string, labels: Labels, index: nat)
    requires |group| > 1 && Distinguishing(group, base) != {}
    requires base == "" || Lookup(labels, METRIC_NAME) == Some(base)
    ensures NameIn(group, base, labels, index) == Shape(base, Distinguishing(group, base), labels, index)
  {
    if base != "" && labels.Keys <= {METRIC_NAME} {
      assert Distinguishing(group, base) * labels.Keys == {};
    }
  }

  /** Two series of the same metric with different labels never receive the same
      name, provided their label keys are legible. */
  lemma NamesDiffer(items: seq<Item>, i: nat, j: nat)
    requires i < j < |items| && FromMetric(items[i]) && FromMetric(items[j])
    requires Legible(items[i].labels.Keys + items[j].labels.Keys)
    requires Base(items[i]) == Base(items[j]) && items[i].labels != items[j].labels
    ensures NameOf(items, i) != NameOf(items, j)
  {
    var base, a, b := Base(items[i]), items[i].labels, items[j].labels;
    var group := Group(items, base);
    GroupHolds(items, base, i);
    GroupHolds(items, base, j);
    SomeKeyDiffers(a, b);
    var key :| Lookup(a, key) != Lookup(b, key);
    Disagreement(group, base, a, b, key);
    NameShape(group, base, a, i);
    NameShape(group, base, b, j);
    ShapesDiffer(base, Distinguishing(group, base), a, b, i, j, key);
  }

  lemma ShapesDiffer(base: string, d: set<string>, a: Labels, b: Labels, i: nat, j: nat, key: string)
    requires Legible(a.Keys + b.Keys) && key in d && Lookup(a, key) != Lookup(b, key)
    ensures Shape(base, d, a, i) != Shape(base, d, b, j)
  {
    RenderedDiffer(base, d, a, b, key);
    assert key in a ==> key in d * a.Keys;
    assert key in b ==> key in d * b.Keys;
    var ra, rb := base + "{" + LabelSet(Ascending(d * a.Keys), a) + "}",
                  base + "{" + LabelSet(Ascending(d * b.Keys), b) + "}";
    assert |ra| > |base| && |rb| > |base|;
    if base == "" {
      assert ra[0] == '{' && rb[0] == '{';
      assert (FALLBACK_PREFIX + "_" + Decimal(i))[0] == 's' && (FALLBACK_PREFIX + "_" + Decimal(j))[0] == 's';
    }
  }

  function Shape(base: string, d: set<string>, labels: Labels, index: nat): (name: string) {
    if base != "" && d * labels.Keys == {} then base
    else if labels == map[] then FALLBACK_PREFIX + "_" + Decimal(index)
    else base + "{" + LabelSet(Ascending(d * labels.Keys), labels) + "}"
  }

  /** Two series of the same metric disagree on the key, or one of them lacks it. */
  ghost predicate Distinguishes(items: seq<Item>, base: string, key: string) {
    exists i, j | 0 <= i < |items| && 0 <= j < |items| ::
      && Base(items[i]) == base && Base(items[j]) == base
      && Lookup(items[i].labels, key) != Lookup(items[j].labels, key)
  }

  lemma {:induction false} GroupMembers(items: seq<Item>, base: string, labels: Labels)
    ensures labels in Group(items, base) <==>
            exists i | 0 <= i < |items| :: Base(items[i]) == base && items[i].labels == labels
  {
    if items != [] {
      var n := |items| - 1;
      GroupMembers(items[..n], base, labels);
      if labels in Group(items[..n], base) {
        var i :| 0 <= i < n && Base(items[..n][i]) == base && items[..n][i].labels == labels;
        assert Base(items[i]) == base && items[i].labels == labels;
      } else if Base(items[n]) == base && items[n].labels == labels {
        assert Group(items, base)[|Group(items, base)| - 1] == labels;
      }
    }
  }

  /** The distinguishing keys of a group are those on which two of its series differ. */
  lemma DistinguishingAre(items: seq<Item>, base: string, key: string)
    ensures key in Distinguishing(Group(items, base), base) <==>
            Distinguishes(items, base, key) && (base == "" || key != METRIC_NAME)
  {
    var group := Group(items, base);
    if key in Distinguishing(group, base) {
      var i, j :| 0 <= i < |group| && 0 <= j < |group| && Lookup(group[i], key) != Lookup(group[j], key);
      GroupMembers(items, base, group[i]);
      GroupMembers(items, base, group[j]);
    }
    if Distinguishes(items, base, key) && (base == "" || key != METRIC_NAME) {
      var i, j :| 0 <= i < |items| && 0 <= j < |items| && Base(items[i]) == base && Base(items[j]) == base
                  && Lookup(items[i].labels, key) != Lookup(items[j].labels, key);
      GroupMembers(items, base, items[i].labels);
      GroupMembers(items, base, items[j].labels);
      Disagreement(group, base, items[i].labels, items[j].labels, key);
    }
  }

  /** A name in braces lists, after the metric, exactly the labels of the series on which
      two series of the metric differ, or all of them where the metric is unknown and no
      two differ, in ascending order of their keys. */
  lemma NameLists(items: seq<Item>, i: nat) returns (keys: seq<string>)
    requires i < |items|
    ensures var base, labels, name := Base(items[i]), items[i].labels, NameOf(items, i);
            && (forall k | k in keys :: k in labels)
            && Strictly(keys)
            && (name == base || (base == "" && labels == map[]) || name == base + "{" + LabelSet(keys, labels) + "}")
            && (forall k | k in labels :: Counts(base, k) && Distinguishes(items, base, k) ==> k in keys)
            && (forall k | k in keys ::
                  (Counts(base, k) && Distinguishes(items, base, k))
                  || (base == "" && forall l :: !Distinguishes(items, base, l)))
  {
    var base, labels := Base(items[i]), items[i].labels;
    var d := Distinguishing(Group(items, base), base);
    var chosen := (if d != {} then d else if base != "" then {} else labels.Keys) * labels.Keys;
    forall k ensures k in d <==> Distinguishes(items, base, k) && Counts(base, k) {
      DistinguishingAre(items, base, k);
    }
    keys := Ascending(chosen);
    AscendingSorted(chosen);
  }

  // ------------------------------------------------------- naming a response

  lemma GroupSnoc(items: seq<Item>, item: Item, base: string)
    ensures Group(items + [item], base) == Group(items, base) + if Base(item) == base then [item.labels] else []
  {
    assert (items + [item])[..|items|] == items;
  }

  function GroupIn(groups: map<string, seq<Labels>>, base: string): (group: seq<Labels>) {
    if base in groups then groups[base] else []
  }

  ghost predicate Grouped(groups: map<string, seq<Labels>>, items: seq<Item>) {
    forall b :: GroupIn(groups, b) == Group(items, b)
  }

  lemma GroupedGrows(groups: map<string, seq<Labels>>, items: seq<Item>, item: Item)
    requires Grouped(groups, items)
    ensures Grouped(groups[Base(item) := GroupIn(groups, Base(item)) + [item.labels]], items + [item])
  {
    var groups' := groups[Base(item) := GroupIn(groups, Base(item)) + [item.labels]];
    forall b ensures GroupIn(groups', b) == Group(items + [item], b) {
      GroupSnoc(items, item, b);
      assert GroupIn(groups, b) == Group(items, b);
    }
  }

  method GroupByBase(items: seq<Item>) returns (groups: map<string, seq<Labels>>)
    ensures Grouped(groups, items)
    ensures forall i | 0 <= i < |items| :: Base(items[i]) in groups
  {
    groups := map[];
    for n := 0 to |items|
      invariant Grouped(groups, items[..n])
      invariant forall i | 0 <= i < n :: Base(items[i]) in groups
    {
      GroupedGrows(groups, items[..n], items[n]);
      assert items[..n + 1] == items[..n] + [items[n]];
      var base := Base(items[n]);
      groups := groups[base := GroupIn(groups, base) + [items[n].labels]];
    }
    assert items[..|items|] == items;
  }

  method DistinguishingByBase(groups: map<string, seq<Labels>>) returns (byBase: map<string, set<string>>)
    ensures byBase.Keys == groups.Keys
    ensures forall b | b in byBase :: byBase[b] == Distinguishing(groups[b], b)
  {
    byBase := map[];
    var rest := groups.Keys;
    while rest != {}
      invariant rest <= groups.Keys && byBase.Keys == groups.Keys - rest
      invariant forall b | b in byBase :: byBase[b] == Distinguishing(groups[b], b)
      decreases |rest|
    {
      var b :| b in rest;
      var keys := DistinguishingKeys(groups[b], b);
      byBase := byBase[b := keys];
      rest := rest - {b};
    }
  }

  /** Name every series of a response, group by group. */
  method NamesBeforeSuffix(items: seq<Item>) returns (names: seq<string>)
    ensures |names| == |items|
    ensures forall i | 0 <= i < |items| :: names[i] == NameOf(items, i)
  {
    var groups := GroupByBase(items);
    var byBase := DistinguishingByBase(groups);
    names := [];
    for i := 0 to |items|
      invariant |names| == i
      invariant forall j | 0 <= j < i :: names[j] == NameOf(items, j)
    {
      var base := Base(items[i]);
      assert GroupIn(groups, base) == Group(items, base);
      var name := NameSeries(groups[base], byBase[base], base, items[i].labels, i);
      names := names + [name];
    }
  }

  method NameSeries(group: seq<Labels>, distinguishing: set<string>, base: string, labels: Labels, index: nat)
    returns (name: string)
    requires distinguishing == Distinguishing(group, base)
    ensures name == NameIn(group, base, labels, index)
  {
    if base != "" && (|group| == 1 || labels.Keys <= {METRIC_NAME}) {
      return base;
    }
    if labels == map[] {
      return FALLBACK_PREFIX + "_" + Decimal(index);
    }
    var keys := if distinguishing != {} then distinguishing else if base != "" then {} else labels.Keys;
    keys := keys * labels.Keys;
    if base != "" && keys == {} {
      return base;
    }
    return base + "{" + LabelSet(Ascending(keys), labels) + "}";
  }
}
