/** The text of a label set: escaped, sorted, comma separated, and when it can be read
    back. */
module LabelText {
  import opened Wrappers
  import opened Ordering

  type Labels = map<string, string>

  // ---------------------------------------------------------------- escaping

  function EscapeChar(c: char): (s: string)
    ensures s != [] && s[0] != '"'
  {
    if c == '\\' then ['\\', '\\']
    else if c == '"' then ['\\', '"']
    else if c == '\n' then ['\\', 'n']
    else [c]
  }

  function Escape(value: string): (s: string) {
    if value == [] then [] else EscapeChar(value[0]) + Escape(value[1..])
  }

  lemma {:induction false} EscapeSnoc(value: string, c: char)
    ensures Escape(value + [c]) == Escape(value) + EscapeChar(c)
  {
    if value == [] {
      assert value + [c] == [c];
    } else {
      assert (value + [c])[1..] == value[1..] + [c];
      EscapeSnoc(value[1..], c);
    }
  }

  method EscapeLabelValue(value: string) returns (escaped: string)
    ensures escaped == Escape(value)
  {
    escaped := [];
    for i := 0 to |value|
      invariant escaped == Escape(value[..i])
    {
      EscapeSnoc(value[..i], value[i]);
      assert value[..i] + [value[i]] == value[..i + 1];
      if value[i] == '\\' {
        escaped := escaped + ['\\', '\\'];
      } else if value[i] == '"' {
        escaped := escaped + ['\\', '"'];
      } else if value[i] == '\n' {
        escaped := escaped + ['\\', 'n'];
      } else {
        escaped := escaped + [value[i]];
      }
    }
    assert value[..|value|] == value;
  }

  lemma EscapeCharSplits(c: char, t: string, c': char, t': string)
    requires EscapeChar(c) + t == EscapeChar(c') + t'
    ensures c == c' && t == t'
  {
    var s, s' := EscapeChar(c) + t, EscapeChar(c') + t';
    assert s[0] == EscapeChar(c)[0] && s'[0] == EscapeChar(c')[0];
    assert |EscapeChar(c)| == 2 ==> s[1] == EscapeChar(c)[1];
    assert |EscapeChar(c')| == 2 ==> s'[1] == EscapeChar(c')[1];
    assert t == s[|EscapeChar(c)|..] && t' == s'[|EscapeChar(c')|..];
  }

  lemma QuoteHead(v: string, t: string)
    ensures var s := Escape(v) + ['"'] + t;
            && (s[0] == '"' <==> v == []) && (v == [] ==> s[1..] == t)
            && (v != [] ==> s == EscapeChar(v[0]) + (Escape(v[1..]) + ['"'] + t))
  {
    if v == [] {
      assert Escape(v) + ['"'] + t == ['"'] + t;
    } else {
      var head, rest := EscapeChar(v[0]), Escape(v[1..]);
      assert Escape(v) == head + rest;
      assert (head + rest) + ['"'] + t == head + (rest + ['"'] + t);
      assert (head + (rest + ['"'] + t))[0] == head[0];
    }
  }

  /** The closing quote of an escaped value is unmistakable. */
  lemma {:induction false} EscapedQuoteSplits(v: string, t: string, v': string, t': string)
    requires Escape(v) + ['"'] + t == Escape(v') + ['"'] + t'
    ensures v == v' && t == t'
  {
    QuoteHead(v, t);
    QuoteHead(v', t');
    if v != [] && v' != [] {
      EscapeCharSplits(v[0], Escape(v[1..]) + ['"'] + t, v'[0], Escape(v'[1..]) + ['"'] + t');
      EscapedQuoteSplits(v[1..], t, v'[1..], t');
      assert v == [v[0]] + v[1..] && v' == [v'[0]] + v'[1..];
    }
  }

  // --------------------------------------------------------------- rendering

  function Pair(key: string, value: string): (s: string) {
    key + ['=', '"'] + Escape(value) + ['"']
  }

  /** The label pairs of `keys`, comma separated. */
  function LabelSet(keys: seq<string>, labels: Labels): (s: string)
    requires forall k | k in keys :: k in labels
  {
    if keys == [] then []
    else Pair(keys[0], labels[keys[0]]) + if |keys| == 1 then [] else [','] + LabelSet(keys[1..], labels)
  }

  // ------------------------------------------------------ reading labels back

  /** The key contains the two characters that open a value. */
  predicate Opens(k: string) {
    |k| >= 2 && ((k[0] == '=' && k[1] == '"') || Opens(k[1..]))
  }

  lemma OpeningHead(k: string, t: string)
    requires !Opens(k)
    ensures var s := k + ['=', '"'] + t;
            && (s[0] == '=' && s[1] == '"' <==> k == [])
            && (k == [] ==> s[2..] == t)
            && (k != [] ==> s[0] == k[0] && s[1..] == k[1..] + ['=', '"'] + t && !Opens(k[1..]))
  {
  }

  /** Where no key opens a value, the end of a key is unmistakable. */
  lemma {:induction false} KeySplits(k: string, t: string, k': string, t': string)
    requires !Opens(k) && !Opens(k') && k + ['=', '"'] + t == k' + ['=', '"'] + t'
    ensures k == k' && t == t'
  {
    OpeningHead(k, t);
    OpeningHead(k', t');
    if k != [] && k' != [] {
      KeySplits(k[1..], t, k'[1..], t');
      assert k == [k[0]] + k[1..] && k' == [k'[0]] + k'[1..];
    }
  }

  /** What follows the opening of a value. */
  function Closed(value: string, t: string): (s: string) {
    Escape(value) + ['"'] + t
  }

  lemma PairRegroups(k: string, v: string, t: string)
    ensures Pair(k, v) + t == k + ['=', '"'] + Closed(v, t)
  {
  }

  /** The labels that follow the first: nothing, or a comma and the rest. */
  function Tail(keys: seq<string>, labels: Labels): (s: string)
    requires forall k | k in keys :: k in labels
  {
    if keys == [] then [] else [','] + LabelSet(keys, labels)
  }

  lemma LabelSetSplits(keys: seq<string>, labels: Labels)
    requires keys != [] && forall k | k in keys :: k in labels
    ensures LabelSet(keys, labels) == keys[0] + ['=', '"'] + Closed(labels[keys[0]], Tail(keys[1..], labels))
  {
    PairRegroups(keys[0], labels[keys[0]], Tail(keys[1..], labels));
    assert |keys| == 1 ==> keys[1..] == [];
    assert Pair(keys[0], labels[keys[0]]) + [] == Pair(keys[0], labels[keys[0]]);
  }

  /** Every quote in an escaped value follows a backslash. */
  lemma {:induction false} QuotesEscaped(v: string, i: nat)
    requires i < |Escape(v)| && Escape(v)[i] == '"'
    ensures i > 0 && Escape(v)[i - 1] == '\\'
    decreases |v|
  {
    var head, rest := EscapeChar(v[0]), Escape(v[1..]);
    assert Escape(v) == head + rest;
    if i >= |head| {
      assert rest[i - |head|] == '"';
      QuotesEscaped(v[1..], i - |head|);
      assert Escape(v)[i - 1] == rest[i - |head| - 1];
    }
  }

  /** A value that runs on into what looks like a key without a comma ends at the
      opening of the next value. */
  lemma ValueEndsAtOpening(v: string, t: string, y: string, z: string)
    requires ',' !in y && (t == [] || t[0] == ',')
    requires Closed(v, t) == y + ['=', '"'] + z
    ensures Escape(v) == y + ['='] && t == z
  {
    var e, s := Escape(v), Closed(v, t);
    assert s[|y|] == '=' && s[|y| + 1] == '"' && s[|e|] == '"';
    assert t != [] ==> s[|e| + 1] == ',';
    assert forall i | 0 <= i < |y| :: s[i] == y[i] != ',';
    if |y| + 1 < |e| {
      assert e[|y| + 1] == '"' && e[|y|] == '=';
      QuotesEscaped(v, |y| + 1);
    }
    assert e == s[..|e|] && t == s[|e| + 1..] && z == s[|y| + 2..];
    assert y + ['='] == s[..|y| + 1];
  }

  lemma CommaHead(v: string, t: string)
    requires Closed(v, t)[0] == ','
    ensures v != [] && v[0] == ',' && Closed(v, t)[1..] == Closed(v[1..], t)
  {
    if v != [] {
      assert Escape(v) == EscapeChar(v[0]) + Escape(v[1..]);
    }
  }

  /** Two readings of one text that are out of step, one inside a value where the other
      is inside a key without commas, stay so for one label after another until one of
      them runs out: there is no such text. */
  lemma {:induction false} NeverOutOfStep(v: string, ks: seq<string>, m: Labels,
                                          y: string, v': string, ks': seq<string>, m': Labels)
    requires (forall k | k in ks :: k in m && ',' !in k) && (forall k | k in ks' :: k in m' && ',' !in k)
    requires ',' !in y
    ensures Closed(v, Tail(ks, m)) != y + ['=', '"'] + Closed(v', Tail(ks', m'))
    decreases |ks| + |ks'|
  {
    if Closed(v, Tail(ks, m)) == y + ['=', '"'] + Closed(v', Tail(ks', m')) {
      ValueEndsAtOpening(v, Tail(ks, m), y, Closed(v', Tail(ks', m')));
      if ks != [] {
        CommaHead(v', Tail(ks', m'));
        assert Tail(ks, m)[1..] == LabelSet(ks, m);
        LabelSetSplits(ks, m);
        NeverOutOfStep(v'[1..], ks', m', ks[0], m[ks[0]], ks[1..], m);
      }
    }
  }

  /** Without commas in keys, the first labels of equal texts agree. */
  lemma CommaFreeSplits(k: string, v: string, ks: seq<string>, m: Labels,
                        k': string, v': string, ks': seq<string>, m': Labels)
    requires (forall x | x in ks :: x in m && ',' !in x) && (forall x | x in ks' :: x in m' && ',' !in x)
    requires ',' !in k' && |k| <= |k'|
    requires k + ['=', '"'] + Closed(v, Tail(ks, m)) == k' + ['=', '"'] + Closed(v', Tail(ks', m'))
    ensures k == k' && v == v' && Tail(ks, m) == Tail(ks', m')
  {
    var c, c' := Closed(v, Tail(ks, m)), Closed(v', Tail(ks', m'));
    var s, s' := k + ['=', '"'] + c, k' + ['=', '"'] + c';
    assert k == s[..|k|] && k' == s'[..|k'|];
    assert s[|k|] == '=' && s[|k| + 1] == '"' && s'[|k'|] == '=' && s'[|k'| + 1] == '"';
    if |k| < |k'| {
      var y := k'[|k| + 2..];
      assert c == s[|k| + 2..] && y + ['=', '"'] + c' == s'[|k| + 2..];
      assert forall ch | ch in y :: ch in k';
      NeverOutOfStep(v, ks, m, y, v', ks', m');
    } else {
      assert c == s[|k| + 2..] && c' == s'[|k| + 2..];
      EscapedQuoteSplits(v, Tail(ks, m), v', Tail(ks', m'));
    }
  }

  /** Either no key opens a value or no key contains a comma. */
  ghost predicate Legible(keys: set<string>) {
    (forall k | k in keys :: !Opens(k)) || (forall k | k in keys :: ',' !in k)
  }

  lemma FirstLabelSplits(ks: seq<string>, m: Labels, ks': seq<string>, m': Labels)
    requires ks != [] && ks' != [] && (forall k | k in ks :: k in m) && (forall k | k in ks' :: k in m')
    requires Legible(m.Keys + m'.Keys) && LabelSet(ks, m) == LabelSet(ks', m')
    ensures ks[0] == ks'[0] && m[ks[0]] == m'[ks[0]] && Tail(ks[1..], m) == Tail(ks'[1..], m')
  {
    var k, v, k', v' := ks[0], m[ks[0]], ks'[0], m'[ks'[0]];
    var t, t' := Tail(ks[1..], m), Tail(ks'[1..], m');
    LabelSetSplits(ks, m);
    LabelSetSplits(ks', m');
    if !Opens(k) && !Opens(k') {
      KeySplits(k, Closed(v, t), k', Closed(v', t'));
      EscapedQuoteSplits(v, t, v', t');
    } else if |k| <= |k'| {
      CommaFreeSplits(k, v, ks[1..], m, k', v', ks'[1..], m');
    } else {
      CommaFreeSplits(k', v', ks'[1..], m', k, v, ks[1..], m);
    }
  }

  /** Different label sets never look the same. */
  lemma {:induction false} LabelSetInjective(ks: seq<string>, m: Labels, ks': seq<string>, m': Labels)
    requires (forall k | k in ks :: k in m) && (forall k | k in ks' :: k in m')
    requires Legible(m.Keys + m'.Keys) && LabelSet(ks, m) == LabelSet(ks', m')
    ensures ks == ks' && forall k | k in ks :: m[k] == m'[k]
  {
    if ks != [] && ks' != [] {
      FirstLabelSplits(ks, m, ks', m');
      assert ks == [ks[0]] + ks[1..] && ks' == [ks'[0]] + ks'[1..];
      if ks[1..] != [] && ks'[1..] != [] {
        assert Tail(ks[1..], m)[1..] == LabelSet(ks[1..], m);
        assert Tail(ks'[1..], m')[1..] == LabelSet(ks'[1..], m');
        LabelSetInjective(ks[1..], m, ks'[1..], m');
      }
    }
  }

  /** The keys in sorted order, which hides the hash order they were found in. */
  function Ascending(keys: set<string>): (ks: seq<string>)
    ensures forall k :: k in ks <==> k in keys
  {
    if keys == {} then []
    else
      var m := Smallest(keys);
      assert keys == {m} + (keys - {m});
      [m] + Ascending(keys - {m})
  }

  // --------------------------------------------------- a reader of the labels

  /** The character an escape sequence stands for: backslash, quote or newline. */
  function Unescaped(c: char): (d: char) {
    if c == 'n' then '\n' else c
  }

  /** The value up to its closing quote, unescaped, and what follows. */
  function ReadValue(s: string): (r: Option<(string, string)>) {
    if s == [] then None
    else if s[0] == '"' then Some(([], s[1..]))
    else if s[0] != '\\' then Prefixed(s[0], ReadValue(s[1..]))
    else if |s| >= 2 && s[1] in {'\\', '"', 'n'} then Prefixed(Unescaped(s[1]), ReadValue(s[2..]))
    else None
  }

  function Prefixed(c: char, r: Option<(string, string)>): (r': Option<(string, string)>) {
    if r.Some? then Some(([c] + r.value.0, r.value.1)) else None
  }

  /** The key up to the opening of its value, and what follows. */
  function ReadKey(s: string): (r: Option<(string, string)>) {
    if |s| < 2 then None
    else if s[0] == '=' && s[1] == '"' then Some(([], s[2..]))
    else Prefixed(s[0], ReadKey(s[1..]))
  }

  lemma {:induction false} ReadsValue(v: string, t: string)
    ensures ReadValue(Closed(v, t)) == Some((v, t))
  {
    var s := Closed(v, t);
    QuoteHead(v, t);
    if v != [] {
      var head, rest := EscapeChar(v[0]), Closed(v[1..], t);
      ReadsValue(v[1..], t);
      assert s == head + rest && s[|head|..] == rest && forall i | 0 <= i < |head| :: s[i] == head[i];
      assert v == [v[0]] + v[1..];
    }
  }

  lemma {:induction false} ReadsKey(k: string, t: string)
    requires !Opens(k)
    ensures ReadKey(k + ['=', '"'] + t) == Some((k, t))
  {
    OpeningHead(k, t);
    if k != [] {
      ReadsKey(k[1..], t);
      assert k == [k[0]] + k[1..];
    }
  }

  /** Read as a sequence of labels, the text gives back exactly the keys, in order, each
      with its own value. */
  ghost predicate ReadsAs(s: string, labels: seq<(string, string)>)
    decreases |labels|
  {
    if labels == [] then s == []
    else
      var key := ReadKey(s);
      && key.Some? && key.value.0 == labels[0].0
      && var value := ReadValue(key.value.1);
         && value.Some? && value.value.0 == labels[0].1
         && if |labels| == 1 then value.value.1 == []
            else value.value.1 != [] && value.value.1[0] == ',' && ReadsAs(value.value.1[1..], labels[1..])
  }

  function Pairs(keys: seq<string>, labels: Labels): (ps: seq<(string, string)>)
    requires forall k | k in keys :: k in labels
  {
    seq(|keys|, i requires 0 <= i < |keys| => (keys[i], labels[keys[i]]))
  }

  lemma {:induction false} LabelsReadBack(keys: seq<string>, labels: Labels)
    requires forall k | k in keys :: k in labels && !Opens(k)
    ensures ReadsAs(LabelSet(keys, labels), Pairs(keys, labels))
  {
    if keys != [] {
      var k, v, rest := keys[0], labels[keys[0]], keys[1..];
      LabelSetSplits(keys, labels);
      ReadsKey(k, Closed(v, Tail(rest, labels)));
      ReadsValue(v, Tail(rest, labels));
      assert Pairs(keys, labels)[1..] == Pairs(rest, labels);
      if rest != [] {
        LabelsReadBack(rest, labels);
        assert Tail(rest, labels)[1..] == LabelSet(rest, labels);
      }
    }
  }

  /** The keys are in strictly ascending order. */
  ghost predicate Strictly(ks: seq<string>) {
    forall i, j | 0 <= i < j < |ks| :: Leq(ks[i], ks[j]) && ks[i] != ks[j]
  }

  lemma {:induction false} AscendingSorted(keys: set<string>)
    ensures Strictly(Ascending(keys))
  {
    if keys != {} {
      var m := Smallest(keys);
      var rest := Ascending(keys - {m});
      AscendingSorted(keys - {m});
      assert Ascending(keys) == [m] + rest;
      assert forall i | 0 <= i < |rest| :: rest[i] in rest;
      assert forall k | k in rest :: k in keys && k != m;
    }
  }
}
