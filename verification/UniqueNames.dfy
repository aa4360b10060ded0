/** Numbering repeated series names, and exactly when that makes them distinct. */
module UniqueNames {
  import opened SeriesNames

  /** How often `name` occurs among the first `n` names. */
  function Times(names: seq<string>, n: nat, name: string): (k: nat)
    requires n <= |names|
    ensures k <= n
  {
    if n == 0 then 0 else Times(names, n - 1, name) + if names[n - 1] == name then 1 else 0
  }

  function Numbered(name: string, k: nat): (s: string) {
    if k <= 1 then name else name + " #" + Decimal(k)
  }

  function UniqueAt(names: seq<string>, i: nat): (s: string)
    requires i < |names|
  {
    Numbered(names[i], Times(names, i + 1, names[i]))
  }

  method MakeUnique(names: seq<string>) returns (out: seq<string>)
    ensures |out| == |names| && forall i | 0 <= i < |names| :: out[i] == UniqueAt(names, i)
  {
    out := [];
    var seen: map<string, nat> := map[];
    for i := 0 to |names|
      invariant |out| == i && forall j | 0 <= j < i :: out[j] == UniqueAt(names, j)
      invariant forall name :: (if name in seen then seen[name] else 0) == Times(names, i, name)
    {
      var name := names[i];
      var count := (if name in seen then seen[name] else 0) + 1;
      ghost var before := seen;
      seen := seen[name := count];
      forall n ensures (if n in seen then seen[n] else 0) == Times(names, i + 1, n) {
        assert (if n in before then before[n] else 0) == Times(names, i, n);
      }
      out := out + [if count == 1 then name else name + " #" + Decimal(count)];
    }
  }

  /** The earlier names that are the same. */
  ghost function Earlier(names: seq<string>, i: nat): (ixs: set<nat>)
    requires i < |names|
  {
    set j: nat | j < i && names[j] == names[i]
  }

  lemma {:induction false} TimesIs(names: seq<string>, n: nat, name: string)
    requires n <= |names|
    ensures Times(names, n, name) == |set j: nat | j < n && names[j] == name|
  {
    var now := set j: nat | j < n && names[j] == name;
    if n == 0 {
      assert now == {};
    } else {
      var before := set j: nat | j < n - 1 && names[j] == name;
      TimesIs(names, n - 1, name);
      assert now == before + if names[n - 1] == name then {n - 1} else {};
      assert n - 1 !in before;
    }
  }

  /** The number a decimal numeral stands for. */
  function NumberOf(s: string): (n: int) {
    if s == [] then 0 else NumberOf(s[..|s| - 1]) * 10 + (s[|s| - 1] as int - '0' as int)
  }

  lemma {:induction false} DecimalIs(n: nat)
    ensures NumberOf(Decimal(n)) == n && (|Decimal(n)| > 1 ==> Decimal(n)[0] != '0')
  {
    var s := Decimal(n);
    if n >= 10 {
      DecimalIs(n / 10);
      assert s[..|s| - 1] == Decimal(n / 10);
      LeadingDigit(n / 10);
    } else {
      assert s[..0] == [];
    }
  }

  lemma {:induction false} LeadingDigit(n: nat)
    requires n >= 1
    ensures Decimal(n)[0] != '0'
  {
    if n >= 10 {
      LeadingDigit(n / 10);
    }
  }

  /** A name that has not occurred stays; another gets a space, a hash sign and its
      number, one more than it has occurred before. */
  lemma UniqueIs(names: seq<string>, i: nat)
    requires i < |names|
    ensures var n, s := |Earlier(names, i)|, UniqueAt(names, i);
            && (n == 0 ==> s == names[i])
            && (n > 0 ==> exists numeral :: s == names[i] + " #" + numeral && NumberOf(numeral) == n + 1)
  {
    TimesIs(names, i, names[i]);
    DecimalIs(Times(names, i + 1, names[i]));
  }

  // ---------------------------------------------------- reading suffixes back

  lemma {:induction false} DecimalInjective(a: nat, b: nat)
    requires Decimal(a) == Decimal(b)
    ensures a == b
  {
    var s := Decimal(a);
    if a >= 10 && b >= 10 {
      assert Decimal(a / 10) == s[..|s| - 1] == Decimal(b / 10);
      DecimalInjective(a / 10, b / 10);
      assert s[|s| - 1] == ('0' as int + a % 10) as char == ('0' as int + b % 10) as char;
    }
  }

  lemma NoHashInDecimal(k: nat, i: nat)
    requires i < |Decimal(k)|
    ensures Decimal(k)[i] != '#'
  {
    assert Decimal(k)[i] in Decimal(k);
  }

  /** A number suffix can be read back, so two numbered names meet only when both the
      name and the number agree. */
  lemma SuffixSplits(x: string, a: nat, y: string, b: nat)
    requires x + " #" + Decimal(a) == y + " #" + Decimal(b)
    ensures x == y && a == b
  {
    var s, t := x + " #" + Decimal(a), y + " #" + Decimal(b);
    assert s[|x| + 1] == '#' && t[|y| + 1] == '#';
    HashPosition(x, a, |y| + 1);
    HashPosition(y, b, |x| + 1);
    assert x == s[..|x|] && y == t[..|y|] && Decimal(a) == s[|x| + 2..] && Decimal(b) == t[|y| + 2..];
    DecimalInjective(a, b);
  }

  lemma HashPosition(x: string, a: nat, p: nat)
    requires p < |x + " #" + Decimal(a)| && (x + " #" + Decimal(a))[p] == '#'
    ensures p <= |x| + 1
  {
    if p > |x| + 1 {
      NoHashInDecimal(a, p - |x| - 2);
    }
  }

  // ------------------------------------------------------- when all are distinct

  ghost predicate AllDistinct(names: seq<string>) {
    forall i, j | 0 <= i < j < |names| :: UniqueAt(names, i) != UniqueAt(names, j)
  }

  /** No name is spelled like the number that a repeated name will be given. */
  ghost predicate NoneSpellsANumber(names: seq<string>) {
    forall i, k: nat | 0 <= i < |names| && 2 <= k <= Times(names, |names|, names[i]) :: Numbered(names[i], k) !in names
  }

  lemma {:induction false} TimesMonotone(names: seq<string>, m: nat, n: nat, name: string)
    requires m <= n <= |names|
    ensures Times(names, m, name) <= Times(names, n, name)
    decreases n
  {
    if m < n {
      TimesMonotone(names, m, n - 1, name);
    }
  }

  /** Every occurrence number is reached. */
  lemma {:induction false} Occurrence(names: seq<string>, n: nat, name: string, k: nat) returns (i: nat)
    requires n <= |names| && 1 <= k <= Times(names, n, name)
    ensures i < n && names[i] == name && Times(names, i + 1, name) == k
    decreases n
  {
    if Times(names, n - 1, name) >= k {
      i := Occurrence(names, n - 1, name, k);
    } else {
      i := n - 1;
    }
  }

  lemma {:induction false} OccursOnce(names: seq<string>, n: nat, name: string)
    requires n <= |names| && name in names[..n]
    ensures Times(names, n, name) >= 1
    decreases n
  {
    if names[n - 1] != name {
      assert names[..n] == names[..n - 1] + [names[n - 1]];
      OccursOnce(names, n - 1, name);
    }
  }

  /** Numbering makes the names distinct exactly when no name is already spelled like
      a number it hands out; `a`, `a`, `a #2` is the smallest failure. */
  lemma DistinctIffNoneSpellsANumber(names: seq<string>)
    ensures AllDistinct(names) <==> NoneSpellsANumber(names)
  {
    if NoneSpellsANumber(names) {
      forall i, j | 0 <= i < j < |names| ensures UniqueAt(names, i) != UniqueAt(names, j) {
        PairDistinct(names, i, j);
      }
    } else {
      var i, k: nat :| 0 <= i < |names| && 2 <= k <= Times(names, |names|, names[i]) && Numbered(names[i], k) in names;
      SpelledNumberRepeats(names, names[i], k);
    }
  }

  /** The numbered occurrence and the first name spelled like it come out the same. */
  lemma SpelledNumberRepeats(names: seq<string>, name: string, k: nat)
    requires 2 <= k <= Times(names, |names|, name) && Numbered(name, k) in names
    ensures !AllDistinct(names)
  {
    var spelled := Numbered(name, k);
    assert names[..|names|] == names;
    OccursOnce(names, |names|, spelled);
    var a := Occurrence(names, |names|, name, k);
    var b := Occurrence(names, |names|, spelled, 1);
    assert |spelled| > |name|;
    assert UniqueAt(names, a) == spelled == UniqueAt(names, b);
  }

  lemma PairDistinct(names: seq<string>, i: nat, j: nat)
    requires i < j < |names| && NoneSpellsANumber(names)
    ensures UniqueAt(names, i) != UniqueAt(names, j)
  {
    var x, y := names[i], names[j];
    var a, b := Times(names, i + 1, x), Times(names, j + 1, y);
    TimesMonotone(names, i + 1, |names|, x);
    TimesMonotone(names, j + 1, |names|, y);
    TimesMonotone(names, i + 1, j, x);
    assert x in names && y in names;
    assert a >= 2 ==> Numbered(x, a) !in names;
    assert b >= 2 ==> Numbered(y, b) !in names;
    if a >= 2 && b >= 2 && Numbered(x, a) == Numbered(y, b) {
      SuffixSplits(x, a, y, b);
    }
  }
}
