/** Lexicographic order on strings, as ordered sets and sorts use it. */
module Ordering {

  predicate Leq(a: string, b: string) {
    a == [] || (b != [] && (a[0] < b[0] || (a[0] == b[0] && Leq(a[1..], b[1..]))))
  }

  lemma {:induction false} LeqTotal(a: string, b: string)
    ensures Leq(a, b) || Leq(b, a)
  {
    if a != [] && b != [] && a[0] == b[0] {
      LeqTotal(a[1..], b[1..]);
    }
  }

  lemma {:induction false} LeqAntisymmetric(a: string, b: string)
    requires Leq(a, b) && Leq(b, a)
    ensures a == b
  {
    if a != [] && b != [] {
      LeqAntisymmetric(a[1..], b[1..]);
      assert a == [a[0]] + a[1..] && b == [b[0]] + b[1..];
    }
  }

  lemma {:induction false} LeqTransitive(a: string, b: string, c: string)
    requires Leq(a, b) && Leq(b, c)
    ensures Leq(a, c)
  {
    if a != [] && a[0] == b[0] == c[0] {
      LeqTransitive(a[1..], b[1..], c[1..]);
    }
  }

  predicate IsSmallest(s: set<string>, m: string) {
    m in s && forall x | x in s :: Leq(m, x)
  }

  lemma {:induction false} SmallestExists(s: set<string>)
    requires s != {}
    ensures exists m :: IsSmallest(s, m)
  {
    var x :| x in s;
    var rest := s - {x};
    LeqTotal(x, x);
    if rest == {} {
      assert s == {x};
      assert IsSmallest(s, x);
    } else {
      SmallestExists(rest);
      var m :| IsSmallest(rest, m);
      LeqTotal(x, m);
      if Leq(x, m) {
        forall y | y in s ensures Leq(x, y) {
          if y != x {
            LeqTransitive(x, m, y);
          }
        }
        assert IsSmallest(s, x);
      } else {
        assert IsSmallest(s, m);
      }
    }
  }

  /** The least string of a nonempty set. */
  function Smallest(s: set<string>): (m: string)
    requires s != {}
    ensures IsSmallest(s, m)
  {
    SmallestExists(s);
    SmallestUnique(s);
    var m :| IsSmallest(s, m);
    m
  }

  lemma SmallestUnique(s: set<string>)
    ensures forall m, n | IsSmallest(s, m) && IsSmallest(s, n) :: m == n
  {
    forall m, n | IsSmallest(s, m) && IsSmallest(s, n) ensures m == n {
      LeqAntisymmetric(m, n);
    }
  }
}
