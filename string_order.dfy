/**
 * Python compares `str` values lexicographically by code point; `sorted` on a
 * list of station ids uses that order.  This module defines the order, proves
 * it is a total order, and defines the ascending list of a finite set of ids.
 */
module StringOrder {

  /** `a <= b` on Python strings: lexicographic by character code. */
  predicate Le(a: string, b: string)
    decreases |a|
  {
    a == [] || (b != [] && (a[0] < b[0] || (a[0] == b[0] && Le(a[1..], b[1..]))))
  }

  /** `a < b` on Python strings. */
  predicate Lt(a: string, b: string) {
    Le(a, b) && a != b
  }

  /** Strictly ascending: sorted and free of duplicates. */
  predicate StrictlyAscending(s: seq<string>) {
    forall i, j :: 0 <= i < j < |s| ==> Lt(s[i], s[j])
  }

  lemma {:induction false} LeReflexive(a: string)
    ensures Le(a, a)
    decreases |a|
  {
    if a != [] {
      LeReflexive(a[1..]);
    }
  }

  lemma {:induction false} LeTotal(a: string, b: string)
    ensures Le(a, b) || Le(b, a)
    decreases |a|
  {
    if a != [] && b != [] && a[0] == b[0] {
      LeTotal(a[1..], b[1..]);
    }
  }

  lemma {:induction false} LeAntisymmetric(a: string, b: string)
    requires Le(a, b) && Le(b, a)
    ensures a == b
    decreases |a|
  {
    if a != [] {
      LeAntisymmetric(a[1..], b[1..]);
      assert a == [a[0]] + a[1..] && b == [b[0]] + b[1..];
    }
  }

  lemma {:induction false} LeTransitive(a: string, b: string, c: string)
    requires Le(a, b) && Le(b, c)
    ensures Le(a, c)
    decreases |a|
  {
    if a != [] && a[0] == b[0] && b[0] == c[0] {
      LeTransitive(a[1..], b[1..], c[1..]);
    }
  }

  /** The least id of a non-empty finite set. */
  ghost function Least(s: set<string>): (m: string)
    requires s != {}
    ensures m in s
    ensures forall x :: x in s ==> Le(m, x)
    decreases |s|
  {
    var x :| x in s;
    if s == {x} then
      LeReflexive(x);
      x
    else
      var y := Least(s - {x});
      LeTotal(x, y);
      if Le(x, y) then
        forall z | z in s ensures Le(x, z) {
          if z == x { LeReflexive(x); } else { LeTransitive(x, y, z); }
        }
        x
      else
        LeReflexive(y);
        y
  }

  /** `sorted(list(s))`: the elements of `s` in ascending order. */
  ghost function SortedList(s: set<string>): (r: seq<string>)
    ensures |r| == |s|
    ensures forall x :: x in r <==> x in s
    ensures StrictlyAscending(r)
    decreases |s|
  {
    if s == {} then []
    else
      var m := Least(s);
      var rest := SortedList(s - {m});
      forall j | 0 <= j < |rest| ensures Lt(m, rest[j]) {
        assert rest[j] in rest;
        assert rest[j] in s - {m};
      }
      [m] + rest
  }
}
