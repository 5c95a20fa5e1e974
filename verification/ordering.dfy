/**
 * Orders and sorting as Python provides them: `str` comparison (code point
 * by code point, a proper prefix first), the component-wise order of
 * `pathlib` paths, and `sorted` (a stable sort) for a key order given as a
 * total preorder.
 */
module Ordering {
  import opened Text

  // ---------------------------------------------------------------- strings

  /** Python `a <= b` on `str`. */
  predicate StrLe(a: string, b: string)
    decreases |a|
  {
    a == [] || (b != [] && (a[0] < b[0] || (a[0] == b[0] && StrLe(a[1..], b[1..]))))
  }

  /** Python `a < b` on `str`. */
  predicate StrLt(a: string, b: string) { StrLe(a, b) && a != b }

  lemma {:induction false} StrLeTotal(a: string, b: string)
    ensures StrLe(a, b) || StrLe(b, a)
    decreases |a|
  {
    if a != [] && b != [] && a[0] == b[0] { StrLeTotal(a[1..], b[1..]); }
  }

  lemma {:induction false} StrLeTrans(a: string, b: string, c: string)
    requires StrLe(a, b) && StrLe(b, c)
    ensures StrLe(a, c)
    decreases |a|
  {
    if a != [] && a[0] == b[0] && b[0] == c[0] { StrLeTrans(a[1..], b[1..], c[1..]); }
  }

  lemma {:induction false} StrLeAntisym(a: string, b: string)
    requires StrLe(a, b) && StrLe(b, a)
    ensures a == b
    decreases |a|
  {
    if a != [] {
      StrLeAntisym(a[1..], b[1..]);
      assert a == [a[0]] + a[1..] && b == [b[0]] + b[1..];
    }
  }

  // ---------------------------------------------------------------- paths

  /**
   * Python's order on `pathlib` paths: the lists of components compared
   * element by element with the `str` order.
   */
  predicate PartsLe(a: seq<string>, b: seq<string>)
    decreases |a|
  {
    a == [] || (b != [] && (StrLt(a[0], b[0]) || (a[0] == b[0] && PartsLe(a[1..], b[1..]))))
  }

  /** The order `sorted()` puts paths relative to one root in. */
  predicate PathLe(a: string, b: string) { PartsLe(SplitOn(a, '/'), SplitOn(b, '/')) }

  lemma {:induction false} PartsLeTotal(a: seq<string>, b: seq<string>)
    ensures PartsLe(a, b) || PartsLe(b, a)
    decreases |a|
  {
    if a != [] && b != [] {
      StrLeTotal(a[0], b[0]);
      if a[0] == b[0] { PartsLeTotal(a[1..], b[1..]); }
    }
  }

  lemma {:induction false} PartsLeTrans(a: seq<string>, b: seq<string>, c: seq<string>)
    requires PartsLe(a, b) && PartsLe(b, c)
    ensures PartsLe(a, c)
    decreases |a|
  {
    if a != [] {
      if a[0] == b[0] && b[0] == c[0] {
        PartsLeTrans(a[1..], b[1..], c[1..]);
      } else if StrLt(a[0], b[0]) && StrLt(b[0], c[0]) {
        StrLeTrans(a[0], b[0], c[0]);
        if a[0] == c[0] { StrLeAntisym(a[0], b[0]); }
      }
    }
  }

  // ---------------------------------------------------------------- sorting

  /** `le` is total and transitive: the order `sorted()` needs of a key. */
  ghost predicate IsTotalPreorder<T(!new)>(le: (T, T) -> bool) {
    && (forall a, b :: le(a, b) || le(b, a))
    && (forall a, b, c :: le(a, b) && le(b, c) ==> le(a, c))
  }

  predicate SortedBy<T>(s: seq<T>, le: (T, T) -> bool) {
    forall i, j :: 0 <= i < j < |s| ==> le(s[i], s[j])
  }

  /** Puts `x` in front of the first element it is `le` to, so that it stays ahead of its equals. */
  function Insert<T>(x: T, s: seq<T>, le: (T, T) -> bool): (r: seq<T>)
    ensures multiset(r) == multiset(s) + multiset{x}
  {
    if s == [] || le(x, s[0]) then [x] + s
    else
      assert s == [s[0]] + s[1..];
      [s[0]] + Insert(x, s[1..], le)
  }

  /** Python `sorted(s, key=...)`: a stable insertion sort on the key order `le`. */
  function SortBy<T>(s: seq<T>, le: (T, T) -> bool): (r: seq<T>)
    ensures multiset(r) == multiset(s)
  {
    if s == [] then []
    else
      assert s == [s[0]] + s[1..];
      Insert(s[0], SortBy(s[1..], le), le)
  }

  lemma {:induction false} InsertSorted<T(!new)>(x: T, s: seq<T>, le: (T, T) -> bool)
    requires IsTotalPreorder(le) && SortedBy(s, le)
    ensures SortedBy(Insert(x, s, le), le)
    decreases |s|
  {
    if s != [] && !le(x, s[0]) {
      InsertSorted(x, s[1..], le);
      var t := Insert(x, s[1..], le);
      assert le(s[0], x);
      forall y | y in multiset(t) ensures le(s[0], y) {
        assert y in multiset(s[1..]) + multiset{x};
        if y != x {
          assert y in s[1..];
          var k :| 0 <= k < |s[1..]| && s[1..][k] == y;
          assert s[k + 1] == y;
        }
      }
      var r := [s[0]] + t;
      forall i, j | 0 <= i < j < |r| ensures le(r[i], r[j]) {
        if i == 0 { assert r[j] == t[j - 1] && r[j] in multiset(t); }
      }
    }
  }

  /** `SortBy` puts every pair in key order. */
  lemma {:induction false} SortBySorted<T(!new)>(s: seq<T>, le: (T, T) -> bool)
    requires IsTotalPreorder(le)
    ensures SortedBy(SortBy(s, le), le)
    decreases |s|
  {
    if s != [] {
      SortBySorted(s[1..], le);
      InsertSorted(s[0], SortBy(s[1..], le), le);
    }
  }

  // ---------------------------------------------------------------- sets of strings

  lemma StrLePreorder()
    ensures IsTotalPreorder(StrLe)
  {
    forall a: string, b: string ensures StrLe(a, b) || StrLe(b, a) {
      StrLeTotal(a, b);
    }
    forall a: string, b: string, c: string | StrLe(a, b) && StrLe(b, c) ensures StrLe(a, c) {
      StrLeTrans(a, b, c);
    }
  }

  /** Strictly increasing in `str` order: sorted and without repetitions. */
  predicate Ascending(s: seq<string>) {
    forall i, j :: 0 <= i < j < |s| ==> StrLt(s[i], s[j])
  }

  /** A finite non-empty set of strings has a least element. */
  lemma {:induction false} LeastExists(s: set<string>)
    requires s != {}
    ensures exists m :: m in s && forall y :: y in s ==> StrLe(m, y)
    decreases |s|
  {
    var z :| z in s;
    StrLeTotal(z, z);
    if s - {z} == {} {
      forall y | y in s ensures y == z { assert y !in s - {z}; }
    } else {
      LeastExists(s - {z});
      var m :| m in s - {z} && forall y :: y in s - {z} ==> StrLe(m, y);
      StrLeTotal(m, z);
      if !StrLe(m, z) {
        forall y | y in s ensures StrLe(z, y) {
          if y != z { StrLeTrans(z, m, y); }
        }
      }
    }
  }

  /** Python `sorted(s)` for a set of strings. */
  ghost function SortedSet(s: set<string>): (r: seq<string>)
    ensures Ascending(r) && |r| == |s|
    ensures forall x :: x in r <==> x in s
    decreases |s|
  {
    if s == {} then []
    else
      LeastExists(s);
      var m :| m in s && forall y :: y in s ==> StrLe(m, y);
      var rest := SortedSet(s - {m});
      assert forall j :: 0 <= j < |rest| ==> StrLt(m, rest[j]) by {
        forall j | 0 <= j < |rest| ensures StrLt(m, rest[j]) { assert rest[j] in s - {m}; }
      }
      [m] + rest
  }

  /** Two ascending sequences with the same elements are equal: sorting a set does not depend on the order it was listed in. */
  lemma {:induction false} AscendingUnique(a: seq<string>, b: seq<string>)
    requires Ascending(a) && Ascending(b)
    requires forall x :: x in a <==> x in b
    ensures a == b
    decreases |a|
  {
    SameElementsEmpty(a, b);
    if a != [] {
      assert a[0] in b;
      assert b != [];
      assert b[0] in a;
      assert StrLe(b[0], a[0]) by {
        var j :| 0 <= j < |b| && b[j] == a[0];
        if j > 0 { assert StrLt(b[0], b[j]); } else { StrLeTotal(b[0], b[0]); }
      }
      assert StrLe(a[0], b[0]) by {
        var j :| 0 <= j < |a| && a[j] == b[0];
        if j > 0 { assert StrLt(a[0], a[j]); } else { StrLeTotal(a[0], a[0]); }
      }
      StrLeAntisym(a[0], b[0]);
      forall x ensures x in a[1..] <==> x in b[1..] {
        if x in a[1..] {
          var j :| 1 <= j < |a| && a[j] == x;
          assert StrLt(a[0], a[j]);
          assert x in b && x != b[0];
        }
        if x in b[1..] {
          var j :| 1 <= j < |b| && b[j] == x;
          assert StrLt(b[0], b[j]);
          assert x in a && x != a[0];
        }
      }
      AscendingUnique(a[1..], b[1..]);
      assert a == [a[0]] + a[1..] && b == [b[0]] + b[1..];
    }
  }

  lemma SameElementsEmpty(a: seq<string>, b: seq<string>)
    requires forall x :: x in a <==> x in b
    ensures a == [] <==> b == []
  {
    if a != [] { assert a[0] in b; }
    if b != [] { assert b[0] in a; }
  }

  /** Sorting a list without repetitions yields an ascending list. */
  lemma SortedDistinctAscending(xs: seq<string>)
    requires forall i, j :: 0 <= i < j < |xs| ==> xs[i] != xs[j]
    ensures Ascending(SortBy(xs, StrLe))
  {
    var r := SortBy(xs, StrLe);
    StrLePreorder();
    SortBySorted(xs, StrLe);
    DistinctCount(xs);
    forall i, j | 0 <= i < j < |r| ensures r[i] != r[j] {
      if r[i] == r[j] { TwiceCount(r, i, j); }
    }
  }

  /** In a list without repetitions, nothing occurs twice. */
  lemma {:induction false} DistinctCount(xs: seq<string>)
    requires forall i, j :: 0 <= i < j < |xs| ==> xs[i] != xs[j]
    ensures forall x :: multiset(xs)[x] <= 1
    decreases |xs|
  {
    if xs != [] {
      var init := xs[..|xs| - 1];
      DistinctCount(init);
      assert xs == init + [xs[|xs| - 1]];
      assert xs[|xs| - 1] !in init;
    }
  }

  lemma TwiceCount(r: seq<string>, i: nat, j: nat)
    requires i < j < |r| && r[i] == r[j]
    ensures multiset(r)[r[i]] >= 2
  {
    assert r == r[..i] + [r[i]] + r[i + 1..j] + [r[j]] + r[j + 1..];
  }
}
