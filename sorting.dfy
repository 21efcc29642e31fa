/** A stable sort by a lexicographically compared integer key: the model of
    LINQ's `OrderBy(..).ThenBy(..)` chains (a descending key is negated).
    LINQ's sort is stable, so elements with equal keys keep their input order. */
module Sorting {
  import opened Entities

  /** Strict lexicographic order on integer sequences (a proper prefix is smaller). */
  predicate LexLess(a: seq<int>, b: seq<int>)
    decreases |a|
  {
    if a == [] then b != []
    else b != [] && (a[0] < b[0] || (a[0] == b[0] && LexLess(a[1..], b[1..])))
  }

  lemma {:induction false} LexLessIrreflexive(a: seq<int>)
    ensures !LexLess(a, a)
    decreases |a|
  {
    if a != [] {
      LexLessIrreflexive(a[1..]);
    }
  }

  lemma {:induction false} LexLessTransitive(a: seq<int>, b: seq<int>, c: seq<int>)
    requires LexLess(a, b) && LexLess(b, c)
    ensures LexLess(a, c)
    decreases |a|
  {
    if a != [] && a[0] == b[0] && b[0] == c[0] {
      LexLessTransitive(a[1..], b[1..], c[1..]);
    }
  }

  lemma {:induction false} LexLessTotal(a: seq<int>, b: seq<int>)
    requires a != b
    ensures LexLess(a, b) || LexLess(b, a)
    decreases |a|
  {
    if a != [] && b != [] && a[0] == b[0] {
      assert a == [a[0]] + a[1..] && b == [b[0]] + b[1..];
      LexLessTotal(a[1..], b[1..]);
    }
  }

  /** `a` is not after `b`: the non-strict order the sorted output keeps. */
  predicate LexLe(a: seq<int>, b: seq<int>) {
    !LexLess(b, a)
  }

  lemma LexLeTransitive(a: seq<int>, b: seq<int>, c: seq<int>)
    requires LexLe(a, b) && LexLe(b, c)
    ensures LexLe(a, c)
  {
    if LexLess(c, a) {
      if a == b {
      } else {
        LexLessTotal(a, b);
        LexLessTransitive(c, a, b);
      }
    }
  }

  lemma LexLessImpliesLe(a: seq<int>, b: seq<int>)
    requires LexLess(a, b)
    ensures LexLe(a, b) && a != b
  {
    LexLessIrreflexive(a);
    if LexLess(b, a) {
      LexLessTransitive(a, b, a);
    }
  }

  /** Puts `x` in front of the first element whose key is not smaller than its own. */
  function Insert<T>(x: T, s: seq<T>, key: T -> seq<int>): (r: seq<T>)
    ensures |r| == |s| + 1
  {
    if s == [] then [x]
    else if LexLe(key(x), key(s[0])) then [x] + s
    else [s[0]] + Insert(x, s[1..], key)
  }

  /** Insertion sort by `key`; an element is inserted in front of the later
      elements with an equal key, which makes the sort stable. */
  function SortBy<T>(s: seq<T>, key: T -> seq<int>): (r: seq<T>)
    ensures |r| == |s|
  {
    if s == [] then [] else Insert(s[0], SortBy(s[1..], key), key)
  }

  ghost predicate SortedBy<T>(s: seq<T>, key: T -> seq<int>) {
    forall i, j :: 0 <= i < j < |s| ==> LexLe(key(s[i]), key(s[j]))
  }

  lemma {:induction false} InsertPermutes<T>(x: T, s: seq<T>, key: T -> seq<int>)
    ensures multiset(Insert(x, s, key)) == multiset(s) + multiset{x}
  {
    if s != [] && !LexLe(key(x), key(s[0])) {
      InsertPermutes(x, s[1..], key);
      assert s == [s[0]] + s[1..];
    }
  }

  /** The sorted sequence holds the same elements, as often, as the input. */
  lemma {:induction false} SortByPermutes<T>(s: seq<T>, key: T -> seq<int>)
    ensures multiset(SortBy(s, key)) == multiset(s)
  {
    if s != [] {
      SortByPermutes(s[1..], key);
      InsertPermutes(s[0], SortBy(s[1..], key), key);
      assert s == [s[0]] + s[1..];
    }
  }

  lemma {:induction false} InsertSorted<T>(x: T, s: seq<T>, key: T -> seq<int>)
    requires SortedBy(s, key)
    ensures SortedBy(Insert(x, s, key), key)
  {
    if s == [] {
    } else if LexLe(key(x), key(s[0])) {
      var r := [x] + s;
      forall i, j | 0 <= i < j < |r| ensures LexLe(key(r[i]), key(r[j])) {
        if i == 0 && j > 1 {
          LexLeTransitive(key(x), key(s[0]), key(s[j - 1]));
        }
      }
    } else {
      var t := Insert(x, s[1..], key);
      InsertSorted(x, s[1..], key);
      InsertPermutes(x, s[1..], key);
      LexLessImpliesLe(key(s[0]), key(x));
      var r := [s[0]] + t;
      forall j | 0 < j < |r| ensures LexLe(key(s[0]), key(r[j])) {
        assert r[j] in multiset(t);
        if r[j] != x {
          assert r[j] in multiset(s[1..]);
          var k :| 0 <= k < |s[1..]| && s[1..][k] == r[j];
          assert s[k + 1] == r[j];
        }
      }
    }
  }

  /** The output is in key order. */
  lemma {:induction false} SortBySorted<T>(s: seq<T>, key: T -> seq<int>)
    ensures SortedBy(SortBy(s, key), key)
  {
    if s != [] {
      SortBySorted(s[1..], key);
      InsertSorted(s[0], SortBy(s[1..], key), key);
    }
  }

  /** Dropping elements of a sorted sequence leaves it sorted. */
  lemma {:induction false} FilterKeepsSorted<T(!new)>(s: seq<T>, p: T -> bool, key: T -> seq<int>)
    requires SortedBy(s, key)
    ensures SortedBy(Filter(s, p), key)
  {
    if s != [] {
      FilterKeepsSorted(s[1..], p, key);
      var t := Filter(s[1..], p);
      forall j | 0 <= j < |t| ensures LexLe(key(s[0]), key(t[j])) {
        assert t[j] in s[1..];
        var k :| 0 <= k < |s[1..]| && s[1..][k] == t[j];
        assert s[k + 1] == t[j];
      }
      var r := Filter(s, p);
      assert r == (if p(s[0]) then [s[0]] else []) + t;
      if p(s[0]) {
        forall i, j | 0 <= i < j < |r| ensures LexLe(key(r[i]), key(r[j])) {
          if i > 0 {
            assert r[i] == t[i - 1] && r[j] == t[j - 1];
          } else {
            assert r[j] == t[j - 1];
          }
        }
      } else {
        assert r == t;
      }
    }
  }

  lemma FilterCons<T(!new)>(x: T, s: seq<T>, p: T -> bool)
    ensures Filter([x] + s, p) == (if p(x) then [x] else []) + Filter(s, p)
  {
    assert ([x] + s)[1..] == s;
  }

  /** The test "has key `k`", as a named predicate value. */
  function KeyIs<T>(key: T -> seq<int>, k: seq<int>): T -> bool {
    y => key(y) == k
  }

  lemma {:induction false} InsertStable<T(!new)>(x: T, s: seq<T>, key: T -> seq<int>, k: seq<int>)
    ensures Filter(Insert(x, s, key), KeyIs(key, k))
         == (if key(x) == k then [x] else []) + Filter(s, KeyIs(key, k))
  {
    var p := KeyIs(key, k);
    if s == [] {
      FilterCons(x, [], p);
    } else if LexLe(key(x), key(s[0])) {
      FilterCons(x, s, p);
    } else {
      LexLessImpliesLe(key(s[0]), key(x));
      InsertStable(x, s[1..], key, k);
      FilterCons(s[0], Insert(x, s[1..], key), p);
      FilterCons(s[0], s[1..], p);
      assert s == [s[0]] + s[1..];
    }
  }

  /** Stability: the elements with any one key come out in their input order. */
  lemma {:induction false} SortByStable<T(!new)>(s: seq<T>, key: T -> seq<int>, k: seq<int>)
    ensures Filter(SortBy(s, key), KeyIs(key, k)) == Filter(s, KeyIs(key, k))
  {
    if s != [] {
      SortByStable(s[1..], key, k);
      InsertStable(s[0], SortBy(s[1..], key), key, k);
      FilterCons(s[0], s[1..], KeyIs(key, k));
      assert s == [s[0]] + s[1..];
    }
  }

  /** Equal-key elements of an index sequence appear in increasing index order. */
  ghost predicate TiesIncreasing(s: seq<nat>, key: nat -> seq<int>) {
    forall i, j :: 0 <= i < j < |s| && key(s[i]) == key(s[j]) ==> s[i] < s[j]
  }

  lemma {:induction false} InsertTiesIncreasing(x: nat, s: seq<nat>, key: nat -> seq<int>)
    requires TiesIncreasing(s, key)
    requires forall y :: y in s ==> x < y
    ensures TiesIncreasing(Insert(x, s, key), key)
  {
    if s == [] {
    } else if LexLe(key(x), key(s[0])) {
      var r := [x] + s;
      forall j | 0 < j < |r| ensures x < r[j] {
        assert r[j] == s[j - 1];
        assert s[j - 1] in s;
      }
    } else {
      var t := Insert(x, s[1..], key);
      assert forall y :: y in s[1..] ==> y in s;
      InsertTiesIncreasing(x, s[1..], key);
      InsertPermutes(x, s[1..], key);
      LexLessImpliesLe(key(s[0]), key(x));
      var r := [s[0]] + t;
      forall i, j | 0 <= i < j < |r| && key(r[i]) == key(r[j]) ensures r[i] < r[j] {
        if i == 0 {
          assert r[j] in multiset(t);
          assert r[j] != x;
          assert r[j] in multiset(s[1..]);
          var k :| 0 <= k < |s[1..]| && s[1..][k] == r[j];
          assert s[k + 1] == r[j];
        }
      }
    }
  }

  ghost predicate StrictlyIncreasing(s: seq<nat>) {
    forall i, j :: 0 <= i < j < |s| ==> s[i] < s[j]
  }

  /** Sorting an increasing sequence of indices keeps equal-key indices increasing:
      the stability a stable sort gives to rows listed in storage order. */
  lemma {:induction false} SortByTiesIncreasing(s: seq<nat>, key: nat -> seq<int>)
    requires StrictlyIncreasing(s)
    ensures TiesIncreasing(SortBy(s, key), key)
  {
    if s != [] {
      SortByTiesIncreasing(s[1..], key);
      SortByPermutes(s[1..], key);
      forall y | y in SortBy(s[1..], key) ensures s[0] < y {
        assert y in multiset(s[1..]);
        var k :| 0 <= k < |s[1..]| && s[1..][k] == y;
        assert s[k + 1] == y;
      }
      InsertTiesIncreasing(s[0], SortBy(s[1..], key), key);
    }
  }
}
