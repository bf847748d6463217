/** `Array.prototype.sort` with the comparator `(a, b) => key(b) - key(a)`: newest
    first, and stable, as the language has required of `sort` since ES2019. */
module StableSort {

  predicate SortedDesc<T>(s: seq<T>, key: T -> int) {
    forall i, j :: 0 <= i < j < |s| ==> key(s[i]) >= key(s[j])
  }

  /** A prefix of a list sorted by descending key holds its top elements: anything
      the prefix leaves out has a key no greater than anything it keeps. */
  lemma PrefixHoldsTop<T>(p: seq<T>, s: seq<T>, key: T -> int)
    requires p <= s && SortedDesc(s, key)
    ensures forall x, y :: x in s && y in p && x !in p ==> key(x) <= key(y)
  {
    forall x, y | x in s && y in p && x !in p ensures key(x) <= key(y) {
      var k :| 0 <= k < |s| && s[k] == x;
      var j :| 0 <= j < |p| && p[j] == y;
      assert s[j] == y;
    }
  }

  /** Places `x` before the first element whose key is not above its own. */
  function Insert<T(==)>(x: T, s: seq<T>, key: T -> int): (r: seq<T>)
    ensures multiset(r) == multiset(s) + multiset{x}
  {
    if s == [] || key(x) >= key(s[0]) then [x] + s
    else
      assert s == [s[0]] + s[1..];
      [s[0]] + Insert(x, s[1..], key)
  }

  /** Insertion sort from the back, so an element is inserted ahead of every later
      element with the same key. */
  function SortDesc<T(==)>(xs: seq<T>, key: T -> int): (r: seq<T>)
    ensures multiset(r) == multiset(xs)
  {
    if xs == [] then []
    else
      assert xs == [xs[0]] + xs[1..];
      Insert(xs[0], SortDesc(xs[1..], key), key)
  }

  lemma SortedCons<T>(h: T, t: seq<T>, key: T -> int)
    requires SortedDesc(t, key)
    requires forall y :: y in t ==> key(h) >= key(y)
    ensures SortedDesc([h] + t, key)
  {
    var r := [h] + t;
    forall i, j | 0 <= i < j < |r| ensures key(r[i]) >= key(r[j]) {
      assert r[j] == t[j - 1];
      if i == 0 {
        assert t[j - 1] in t;
      } else {
        assert r[i] == t[i - 1];
      }
    }
  }

  lemma {:induction false} InsertSorted<T>(x: T, s: seq<T>, key: T -> int)
    requires SortedDesc(s, key)
    ensures SortedDesc(Insert(x, s, key), key)
  {
    if s == [] || key(x) >= key(s[0]) {
      forall y | y in s ensures key(x) >= key(y) {
        var j :| 0 <= j < |s| && s[j] == y;
        assert j == 0 || key(s[0]) >= key(s[j]);
      }
      SortedCons(x, s, key);
    } else {
      var tail := Insert(x, s[1..], key);
      assert SortedDesc(s[1..], key) by {
        forall i, j | 0 <= i < j < |s[1..]| ensures key(s[1..][i]) >= key(s[1..][j]) {
          assert s[1..][i] == s[i + 1] && s[1..][j] == s[j + 1];
        }
      }
      InsertSorted(x, s[1..], key);
      forall y | y in tail ensures key(s[0]) >= key(y) {
        assert y in multiset(tail);
        assert y == x || y in multiset(s[1..]);
        if y != x {
          var j :| 0 <= j < |s[1..]| && s[1..][j] == y;
          assert s[j + 1] == y;
        }
      }
      SortedCons(s[0], tail, key);
    }
  }

  lemma {:induction false} SortDescSorted<T>(xs: seq<T>, key: T -> int)
    ensures SortedDesc(SortDesc(xs, key), key)
  {
    if xs != [] {
      SortDescSorted(xs[1..], key);
      InsertSorted(xs[0], SortDesc(xs[1..], key), key);
    }
  }

  /** The elements of `s` whose key is `t`, in order. */
  function WithKey<T>(s: seq<T>, key: T -> int, t: int): seq<T> {
    if s == [] then []
    else (if key(s[0]) == t then [s[0]] else []) + WithKey(s[1..], key, t)
  }

  lemma WithKeyCons<T>(h: T, s: seq<T>, key: T -> int, t: int)
    ensures WithKey([h] + s, key, t) == (if key(h) == t then [h] else []) + WithKey(s, key, t)
  {
    assert ([h] + s)[1..] == s;
  }

  lemma SwapEmpty<T>(a: seq<T>, b: seq<T>, w: seq<T>)
    requires a == [] || b == []
    ensures a + (b + w) == b + (a + w)
  {
    if a == [] {
      assert a + (b + w) == b + w == b + (a + w);
    } else {
      assert a + (b + w) == a + w == b + (a + w);
    }
  }

  lemma {:induction false} WithKeyInsert<T>(x: T, s: seq<T>, key: T -> int, t: int)
    ensures WithKey(Insert(x, s, key), key, t)
         == (if key(x) == t then [x] else []) + WithKey(s, key, t)
  {
    var head := if key(x) == t then [x] else [];
    if s == [] || key(x) >= key(s[0]) {
      WithKeyCons(x, s, key, t);
    } else {
      var tail, w := Insert(x, s[1..], key), WithKey(s[1..], key, t);
      var first := if key(s[0]) == t then [s[0]] else [];
      calc {
        WithKey(Insert(x, s, key), key, t);
        { assert Insert(x, s, key) == [s[0]] + tail; }
        WithKey([s[0]] + tail, key, t);
        { WithKeyCons(s[0], tail, key, t); }
        first + WithKey(tail, key, t);
        { WithKeyInsert(x, s[1..], key, t); }
        first + (head + w);
        { SwapEmpty(first, head, w); }
        head + (first + w);
        { assert s == [s[0]] + s[1..]; WithKeyCons(s[0], s[1..], key, t); }
        head + WithKey(s, key, t);
      }
    }
  }

  /** Stability: among elements with equal keys the input order survives. */
  lemma {:induction false} SortDescStable<T>(xs: seq<T>, key: T -> int, t: int)
    ensures WithKey(SortDesc(xs, key), key, t) == WithKey(xs, key, t)
  {
    if xs != [] {
      SortDescStable(xs[1..], key, t);
      WithKeyInsert(xs[0], SortDesc(xs[1..], key), key, t);
    }
  }

  ghost predicate DistinctBy<T, K>(s: seq<T>, f: T -> K) {
    forall i, j :: 0 <= i < j < |s| ==> f(s[i]) != f(s[j])
  }

  lemma DistinctCons<T, K>(h: T, t: seq<T>, f: T -> K)
    requires DistinctBy(t, f)
    requires forall y :: y in t ==> f(y) != f(h)
    ensures DistinctBy([h] + t, f)
  {
    var r := [h] + t;
    forall i, j | 0 <= i < j < |r| ensures f(r[i]) != f(r[j]) {
      assert r[j] == t[j - 1];
      if i > 0 {
        assert r[i] == t[i - 1];
      }
    }
  }

  lemma {:induction false} InsertDistinct<T, K>(x: T, s: seq<T>, key: T -> int, f: T -> K)
    requires DistinctBy(s, f)
    requires forall y :: y in s ==> f(y) != f(x)
    ensures DistinctBy(Insert(x, s, key), f)
  {
    if s == [] || key(x) >= key(s[0]) {
      DistinctCons(x, s, f);
    } else {
      var tail := Insert(x, s[1..], key);
      assert DistinctBy(s[1..], f) by {
        forall i, j | 0 <= i < j < |s[1..]| ensures f(s[1..][i]) != f(s[1..][j]) {
          assert s[1..][i] == s[i + 1] && s[1..][j] == s[j + 1];
        }
      }
      InsertDistinct(x, s[1..], key, f);
      forall y | y in tail ensures f(y) != f(s[0]) {
        assert y in multiset(tail);
        assert y == x || y in multiset(s[1..]);
        if y != x {
          var j :| 0 <= j < |s[1..]| && s[1..][j] == y;
          assert s[j + 1] == y;
        }
      }
      DistinctCons(s[0], tail, f);
    }
  }

  /** Sorting neither adds nor merges elements, so distinct images stay distinct. */
  lemma {:induction false} SortDescDistinct<T, K>(xs: seq<T>, key: T -> int, f: T -> K)
    requires DistinctBy(xs, f)
    ensures DistinctBy(SortDesc(xs, key), f)
  {
    if xs != [] {
      var s := SortDesc(xs[1..], key);
      assert DistinctBy(xs[1..], f) by {
        forall i, j | 0 <= i < j < |xs[1..]| ensures f(xs[1..][i]) != f(xs[1..][j]) {
          assert xs[1..][i] == xs[i + 1] && xs[1..][j] == xs[j + 1];
        }
      }
      SortDescDistinct(xs[1..], key, f);
      forall y | y in s ensures f(y) != f(xs[0]) {
        assert y in multiset(s);
        var j :| 0 <= j < |xs[1..]| && xs[1..][j] == y;
        assert xs[j + 1] == y;
      }
      InsertDistinct(xs[0], s, key, f);
    }
  }

  lemma {:induction false} WithKeyPrefix<T>(a: seq<T>, b: seq<T>, key: T -> int, t: int)
    requires a <= b
    ensures WithKey(a, key, t) <= WithKey(b, key, t)
  {
    if a != [] {
      WithKeyPrefix(a[1..], b[1..], key, t);
    }
  }
}
