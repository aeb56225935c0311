/** A stable insertion sort by a real-valued key: the behaviour of `Array.prototype.sort`
    (stable since ECMAScript 2019) with a numeric comparator, and of `ORDER BY`. */
module Sorting {

  predicate SortedBy<T>(s: seq<T>, key: T -> real) {
    forall i, j :: 0 <= i < j < |s| ==> key(s[i]) <= key(s[j])
  }

  /** The elements of `s` whose key is `v`, in order. */
  function WithKey<T>(s: seq<T>, key: T -> real, v: real): seq<T> {
    if s == [] then []
    else (if key(s[0]) == v then [s[0]] else []) + WithKey(s[1..], key, v)
  }

  /** Places `x` in front of the first element whose key is not smaller. */
  function Insert<T>(x: T, t: seq<T>, key: T -> real): (r: seq<T>)
    ensures |r| == |t| + 1
    ensures multiset(r) == multiset(t) + multiset{x}
  {
    if t == [] || key(x) <= key(t[0]) then [x] + t
    else
      assert t == [t[0]] + t[1..];
      [t[0]] + Insert(x, t[1..], key)
  }

  function SortBy<T>(s: seq<T>, key: T -> real): (r: seq<T>)
    ensures |r| == |s|
    ensures multiset(r) == multiset(s)
  {
    if s == [] then []
    else
      assert s == [s[0]] + s[1..];
      Insert(s[0], SortBy(s[1..], key), key)
  }

  /** Every element of the sorted sequence is an element of the input. */
  lemma SortBySource<T>(s: seq<T>, key: T -> real, i: int) returns (a: int)
    requires 0 <= i < |s|
    ensures 0 <= a < |s| && s[a] == SortBy(s, key)[i]
  {
    var r := SortBy(s, key);
    assert r[i] in multiset(r);
    a :| 0 <= a < |s| && s[a] == r[i];
  }

  lemma {:induction false} InsertSorted<T>(x: T, t: seq<T>, key: T -> real)
    requires SortedBy(t, key)
    ensures SortedBy(Insert(x, t, key), key)
  {
    if t != [] && !(key(x) <= key(t[0])) {
      InsertSorted(x, t[1..], key);
      var r := Insert(x, t, key);
      var rest := Insert(x, t[1..], key);
      assert r == [t[0]] + rest;
      forall i, j | 0 <= i < j < |r| ensures key(r[i]) <= key(r[j]) {
        var y := rest[j - 1];
        assert r[j] == y;
        if i == 0 {
          assert y in multiset(rest);
          if y != x {
            assert y in multiset(t[1..]);
            var m :| 0 <= m < |t[1..]| && t[1..][m] == y;
            assert t[m + 1] == y;
          }
        } else {
          assert r[i] == rest[i - 1];
        }
      }
    }
  }

  /** The sort orders by the key. */
  lemma {:induction false} SortBySorted<T>(s: seq<T>, key: T -> real)
    ensures SortedBy(SortBy(s, key), key)
  {
    if s != [] {
      SortBySorted(s[1..], key);
      InsertSorted(s[0], SortBy(s[1..], key), key);
    }
  }

  lemma {:induction false} InsertStable<T>(x: T, t: seq<T>, key: T -> real, v: real)
    ensures WithKey(Insert(x, t, key), key, v)
         == (if key(x) == v then [x] else []) + WithKey(t, key, v)
  {
    var r := Insert(x, t, key);
    var head := if key(x) == v then [x] else [];
    if t != [] && !(key(x) <= key(t[0])) {
      var rest := Insert(x, t[1..], key);
      InsertStable(x, t[1..], key, v);
      assert r[0] == t[0] && r[1..] == rest;
      var first := if key(t[0]) == v then [t[0]] else [];
      assert WithKey(r, key, v) == first + WithKey(rest, key, v);
      assert WithKey(t, key, v) == first + WithKey(t[1..], key, v);
      var w := WithKey(t[1..], key, v);
      // x and t[0] have different keys, so at most one of them is kept
      if first == [] {
        assert WithKey(r, key, v) == head + w;
        assert WithKey(t, key, v) == w;
      } else {
        assert head == [];
        assert WithKey(r, key, v) == first + w;
      }
    } else {
      assert r[0] == x && r[1..] == t;
      assert WithKey(r, key, v) == head + WithKey(t, key, v);
    }
  }

  /** The sort is stable: elements with equal keys keep their relative order. */
  lemma {:induction false} SortByStable<T>(s: seq<T>, key: T -> real, v: real)
    ensures WithKey(SortBy(s, key), key, v) == WithKey(s, key, v)
  {
    if s != [] {
      SortByStable(s[1..], key, v);
      InsertStable(s[0], SortBy(s[1..], key), key, v);
    }
  }

  ghost predicate DistinctBy<T, K>(s: seq<T>, idOf: T -> K) {
    forall i, j :: 0 <= i < j < |s| ==> idOf(s[i]) != idOf(s[j])
  }

  lemma {:induction false} InsertDistinct<T, K>(x: T, t: seq<T>, key: T -> real, idOf: T -> K)
    requires DistinctBy(t, idOf)
    requires forall i :: 0 <= i < |t| ==> idOf(t[i]) != idOf(x)
    ensures DistinctBy(Insert(x, t, key), idOf)
  {
    var r := Insert(x, t, key);
    if t != [] && !(key(x) <= key(t[0])) {
      InsertDistinct(x, t[1..], key, idOf);
      var rest := Insert(x, t[1..], key);
      forall j | 0 < j < |r| ensures idOf(r[0]) != idOf(r[j]) {
        assert r[j] == rest[j - 1] && rest[j - 1] in multiset(rest);
        if r[j] != x {
          var m :| 0 <= m < |t[1..]| && t[1..][m] == r[j];
          assert t[m + 1] == r[j];
        }
      }
    } else {
      assert r == [x] + t;
      forall i, j | 0 <= i < j < |r| ensures idOf(r[i]) != idOf(r[j]) {
        if i > 0 {
          assert r[i] == t[i - 1] && r[j] == t[j - 1];
        }
      }
    }
  }

  /** Sorting keeps distinct identifiers distinct. */
  lemma {:induction false} SortByDistinct<T, K>(s: seq<T>, key: T -> real, idOf: T -> K)
    requires DistinctBy(s, idOf)
    ensures DistinctBy(SortBy(s, key), idOf)
  {
    if s != [] {
      assert DistinctBy(s[1..], idOf) by {
        forall i, j | 0 <= i < j < |s[1..]| ensures idOf(s[1..][i]) != idOf(s[1..][j]) {
          assert s[1..][i] == s[i + 1] && s[1..][j] == s[j + 1];
        }
      }
      SortByDistinct(s[1..], key, idOf);
      var t := SortBy(s[1..], key);
      forall i | 0 <= i < |t| ensures idOf(t[i]) != idOf(s[0]) {
        assert t[i] in multiset(t);
        var m :| 0 <= m < |s[1..]| && s[1..][m] == t[i];
        assert s[m + 1] == t[i];
      }
      InsertDistinct(s[0], t, key, idOf);
    }
  }

  lemma {:induction false} WithKeyConcat<T>(a: seq<T>, b: seq<T>, key: T -> real, v: real)
    ensures WithKey(a + b, key, v) == WithKey(a, key, v) + WithKey(b, key, v)
  {
    if a == [] {
      assert a + b == b;
    } else {
      var h := if key(a[0]) == v then [a[0]] else [];
      var x, y := WithKey(a[1..], key, v), WithKey(b, key, v);
      assert (a + b)[0] == a[0] && (a + b)[1..] == a[1..] + b;
      WithKeyConcat(a[1..], b, key, v);
      assert WithKey(a + b, key, v) == h + (x + y);
      assert WithKey(a, key, v) == h + x;
      assert h + (x + y) == (h + x) + y;
    }
  }

  /** `s[i]` sits in `WithKey(s, key, key(s[i]))` after the earlier elements with that key. */
  lemma WithKeyAt<T>(s: seq<T>, key: T -> real, i: int)
    requires 0 <= i < |s|
    ensures var v := key(s[i]);
      && |WithKey(s[..i], key, v)| < |WithKey(s, key, v)|
      && WithKey(s, key, v)[|WithKey(s[..i], key, v)|] == s[i]
  {
    var v := key(s[i]);
    assert s == s[..i] + ([s[i]] + s[i + 1..]);
    WithKeyConcat(s[..i], [s[i]] + s[i + 1..], key, v);
    WithKeyConcat([s[i]], s[i + 1..], key, v);
    assert WithKey([s[i]], key, v) == [s[i]] by {
      assert [s[i]][1..] == [];
    }
  }

  /** The number of elements with a given key before a position grows with the position,
      strictly when it passes one with that key. */
  lemma WithKeyCount<T>(s: seq<T>, key: T -> real, v: real, a: int, b: int)
    requires 0 <= a <= |s| && 0 <= b <= |s|
    ensures a <= b ==> |WithKey(s[..a], key, v)| <= |WithKey(s[..b], key, v)|
    ensures a < b && key(s[a]) == v ==> |WithKey(s[..a], key, v)| < |WithKey(s[..b], key, v)|
  {
    if a <= b {
      assert s[..b] == s[..a] + s[a..b];
      WithKeyConcat(s[..a], s[a..b], key, v);
      if a < b {
        assert s[a..b] == [s[a]] + s[a + 1..b];
        assert s[a..b][0] == s[a];
      }
    }
  }

  lemma {:induction false} WithKeyDistinct<T, K>(s: seq<T>, key: T -> real, v: real, idOf: T -> K)
    requires DistinctBy(s, idOf)
    ensures DistinctBy(WithKey(s, key, v), idOf)
    ensures forall m :: 0 <= m < |WithKey(s, key, v)| ==> WithKey(s, key, v)[m] in s
  {
    if s != [] {
      assert DistinctBy(s[1..], idOf) by {
        forall i, j | 0 <= i < j < |s[1..]| ensures idOf(s[1..][i]) != idOf(s[1..][j]) {
          assert s[1..][i] == s[i + 1] && s[1..][j] == s[j + 1];
        }
      }
      WithKeyDistinct(s[1..], key, v, idOf);
      var rest := WithKey(s[1..], key, v);
      var w := WithKey(s, key, v);
      forall m | 0 <= m < |rest| ensures idOf(rest[m]) != idOf(s[0]) && rest[m] in s {
        var n :| 0 <= n < |s[1..]| && s[1..][n] == rest[m];
        assert s[n + 1] == rest[m];
      }
      if key(s[0]) == v {
        assert w == [s[0]] + rest;
        forall i, j | 0 <= i < j < |w| ensures idOf(w[i]) != idOf(w[j]) {
          assert w[j] == rest[j - 1];
          if i > 0 {
            assert w[i] == rest[i - 1];
          }
        }
      } else {
        assert w == rest;
      }
    }
  }

  /** Stability, element by element: when the sort puts `r[i]` before `r[j]` and their keys
      are equal, `r[i]` also came first in the input. */
  lemma SortByTieOrder<T, K>(s: seq<T>, key: T -> real, idOf: T -> K, i: int, j: int, a: int, b: int)
    requires DistinctBy(s, idOf)
    requires 0 <= i < j < |s|
    requires key(SortBy(s, key)[i]) == key(SortBy(s, key)[j])
    requires 0 <= a < |s| && s[a] == SortBy(s, key)[i]
    requires 0 <= b < |s| && s[b] == SortBy(s, key)[j]
    ensures a < b
  {
    var r := SortBy(s, key);
    var v := key(r[i]);
    SortByStable(s, key, v);
    SortByDistinct(s, key, idOf);
    WithKeyDistinct(s, key, v, idOf);
    var w := WithKey(s, key, v);
    WithKeyAt(r, key, i);
    WithKeyAt(r, key, j);
    WithKeyCount(r, key, v, i, j);
    WithKeyAt(s, key, a);
    WithKeyAt(s, key, b);
    WithKeyCount(s, key, v, b, a);
    var pi, pj := |WithKey(r[..i], key, v)|, |WithKey(r[..j], key, v)|;
    var qa, qb := |WithKey(s[..a], key, v)|, |WithKey(s[..b], key, v)|;
    assert w[pi] == w[qa] && w[pj] == w[qb];
    assert pi == qa && pj == qb;
  }
}
