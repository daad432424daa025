/**
 * Ordering of result lists. `SortDesc` is a stable sort on an integer key,
 * largest first: the order `Array.prototype.sort` gives (it is stable) with the
 * comparator `(a, b) => key(b) - key(a)`, and the order the store returns for
 * `orderBy: { createdAt: 'desc' }` with rows of equal key left in table order.
 */
module Ordering {

  ghost predicate SortedDesc<T>(s: seq<T>, key: T -> int) {
    forall i, j :: 0 <= i < j < |s| ==> key(s[i]) >= key(s[j])
  }

  /** Among elements of equal `key`, `key2` does not increase. */
  ghost predicate TiesSortedDesc<T>(s: seq<T>, key: T -> int, key2: T -> int) {
    forall i, j :: 0 <= i < j < |s| && key(s[i]) == key(s[j]) ==> key2(s[i]) >= key2(s[j])
  }

  /** The elements of `s` whose key is `k`, in their order in `s`. */
  function WithKey<T>(s: seq<T>, key: T -> int, k: int): seq<T> {
    if s == [] then [] else (if key(s[0]) == k then [s[0]] else []) + WithKey(s[1..], key, k)
  }

  /** `f` applied to each element, in order. */
  function Map<T>(s: seq<T>, f: T -> T): (r: seq<T>)
    ensures |r| == |s|
    ensures forall i :: 0 <= i < |s| ==> r[i] == f(s[i])
  {
    seq(|s|, i requires 0 <= i < |s| => f(s[i]))
  }

  /** Inserts `x` before the first element whose key is smaller, so after all ties. */
  function Insert<T>(x: T, s: seq<T>, key: T -> int): seq<T> {
    if s == [] || key(s[0]) < key(x) then [x] + s else [s[0]] + Insert(x, s[1..], key)
  }

  /** Stable sort by `key`, largest first. */
  function SortDesc<T>(s: seq<T>, key: T -> int): seq<T> {
    if s == [] then [] else Insert(s[|s| - 1], SortDesc(s[..|s| - 1], key), key)
  }

  lemma {:induction false} InsertPermutes<T>(x: T, s: seq<T>, key: T -> int)
    ensures multiset(Insert(x, s, key)) == multiset(s) + multiset{x}
  {
    if s != [] && key(s[0]) >= key(x) {
      InsertPermutes(x, s[1..], key);
      assert s == [s[0]] + s[1..];
    }
  }

  /** `SortDesc` only reorders: the result is a permutation of its input. */
  lemma {:induction false} SortDescPermutes<T>(s: seq<T>, key: T -> int)
    ensures multiset(SortDesc(s, key)) == multiset(s)
  {
    if s != [] {
      SortDescPermutes(s[..|s| - 1], key);
      InsertPermutes(s[|s| - 1], SortDesc(s[..|s| - 1], key), key);
      assert s == s[..|s| - 1] + [s[|s| - 1]];
    }
  }

  lemma {:induction false} InsertSorted<T>(x: T, s: seq<T>, key: T -> int)
    requires SortedDesc(s, key)
    ensures SortedDesc(Insert(x, s, key), key)
  {
    if s == [] || key(s[0]) < key(x) {
    } else {
      InsertSorted(x, s[1..], key);
      var r := Insert(x, s, key);
      var t := Insert(x, s[1..], key);
      assert r == [s[0]] + t;
      InsertPermutes(x, s[1..], key);
      forall j | 1 <= j < |r| ensures key(r[0]) >= key(r[j]) {
        assert r[j] in multiset(t);
        assert r[j] == x || r[j] in multiset(s[1..]);
        if r[j] != x {
          var m :| 0 <= m < |s[1..]| && s[1..][m] == r[j];
          assert s[1 + m] == r[j];
        }
      }
    }
  }

  /** The result of `SortDesc` is ordered largest key first. */
  lemma {:induction false} SortDescSorted<T>(s: seq<T>, key: T -> int)
    ensures SortedDesc(SortDesc(s, key), key)
  {
    if s != [] {
      SortDescSorted(s[..|s| - 1], key);
      InsertSorted(s[|s| - 1], SortDesc(s[..|s| - 1], key), key);
    }
  }

  lemma {:induction false} WithKeyAppend<T>(a: seq<T>, b: seq<T>, key: T -> int, k: int)
    ensures WithKey(a + b, key, k) == WithKey(a, key, k) + WithKey(b, key, k)
  {
    if a == [] {
      assert a + b == b;
    } else {
      var head := if key(a[0]) == k then [a[0]] else [];
      assert (a + b)[0] == a[0];
      assert (a + b)[1..] == a[1..] + b;
      assert WithKey(a + b, key, k) == head + WithKey(a[1..] + b, key, k);
      assert WithKey(a, key, k) == head + WithKey(a[1..], key, k);
      WithKeyAppend(a[1..], b, key, k);
    }
  }

  lemma {:induction false} WithKeyNone<T>(s: seq<T>, key: T -> int, k: int)
    requires forall i :: 0 <= i < |s| ==> key(s[i]) < k
    ensures WithKey(s, key, k) == []
  {
    if s != [] {
      WithKeyNone(s[1..], key, k);
    }
  }

  lemma {:induction false} InsertStable<T>(x: T, s: seq<T>, key: T -> int, k: int)
    requires SortedDesc(s, key)
    ensures WithKey(Insert(x, s, key), key, k)
         == WithKey(s, key, k) + (if key(x) == k then [x] else [])
  {
    var extra := if key(x) == k then [x] else [];
    if s == [] {
      assert Insert(x, s, key) == [x];
      assert WithKey([x], key, k) == extra + WithKey([x][1..], key, k);
    } else if key(s[0]) < key(x) {
      var r := [x] + s;
      assert Insert(x, s, key) == r;
      assert r[0] == x && r[1..] == s;
      assert WithKey(r, key, k) == extra + WithKey(s, key, k);
      if key(x) == k {
        WithKeyNone(s, key, k);
      }
    } else {
      var t := Insert(x, s[1..], key);
      var r := [s[0]] + t;
      assert Insert(x, s, key) == r;
      assert SortedDesc(s[1..], key);
      InsertStable(x, s[1..], key, k);
      assert r[0] == s[0] && r[1..] == t;
      var head := if key(s[0]) == k then [s[0]] else [];
      assert WithKey(r, key, k) == head + WithKey(t, key, k);
      assert WithKey(s, key, k) == head + WithKey(s[1..], key, k);
    }
  }

  /** Stability: the elements sharing any one key keep their relative order. */
  lemma {:induction false} SortDescStable<T>(s: seq<T>, key: T -> int, k: int)
    ensures WithKey(SortDesc(s, key), key, k) == WithKey(s, key, k)
  {
    if s != [] {
      var init, last := s[..|s| - 1], s[|s| - 1];
      var sorted := SortDesc(init, key);
      assert SortDesc(s, key) == Insert(last, sorted, key);
      SortDescStable(init, key, k);
      SortDescSorted(init, key);
      InsertStable(last, sorted, key, k);
      assert s == init + [last];
      WithKeyAppend(init, [last], key, k);
      assert [last][1..] == [];
      assert WithKey([last], key, k) == (if key(last) == k then [last] else []) + WithKey([], key, k);
    }
  }

  /** An element `h` that bounds the `key2` of its `key`-ties in `s` and `x` still bounds them after the insert. */
  lemma {:induction false} InsertBounded<T>(x: T, s: seq<T>, key: T -> int, key2: T -> int, h: T)
    requires forall i :: 0 <= i < |s| && key(s[i]) == key(h) ==> key2(h) >= key2(s[i])
    requires key(x) == key(h) ==> key2(h) >= key2(x)
    ensures forall i :: 0 <= i < |Insert(x, s, key)| && key(Insert(x, s, key)[i]) == key(h)
                        ==> key2(h) >= key2(Insert(x, s, key)[i])
  {
    if s == [] || key(s[0]) < key(x) {
      var r := [x] + s;
      assert Insert(x, s, key) == r;
      assert forall i :: 1 <= i < |r| ==> r[i] == s[i - 1];
    } else {
      var tail := s[1..];
      assert forall i :: 0 <= i < |tail| ==> tail[i] == s[i + 1];
      InsertBounded(x, tail, key, key2, h);
      var t := Insert(x, tail, key);
      var r := [s[0]] + t;
      assert Insert(x, s, key) == r;
      assert forall i :: 1 <= i < |r| ==> r[i] == t[i - 1];
    }
  }

  /** Putting `h` in front keeps the tie order when `h` bounds the `key2` of its ties in `t`. */
  lemma ConsTies<T>(h: T, t: seq<T>, key: T -> int, key2: T -> int)
    requires TiesSortedDesc(t, key, key2)
    requires forall i :: 0 <= i < |t| && key(t[i]) == key(h) ==> key2(h) >= key2(t[i])
    ensures TiesSortedDesc([h] + t, key, key2)
  {
    var r := [h] + t;
    assert forall i :: 1 <= i < |r| ==> r[i] == t[i - 1];
  }

  lemma {:induction false} InsertTies<T>(x: T, s: seq<T>, key: T -> int, key2: T -> int)
    requires SortedDesc(s, key) && TiesSortedDesc(s, key, key2)
    requires forall i :: 0 <= i < |s| ==> key2(s[i]) >= key2(x)
    ensures TiesSortedDesc(Insert(x, s, key), key, key2)
  {
    if s == [] || key(s[0]) < key(x) {
      assert Insert(x, s, key) == [x] + s;
      assert forall m :: 0 <= m < |s| ==> key(s[m]) <= key(s[0]);
      ConsTies(x, s, key, key2);
    } else {
      var tail := s[1..];
      assert forall i :: 0 <= i < |tail| ==> tail[i] == s[i + 1];
      assert Insert(x, s, key) == [s[0]] + Insert(x, tail, key);
      InsertTies(x, tail, key, key2);
      InsertBounded(x, tail, key, key2, s[0]);
      ConsTies(s[0], Insert(x, tail, key), key, key2);
    }
  }

  /**
   * Sorting a list already ordered by `key2` (largest first) by `key` keeps
   * `key2` order among ties of `key`: the stable sort's tie order.
   */
  lemma {:induction false} SortDescKeepsTieOrder<T>(s: seq<T>, key: T -> int, key2: T -> int)
    requires SortedDesc(s, key2)
    ensures TiesSortedDesc(SortDesc(s, key), key, key2)
  {
    if s != [] {
      var init, last := s[..|s| - 1], s[|s| - 1];
      var sorted := SortDesc(init, key);
      assert forall i :: 0 <= i < |init| ==> init[i] == s[i];
      SortDescKeepsTieOrder(init, key, key2);
      SortDescSorted(init, key);
      SortDescPermutes(init, key);
      forall i | 0 <= i < |sorted| ensures key2(sorted[i]) >= key2(last) {
        assert sorted[i] in multiset(init);
        var m :| 0 <= m < |init| && init[m] == sorted[i];
      }
      InsertTies(last, SortDesc(init, key), key, key2);
    }
  }

  lemma {:induction false} InsertMap<T>(x: T, s: seq<T>, f: T -> T, key: T -> int)
    requires forall y :: key(f(y)) == key(y)
    ensures Insert(f(x), Map(s, f), key) == Map(Insert(x, s, key), f)
  {
    if s == [] {
      assert Map([x], f) == [f(x)];
    } else if key(s[0]) < key(x) {
      assert Map(s, f)[0] == f(s[0]);
      assert Map([x] + s, f) == [f(x)] + Map(s, f);
    } else {
      assert Map(s, f)[0] == f(s[0]);
      assert Map(s, f)[1..] == Map(s[1..], f);
      InsertMap(x, s[1..], f, key);
      assert Map([s[0]] + Insert(x, s[1..], key), f) == [f(s[0])] + Map(Insert(x, s[1..], key), f);
    }
  }

  /** Sorting commutes with a map that keeps every key. */
  lemma {:induction false} SortDescMap<T>(s: seq<T>, f: T -> T, key: T -> int)
    requires forall y :: key(f(y)) == key(y)
    ensures SortDesc(Map(s, f), key) == Map(SortDesc(s, key), f)
  {
    if s != [] {
      var init, last := s[..|s| - 1], s[|s| - 1];
      assert Map(s, f)[..|s| - 1] == Map(init, f);
      SortDescMap(init, f, key);
      InsertMap(last, SortDesc(init, key), f, key);
    }
  }
}
