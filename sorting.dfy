/** `Array#sort` with a numeric comparator `(a, b) => key(a) - key(b)`.
    The sort is stable (ECMAScript 2019 and later), so its result is fully
    determined: ascending by key, elements with equal keys in input order.
    The model builds it by inserting each element in turn. */
module Sorting {

  /** Ascending by key. */
  predicate SortedBy<T>(s: seq<T>, key: T -> int)
  {
    forall i, j :: 0 <= i < j < |s| ==> key(s[i]) <= key(s[j])
  }

  /** The elements of `s` whose key is `k`, in their order in `s`. */
  function WithKey<T>(s: seq<T>, key: T -> int, k: int): seq<T>
  {
    if s == [] then [] else (if key(s[0]) == k then [s[0]] else []) + WithKey(s[1..], key, k)
  }

  /** Puts `x` after every element whose key is not greater than its own and
      before the first one whose key is greater. */
  function InsertBy<T(==)>(s: seq<T>, x: T, key: T -> int): (r: seq<T>)
    ensures |r| == |s| + 1
    ensures multiset(r) == multiset(s) + multiset{x}
  {
    if s == [] then [x]
    else if key(x) < key(s[0]) then [x] + s
    else
      assert s == [s[0]] + s[1..];
      [s[0]] + InsertBy(s[1..], x, key)
  }

  /** The stable ascending sort: a permutation of its input. */
  function SortBy<T(==)>(s: seq<T>, key: T -> int): (r: seq<T>)
    ensures |r| == |s|
    ensures multiset(r) == multiset(s)
  {
    if s == [] then []
    else
      assert s == s[..|s| - 1] + [s[|s| - 1]];
      InsertBy(SortBy(s[..|s| - 1], key), s[|s| - 1], key)
  }

  /** Every key is at least `b`. */
  predicate KeysAtLeast<T>(s: seq<T>, key: T -> int, b: int)
  {
    forall i :: 0 <= i < |s| ==> b <= key(s[i])
  }

  /** Inserting keeps every key at or above a common lower bound. */
  lemma {:induction false} InsertByAbove<T>(s: seq<T>, x: T, key: T -> int, b: int)
    requires b <= key(x) && KeysAtLeast(s, key, b)
    ensures KeysAtLeast(InsertBy(s, x, key), key, b)
  {
    if s == [] {
      assert InsertBy(s, x, key) == [x];
    } else if key(x) < key(s[0]) {
      var r := [x] + s;
      assert InsertBy(s, x, key) == r;
      forall i | 0 <= i < |r| ensures b <= key(r[i]) {
        if i > 0 {
          assert r[i] == s[i - 1];
        }
      }
    } else {
      assert KeysAtLeast(s[1..], key, b) by {
        forall i | 0 <= i < |s[1..]| ensures b <= key(s[1..][i]) {
          assert s[1..][i] == s[i + 1];
        }
      }
      InsertByAbove(s[1..], x, key, b);
      var t := InsertBy(s[1..], x, key);
      var r := [s[0]] + t;
      assert InsertBy(s, x, key) == r;
      forall i | 0 <= i < |r| ensures b <= key(r[i]) {
        if i > 0 {
          assert r[i] == t[i - 1];
        }
      }
    }
  }

  lemma {:induction false} InsertBySorted<T>(s: seq<T>, x: T, key: T -> int)
    requires SortedBy(s, key)
    ensures SortedBy(InsertBy(s, x, key), key)
  {
    if s != [] && key(x) >= key(s[0]) {
      var t := InsertBy(s[1..], x, key);
      InsertBySorted(s[1..], x, key);
      assert KeysAtLeast(s[1..], key, key(s[0])) by {
        forall i | 0 <= i < |s[1..]| ensures key(s[0]) <= key(s[1..][i]) {
          assert s[1..][i] == s[i + 1];
        }
      }
      InsertByAbove(s[1..], x, key, key(s[0]));
      var r := [s[0]] + t;
      assert InsertBy(s, x, key) == r;
      forall i, j | 0 <= i < j < |r| ensures key(r[i]) <= key(r[j]) {
        assert r[j] == t[j - 1];
        if i > 0 {
          assert r[i] == t[i - 1];
        } else {
          assert r[i] == s[0];
        }
      }
    }
  }

  /** The result of `SortBy` is ascending by key. */
  lemma {:induction false} SortBySorted<T>(s: seq<T>, key: T -> int)
    ensures SortedBy(SortBy(s, key), key)
  {
    if s != [] {
      SortBySorted(s[..|s| - 1], key);
      InsertBySorted(SortBy(s[..|s| - 1], key), s[|s| - 1], key);
    }
  }

  lemma {:induction false} WithKeyConcat<T>(a: seq<T>, b: seq<T>, key: T -> int, k: int)
    ensures WithKey(a + b, key, k) == WithKey(a, key, k) + WithKey(b, key, k)
  {
    if a != [] {
      assert (a + b)[1..] == a[1..] + b;
      WithKeyConcat(a[1..], b, key, k);
    } else {
      assert a + b == b;
    }
  }

  lemma {:induction false} WithKeyAbove<T>(s: seq<T>, key: T -> int, k: int)
    requires forall i :: 0 <= i < |s| ==> k < key(s[i])
    ensures WithKey(s, key, k) == []
  {
    if s != [] {
      WithKeyAbove(s[1..], key, k);
    }
  }

  lemma {:induction false} WithKeyInsertBy<T>(s: seq<T>, x: T, key: T -> int, k: int)
    requires SortedBy(s, key)
    ensures WithKey(InsertBy(s, x, key), key, k)
         == WithKey(s, key, k) + (if key(x) == k then [x] else [])
  {
    if s == [] {
    } else if key(x) < key(s[0]) {
      if key(x) == k {
        WithKeyAbove(s, key, k);
      }
      assert ([x] + s)[1..] == s;
    } else {
      WithKeyInsertBy(s[1..], x, key, k);
      assert ([s[0]] + InsertBy(s[1..], x, key))[1..] == InsertBy(s[1..], x, key);
    }
  }

  /** Stability: for every key, the elements carrying it keep their input order. */
  lemma {:induction false} SortByStable<T>(s: seq<T>, key: T -> int, k: int)
    ensures WithKey(SortBy(s, key), key, k) == WithKey(s, key, k)
  {
    if s != [] {
      var p, x := s[..|s| - 1], s[|s| - 1];
      SortByStable(p, key, k);
      SortBySorted(p, key);
      WithKeyInsertBy(SortBy(p, key), x, key, k);
      WithKeyAppend(p, x, key, k);
      assert s == p + [x];
    }
  }

  lemma WithKeyAppend<T>(p: seq<T>, x: T, key: T -> int, k: int)
    ensures WithKey(p + [x], key, k) == WithKey(p, key, k) + (if key(x) == k then [x] else [])
  {
    WithKeyConcat(p, [x], key, k);
    assert WithKey([x], key, k) == (if key(x) == k then [x] else []) + WithKey([x][1..], key, k);
  }

  lemma {:induction false} InsertByLast<T>(s: seq<T>, x: T, key: T -> int)
    requires forall i :: 0 <= i < |s| ==> key(s[i]) <= key(x)
    ensures InsertBy(s, x, key) == s + [x]
  {
    if s != [] {
      InsertByLast(s[1..], x, key);
      assert s == [s[0]] + s[1..];
    }
  }

  /** Sorting what is already sorted changes nothing. */
  lemma {:induction false} SortBySortedInput<T>(s: seq<T>, key: T -> int)
    requires SortedBy(s, key)
    ensures SortBy(s, key) == s
  {
    if s != [] {
      var p, x := s[..|s| - 1], s[|s| - 1];
      assert SortedBy(p, key);
      SortBySortedInput(p, key);
      InsertByLast(p, x, key);
      assert p + [x] == s;
    }
  }

  /** Appending to the sorted form of `s` and sorting again gives the same
      result as sorting `s` with the new element appended. */
  lemma SortByAppendSorted<T>(s: seq<T>, x: T, key: T -> int)
    ensures SortBy(SortBy(s, key) + [x], key) == SortBy(s + [x], key)
  {
    var t := SortBy(s, key);
    assert (t + [x])[..|t|] == t;
    assert (s + [x])[..|s|] == s;
    SortBySorted(s, key);
    SortBySortedInput(t, key);
  }
}
