/**
 * Python's `sorted(s, key=k)` and `list.sort()` on an integer key: a stable insertion sort.
 * Stability is stated as "the elements sharing any one key keep their relative order".
 */
module Sorting {

  predicate SortedBy<T>(s: seq<T>, key: T -> int) {
    forall i, j :: 0 <= i < j < |s| ==> key(s[i]) <= key(s[j])
  }

  /** The elements of `s` whose key is `k`, in their order in `s`. */
  function WithKey<T>(s: seq<T>, key: T -> int, k: int): seq<T> {
    if s == [] then []
    else (if key(s[0]) == k then [s[0]] else []) + WithKey(s[1..], key, k)
  }

  /** Puts `e` before the first element whose key is not smaller than its own. */
  function Insert<T>(e: T, s: seq<T>, key: T -> int): (r: seq<T>)
    ensures |r| == |s| + 1
  {
    if s == [] then [e]
    else if key(e) <= key(s[0]) then [e] + s
    else [s[0]] + Insert(e, s[1..], key)
  }

  /** The stable sort of `s` by `key`. */
  function SortBy<T>(s: seq<T>, key: T -> int): (r: seq<T>)
    ensures |r| == |s|
  {
    if s == [] then [] else Insert(s[0], SortBy(s[1..], key), key)
  }

  lemma SortedPrepend<T>(x: T, s: seq<T>, key: T -> int)
    requires SortedBy(s, key)
    requires forall j :: 0 <= j < |s| ==> key(x) <= key(s[j])
    ensures SortedBy([x] + s, key)
  {
    var r := [x] + s;
    forall i, j | 0 <= i < j < |r| ensures key(r[i]) <= key(r[j]) {
      assert r[j] == s[j - 1];
      if i > 0 {
        assert r[i] == s[i - 1];
      }
    }
  }

  lemma {:induction false} InsertPermutation<T>(e: T, s: seq<T>, key: T -> int)
    ensures multiset(Insert(e, s, key)) == multiset(s) + multiset{e}
    decreases |s|
  {
    if s != [] && key(e) > key(s[0]) {
      InsertPermutation(e, s[1..], key);
      assert s == [s[0]] + s[1..];
    }
  }

  lemma {:induction false} InsertSorted<T>(e: T, s: seq<T>, key: T -> int)
    requires SortedBy(s, key)
    ensures SortedBy(Insert(e, s, key), key)
    decreases |s|
  {
    if s == [] {
    } else if key(e) <= key(s[0]) {
      SortedPrepend(e, s, key);
    } else {
      var t := Insert(e, s[1..], key);
      assert SortedBy(s[1..], key) by {
        forall i, j | 0 <= i < j < |s[1..]| ensures key(s[1..][i]) <= key(s[1..][j]) {
          assert s[1..][i] == s[i + 1] && s[1..][j] == s[j + 1];
        }
      }
      InsertSorted(e, s[1..], key);
      InsertPermutation(e, s[1..], key);
      forall j | 0 <= j < |t| ensures key(s[0]) <= key(t[j]) {
        assert t[j] in multiset(t);
        if t[j] != e {
          assert t[j] in multiset(s[1..]);
          var m :| 0 <= m < |s[1..]| && s[1..][m] == t[j];
          assert s[m + 1] == t[j];
        }
      }
      SortedPrepend(s[0], t, key);
    }
  }

  /** One step of `InsertWithKey` past a head element whose key is below that of `e`. */
  lemma InsertWithKeyPast<T>(e: T, s: seq<T>, key: T -> int, k: int)
    requires s != [] && key(e) > key(s[0])
    requires WithKey(Insert(e, s[1..], key), key, k) == (if key(e) == k then [e] else []) + WithKey(s[1..], key, k)
    ensures WithKey(Insert(e, s, key), key, k) == (if key(e) == k then [e] else []) + WithKey(s, key, k)
  {
    var r, rest := Insert(e, s, key), Insert(e, s[1..], key);
    assert r[0] == s[0] && r[1..] == rest;
    var head := if key(s[0]) == k then [s[0]] else [];
    var mine := if key(e) == k then [e] else [];
    var tail := WithKey(s[1..], key, k);
    assert WithKey(r, key, k) == head + WithKey(rest, key, k) == head + (mine + tail);
    assert WithKey(s, key, k) == head + tail;
    if key(e) == k {
      assert head == [];
      assert head + (mine + tail) == mine + tail;
      assert head + tail == tail;
    } else {
      assert mine == [];
      assert mine + tail == tail;
      assert mine + (head + tail) == head + tail;
    }
  }

  lemma {:induction false} InsertWithKey<T>(e: T, s: seq<T>, key: T -> int, k: int)
    ensures WithKey(Insert(e, s, key), key, k) == (if key(e) == k then [e] else []) + WithKey(s, key, k)
    decreases |s|
  {
    if s == [] {
    } else if key(e) <= key(s[0]) {
      assert ([e] + s)[1..] == s;
    } else {
      InsertWithKey(e, s[1..], key, k);
      InsertWithKeyPast(e, s, key, k);
    }
  }

  /** The sort puts the keys in non-decreasing order and is a permutation of its input. */
  lemma {:induction false} SortBySortedPermutation<T>(s: seq<T>, key: T -> int)
    ensures SortedBy(SortBy(s, key), key)
    ensures multiset(SortBy(s, key)) == multiset(s)
    decreases |s|
  {
    if s != [] {
      SortBySortedPermutation(s[1..], key);
      InsertSorted(s[0], SortBy(s[1..], key), key);
      InsertPermutation(s[0], SortBy(s[1..], key), key);
      assert s == [s[0]] + s[1..];
    }
  }

  /** Stability: for every key, the elements with that key appear in the same order as in the input. */
  lemma {:induction false} SortByStable<T>(s: seq<T>, key: T -> int, k: int)
    ensures WithKey(SortBy(s, key), key, k) == WithKey(s, key, k)
    decreases |s|
  {
    if s != [] {
      SortByStable(s[1..], key, k);
      InsertWithKey(s[0], SortBy(s[1..], key), key, k);
    }
  }
}
