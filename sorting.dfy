/**
 * Python's `list.sort(key=...)`: a stable sort on a key. A key here is a pair
 * compared lexicographically, the way Python compares a tuple; a sort with
 * `reverse=True` on a number is a sort on its negation, which Python also
 * keeps stable. The sort is written as an insertion sort.
 */
module Sorting {

  datatype Key = Key(major: int, minor: int)

  predicate KeyLe(a: Key, b: Key) {
    a.major < b.major || (a.major == b.major && a.minor <= b.minor)
  }

  ghost predicate SortedBy<T>(s: seq<T>, key: T -> Key) {
    forall i, j :: 0 <= i < j < |s| ==> KeyLe(key(s[i]), key(s[j]))
  }

  /** Puts `x` after every element whose key is not greater than its own. */
  function Insert<T>(s: seq<T>, x: T, key: T -> Key): (r: seq<T>)
    ensures |r| == |s| + 1
    ensures multiset(r) == multiset(s) + multiset{x}
  {
    if s == [] then [x]
    else if !KeyLe(key(s[0]), key(x)) then [x] + s
    else
      assert s == [s[0]] + s[1..];
      [s[0]] + Insert(s[1..], x, key)
  }

  function SortBy<T>(s: seq<T>, key: T -> Key): (r: seq<T>)
    ensures |r| == |s|
    ensures multiset(r) == multiset(s)
  {
    if s == [] then []
    else
      assert s == s[..|s| - 1] + [s[|s| - 1]];
      Insert(SortBy(s[..|s| - 1], key), s[|s| - 1], key)
  }

  lemma {:induction false} InsertSorted<T>(s: seq<T>, x: T, key: T -> Key)
    requires SortedBy(s, key)
    ensures SortedBy(Insert(s, x, key), key)
  {
    if s != [] && KeyLe(key(s[0]), key(x)) {
      InsertSorted(s[1..], x, key);
      var r := Insert(s, x, key);
      assert r == [s[0]] + Insert(s[1..], x, key);
      forall j | 0 < j < |r| ensures KeyLe(key(r[0]), key(r[j])) {
        assert r[j] in multiset(Insert(s[1..], x, key));
        assert r[j] in multiset(s[1..]) + multiset{x};
        if r[j] in s[1..] {
          var m :| 0 <= m < |s[1..]| && s[1..][m] == r[j];
          assert s[m + 1] == r[j];
        }
      }
    }
  }

  /** The result of SortBy is ordered by key. */
  lemma {:induction false} SortBySorted<T>(s: seq<T>, key: T -> Key)
    ensures SortedBy(SortBy(s, key), key)
  {
    if s != [] {
      SortBySorted(s[..|s| - 1], key);
      InsertSorted(SortBy(s[..|s| - 1], key), s[|s| - 1], key);
    }
  }

  /** The elements of `s` whose key is `k`, in their order in `s`. */
  function WithKey<T>(s: seq<T>, key: T -> Key, k: Key): seq<T> {
    if s == [] then [] else (if key(s[0]) == k then [s[0]] else []) + WithKey(s[1..], key, k)
  }

  lemma {:induction false} WithKeyAppend<T>(s: seq<T>, x: T, key: T -> Key, k: Key)
    ensures WithKey(s + [x], key, k) == WithKey(s, key, k) + (if key(x) == k then [x] else [])
  {
    if s != [] {
      assert (s + [x])[1..] == s[1..] + [x];
      WithKeyAppend(s[1..], x, key, k);
    } else {
      assert [x][1..] == [];
    }
  }

  lemma {:induction false} WithKeyAbove<T>(s: seq<T>, key: T -> Key, k: Key)
    requires SortedBy(s, key)
    requires s != [] ==> !KeyLe(key(s[0]), k)
    ensures WithKey(s, key, k) == []
  {
    if s != [] {
      assert s[1..] != [] ==> KeyLe(key(s[0]), key(s[1]));
      WithKeyAbove(s[1..], key, k);
    }
  }

  lemma WithKeyCons<T>(x: T, s: seq<T>, key: T -> Key, k: Key)
    ensures WithKey([x] + s, key, k) == (if key(x) == k then [x] else []) + WithKey(s, key, k)
  {
    assert ([x] + s)[1..] == s;
  }

  lemma SortedTail<T>(s: seq<T>, key: T -> Key)
    requires SortedBy(s, key) && s != []
    ensures SortedBy(s[1..], key)
    ensures s[1..] != [] ==> KeyLe(key(s[0]), key(s[1]))
  {
  }

  /** Inserting before the whole list: `x`'s key is below the first one's. */
  lemma WithKeyInsertFront<T>(s: seq<T>, x: T, key: T -> Key, k: Key)
    requires SortedBy(s, key) && s != [] && !KeyLe(key(s[0]), key(x))
    ensures WithKey(Insert(s, x, key), key, k) == WithKey(s, key, k) + (if key(x) == k then [x] else [])
  {
    WithKeyCons(x, s, key, k);
    if key(x) == k {
      WithKeyAbove(s, key, k);
    }
  }

  /** Inserting past the first element, given the result for the rest. */
  lemma WithKeyInsertPast<T>(s: seq<T>, x: T, key: T -> Key, k: Key)
    requires s != [] && KeyLe(key(s[0]), key(x))
    requires WithKey(Insert(s[1..], x, key), key, k) == WithKey(s[1..], key, k) + (if key(x) == k then [x] else [])
    ensures WithKey(Insert(s, x, key), key, k) == WithKey(s, key, k) + (if key(x) == k then [x] else [])
  {
    var rest := Insert(s[1..], x, key);
    var head := if key(s[0]) == k then [s[0]] else [];
    var tail := if key(x) == k then [x] else [];
    calc {
      WithKey(Insert(s, x, key), key, k);
      WithKey([s[0]] + rest, key, k);
      { WithKeyCons(s[0], rest, key, k); }
      head + WithKey(rest, key, k);
      head + (WithKey(s[1..], key, k) + tail);
      (head + WithKey(s[1..], key, k)) + tail;
      WithKey(s, key, k) + tail;
    }
  }

  lemma {:induction false} WithKeyInsert<T>(s: seq<T>, x: T, key: T -> Key, k: Key)
    requires SortedBy(s, key)
    ensures WithKey(Insert(s, x, key), key, k) == WithKey(s, key, k) + (if key(x) == k then [x] else [])
  {
    if s == [] {
      WithKeyCons(x, [], key, k);
      assert [x] + [] == [x];
    } else if !KeyLe(key(s[0]), key(x)) {
      WithKeyInsertFront(s, x, key, k);
    } else {
      SortedTail(s, key);
      WithKeyInsert(s[1..], x, key, k);
      WithKeyInsertPast(s, x, key, k);
    }
  }

  /** Stability: elements with equal keys keep their relative order. */
  lemma {:induction false} SortByStable<T>(s: seq<T>, key: T -> Key, k: Key)
    ensures WithKey(SortBy(s, key), key, k) == WithKey(s, key, k)
  {
    if s != [] {
      var init, last := s[..|s| - 1], s[|s| - 1];
      var tail := if key(last) == k then [last] else [];
      SortBySorted(init, key);
      calc {
        WithKey(SortBy(s, key), key, k);
        WithKey(Insert(SortBy(init, key), last, key), key, k);
        { WithKeyInsert(SortBy(init, key), last, key, k); }
        WithKey(SortBy(init, key), key, k) + tail;
        { SortByStable(init, key, k); }
        WithKey(init, key, k) + tail;
        { WithKeyAppend(init, last, key, k); }
        WithKey(init + [last], key, k);
        { assert init + [last] == s; }
        WithKey(s, key, k);
      }
    }
  }
}
