/** A stable sort by an integer key, as Python's `sorted(..., key=...)` promises it. */
module Sorting {

  function Insert<T>(s: seq<T>, x: T, key: T -> int): seq<T> {
    if s == [] || key(s[|s| - 1]) <= key(x) then s + [x]
    else Insert(s[..|s| - 1], x, key) + [s[|s| - 1]]
  }

  function SortBy<T>(s: seq<T>, key: T -> int): seq<T> {
    if s == [] then [] else Insert(SortBy(s[..|s| - 1], key), s[|s| - 1], key)
  }

  ghost predicate Ascending<T>(s: seq<T>, key: T -> int) {
    forall i, j | 0 <= i < j < |s| :: key(s[i]) <= key(s[j])
  }

  /** The members of `s` with key `k`, in order. */
  ghost function Select<T>(s: seq<T>, key: T -> int, k: int): seq<T> {
    if s == [] then []
    else Select(s[..|s| - 1], key, k) + if key(s[|s| - 1]) == k then [s[|s| - 1]] else []
  }

  lemma {:induction false} InsertKeeps<T>(s: seq<T>, x: T, key: T -> int)
    ensures multiset(Insert(s, x, key)) == multiset(s) + multiset{x}
    decreases |s|
  {
    if s != [] && key(s[|s| - 1]) > key(x) {
      assert s == s[..|s| - 1] + [s[|s| - 1]];
      InsertKeeps(s[..|s| - 1], x, key);
    }
  }

  lemma AscendsSnoc<T>(s: seq<T>, x: T, key: T -> int)
    requires Ascending(s, key) && forall y | y in s :: key(y) <= key(x)
    ensures Ascending(s + [x], key)
  {
  }

  lemma {:induction false} InsertAscends<T>(s: seq<T>, x: T, key: T -> int)
    requires Ascending(s, key)
    ensures Ascending(Insert(s, x, key), key)
    decreases |s|
  {
    if s != [] && key(s[|s| - 1]) > key(x) {
      var init, last := s[..|s| - 1], s[|s| - 1];
      InsertAscends(init, x, key);
      InsertKeeps(init, x, key);
      forall y | y in Insert(init, x, key)
        ensures key(y) <= key(last)
      {
        assert y in multiset(init) + multiset{x};
      }
      AscendsSnoc(Insert(init, x, key), last, key);
    }
  }

  lemma {:induction false} InsertIsStable<T>(s: seq<T>, x: T, key: T -> int, k: int)
    ensures Select(Insert(s, x, key), key, k) == Select(s, key, k) + if key(x) == k then [x] else []
    decreases |s|
  {
    if s == [] || key(s[|s| - 1]) <= key(x) {
      assert (s + [x])[..|s|] == s;
    } else {
      var init, last := s[..|s| - 1], s[|s| - 1];
      InsertIsStable(init, x, key, k);
      var r := Insert(init, x, key);
      assert (r + [last])[..|r|] == r;
    }
  }

  /** Sorting orders the keys, keeps the elements, and leaves elements with equal keys in order. */
  lemma {:induction false} SortFacts<T>(s: seq<T>, key: T -> int)
    ensures Ascending(SortBy(s, key), key)
    ensures multiset(SortBy(s, key)) == multiset(s)
    ensures forall k :: Select(SortBy(s, key), key, k) == Select(s, key, k)
    decreases |s|
  {
    if s != [] {
      var init, last := s[..|s| - 1], s[|s| - 1];
      assert s == init + [last];
      SortFacts(init, key);
      InsertAscends(SortBy(init, key), last, key);
      InsertKeeps(SortBy(init, key), last, key);
      forall k: int
        ensures Select(SortBy(s, key), key, k) == Select(s, key, k)
      {
        InsertIsStable(SortBy(init, key), last, key, k);
      }
    }
  }
}
