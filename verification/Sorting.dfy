/** The stable sort by an integer key that the array library provides. */
module Sorting {

  predicate SortedBy<T>(s: seq<T>, key: T -> int) {
    forall i, j :: 0 <= i <= j < |s| ==> key(s[i]) <= key(s[j])
  }

  // Puts x after every element whose key is not larger.
  function Insert<T>(s: seq<T>, key: T -> int, x: T): seq<T> {
    if s == [] || key(s[|s| - 1]) <= key(x) then s + [x]
    else Insert(s[..|s| - 1], key, x) + [s[|s| - 1]]
  }

  function StableSort<T>(s: seq<T>, key: T -> int): seq<T> {
    if s == [] then [] else Insert(StableSort(s[..|s| - 1], key), key, s[|s| - 1])
  }

  lemma {:induction false} InsertKeeps<T>(s: seq<T>, key: T -> int, x: T)
    ensures multiset(Insert(s, key, x)) == multiset(s) + multiset{x}
    ensures forall y :: y in Insert(s, key, x) ==> y in s || y == x
  {
    if s != [] && key(s[|s| - 1]) > key(x) {
      InsertKeeps(s[..|s| - 1], key, x);
      assert s == s[..|s| - 1] + [s[|s| - 1]];
    }
  }

  lemma AppendSorted<T>(s: seq<T>, key: T -> int, x: T)
    requires SortedBy(s, key) && forall y :: y in s ==> key(y) <= key(x)
    ensures SortedBy(s + [x], key)
  {}

  lemma {:induction false} InsertSorted<T>(s: seq<T>, key: T -> int, x: T)
    requires SortedBy(s, key)
    ensures SortedBy(Insert(s, key, x), key)
  {
    if s == [] || key(s[|s| - 1]) <= key(x) {
      AppendSorted(s, key, x);
    } else {
      var init, last := s[..|s| - 1], s[|s| - 1];
      InsertSorted(init, key, x);
      InsertKeeps(init, key, x);
      AppendSorted(Insert(init, key, x), key, last);
    }
  }

  /** Sorting orders the elements by key and keeps each of them. */
  lemma {:induction false} StableSortSorts<T>(s: seq<T>, key: T -> int)
    ensures SortedBy(StableSort(s, key), key)
    ensures multiset(StableSort(s, key)) == multiset(s)
    ensures |StableSort(s, key)| == |s|
  {
    if s != [] {
      var init, last := s[..|s| - 1], s[|s| - 1];
      StableSortSorts(init, key);
      InsertSorted(StableSort(init, key), key, last);
      InsertKeeps(StableSort(init, key), key, last);
      assert s == init + [last];
    }
    assert |multiset(StableSort(s, key))| == |multiset(s)|;
  }

  lemma PrefixSorted<T>(s: seq<T>, key: T -> int)
    requires SortedBy(s, key) && s != []
    ensures SortedBy(s[..|s| - 1], key)
    ensures |s| > 1 ==> key(s[|s| - 2]) <= key(s[|s| - 1])
  {
    var init := s[..|s| - 1];
    forall i, j | 0 <= i <= j < |init|
      ensures key(init[i]) <= key(init[j])
    {
      assert key(s[i]) <= key(s[j]);
    }
  }

  /** A sequence already in order is left as it is. */
  lemma {:induction false} SortingSortedIsIdentity<T>(s: seq<T>, key: T -> int)
    requires SortedBy(s, key)
    ensures StableSort(s, key) == s
  {
    if s != [] {
      var init, last := s[..|s| - 1], s[|s| - 1];
      PrefixSorted(s, key);
      SortingSortedIsIdentity(init, key);
      assert init != [] ==> key(init[|init| - 1]) <= key(last);
      assert Insert(init, key, last) == init + [last];
      assert s == init + [last];
    }
  }

  /** An element appended last stays last when no key exceeds its own. */
  lemma LargestLastStaysLast<T>(s: seq<T>, key: T -> int, x: T)
    requires forall y :: y in s ==> key(y) <= key(x)
    ensures StableSort(s + [x], key) == StableSort(s, key) + [x]
  {
    assert (s + [x])[..|s|] == s;
    StableSortSorts(s, key);
    var r := StableSort(s, key);
    if r != [] {
      assert r[|r| - 1] in multiset(r);
    }
  }
}
