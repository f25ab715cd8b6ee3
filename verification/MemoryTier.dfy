/** The in-memory tier of the cache: a map that remembers insertion order, and its least-recently-accessed eviction. */
module MemoryTier {
  import opened Common
  import opened Sorting

  type Key = string
  type Tag = string

  // A cached value; a falsy one counts as absent when read.
  datatype Value = Null | Bool(b: bool) | Num(n: int) | Str(s: string) | Object(id: nat)

  datatype Entry = Entry(data: Value, timestamp: int, ttlMs: int, tags: seq<Tag>, accessCount: nat, lastAccessed: int)

  type Memory = seq<(Key, Entry)>

  predicate Truthy(v: Value) {
    match v
    case Null => false
    case Bool(b) => b
    case Num(n) => n != 0
    case Str(s) => s != ""
    case Object(_) => true
  }

  predicate DistinctKeys(m: Memory) {
    forall i, j :: 0 <= i < j < |m| ==> m[i].0 != m[j].0
  }

  predicate Has(m: Memory, k: Key) {
    exists i :: 0 <= i < |m| && m[i].0 == k
  }

  function Lookup(m: Memory, k: Key): (r: Option<Entry>)
    ensures r.Some? <==> Has(m, k)
    ensures r.Some? ==> (k, r.value) in m
  {
    if m == [] then None
    else if m[0].0 == k then
      assert m[0] == (k, m[0].1);
      Some(m[0].1)
    else
      var r := Lookup(m[1..], k);
      assert Has(m[1..], k) ==> Has(m, k) by {
        if i :| 0 <= i < |m[1..]| && m[1..][i].0 == k {
          assert m[i + 1].0 == k;
        }
      }
      assert Has(m, k) ==> Has(m[1..], k) by {
        if i :| 0 <= i < |m| && m[i].0 == k {
          assert m[1..][i - 1].0 == k;
        }
      }
      r
  }

  // Writing an existing key keeps its place; a new key goes last.
  function Put(m: Memory, k: Key, e: Entry): Memory {
    if m == [] then [(k, e)]
    else if m[0].0 == k then [(k, e)] + m[1..]
    else [m[0]] + Put(m[1..], k, e)
  }

  function Without(m: Memory, gone: set<Key>): Memory {
    if m == [] then []
    else
      var rest, last := Without(m[..|m| - 1], gone), m[|m| - 1];
      if last.0 in gone then rest else rest + [last]
  }

  function Access(): ((Key, Entry)) -> int {
    (p: (Key, Entry)) => p.1.lastAccessed
  }

  function KeysOf(m: Memory): (s: set<Key>)
    ensures forall k :: k in s <==> Has(m, k)
  {
    set i | 0 <= i < |m| :: m[i].0
  }

  // The entries in excess of the limit, oldest access first.
  function Victims(m: Memory, maxItems: nat): (v: Memory)
    requires maxItems < |m|
    ensures |v| == |m| - maxItems
  {
    StableSortSorts(m, Access());
    StableSort(m, Access())[..|m| - maxItems]
  }

  // The oldest entries by last access are dropped until the limit is met.
  function Evict(m: Memory, maxItems: nat): Memory {
    if |m| <= maxItems then m else Without(m, KeysOf(Victims(m, maxItems)))
  }

  // ---------------------------------------------------------------- Put

  lemma {:induction false} PutEntries(m: Memory, k: Key, e: Entry)
    ensures (k, e) in Put(m, k, e)
    ensures forall p :: p in Put(m, k, e) ==> p == (k, e) || (p in m && (DistinctKeys(m) ==> p.0 != k))
    ensures forall p :: p in m && p.0 != k ==> p in Put(m, k, e)
  {
    if m != [] {
      assert m == [m[0]] + m[1..];
      if m[0].0 != k {
        PutEntries(m[1..], k, e);
      }
    }
  }

  lemma {:induction false} PutStaysDistinct(m: Memory, k: Key, e: Entry)
    requires DistinctKeys(m)
    ensures DistinctKeys(Put(m, k, e))
  {
    if m != [] {
      var rest := m[1..];
      assert forall i :: 0 <= i < |rest| ==> rest[i] == m[i + 1];
      if m[0].0 != k {
        PutStaysDistinct(rest, k, e);
        PutEntries(rest, k, e);
        forall p | p in Put(rest, k, e)
          ensures p.0 != m[0].0
        {}
      }
    }
  }

  lemma {:induction false} PutLength(m: Memory, k: Key, e: Entry)
    ensures !Has(m, k) ==> Put(m, k, e) == m + [(k, e)]
    ensures Has(m, k) ==> |Put(m, k, e)| == |m|
  {
    if m != [] {
      var rest := m[1..];
      assert m == [m[0]] + rest;
      if m[0].0 == k {
        assert Has(m, k);
      } else {
        PutLength(rest, k, e);
        assert Has(rest, k) <==> Has(m, k) by {
          if i :| 0 <= i < |rest| && rest[i].0 == k { assert m[i + 1].0 == k; }
          if i :| 0 <= i < |m| && m[i].0 == k { assert rest[i - 1].0 == k; }
        }
      }
    }
  }

  // ---------------------------------------------------------------- Without

  lemma {:induction false} WithoutEntries(m: Memory, gone: set<Key>)
    ensures forall p :: p in Without(m, gone) <==> p in m && p.0 !in gone
    ensures |Without(m, gone)| <= |m|
  {
    if m != [] {
      var init, last := m[..|m| - 1], m[|m| - 1];
      WithoutEntries(init, gone);
      assert m == init + [last];
    }
  }

  lemma {:induction false} WithoutStaysDistinct(m: Memory, gone: set<Key>)
    requires DistinctKeys(m)
    ensures DistinctKeys(Without(m, gone))
  {
    if m != [] {
      var init, last := m[..|m| - 1], m[|m| - 1];
      WithoutStaysDistinct(init, gone);
      WithoutEntries(init, gone);
      var rest := Without(init, gone);
      forall i | 0 <= i < |rest|
        ensures rest[i].0 != last.0
      {
        assert rest[i] in init;
      }
    }
  }

  lemma {:induction false} WithoutTwice(m: Memory, a: set<Key>, b: set<Key>)
    ensures Without(Without(m, a), b) == Without(m, a + b)
  {
    if m != [] {
      var init, last := m[..|m| - 1], m[|m| - 1];
      WithoutTwice(init, a, b);
      if last.0 !in a {
        assert (Without(init, a) + [last])[..|Without(init, a)|] == Without(init, a);
      }
    }
  }

  lemma {:induction false} WithoutMultiplicity(m: Memory, gone: set<Key>, p: (Key, Entry))
    ensures multiset(Without(m, gone))[p] == if p.0 in gone then 0 else multiset(m)[p]
  {
    if m != [] {
      var init, last := m[..|m| - 1], m[|m| - 1];
      WithoutMultiplicity(init, gone, p);
      assert m == init + [last];
    }
  }

  lemma {:induction false} DistinctMultiplicity(m: Memory, p: (Key, Entry))
    requires DistinctKeys(m)
    ensures multiset(m)[p] <= 1
  {
    if m != [] {
      var init, last := m[..|m| - 1], m[|m| - 1];
      DistinctMultiplicity(init, p);
      assert m == init + [last];
      assert forall q :: q in init ==> q.0 != last.0;
    }
  }

  // ---------------------------------------------------------------- eviction

  // The sorted entries split into those dropped and those kept, with no key on both sides.
  lemma OnBothSides<T>(s: seq<T>, n: nat, a: T)
    requires n <= |s| && a in s[..n] && a in s[n..]
    ensures multiset(s)[a] >= 2
  {
    assert s == s[..n] + s[n..];
  }

  lemma SortedSplit(m: Memory, maxItems: nat)
    requires DistinctKeys(m) && maxItems < |m|
    ensures
      var sorted, n := StableSort(m, Access()), |m| - maxItems;
      && |sorted| == |m| && multiset(sorted) == multiset(m)
      && (forall a, b :: a in sorted[..n] && b in sorted[n..] ==> a.1.lastAccessed <= b.1.lastAccessed && a.0 != b.0)
  {
    var sorted, n := StableSort(m, Access()), |m| - maxItems;
    StableSortSorts(m, Access());
    forall a, b | a in sorted[..n] && b in sorted[n..]
      ensures a.1.lastAccessed <= b.1.lastAccessed && a.0 != b.0
    {
      var i :| 0 <= i < n && sorted[i] == a;
      var j :| n <= j < |sorted| && sorted[j] == b;
      assert Access()(sorted[i]) <= Access()(sorted[j]);
      assert a in multiset(sorted) && b in multiset(sorted);
      assert a in m && b in m;
      if a == b {
        OnBothSides(sorted, n, a);
        DistinctMultiplicity(m, a);
      }
    }
  }

  lemma SameElementsSameLength<T>(a: seq<T>, b: seq<T>)
    requires multiset(a) == multiset(b)
    ensures |a| == |b|
  {
    assert |multiset(a)| == |a| && |multiset(b)| == |b|;
  }

  lemma SameMultiplicities<T>(a: multiset<T>, b: multiset<T>)
    requires forall x :: a[x] == b[x]
    ensures a == b
  {}

  lemma KeptMultiplicity(m: Memory, maxItems: nat, p: (Key, Entry))
    requires DistinctKeys(m) && maxItems < |m|
    ensures |StableSort(m, Access())| == |m|
    ensures multiset(Evict(m, maxItems))[p] == multiset(StableSort(m, Access())[|m| - maxItems..])[p]
  {
    VictimExactlyWhenOld(m, maxItems, p);
    WithoutMultiplicity(m, KeysOf(Victims(m, maxItems)), p);
  }

  // What remains are the entries sorted last.
  lemma KeptAreSortedLast(m: Memory, maxItems: nat)
    requires DistinctKeys(m) && maxItems < |m|
    ensures |StableSort(m, Access())| == |m|
    ensures multiset(Evict(m, maxItems)) == multiset(StableSort(m, Access())[|m| - maxItems..])
    ensures |Evict(m, maxItems)| == maxItems
  {
    StableSortSorts(m, Access());
    var newest := StableSort(m, Access())[|m| - maxItems..];
    forall p
      ensures multiset(Evict(m, maxItems))[p] == multiset(newest)[p]
    {
      KeptMultiplicity(m, maxItems, p);
    }
    SameMultiplicities(multiset(Evict(m, maxItems)), multiset(newest));
    SameElementsSameLength(Evict(m, maxItems), newest);
  }

  /** Eviction meets the limit exactly, keeps a subset, and drops only entries last accessed no later than every
      entry it keeps. */
  lemma EvictionDropsLeastRecentlyAccessed(m: Memory, maxItems: nat)
    requires DistinctKeys(m)
    ensures |Evict(m, maxItems)| == if |m| <= maxItems then |m| else maxItems
    ensures DistinctKeys(Evict(m, maxItems)) && forall p :: p in Evict(m, maxItems) ==> p in m
    ensures forall a, b :: a in m && a !in Evict(m, maxItems) && b in Evict(m, maxItems) ==>
              a.1.lastAccessed <= b.1.lastAccessed
  {
    if maxItems < |m| {
      var sorted, n := StableSort(m, Access()), |m| - maxItems;
      var gone := KeysOf(Victims(m, maxItems));
      KeptAreSortedLast(m, maxItems);
      WithoutEntries(m, gone);
      WithoutStaysDistinct(m, gone);
      SortedSplit(m, maxItems);
      forall a, b | a in m && a !in Evict(m, maxItems) && b in Evict(m, maxItems)
        ensures a.1.lastAccessed <= b.1.lastAccessed
      {
        VictimExactlyWhenOld(m, maxItems, a);
        assert b in multiset(Evict(m, maxItems));
        assert b in sorted[n..];
      }
    }
  }

  lemma VictimExactlyWhenOld(m: Memory, maxItems: nat, p: (Key, Entry))
    requires DistinctKeys(m) && maxItems < |m|
    ensures
      var sorted, n := StableSort(m, Access()), |m| - maxItems;
      && |sorted| == |m|
      && (p in m && p.0 in KeysOf(Victims(m, maxItems)) <==> p in sorted[..n])
      && multiset(sorted[n..])[p] == if p.0 in KeysOf(Victims(m, maxItems)) then 0 else multiset(m)[p]
  {
    var sorted, n := StableSort(m, Access()), |m| - maxItems;
    SortedSplit(m, maxItems);
    var victims := Victims(m, maxItems);
    assert sorted == sorted[..n] + sorted[n..];
    assert multiset(m) == multiset(sorted[..n]) + multiset(sorted[n..]);
    assert p in m ==> p in multiset(m);
    if p in sorted[..n] {
      assert p in multiset(m);
      var i :| 0 <= i < |victims| && victims[i] == p;
      assert Has(victims, p.0);
    }
    if p.0 in KeysOf(victims) {
      var i :| 0 <= i < |victims| && victims[i].0 == p.0;
      assert victims[i] in sorted[..n];
    }
  }

  /** Writing a key last accessed now never evicts that key when at least one entry is allowed. */
  lemma JustWrittenSurvives(m: Memory, k: Key, e: Entry, maxItems: nat)
    requires DistinctKeys(m) && |m| <= maxItems && 1 <= maxItems
    requires forall p :: p in m ==> p.1.lastAccessed <= e.lastAccessed
    ensures (k, e) in Evict(Put(m, k, e), maxItems)
  {
    PutEntries(m, k, e);
    PutLength(m, k, e);
    PutStaysDistinct(m, k, e);
    if |Put(m, k, e)| > maxItems {
      LargestLastStaysLast(m, Access(), (k, e));
      StableSortSorts(m, Access());
      SortedLastSurvives(Put(m, k, e), maxItems, (k, e));
    }
  }

  lemma SortedLastSurvives(m: Memory, maxItems: nat, p: (Key, Entry))
    requires DistinctKeys(m) && 1 <= maxItems < |m| && p in m
    requires |StableSort(m, Access())| == |m| && StableSort(m, Access())[|m| - 1] == p
    ensures p in Evict(m, maxItems)
  {
    assert p in StableSort(m, Access())[|m| - maxItems..];
    KeptMultiplicity(m, maxItems, p);
  }
}
