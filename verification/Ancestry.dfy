/**
 * Walks along parent links: an adjacency list maps each category id to its parent id, which may be absent, name a
 * category that does not exist, or close a cycle.
 */
module Ancestry {
  import opened Common

  type Id = int

  type Parents = map<Id, Option<Id>>

  // Following the parent link k times from x gives y.
  predicate Reaches(m: Parents, x: Id, k: nat, y: Id)
    decreases k
  {
    if k == 0 then x == y
    else x in m && m[x].Some? && Reaches(m, m[x].value, k - 1, y)
  }

  // A category without a parent, or whose parent does not exist.
  predicate IsRoot(m: Parents, x: Id) {
    x in m && (m[x] == None || m[x].value !in m)
  }

  // The walk up from x arrives at a root after exactly k links.
  predicate RootIn(m: Parents, x: Id, k: nat)
    decreases k
  {
    if k == 0 then IsRoot(m, x)
    else x in m && !IsRoot(m, x) && RootIn(m, m[x].value, k - 1)
  }

  ghost predicate Grounded(m: Parents, x: Id) {
    exists k: nat :: RootIn(m, x, k)
  }

  ghost predicate EntersCycle(m: Parents, x: Id) {
    exists k: nat, y, p: nat :: 0 < p && Reaches(m, x, k, y) && y in m && Reaches(m, y, p, y)
  }

  ghost predicate Acyclic(m: Parents) {
    forall x :: x in m ==> Grounded(m, x)
  }

  predicate Closed(m: Parents) {
    forall x :: x in m && m[x].Some? ==> m[x].value in m
  }

  // ---------------------------------------------------------------- walks

  lemma {:induction false} ReachesSplit(m: Parents, x: Id, i: nat, y: Id, j: nat, z: Id)
    requires Reaches(m, x, i, y)
    ensures Reaches(m, y, j, z) <==> Reaches(m, x, i + j, z)
    decreases i
  {
    if i > 0 {
      ReachesSplit(m, m[x].value, i - 1, y, j, z);
    }
  }

  lemma {:induction false} DepthUnique(m: Parents, x: Id, j: nat, k: nat)
    requires RootIn(m, x, j) && RootIn(m, x, k)
    ensures j == k
    decreases j
  {
    if j > 0 && k > 0 {
      DepthUnique(m, m[x].value, j - 1, k - 1);
    }
  }

  // An ancestor's depth is smaller by the number of links walked.
  lemma {:induction false} DepthAlong(m: Parents, x: Id, j: nat, y: Id, k: nat)
    requires y in m && Reaches(m, x, j, y)
    ensures RootIn(m, x, j + k) <==> RootIn(m, y, k)
    decreases j
  {
    if j > 0 {
      assert j > 1 ==> m[x].value in m;
      DepthAlong(m, m[x].value, j - 1, y, k);
    }
  }

  ghost predicate Within(m: Parents, x: Id, k: nat) {
    exists d: nat :: d <= k && RootIn(m, x, d)
  }

  // The categories on the walk from x to its root.
  ghost function Trail(m: Parents, x: Id, k: nat): (s: set<Id>)
    requires RootIn(m, x, k)
    ensures s <= m.Keys
    ensures forall y :: y in s ==> Within(m, y, k)
    ensures |s| == k + 1
    decreases k
  {
    if k == 0 then {x}
    else
      var rest := Trail(m, m[x].value, k - 1);
      assert forall y :: y in rest ==> Within(m, y, k);
      assert x !in rest by {
        if Within(m, x, k - 1) {
          var d: nat :| d <= k - 1 && RootIn(m, x, d);
          DepthUnique(m, x, d, k);
        }
      }
      {x} + rest
  }

  lemma SubsetSize<T>(a: set<T>, b: set<T>)
    requires a <= b
    ensures |a| <= |b|
  {
    assert b == a + (b - a);
  }

  lemma DepthBound(m: Parents, x: Id, k: nat)
    requires RootIn(m, x, k)
    ensures k < |m|
  {
    SubsetSize(Trail(m, x, k), m.Keys);
    assert |m.Keys| == |m|;
  }

  // ---------------------------------------------------------------- cycles

  lemma {:induction false} CycleHasNoRoot(m: Parents, y: Id, p: nat, k: nat)
    requires 0 < p && y in m && Reaches(m, y, p, y)
    ensures !RootIn(m, y, k)
  {
    if RootIn(m, y, k) {
      DepthAlong(m, y, p, y, k);
      DepthUnique(m, y, p + k, k);
    }
  }

  // The walk up from x for the first n links, as a sequence.
  ghost function Walk(m: Parents, x: Id, n: nat): (s: seq<Id>)
    requires x in m && !Grounded(m, x)
    ensures |s| == n + 1 && forall i :: 0 <= i <= n ==> s[i] in m && Reaches(m, x, i, s[i])
    decreases n
  {
    if n == 0 then [x]
    else
      assert !RootIn(m, x, 0);
      assert !Grounded(m, m[x].value) by {
        if Grounded(m, m[x].value) {
          var k: nat :| RootIn(m, m[x].value, k);
          assert RootIn(m, x, k + 1);
        }
      }
      [x] + Walk(m, m[x].value, n - 1)
  }

  lemma {:induction false} DistinctFit<T>(s: seq<T>, u: set<T>)
    requires NoRepeats(s) && forall i :: 0 <= i < |s| ==> s[i] in u
    ensures |s| <= |u|
  {
    if s != [] {
      DistinctFit(s[1..], u - {s[0]});
    }
  }

  lemma TooLong(m: Parents, s: seq<Id>)
    requires |m| < |s| && forall i :: 0 <= i < |s| ==> s[i] in m
    ensures !NoRepeats(s)
  {
    assert |m.Keys| == |m|;
    if NoRepeats(s) {
      DistinctFit(s, m.Keys);
    }
  }

  /** A category's chain of ancestors either ends at a root or enters a cycle, and never both. */
  lemma GroundedExactlyWhenNoCycle(m: Parents, x: Id)
    requires x in m
    ensures Grounded(m, x) <==> !EntersCycle(m, x)
  {
    if Grounded(m, x) && EntersCycle(m, x) {
      var d: nat :| RootIn(m, x, d);
      var k: nat, y, p: nat :| 0 < p && Reaches(m, x, k, y) && y in m && Reaches(m, y, p, y);
      ReachesSplit(m, x, k, y, p, y);
      if k <= d {
        DepthAlong(m, x, k, y, d - k);
        CycleHasNoRoot(m, y, p, d - k);
      } else {
        RootStops(m, x, d, k, y);
      }
    }
    if !Grounded(m, x) {
      var walk := Walk(m, x, |m|);
      assert !NoRepeats(walk) by { TooLong(m, walk); }
      var i, j :| 0 <= i < j < |walk| && walk[i] == walk[j];
      ReachesSplit(m, x, i, walk[i], j - i, walk[j]);
      assert EntersCycle(m, x);
    }
  }

  // Beyond its root a walk meets no existing category.
  lemma {:induction false} RootStops(m: Parents, x: Id, d: nat, k: nat, y: Id)
    requires RootIn(m, x, d) && d < k && Reaches(m, x, k, y)
    ensures y !in m
    decreases d
  {
    if d > 0 {
      RootStops(m, m[x].value, d - 1, k - 1, y);
    } else if k == 1 {
      assert Reaches(m, m[x].value, 0, y);
    }
  }

  // ---------------------------------------------------------------- moving a category

  ghost predicate IsAncestorOrSelf(m: Parents, a: Id, x: Id) {
    exists k: nat :: Reaches(m, x, k, a)
  }

  // A walk that avoids the moved category is the same before and after the move.
  lemma {:induction false} WalkAvoidingMove(m: Parents, cat: Id, parent: Id, x: Id, d: nat)
    requires Closed(m) && RootIn(m, x, d) && !IsAncestorOrSelf(m, cat, x)
    ensures RootIn(m[cat := Some(parent)], x, d)
    decreases d
  {
    assert !Reaches(m, x, 0, cat);
    if d > 0 {
      assert !IsAncestorOrSelf(m, cat, m[x].value) by {
        if IsAncestorOrSelf(m, cat, m[x].value) {
          var k: nat :| Reaches(m, m[x].value, k, cat);
          assert Reaches(m, x, k + 1, cat);
        }
      }
      WalkAvoidingMove(m, cat, parent, m[x].value, d - 1);
    }
  }

  // A walk that meets the moved category continues from there to the new parent.
  lemma {:induction false} WalkThroughMove(m: Parents, cat: Id, parent: Id, x: Id, j: nat, d: nat)
    requires Closed(m) && cat in m && parent in m && parent != cat && Reaches(m, x, j, cat)
    requires RootIn(m[cat := Some(parent)], parent, d)
    ensures Grounded(m[cat := Some(parent)], x)
    decreases j
  {
    var t := m[cat := Some(parent)];
    if x == cat {
      assert RootIn(t, x, d + 1);
    } else {
      WalkThroughMove(m, cat, parent, m[x].value, j - 1, d);
      var k: nat :| RootIn(t, m[x].value, k);
      assert m[x].value in t;
      assert RootIn(t, x, k + 1);
    }
  }

  // The part of a walk before it first meets the moved category is the same after the move.
  lemma {:induction false} ReachesAfterMove(m: Parents, cat: Id, parent: Id, x: Id, k: nat) returns (j: nat)
    requires Reaches(m, x, k, cat)
    ensures Reaches(m[cat := Some(parent)], x, j, cat)
    decreases k
  {
    if x == cat {
      j := 0;
    } else {
      j := ReachesAfterMove(m, cat, parent, m[x].value, k - 1);
      j := j + 1;
    }
  }

  /** In an acyclic table closed under parents, moving a category below a new parent keeps the table acyclic exactly
      when the category is not the new parent or one of its ancestors. */
  lemma MoveKeepsAcyclicExactlyWhen(m: Parents, cat: Id, parent: Id)
    requires Acyclic(m) && Closed(m) && cat in m && parent in m
    ensures Acyclic(m[cat := Some(parent)]) <==> !IsAncestorOrSelf(m, cat, parent)
  {
    var t := m[cat := Some(parent)];
    if IsAncestorOrSelf(m, cat, parent) {
      var k: nat :| Reaches(m, parent, k, cat);
      var j := ReachesAfterMove(m, cat, parent, parent, k);
      assert Reaches(t, cat, j + 1, cat);
      assert Reaches(t, cat, 0, cat);
      assert EntersCycle(t, cat);
      GroundedExactlyWhenNoCycle(t, cat);
    } else {
      assert !Reaches(m, parent, 0, cat);
      var d: nat :| RootIn(m, parent, d);
      WalkAvoidingMove(m, cat, parent, parent, d);
      forall x | x in t
        ensures Grounded(t, x)
      {
        if IsAncestorOrSelf(m, cat, x) {
          var j: nat :| Reaches(m, x, j, cat);
          WalkThroughMove(m, cat, parent, x, j, d);
        } else {
          var e: nat :| RootIn(m, x, e);
          WalkAvoidingMove(m, cat, parent, x, e);
        }
      }
    }
  }
}
