/** The guard that keeps a category from being moved below itself or one of its descendants. */
module CategoryGuard {
  import opened Common
  import opened Ancestry

  datatype MoveError = OwnParent | Corrupted | Circular | InvalidReference

  ghost predicate EndsAtRoot(m: Parents, x: Id) {
    exists k: nat, y :: Reaches(m, x, k, y) && y in m && m[y] == None
  }

  ghost predicate Dangles(m: Parents, x: Id) {
    exists k: nat, y :: Reaches(m, x, k, y) && y !in m
  }

  // What the walk up from the new parent meets first decides the answer.
  ghost function Verdict(m: Parents, cat: Id, newParent: Option<Id>): Result<(), MoveError> {
    match newParent
    case None => Ok(())
    case Some(p) =>
      if p == cat then Err(OwnParent)
      else if IsAncestorOrSelf(m, cat, p) then Err(Circular)
      else if Dangles(m, p) then Err(InvalidReference)
      else if EndsAtRoot(m, p) then Ok(())
      else Err(Corrupted)
  }

  // Everything walked stays inside a set that contains each member's parent.
  lemma {:induction false} WalkStaysInside(m: Parents, s: set<Id>, x: Id, k: nat, y: Id)
    requires x in s && Reaches(m, x, k, y)
    requires forall v :: v in s && v in m && m[v].Some? ==> m[v].value in s
    ensures y in s
    decreases k
  {
    if k > 0 {
      WalkStaysInside(m, s, m[x].value, k - 1, y);
    }
  }

  method AssertNoCycle(m: Parents, cat: Id, newParent: Option<Id>) returns (r: Result<(), MoveError>)
    ensures r == Verdict(m, cat, newParent)
  {
    if newParent == None { return Ok(()); }
    if newParent == Some(cat) { return Err(OwnParent); }
    var start := newParent.value;
    var current := newParent;
    var visited: set<Id> := {};
    ghost var n: nat, last := 0, start;
    while current != None
      invariant visited <= m.Keys && cat !in visited
      invariant start in visited || current == Some(start)
      invariant forall v :: v in visited ==> m[v] == current || (m[v].Some? && m[v].value in visited)
      invariant current.Some? ==> Reaches(m, start, n, current.value)
      invariant current == None ==> Reaches(m, start, n, last) && last in m && m[last] == None
      decreases m.Keys - visited, current.Some?
    {
      var id := current.value;
      if id in visited {
        forall k: nat, y | Reaches(m, start, k, y)
          ensures y in visited
        {
          WalkStaysInside(m, visited, start, k, y);
        }
        return Err(Corrupted);
      }
      visited := visited + {id};
      if id == cat { return Err(Circular); }
      if id !in m {
        forall k: nat, y | Reaches(m, start, k, y)
          ensures y != cat
        {
          WalkStaysInside(m, visited, start, k, y);
        }
        return Err(InvalidReference);
      }
      current := m[id];
      if current.Some? {
        ReachesSplit(m, start, n, id, 1, current.value);
        assert Reaches(m, id, 1, current.value) by { assert Reaches(m, current.value, 0, current.value); }
        n := n + 1;
      } else {
        last := id;
      }
    }
    forall k: nat, y | Reaches(m, start, k, y)
      ensures y in visited
    {
      WalkStaysInside(m, visited, start, k, y);
    }
    assert EndsAtRoot(m, start);
    return Ok(());
  }

  lemma {:induction false} RootEndsWalk(m: Parents, x: Id, k: nat)
    requires Closed(m) && RootIn(m, x, k)
    ensures EndsAtRoot(m, x)
    decreases k
  {
    if k == 0 {
      assert Reaches(m, x, 0, x);
    } else {
      RootEndsWalk(m, m[x].value, k - 1);
      var j: nat, y :| Reaches(m, m[x].value, j, y) && y in m && m[y] == None;
      assert Reaches(m, x, j + 1, y);
    }
  }

  /** On an acyclic table closed under parents the guard accepts a move exactly when the category is neither the new
      parent nor above it, which is exactly when the moved table is acyclic. */
  lemma GuardAcceptsExactlySafeMoves(m: Parents, cat: Id, parent: Id)
    requires Acyclic(m) && Closed(m) && cat in m && parent in m
    ensures Verdict(m, cat, Some(parent)) == Ok(()) <==> !IsAncestorOrSelf(m, cat, parent)
    ensures Verdict(m, cat, Some(parent)) == Ok(()) <==> Acyclic(m[cat := Some(parent)])
  {
    MoveKeepsAcyclicExactlyWhen(m, cat, parent);
    assert Reaches(m, parent, 0, parent);
    var d: nat :| RootIn(m, parent, d);
    RootEndsWalk(m, parent, d);
    forall k: nat, y | Reaches(m, parent, k, y)
      ensures y in m
    {
      WalkStaysInside(m, m.Keys, parent, k, y);
    }
  }

  /** Any run of moves, each applied only when the guard accepts it, leaves an acyclic closed table acyclic. */
  lemma {:induction false} GuardedMovesStayAcyclic(m: Parents, moves: seq<(Id, Option<Id>)>)
    requires Acyclic(m) && Closed(m)
    ensures Acyclic(Moved(m, moves)) && Closed(Moved(m, moves))
    decreases |moves|
  {
    if moves != [] {
      var (cat, parent) := moves[0];
      var t := MoveIfAccepted(m, cat, parent);
      if cat in m && parent.Some? && Verdict(m, cat, parent) == Ok(()) {
        assert parent.value in m by { assert Reaches(m, parent.value, 0, parent.value); }
        GuardAcceptsExactlySafeMoves(m, cat, parent.value);
      } else if cat in m && parent == None {
        DetachKeepsAcyclic(m, cat);
      }
      GuardedMovesStayAcyclic(t, moves[1..]);
    }
  }

  ghost function MoveIfAccepted(m: Parents, cat: Id, parent: Option<Id>): Parents {
    if cat in m && Verdict(m, cat, parent) == Ok(()) then m[cat := parent] else m
  }

  ghost function Moved(m: Parents, moves: seq<(Id, Option<Id>)>): Parents
    decreases |moves|
  {
    if moves == [] then m else Moved(MoveIfAccepted(m, moves[0].0, moves[0].1), moves[1..])
  }

  lemma {:induction false} DetachedWalk(m: Parents, cat: Id, x: Id, d: nat)
    requires cat in m && RootIn(m, x, d)
    ensures Grounded(m[cat := None], x)
    decreases d
  {
    var t := m[cat := None];
    if x == cat || d == 0 {
      assert RootIn(t, x, 0);
    } else {
      DetachedWalk(m, cat, m[x].value, d - 1);
      var k: nat :| RootIn(t, m[x].value, k);
      assert RootIn(t, x, k + 1);
    }
  }

  lemma DetachKeepsAcyclic(m: Parents, cat: Id)
    requires Acyclic(m) && cat in m
    ensures Acyclic(m[cat := None])
  {
    var t := m[cat := None];
    forall x | x in t
      ensures Grounded(t, x)
    {
      var d: nat :| RootIn(m, x, d);
      DetachedWalk(m, cat, x, d);
    }
  }

  /** Why a move is refused: the category itself as parent; one of its descendants; a parent chain that leaves the table; or
      one that ends nowhere. Detaching is never refused. */
  lemma RefusedFor(m: Parents, cat: Id, p: Id)
    ensures Verdict(m, cat, None) == Ok(())
    ensures Verdict(m, cat, Some(p)) == Err(OwnParent) <==> p == cat
    ensures Verdict(m, cat, Some(p)) == Err(Circular) <==> p != cat && IsAncestorOrSelf(m, cat, p)
    ensures p !in m && p != cat ==> Verdict(m, cat, Some(p)) == Err(InvalidReference)
    ensures p in m && m[p] == None && p != cat ==> Verdict(m, cat, Some(p)) == Ok(())
    ensures p in m && m[p] == Some(p) && p != cat ==> Verdict(m, cat, Some(p)) == Err(Corrupted)
  {
    assert Reaches(m, p, 0, p);
    if p != cat && (p !in m || m[p] == None) {
      forall k: nat, y | Reaches(m, p, k, y)
        ensures y == p
      {}
    }
    if p in m && m[p] == Some(p) && p != cat {
      forall k: nat, y | Reaches(m, p, k, y)
        ensures y == p
      {
        WalkStaysInside(m, {p}, p, k, y);
      }
    }
  }
}
