/** The nested tree built in memory from the flat list, and the descendant search over the same list. */
module CategoryTree {
  import opened Common
  import opened Ancestry

  datatype Category = Category(id: Id, parentId: Option<Id>)

  predicate DistinctIds(cats: seq<Category>) {
    forall i, j :: 0 <= i < j < |cats| ==> cats[i].id != cats[j].id
  }

  // The ids of the categories that name p as their parent, in input order.
  function Kids(cats: seq<Category>, p: Id): seq<Id> {
    if cats == [] then []
    else Kids(cats[..|cats| - 1], p) + (if cats[|cats| - 1].parentId == Some(p) then [cats[|cats| - 1].id] else [])
  }

  ghost predicate Child(cats: seq<Category>, p: Id, c: Id) {
    exists i :: 0 <= i < |cats| && cats[i].id == c && cats[i].parentId == Some(p)
  }

  lemma {:induction false} KidsAreChildren(cats: seq<Category>, p: Id)
    ensures forall c :: c in Kids(cats, p) <==> Child(cats, p, c)
  {
    if cats != [] {
      var init, last := cats[..|cats| - 1], cats[|cats| - 1];
      KidsAreChildren(init, p);
      forall c
        ensures Child(cats, p, c) <==> Child(init, p, c) || (last.id == c && last.parentId == Some(p))
      {
        if Child(init, p, c) {
          var i :| 0 <= i < |init| && init[i].id == c && init[i].parentId == Some(p);
          assert cats[i] == init[i];
        }
        if Child(cats, p, c) {
          var i :| 0 <= i < |cats| && cats[i].id == c && cats[i].parentId == Some(p);
          assert i < |init| ==> init[i] == cats[i];
        }
      }
    }
  }

  // ---------------------------------------------------------------- descendant search

  ghost predicate ChildPath(cats: seq<Category>, path: seq<Id>) {
    forall i :: 0 < i < |path| ==> Child(cats, path[i - 1], path[i])
  }

  ghost predicate IsPath(cats: seq<Category>, a: Id, b: Id, path: seq<Id>) {
    path != [] && path[0] == a && path[|path| - 1] == b && ChildPath(cats, path)
  }

  // b is a or reachable from a by child edges; a need not exist and the edges may form cycles.
  ghost predicate Descends(cats: seq<Category>, a: Id, b: Id) {
    exists path :: IsPath(cats, a, b, path)
  }

  lemma DescendsStep(cats: seq<Category>, a: Id, b: Id, c: Id)
    requires Descends(cats, a, b) && Child(cats, b, c)
    ensures Descends(cats, a, c)
  {
    var path :| IsPath(cats, a, b, path);
    assert IsPath(cats, a, c, path + [c]);
  }

  lemma {:induction false} PathStaysInside(cats: seq<Category>, s: set<Id>, path: seq<Id>)
    requires ChildPath(cats, path) && path != [] && path[0] in s
    requires forall p, c :: p in s && Child(cats, p, c) ==> c in s
    ensures path[|path| - 1] in s
  {
    if |path| > 1 {
      assert Child(cats, path[0], path[1]);
      assert forall i :: 0 < i < |path[1..]| ==> path[1..][i - 1] == path[i] && path[1..][i] == path[i + 1];
      PathStaysInside(cats, s, path[1..]);
    }
  }

  function Listed(byParent: map<Id, seq<Id>>, p: Id): seq<Id> {
    if p in byParent then byParent[p] else []
  }

  // Under each id the children among the categories, in input order.
  ghost predicate Indexed(byParent: map<Id, seq<Id>>, cats: seq<Category>) {
    forall p :: Listed(byParent, p) == Kids(cats, p)
  }

  lemma IndexedOneMore(before: map<Id, seq<Id>>, after: map<Id, seq<Id>>, cats: seq<Category>, i: nat)
    requires i < |cats| && Indexed(before, cats[..i])
    requires forall p :: Listed(after, p) == Listed(before, p) + (if cats[i].parentId == Some(p) then [cats[i].id] else [])
    ensures Indexed(after, cats[..i + 1])
  {
    assert cats[..i + 1][..i] == cats[..i];
    forall p
      ensures Listed(after, p) == Kids(cats[..i + 1], p)
    {
      assert Listed(before, p) == Kids(cats[..i], p);
    }
  }

  method ChildrenByParent(cats: seq<Category>) returns (byParent: map<Id, seq<Id>>)
    ensures Indexed(byParent, cats)
  {
    byParent := map[];
    for i := 0 to |cats|
      invariant Indexed(byParent, cats[..i])
    {
      ghost var before := byParent;
      var pid := cats[i].parentId;
      if pid != None {
        var list := if pid.value in byParent then byParent[pid.value] else [];
        byParent := byParent[pid.value := list + [cats[i].id]];
      }
      IndexedOneMore(before, byParent, cats, i);
    }
    assert cats[..|cats|] == cats;
  }

  ghost function Universe(cats: seq<Category>, start: Id): set<Id> {
    {start} + set i | 0 <= i < |cats| :: cats[i].id
  }

  // What the search knows: every id found or waiting is below the start, and the children of a found id are found or
  // waiting.
  ghost predicate Searched(cats: seq<Category>, start: Id, result: seq<Id>, stack: seq<Id>) {
    && NoRepeats(result)
    && (if result == [] then stack == [start] else result[0] == start)
    && (forall b :: b in result || b in stack ==> Descends(cats, start, b) && b in Universe(cats, start))
    && (forall p, c :: p in result && Child(cats, p, c) ==> c in result || c in stack)
  }

  lemma SkipKeepsSearched(cats: seq<Category>, start: Id, result: seq<Id>, rest: seq<Id>, id: Id)
    requires Searched(cats, start, result, rest + [id]) && id in result
    ensures Searched(cats, start, result, rest)
  {}

  lemma VisitKeepsSearched(cats: seq<Category>, start: Id, result: seq<Id>, rest: seq<Id>, id: Id)
    requires Searched(cats, start, result, rest + [id]) && id !in result
    ensures Searched(cats, start, result + [id], rest + Kids(cats, id))
  {
    KidsAreChildren(cats, id);
    assert id in rest + [id];
    forall c | c in Kids(cats, id)
      ensures Descends(cats, start, c) && c in Universe(cats, start)
    {
      DescendsStep(cats, start, id, c);
    }
    if result == [] {
      assert (rest + [id])[|rest|] == id;
    }
  }

  lemma SearchedAll(cats: seq<Category>, start: Id, result: seq<Id>)
    requires Searched(cats, start, result, [])
    ensures forall b :: b in result <==> Descends(cats, start, b)
  {
    var found := set b | b in result;
    forall b | Descends(cats, start, b)
      ensures b in result
    {
      var path :| IsPath(cats, start, b, path);
      PathStaysInside(cats, found, path);
    }
  }

  /** Terminates on any list, cyclic ones included, and returns without duplicates exactly the start id and
      everything below it. */
  method GetDescendantCategoryIds(cats: seq<Category>, start: Id) returns (result: seq<Id>)
    ensures NoRepeats(result) && result != [] && result[0] == start
    ensures forall b :: b in result <==> Descends(cats, start, b)
  {
    var byParent := ChildrenByParent(cats);
    result := [];
    var stack := [start];
    var seen: set<Id> := {};
    assert IsPath(cats, start, start, [start]);
    while stack != []
      invariant forall b :: b in seen <==> b in result
      invariant Searched(cats, start, result, stack)
      decreases Universe(cats, start) - seen, |stack|
    {
      var id := stack[|stack| - 1];
      var rest := stack[..|stack| - 1];
      assert stack == rest + [id];
      if id in seen {
        SkipKeepsSearched(cats, start, result, rest, id);
        stack := rest;
      } else {
        VisitKeepsSearched(cats, start, result, rest, id);
        assert id in stack;
        seen := seen + {id};
        result := result + [id];
        var kids := if id in byParent then byParent[id] else [];
        stack := rest + kids;
      }
    }
    SearchedAll(cats, start, result);
  }
}
