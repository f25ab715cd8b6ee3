/** Building the nested category tree in memory, and which categories the resulting forest shows. */
module CategoryForest {
  import opened Common
  import opened Ancestry
  import opened CategoryTree

  ghost function ParentMap(cats: seq<Category>): Parents
    requires DistinctIds(cats)
  {
    map i | 0 <= i < |cats| :: cats[i].id := cats[i].parentId
  }

  lemma {:induction false} ParentMapSize(cats: seq<Category>)
    requires DistinctIds(cats)
    ensures |ParentMap(cats)| == |cats|
  {
    if cats != [] {
      var init, last := cats[..|cats| - 1], cats[|cats| - 1];
      ParentMapSize(init);
      ParentMapGrows(cats);
    }
  }

  lemma ParentMapGrows(cats: seq<Category>)
    requires DistinctIds(cats) && cats != []
    ensures
      var init, last := cats[..|cats| - 1], cats[|cats| - 1];
      && DistinctIds(init) && last.id !in ParentMap(init)
      && ParentMap(cats) == ParentMap(init)[last.id := last.parentId]
  {
    var init := cats[..|cats| - 1];
    assert forall i :: 0 <= i < |init| ==> init[i] == cats[i];
  }

  // The ids of the categories without a parent in the table, in input order.
  function RootIds(m: Parents, cats: seq<Category>): seq<Id> {
    if cats == [] then []
    else RootIds(m, cats[..|cats| - 1]) + (if IsRoot(m, cats[|cats| - 1].id) then [cats[|cats| - 1].id] else [])
  }

  // ---------------------------------------------------------------- the nodes built in place

  class CategoryNode {
    const id: Id
    const parentId: Option<Id>
    var children: seq<CategoryNode>

    constructor (c: Category)
      ensures id == c.id && parentId == c.parentId && children == []
    {
      id := c.id;
      parentId := c.parentId;
      children := [];
    }
  }

  function Ids(nodes: seq<CategoryNode>): seq<Id> {
    seq(|nodes|, i requires 0 <= i < |nodes| => nodes[i].id)
  }

  lemma IdsAppend(nodes: seq<CategoryNode>, n: CategoryNode)
    ensures Ids(nodes + [n]) == Ids(nodes) + [n.id]
  {}

  ghost predicate NodesOf(nodes: seq<CategoryNode>, cats: seq<Category>) {
    && |nodes| == |cats|
    && forall i :: 0 <= i < |nodes| ==> nodes[i].id == cats[i].id && nodes[i].parentId == cats[i].parentId
  }

  // A node's children are nodes of the forest, and are the categories naming it among the given ones, in order.
  ghost predicate LinkedNode(nodes: seq<CategoryNode>, cats: seq<Category>, n: CategoryNode)
    reads n
  {
    (forall c :: c in n.children ==> c in nodes) && Ids(n.children) == Kids(cats, n.id)
  }

  ghost predicate Linked(nodes: seq<CategoryNode>, cats: seq<Category>)
    reads nodes
  {
    forall n {:trigger LinkedNode(nodes, cats, n)} :: n in nodes ==> LinkedNode(nodes, cats, n)
  }

  method MakeNodes(cats: seq<Category>) returns (nodes: seq<CategoryNode>, byId: map<Id, CategoryNode>)
    requires DistinctIds(cats)
    ensures NodesOf(nodes, cats) && forall n :: n in nodes ==> fresh(n) && n.children == []
    ensures byId.Keys == ParentMap(cats).Keys
    ensures forall k :: k in byId ==> byId[k] in nodes && byId[k].id == k
  {
    byId, nodes := map[], [];
    for i := 0 to |cats|
      invariant NodesOf(nodes, cats[..i]) && forall n :: n in nodes ==> fresh(n) && n.children == []
      invariant byId.Keys == set j | 0 <= j < i :: cats[j].id
      invariant forall k :: k in byId ==> byId[k] in nodes && byId[k].id == k
    {
      var node := new CategoryNode(cats[i]);
      nodes := nodes + [node];
      byId := byId[cats[i].id := node];
    }
    assert cats[..|cats|] == cats;
  }

  lemma KidsStep(cats: seq<Category>, i: nat, p: Id)
    requires i < |cats|
    ensures Kids(cats[..i + 1], p) == Kids(cats[..i], p) + (if cats[i].parentId == Some(p) then [cats[i].id] else [])
    ensures forall m :: RootIds(m, cats[..i + 1]) == RootIds(m, cats[..i]) + (if IsRoot(m, cats[i].id) then [cats[i].id] else [])
  {
    assert cats[..i + 1][..i] == cats[..i];
  }

  // One category is attached below its parent.
  method Attach(nodes: seq<CategoryNode>, cats: seq<Category>, i: nat, parent: CategoryNode)
    requires NodesOf(nodes, cats) && DistinctIds(cats) && i < |cats| && Linked(nodes, cats[..i])
    requires parent in nodes && cats[i].parentId == Some(parent.id)
    modifies parent
    ensures Linked(nodes, cats[..i + 1])
  {
    ghost var before := parent.children;
    IdsAppend(parent.children, nodes[i]);
    parent.children := parent.children + [nodes[i]];
    forall n | n in nodes
      ensures LinkedNode(nodes, cats[..i + 1], n)
    {
      assert old(LinkedNode(nodes, cats[..i], n));
      KidsStep(cats, i, n.id);
      assert n == parent <==> n.id == parent.id;
    }
  }

  // A root is no existing category's child.
  lemma UnlinkedStep(nodes: seq<CategoryNode>, cats: seq<Category>, i: nat)
    requires NodesOf(nodes, cats) && DistinctIds(cats) && i < |cats| && Linked(nodes, cats[..i])
    requires IsRoot(ParentMap(cats), cats[i].id)
    ensures Linked(nodes, cats[..i + 1])
  {
    forall n | n in nodes
      ensures LinkedNode(nodes, cats[..i + 1], n)
    {
      assert LinkedNode(nodes, cats[..i], n);
      KidsStep(cats, i, n.id);
      assert n.id in ParentMap(cats);
    }
  }

  // ---------------------------------------------------------------- the forest as a value

  datatype Tree = Tree(id: Id, children: seq<Tree>)

  lemma NoRepeatsConcat(a: seq<Id>, b: seq<Id>)
    requires NoRepeats(a) && NoRepeats(b) && forall x :: x in a ==> x !in b
    ensures NoRepeats(a + b)
  {
    forall i, j | 0 <= i < j < |a + b|
      ensures (a + b)[i] != (a + b)[j]
    {
      if i < |a| <= j {
        assert a[i] in a && b[j - |a|] in b;
      }
    }
  }

  lemma {:induction false} SelectedAreDistinct(cats: seq<Category>, p: Id, m: Parents)
    requires DistinctIds(cats)
    ensures NoRepeats(Kids(cats, p)) && NoRepeats(RootIds(m, cats))
    ensures forall c :: c in Kids(cats, p) ==> exists i :: 0 <= i < |cats| && cats[i].id == c
    ensures forall c :: c in RootIds(m, cats) ==> exists i :: 0 <= i < |cats| && cats[i].id == c
  {
    if cats != [] {
      var init := cats[..|cats| - 1];
      SelectedAreDistinct(init, p, m);
      assert forall i :: 0 <= i < |init| ==> init[i] == cats[i];
      var last := cats[|cats| - 1].id;
      assert last !in Kids(init, p) && last !in RootIds(m, init);
      NoRepeatsConcat(Kids(init, p), [last]);
      NoRepeatsConcat(RootIds(m, init), [last]);
    }
  }

  lemma {:induction false} RootIdsComplete(m: Parents, cats: seq<Category>, r: Id)
    ensures r in RootIds(m, cats) <==> IsRoot(m, r) && exists i :: 0 <= i < |cats| && cats[i].id == r
  {
    if cats != [] {
      var init := cats[..|cats| - 1];
      RootIdsComplete(m, init, r);
      assert forall i :: 0 <= i < |init| ==> init[i] == cats[i];
      if i :| 0 <= i < |cats| && cats[i].id == r {
        assert i < |init| ==> init[i].id == r;
      }
    }
  }

  lemma RootIdsAreRoots(cats: seq<Category>)
    requires DistinctIds(cats)
    ensures NoRepeats(RootIds(ParentMap(cats), cats))
    ensures forall r :: r in RootIds(ParentMap(cats), cats) <==> RootIn(ParentMap(cats), r, 0)
  {
    var m := ParentMap(cats);
    SelectedAreDistinct(cats, 0, m);
    forall r
      ensures r in RootIds(m, cats) <==> RootIn(m, r, 0)
    {
      RootIdsComplete(m, cats, r);
    }
  }

  lemma KidsAreBelow(cats: seq<Category>, x: Id, k: nat)
    requires DistinctIds(cats) && RootIn(ParentMap(cats), x, k)
    ensures forall c :: c in Kids(cats, x) <==> c in ParentMap(cats) && ParentMap(cats)[c] == Some(x)
    ensures forall c :: c in Kids(cats, x) ==> RootIn(ParentMap(cats), c, k + 1)
    ensures NoRepeats(Kids(cats, x)) && k < |cats|
  {
    KidsAreChildren(cats, x);
    SelectedAreDistinct(cats, x, map[]);
    ParentMapSize(cats);
    DepthBound(ParentMap(cats), x, k);
    assert x in ParentMap(cats);
  }

  ghost function TreeOf(cats: seq<Category>, x: Id, k: nat): Tree
    requires DistinctIds(cats) && k <= |cats| && RootIn(ParentMap(cats), x, k)
    decreases |cats| - k, 0
  {
    KidsAreBelow(cats, x, k);
    Tree(x, TreesOf(cats, Kids(cats, x), k + 1))
  }

  ghost function TreesOf(cats: seq<Category>, ids: seq<Id>, k: nat): (ts: seq<Tree>)
    requires DistinctIds(cats) && k <= |cats|
    requires forall i :: 0 <= i < |ids| ==> RootIn(ParentMap(cats), ids[i], k)
    ensures |ts| == |ids|
    decreases |cats| - k, |ids|
  {
    if ids == [] then [] else [TreeOf(cats, ids[0], k)] + TreesOf(cats, ids[1..], k)
  }

  ghost function Forest(cats: seq<Category>): seq<Tree>
    requires DistinctIds(cats)
  {
    RootIdsAreRoots(cats);
    TreesOf(cats, RootIds(ParentMap(cats), cats), 0)
  }

  function Flatten(t: Tree): seq<Id> {
    [t.id] + FlattenAll(t.children)
  }

  function FlattenAll(ts: seq<Tree>): seq<Id> {
    if ts == [] then [] else Flatten(ts[0]) + FlattenAll(ts[1..])
  }

  // ---------------------------------------------------------------- what the forest shows

  lemma {:induction false} ReachesUnique(m: Parents, x: Id, k: nat, y: Id, z: Id)
    requires Reaches(m, x, k, y) && Reaches(m, x, k, z)
    ensures y == z
    decreases k
  {
    if k > 0 {
      ReachesUnique(m, m[x].value, k - 1, y, z);
    }
  }

  lemma SameDepthAncestorsCoincide(m: Parents, x: Id, a: Id, b: Id, k: nat)
    requires RootIn(m, a, k) && RootIn(m, b, k) && IsAncestorOrSelf(m, a, x) && IsAncestorOrSelf(m, b, x)
    ensures a == b
  {
    var i: nat :| Reaches(m, x, i, a);
    var j: nat :| Reaches(m, x, j, b);
    DepthAlong(m, x, i, a, k);
    DepthAlong(m, x, j, b, k);
    DepthUnique(m, x, i + k, j + k);
    ReachesUnique(m, x, i, a, b);
  }

  lemma {:induction false} LastLink(m: Parents, y: Id, j: nat, x: Id) returns (c: Id)
    requires j > 0 && Reaches(m, y, j, x)
    ensures Reaches(m, y, j - 1, c) && c in m && m[c] == Some(x)
    decreases j
  {
    if j == 1 {
      assert Reaches(m, m[y].value, 0, x);
      c := y;
    } else {
      c := LastLink(m, m[y].value, j - 1, x);
    }
  }

  lemma BelowSplit(m: Parents, y: Id, x: Id)
    ensures IsAncestorOrSelf(m, x, y)
      <==> y == x || exists c :: c in m && m[c] == Some(x) && IsAncestorOrSelf(m, c, y)
  {
    assert Reaches(m, x, 0, x);
    if IsAncestorOrSelf(m, x, y) && y != x {
      var j: nat :| Reaches(m, y, j, x);
      var c := LastLink(m, y, j, x);
      assert IsAncestorOrSelf(m, c, y);
    }
    if c :| c in m && m[c] == Some(x) && IsAncestorOrSelf(m, c, y) {
      var j: nat :| Reaches(m, y, j, c);
      assert Reaches(m, c, 1, x) by { assert Reaches(m, x, 0, x); }
      ReachesSplit(m, y, j, c, 1, x);
    }
  }

  ghost predicate BelowAny(m: Parents, y: Id, ids: seq<Id>) {
    exists i :: 0 <= i < |ids| && IsAncestorOrSelf(m, ids[i], y)
  }

  lemma BelowKids(cats: seq<Category>, x: Id, k: nat, y: Id)
    requires DistinctIds(cats) && RootIn(ParentMap(cats), x, k)
    ensures IsAncestorOrSelf(ParentMap(cats), x, y) <==> y == x || BelowAny(ParentMap(cats), y, Kids(cats, x))
  {
    var m, kids := ParentMap(cats), Kids(cats, x);
    KidsAreBelow(cats, x, k);
    BelowSplit(m, y, x);
    if c :| c in m && m[c] == Some(x) && IsAncestorOrSelf(m, c, y) {
      assert c in kids;
    }
    if i :| 0 <= i < |kids| && IsAncestorOrSelf(m, kids[i], y) {
      assert kids[i] in kids;
    }
  }

  // A category is not below its own children.
  lemma NotBelowKids(cats: seq<Category>, x: Id, k: nat)
    requires DistinctIds(cats) && RootIn(ParentMap(cats), x, k)
    ensures !BelowAny(ParentMap(cats), x, Kids(cats, x))
  {
    var m, kids := ParentMap(cats), Kids(cats, x);
    KidsAreBelow(cats, x, k);
    if i :| 0 <= i < |kids| && IsAncestorOrSelf(m, kids[i], x) {
      assert kids[i] in kids;
      var j: nat :| Reaches(m, x, j, kids[i]);
      DepthAlong(m, x, j, kids[i], k + 1);
      DepthUnique(m, x, j + k + 1, k);
    }
  }

  lemma {:induction false} TreeShows(cats: seq<Category>, x: Id, k: nat)
    requires DistinctIds(cats) && k <= |cats| && RootIn(ParentMap(cats), x, k)
    ensures forall y :: y in Flatten(TreeOf(cats, x, k)) <==> IsAncestorOrSelf(ParentMap(cats), x, y)
    ensures NoRepeats(Flatten(TreeOf(cats, x, k)))
    decreases |cats| - k, 0
  {
    KidsAreBelow(cats, x, k);
    TreesShow(cats, Kids(cats, x), k + 1);
    var rest := FlattenAll(TreesOf(cats, Kids(cats, x), k + 1));
    assert Flatten(TreeOf(cats, x, k)) == [x] + rest;
    forall y
      ensures y in [x] + rest <==> IsAncestorOrSelf(ParentMap(cats), x, y)
    {
      BelowKids(cats, x, k, y);
    }
    NotBelowKids(cats, x, k);
    NoRepeatsConcat([x], rest);
  }

  lemma BelowFirstOrRest(m: Parents, y: Id, ids: seq<Id>)
    requires ids != []
    ensures BelowAny(m, y, ids) <==> IsAncestorOrSelf(m, ids[0], y) || BelowAny(m, y, ids[1..])
  {
    if i :| 0 <= i < |ids| && IsAncestorOrSelf(m, ids[i], y) {
      assert i > 0 ==> ids[1..][i - 1] == ids[i];
    }
    if i :| 0 <= i < |ids[1..]| && IsAncestorOrSelf(m, ids[1..][i], y) {
      assert ids[i + 1] == ids[1..][i];
    }
  }

  // Different ids at one depth have nothing below them in common.
  lemma BelowOneOnly(m: Parents, y: Id, ids: seq<Id>, k: nat)
    requires ids != [] && NoRepeats(ids) && forall i :: 0 <= i < |ids| ==> RootIn(m, ids[i], k)
    requires IsAncestorOrSelf(m, ids[0], y)
    ensures !BelowAny(m, y, ids[1..])
  {
    if i :| 0 <= i < |ids[1..]| && IsAncestorOrSelf(m, ids[1..][i], y) {
      assert ids[i + 1] == ids[1..][i];
      SameDepthAncestorsCoincide(m, y, ids[0], ids[i + 1], k);
    }
  }

  lemma {:induction false} TreesShow(cats: seq<Category>, ids: seq<Id>, k: nat)
    requires DistinctIds(cats) && k <= |cats| && NoRepeats(ids)
    requires forall i :: 0 <= i < |ids| ==> RootIn(ParentMap(cats), ids[i], k)
    ensures forall y :: y in FlattenAll(TreesOf(cats, ids, k)) <==> BelowAny(ParentMap(cats), y, ids)
    ensures NoRepeats(FlattenAll(TreesOf(cats, ids, k)))
    decreases |cats| - k, |ids|
  {
    if ids != [] {
      var m, rest := ParentMap(cats), ids[1..];
      TreeShows(cats, ids[0], k);
      TreesShow(cats, rest, k);
      var first, others := Flatten(TreeOf(cats, ids[0], k)), FlattenAll(TreesOf(cats, rest, k));
      assert FlattenAll(TreesOf(cats, ids, k)) == first + others by {
        assert TreesOf(cats, ids, k)[1..] == TreesOf(cats, rest, k);
      }
      forall y
        ensures BelowAny(m, y, ids) <==> IsAncestorOrSelf(m, ids[0], y) || BelowAny(m, y, rest)
      {
        BelowFirstOrRest(m, y, ids);
      }
      forall y | y in first
        ensures y !in others
      {
        BelowOneOnly(m, y, ids, k);
      }
      NoRepeatsConcat(first, others);
    }
  }

  lemma {:induction false} RootAbove(m: Parents, x: Id, k: nat) returns (r: Id)
    requires RootIn(m, x, k)
    ensures IsRoot(m, r) && IsAncestorOrSelf(m, r, x)
    decreases k
  {
    if k == 0 {
      r := x;
      assert Reaches(m, x, 0, x);
    } else {
      r := RootAbove(m, m[x].value, k - 1);
      var j: nat :| Reaches(m, m[x].value, j, r);
      assert Reaches(m, x, j + 1, r);
    }
  }

  lemma BelowARootExactlyWhenGrounded(cats: seq<Category>, x: Id)
    requires DistinctIds(cats)
    ensures BelowAny(ParentMap(cats), x, RootIds(ParentMap(cats), cats)) <==> Grounded(ParentMap(cats), x)
  {
    var m := ParentMap(cats);
    var roots := RootIds(m, cats);
    RootIdsAreRoots(cats);
    if Grounded(m, x) {
      var k: nat :| RootIn(m, x, k);
      var r := RootAbove(m, x, k);
      assert RootIn(m, r, 0);
      assert r in roots;
    }
    if i :| 0 <= i < |roots| && IsAncestorOrSelf(m, roots[i], x) {
      assert roots[i] in roots;
      var j: nat :| Reaches(m, x, j, roots[i]);
      DepthAlong(m, x, j, roots[i], 0);
      assert RootIn(m, x, j);
    }
  }

  /** On distinct ids, flattening the forest yields each category at most once, and the categories it misses are
      exactly those whose chain of ancestors enters a cycle; so on an acyclic table it yields every category. */
  lemma ForestShowsExactly(cats: seq<Category>, x: Id)
    requires DistinctIds(cats)
    ensures NoRepeats(FlattenAll(Forest(cats)))
    ensures x in FlattenAll(Forest(cats)) <==> x in ParentMap(cats) && !EntersCycle(ParentMap(cats), x)
    ensures Acyclic(ParentMap(cats)) ==> (x in FlattenAll(Forest(cats)) <==> x in ParentMap(cats))
  {
    RootIdsAreRoots(cats);
    TreesShow(cats, RootIds(ParentMap(cats), cats), 0);
    BelowARootExactlyWhenGrounded(cats, x);
    if x in ParentMap(cats) {
      GroundedExactlyWhenNoCycle(ParentMap(cats), x);
    }
    assert Grounded(ParentMap(cats), x) ==> x in ParentMap(cats);
  }

  // ---------------------------------------------------------------- the nodes show the forest

  ghost predicate Shows(nodes: seq<CategoryNode>, n: CategoryNode, t: Tree)
    reads nodes
    decreases t
  {
    && n in nodes && n.id == t.id && |n.children| == |t.children|
    && forall i :: 0 <= i < |t.children| ==> Shows(nodes, n.children[i], t.children[i])
  }

  ghost predicate ShowsAll(nodes: seq<CategoryNode>, ns: seq<CategoryNode>, ts: seq<Tree>)
    reads nodes
  {
    |ns| == |ts| && forall i :: 0 <= i < |ns| ==> Shows(nodes, ns[i], ts[i])
  }

  lemma LinkedAt(nodes: seq<CategoryNode>, cats: seq<Category>, n: CategoryNode)
    requires Linked(nodes, cats) && n in nodes
    ensures Ids(n.children) == Kids(cats, n.id) && forall c :: c in n.children ==> c in nodes
  {
    assert LinkedNode(nodes, cats, n);
  }

  lemma KidsIndexed(cats: seq<Category>, x: Id, k: nat, ids: seq<Id>)
    requires DistinctIds(cats) && RootIn(ParentMap(cats), x, k) && ids == Kids(cats, x)
    ensures k < |cats| && forall i :: 0 <= i < |ids| ==> RootIn(ParentMap(cats), ids[i], k + 1)
  {
    KidsAreBelow(cats, x, k);
  }

  lemma {:induction false} LinkedShows(nodes: seq<CategoryNode>, cats: seq<Category>, n: CategoryNode, k: nat)
    requires DistinctIds(cats) && NodesOf(nodes, cats) && Linked(nodes, cats) && n in nodes
    requires k <= |cats| && RootIn(ParentMap(cats), n.id, k)
    ensures Shows(nodes, n, TreeOf(cats, n.id, k))
    decreases |cats| - k, 0
  {
    LinkedAt(nodes, cats, n);
    KidsIndexed(cats, n.id, k, Ids(n.children));
    LinkedShowsAll(nodes, cats, n.children, k + 1);
    ShowsFromChildren(nodes, n, TreeOf(cats, n.id, k));
  }

  lemma ShowsFromChildren(nodes: seq<CategoryNode>, n: CategoryNode, t: Tree)
    requires n in nodes && n.id == t.id && ShowsAll(nodes, n.children, t.children)
    ensures Shows(nodes, n, t)
  {}

  lemma {:induction false} LinkedShowsAll(nodes: seq<CategoryNode>, cats: seq<Category>, ns: seq<CategoryNode>, k: nat)
    requires DistinctIds(cats) && NodesOf(nodes, cats) && Linked(nodes, cats)
    requires forall n :: n in ns ==> n in nodes
    requires k <= |cats| && forall i :: 0 <= i < |ns| ==> RootIn(ParentMap(cats), Ids(ns)[i], k)
    ensures ShowsAll(nodes, ns, TreesOf(cats, Ids(ns), k))
    decreases |cats| - k, |ns|
  {
    if ns != [] {
      assert Ids(ns)[1..] == Ids(ns[1..]);
      assert Ids(ns)[0] == ns[0].id;
      LinkedShows(nodes, cats, ns[0], k);
      LinkedShowsAll(nodes, cats, ns[1..], k);
    }
  }

  method BuildTree(cats: seq<Category>) returns (roots: seq<CategoryNode>, ghost nodes: seq<CategoryNode>)
    requires DistinctIds(cats)
    ensures NodesOf(nodes, cats) && forall n :: n in nodes ==> fresh(n)
    ensures Linked(nodes, cats)
    ensures (forall r :: r in roots ==> r in nodes) && Ids(roots) == RootIds(ParentMap(cats), cats)
    ensures ShowsAll(nodes, roots, Forest(cats))
  {
    var all, byId := MakeNodes(cats);
    nodes, roots := all, [];
    ghost var m := ParentMap(cats);
    for i := 0 to |cats|
      invariant Linked(nodes, cats[..i])
      invariant (forall r :: r in roots ==> r in nodes) && Ids(roots) == RootIds(m, cats[..i])
    {
      var node := all[i];
      KidsStep(cats, i, 0);
      if node.parentId == None || node.parentId.value !in byId {
        IdsAppend(roots, node);
        roots := roots + [node];
        UnlinkedStep(nodes, cats, i);
      } else {
        Attach(all, cats, i, byId[node.parentId.value]);
      }
    }
    assert cats[..|cats|] == cats;
    RootIdsAreRoots(cats);
    LinkedShowsAll(nodes, cats, roots, 0);
  }
}
