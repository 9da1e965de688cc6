/** The client's tree view: the forest rebuilt from an unordered list of images. */
module TreeList {
  import opened Options
  import opened Forest
  import opened Listing

  /** A branch of the printed tree; `parent` is the position of the branch it was added to, None for the root. */
  datatype Branch = Branch(id: string, value: Volume, parent: Option<nat>)

  /** The tree so far, and where the branch of each image is. */
  datatype Builder = Builder(tree: seq<Branch>, branches: map<string, nat>)

  const NO_BRANCHES := Builder([], map[])

  /** The order ByDepth sorts by. */
  predicate Less(a: Volume, b: Volume) {
    a.depth < b.depth
  }

  ghost predicate SortedByDepth(vs: seq<Volume>) {
    forall i, j | 0 <= i < j < |vs| :: !Less(vs[j], vs[i])
  }

  function AddBranch(b: Builder, v: Volume, parent: Option<nat>): Builder {
    Builder(b.tree + [Branch(v.volumeRef, v, parent)], b.branches[v.volumeRef := |b.tree|])
  }

  /** The first loop: roots, up to the first image that is none. */
  function AddRoots(b: Builder, vs: seq<Volume>): Builder
    decreases |vs|
  {
    if vs == [] || vs[0].depth > 0 then b
    else AddRoots(AddBranch(b, vs[0], None), vs[1..])
  }

  /** The second loop: every other image goes under its backing image, or is skipped if that is missing. */
  function AddOverlays(b: Builder, vs: seq<Volume>): Builder
    decreases |vs|
  {
    if vs == [] then b
    else AddOverlays(AddOverlay(b, vs[0]), vs[1..])
  }

  function AddOverlay(b: Builder, v: Volume): Builder {
    if v.depth < 1 || v.backing !in b.branches then b
    else AddBranch(b, v, Some(b.branches[v.backing]))
  }

  function BuildTree(vs: seq<Volume>): Builder {
    AddOverlays(AddRoots(NO_BRANCHES, vs), vs)
  }

  /** `sorted` is what sorting made of the received list; sorting by depth leaves ties in any order. */
  method PrintTree(volumes: seq<Volume>, sorted: seq<Volume>) returns (tree: seq<Branch>)
    requires multiset(sorted) == multiset(volumes) && SortedByDepth(sorted)
    ensures tree == BuildTree(sorted).tree
  {
    tree := [];
    var branches: map<string, nat> := map[];
    var i := 0;
    while i < |sorted|
      invariant 0 <= i <= |sorted|
      invariant AddRoots(Builder(tree, branches), sorted[i..]) == AddRoots(NO_BRANCHES, sorted)
    {
      if sorted[i].depth > 0 {
        break;
      }
      branches := branches[sorted[i].volumeRef := |tree|];
      tree := tree + [Branch(sorted[i].volumeRef, sorted[i], None)];
      assert sorted[i..][1..] == sorted[i + 1..];
      i := i + 1;
    }
    assert Builder(tree, branches) == AddRoots(NO_BRANCHES, sorted);
    i := 0;
    while i < |sorted|
      invariant 0 <= i <= |sorted|
      invariant AddOverlays(Builder(tree, branches), sorted[i..]) == BuildTree(sorted)
    {
      var v := sorted[i];
      assert sorted[i..][1..] == sorted[i + 1..];
      if v.depth >= 1 && v.backing in branches {
        var parent := branches[v.backing];
        branches := branches[v.volumeRef := |tree|];
        tree := tree + [Branch(v.volumeRef, v, Some(parent))];
      }
      i := i + 1;
    }
  }

  // ----- the built tree is the forest

  ghost predicate Attached(m: Images, b: Builder, x: string)
    requires x in b.branches
  {
    && x in m && b.branches[x] < |b.tree|
    && b.tree[b.branches[x]].id == x
    && b.tree[b.branches[x]].value == Listed(x, m[x])
    && match b.tree[b.branches[x]].parent
       case None => m[x].backing == ""
       case Some(p) =>
         m[x].backing != "" && m[x].backing in b.branches && p == b.branches[m[x].backing] && p < b.branches[x]
  }

  /** Every branch belongs to one image of the forest and hangs under the branch of its backing image. */
  ghost predicate WellBuilt(m: Images, b: Builder) {
    && (forall x {:trigger Attached(m, b, x)} | x in b.branches :: Attached(m, b, x))
    && (forall i | 0 <= i < |b.tree| :: b.tree[i].id in b.branches && b.branches[b.tree[i].id] == i)
  }

  lemma AddBranchWellBuilt(m: Images, b: Builder, x: string, parent: Option<nat>)
    requires WellBuilt(m, b) && x in m && x !in b.branches
    requires match parent
             case None => m[x].backing == ""
             case Some(p) => m[x].backing != "" && m[x].backing in b.branches && p == b.branches[m[x].backing]
    ensures WellBuilt(m, AddBranch(b, Listed(x, m[x]), parent))
  {
    var b' := AddBranch(b, Listed(x, m[x]), parent);
    forall y | y in b'.branches
      ensures Attached(m, b', y)
    {
      if y != x {
        assert Attached(m, b, y);
      } else if parent.Some? {
        assert Attached(m, b, m[x].backing);
      }
    }
  }

  ghost function Roots(vs: seq<Volume>): set<string> {
    set v | v in vs && v.depth <= 0 :: v.volumeRef
  }

  lemma {:induction false} RootsFirst(m: Images, vs: seq<Volume>, b: Builder)
    requires IsForest(m) && ListsSome(m, vs) && SortedByDepth(vs)
    requires WellBuilt(m, b) && b.branches.Keys !! Ids(vs)
    ensures WellBuilt(m, AddRoots(b, vs))
    ensures AddRoots(b, vs).branches.Keys == b.branches.Keys + Roots(vs)
    decreases |vs|
  {
    if vs == [] {
    } else if vs[0].depth > 0 {
      forall v | v in vs
        ensures v.depth > 0
      {
        var j :| 0 <= j < |vs| && vs[j] == v;
        assert j > 0 ==> !Less(vs[j], vs[0]);
      }
      assert Roots(vs) == {};
    } else {
      var x := vs[0].volumeRef;
      assert vs[0] in vs && x in Ids(vs);
      assert Placed(m, x) && m[x].depth == vs[0].depth == 0;
      RootsHaveDepthZero(m, x);
      AddBranchWellBuilt(m, b, x, None);
      TailOfList(m, vs);
      RootsFirst(m, vs[1..], AddBranch(b, vs[0], None));
      assert Roots(vs) == {x} + Roots(vs[1..]) by {
        assert vs == [vs[0]] + vs[1..];
      }
    }
  }

  lemma TailOfList(m: Images, vs: seq<Volume>)
    requires ListsSome(m, vs) && SortedByDepth(vs) && vs != []
    ensures ListsSome(m, vs[1..]) && SortedByDepth(vs[1..])
    ensures Ids(vs[1..]) == Ids(vs) - {vs[0].volumeRef}
  {
    forall v | v in vs[1..]
      ensures v in vs && v.volumeRef != vs[0].volumeRef
    {
      var j :| 0 <= j < |vs[1..]| && vs[1..][j] == v;
      assert vs[j + 1] == v;
    }
    forall v | v in vs && v != vs[0]
      ensures v in vs[1..]
    {
      var j :| 0 <= j < |vs| && vs[j] == v;
      assert vs[1..][j - 1] == v;
    }
  }

  /** What is still to come lacks nothing: each remaining backing image has a branch or comes earlier. */
  ghost predicate Covers(m: Images, b: Builder, vs: seq<Volume>) {
    forall x | x in m :: x in b.branches || x in Ids(vs)
  }

  lemma NextHasParent(m: Images, b: Builder, vs: seq<Volume>)
    requires IsForest(m) && ListsSome(m, vs) && SortedByDepth(vs) && Covers(m, b, vs)
    requires vs != [] && vs[0].depth > 0
    ensures vs[0].backing in b.branches
  {
    var x := vs[0].volumeRef;
    assert Placed(m, x);
    forall v | v in vs
      ensures v.volumeRef != m[x].backing
    {
      var j :| 0 <= j < |vs| && vs[j] == v;
      assert j > 0 ==> !Less(vs[j], vs[0]);
    }
  }

  lemma {:induction false} OverlaysNext(m: Images, vs: seq<Volume>, b: Builder)
    requires IsForest(m) && ListsSome(m, vs) && SortedByDepth(vs)
    requires WellBuilt(m, b) && Covers(m, b, vs)
    requires forall v | v in vs :: v.volumeRef in b.branches <==> v.depth <= 0
    ensures WellBuilt(m, AddOverlays(b, vs))
    ensures m.Keys <= AddOverlays(b, vs).branches.Keys
    decreases |vs|
  {
    if vs == [] {
    } else {
      var v, x := vs[0], vs[0].volumeRef;
      assert v in vs;
      TailOfList(m, vs);
      if v.depth > 0 {
        NextHasParent(m, b, vs);
        assert Placed(m, x);
        AddBranchWellBuilt(m, b, x, Some(b.branches[v.backing]));
      }
      forall u | u in vs[1..]
        ensures u in vs && u.volumeRef != x
      {
        assert u.volumeRef in Ids(vs[1..]);
        assert vs == [v] + vs[1..];
      }
      OverlaysNext(m, vs[1..], AddOverlay(b, v));
    }
  }

  ghost predicate ParentsFirst(tree: seq<Branch>) {
    forall i | 0 <= i < |tree| && tree[i].parent.Some? :: tree[i].parent.value < i
  }

  /** The IDs from a branch up to the root of the printed tree. */
  ghost function Path(tree: seq<Branch>, i: nat): seq<string>
    requires ParentsFirst(tree) && i < |tree|
  {
    match tree[i].parent
    case None => [tree[i].id]
    case Some(p) => [tree[i].id] + Path(tree, p)
  }

  lemma {:induction false} PathIsChain(m: Images, b: Builder, x: string)
    requires IsForest(m) && WellBuilt(m, b) && ParentsFirst(b.tree) && x in b.branches
    ensures b.branches[x] < |b.tree|
    ensures x in m && Path(b.tree, b.branches[x]) == Chain(m, x)
    decreases if x in m then m[x].depth else 0
  {
    assert Attached(m, b, x) && Placed(m, x);
    if m[x].backing != "" {
      assert b.tree[b.branches[x]].parent == Some(b.branches[m[x].backing]);
      PathIsChain(m, b, m[x].backing);
    } else {
      assert b.tree[b.branches[x]].parent == None;
      assert Chain(m, x) == [x];
    }
  }

  /** There is one branch for every recorded image, and its path up is the chain of the image. */
  ghost predicate IsForestOf(m: Images, tree: seq<Branch>)
    requires IsForest(m)
  {
    && ParentsFirst(tree)
    && (forall i | 0 <= i < |tree| ::
          && tree[i].id in m && tree[i].value == Listed(tree[i].id, m[tree[i].id])
          && Path(tree, i) == Chain(m, tree[i].id))
    && (forall i, j | 0 <= i < j < |tree| :: tree[i].id != tree[j].id)
    && (forall x | x in m :: exists i :: 0 <= i < |tree| && tree[i].id == x)
  }

  lemma WellBuiltIsForest(m: Images, b: Builder)
    requires IsForest(m) && WellBuilt(m, b) && m.Keys <= b.branches.Keys
    ensures IsForestOf(m, b.tree)
  {
    forall i | 0 <= i < |b.tree| && b.tree[i].parent.Some?
      ensures b.tree[i].parent.value < i
    {
      assert Attached(m, b, b.tree[i].id);
    }
    forall i | 0 <= i < |b.tree|
      ensures b.tree[i].id in m && b.tree[i].value == Listed(b.tree[i].id, m[b.tree[i].id])
      ensures Path(b.tree, i) == Chain(m, b.tree[i].id)
    {
      assert Attached(m, b, b.tree[i].id);
      PathIsChain(m, b, b.tree[i].id);
    }
    forall x | x in m
      ensures exists i :: 0 <= i < |b.tree| && b.tree[i].id == x
    {
      assert Attached(m, b, x);
    }
  }

  /**
    The rebuilt tree is the forest: for the listing of a forest in any order, sorted by depth in any
    way, every image is added exactly once and under its backing image; none is skipped.
   */
  lemma RebuiltTreeIsForest(m: Images, volumes: seq<Volume>, sorted: seq<Volume>)
    requires IsForest(m) && ListsAll(m, volumes)
    requires multiset(sorted) == multiset(volumes) && SortedByDepth(sorted)
    ensures IsForestOf(m, BuildTree(sorted).tree)
  {
    PermutedListing(m, volumes, sorted);
    var roots := AddRoots(NO_BRANCHES, sorted);
    RootsFirst(m, sorted, NO_BRANCHES);
    forall v | v in sorted
      ensures v.volumeRef in roots.branches <==> v.depth <= 0
    {
      if v.volumeRef in Roots(sorted) {
        var u :| u in sorted && u.depth <= 0 && u.volumeRef == v.volumeRef;
      }
    }
    OverlaysNext(m, sorted, roots);
    WellBuiltIsForest(m, BuildTree(sorted));
  }

  lemma PermutedListing(m: Images, volumes: seq<Volume>, sorted: seq<Volume>)
    requires ListsAll(m, volumes) && multiset(sorted) == multiset(volumes)
    ensures ListsAll(m, sorted)
  {
    forall v
      ensures v in sorted <==> v in volumes
    {
      assert v in sorted <==> v in multiset(sorted);
      assert v in volumes <==> v in multiset(volumes);
    }
    forall i | 0 <= i < |sorted|
      ensures sorted[i].volumeRef in m && sorted[i] == Listed(sorted[i].volumeRef, m[sorted[i].volumeRef])
    {
      assert sorted[i] in volumes;
    }
    forall i, j | 0 <= i < j < |sorted|
      ensures sorted[i].volumeRef != sorted[j].volumeRef
    {
      if sorted[i].volumeRef == sorted[j].volumeRef {
        TwiceInMultiset(sorted, i, j);
        OnceInMultiset(m, volumes, sorted[i]);
        assert false;
      }
    }
  }

  lemma TwiceInMultiset(vs: seq<Volume>, i: nat, j: nat)
    requires i < j < |vs| && vs[i] == vs[j]
    ensures multiset(vs)[vs[i]] >= 2
  {
    assert vs == vs[..i] + [vs[i]] + vs[i + 1..j] + [vs[j]] + vs[j + 1..];
  }

  lemma {:induction false} OnceInMultiset(m: Images, vs: seq<Volume>, v: Volume)
    requires ListsSome(m, vs)
    ensures multiset(vs)[v] <= 1
    decreases |vs|
  {
    if vs != [] {
      var front := vs[..|vs| - 1];
      assert vs == front + [vs[|vs| - 1]];
      OnceInMultiset(m, front, v);
      if v == vs[|vs| - 1] {
        assert v !in front;
      }
    }
  }

  // ----- the counts of the printed tree

  /** The branches directly under a branch. */
  ghost function Under(tree: seq<Branch>, j: nat): set<nat> {
    set i: nat | i < |tree| && tree[i].parent == Some(j)
  }

  lemma ParentIsBacking(m: Images, tree: seq<Branch>, i: nat)
    requires IsForest(m) && IsForestOf(m, tree) && i < |tree|
    ensures match tree[i].parent
            case None => m[tree[i].id].backing == ""
            case Some(p) => p < |tree| && m[tree[i].id].backing == tree[p].id
  {
    var x := tree[i].id;
    assert Placed(m, x);
    assert Path(tree, i) == Chain(m, x);
    match tree[i].parent
    case None =>
      ChainShape(m, x);
      RootsHaveDepthZero(m, x);
    case Some(p) =>
      assert Path(tree, i)[1..] == Path(tree, p) && Path(tree, p)[0] == tree[p].id;
      assert Chain(m, x)[1..] == Chain(m, m[x].backing);
  }

  ghost function IdsAt(tree: seq<Branch>, js: set<nat>): set<string> {
    set i | i in js && i < |tree| :: tree[i].id
  }

  lemma {:induction false} OneIdPerPosition(tree: seq<Branch>, js: set<nat>)
    requires forall i | i in js :: i < |tree|
    requires forall i, j | 0 <= i < j < |tree| :: tree[i].id != tree[j].id
    ensures |IdsAt(tree, js)| == |js|
  {
    if js == {} {
      assert IdsAt(tree, js) == {};
    } else {
      var j :| j in js;
      OneIdPerPosition(tree, js - {j});
      assert IdsAt(tree, js) == IdsAt(tree, js - {j}) + {tree[j].id};
      forall i | i in js - {j}
        ensures tree[i].id != tree[j].id
      {
        assert i < j || j < i;
      }
    }
  }

  lemma UnderIsChild(m: Images, tree: seq<Branch>, j: nat, i: nat)
    requires IsForest(m) && IsForestOf(m, tree) && j < |tree| && i < |tree|
    ensures i in Under(tree, j) <==> tree[i].id in Children(m, tree[j].id)
  {
    ParentIsBacking(m, tree, i);
    assert tree[j].id != "";
  }

  lemma UnderAreChildren(m: Images, tree: seq<Branch>, j: nat)
    requires IsForest(m) && IsForestOf(m, tree) && j < |tree|
    ensures IdsAt(tree, Under(tree, j)) == Children(m, tree[j].id)
  {
    forall i: nat | i < |tree|
      ensures i in Under(tree, j) <==> tree[i].id in Children(m, tree[j].id)
    {
      UnderIsChild(m, tree, j, i);
    }
    forall y | y in Children(m, tree[j].id)
      ensures y in IdsAt(tree, Under(tree, j))
    {
      var i: nat :| i < |tree| && tree[i].id == y;
      assert i in Under(tree, j);
    }
  }

  /** The count printed at a branch is the number of branches directly under it. */
  lemma BranchCounts(m: Images, tree: seq<Branch>, j: nat)
    requires IsForest(m) && Counts(m) && IsForestOf(m, tree) && j < |tree|
    ensures tree[j].value.refCount == |Under(tree, j)|
  {
    OneIdPerPosition(tree, Under(tree, j));
    UnderAreChildren(m, tree, j);
    assert m[tree[j].id].refCount == |Children(m, tree[j].id)|;
  }
}
