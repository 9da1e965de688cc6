/**
  The recorded images as a forest: every image names its backing image, counts the images
  that name it, and knows its distance from its root.
 */
module Forest {

  /** One record of the store; `backing` and `volumeRef` are "" when absent. */
  datatype Image = Image(
    qsdId: string,
    backing: string,
    file: string,
    refCount: int,
    volumeRef: string,
    depth: int)

  type Images = map<string, Image>

  const MAX_INT32 := 0x7fff_ffff
  const MAX_UINT32 := 0xffff_ffff

  /** Go's int32 arithmetic wraps around. */
  function Int32(n: int): int {
    (n + 0x8000_0000) % 0x1_0000_0000 - 0x8000_0000
  }

  function Uint32(n: int): int {
    n % 0x1_0000_0000
  }

  function AddReference(m: Images, id: string): Images
    requires id in m
  {
    m[id := m[id].(refCount := Int32(m[id].refCount + 1))]
  }

  function DropReference(m: Images, id: string): Images
    requires id in m
  {
    m[id := m[id].(refCount := Int32(m[id].refCount - 1))]
  }

  function Insert(m: Images, id: string, img: Image): Images {
    (if img.backing in m then AddReference(m, img.backing) else m)[id := img]
  }

  /** The count of the backing image goes down, then the record goes. */
  function Remove(m: Images, id: string): Images
    requires id in m
  {
    (if m[id].backing != "" && m[id].backing in m then DropReference(m, m[id].backing) else m) - {id}
  }

  /** An image is a root at depth 0, or sits one level above a recorded backing image. */
  ghost predicate Placed(m: Images, x: string)
    requires x in m
  {
    && m[x].depth >= 0
    && if m[x].backing == "" then m[x].depth == 0
       else m[x].backing in m && m[x].depth == m[m[x].backing].depth + 1
  }

  ghost predicate IsForest(m: Images) {
    && "" !in m
    && forall x {:trigger Placed(m, x)} | x in m :: Placed(m, x)
  }

  ghost function Children(m: Images, x: string): set<string> {
    set y | y in m && m[y].backing == x
  }

  /** Every reference count is the number of images recorded on top of the image, and an int32. */
  ghost predicate Counts(m: Images) {
    forall x {:trigger Children(m, x)} | x in m :: m[x].refCount == |Children(m, x)| <= MAX_INT32
  }

  /** The IDs from an image down to its root; empty for an unrecorded ID. */
  ghost function Chain(m: Images, x: string): seq<string>
    requires IsForest(m)
    decreases if x in m then m[x].depth + 1 else 0
  {
    if x !in m then [] else assert Placed(m, x); [x] + Chain(m, m[x].backing)
  }

  // ----- shape of chains

  lemma RootsHaveDepthZero(m: Images, x: string)
    requires IsForest(m) && x in m
    ensures m[x].depth == 0 <==> m[x].backing == ""
  {
    assert Placed(m, x);
    if m[x].backing != "" {
      assert Placed(m, m[x].backing);
    }
  }

  /** Depth is the number of steps to the root: the chain goes down one level at a time and ends at a root. */
  lemma {:induction false} ChainShape(m: Images, x: string)
    requires IsForest(m) && x in m
    ensures var c := Chain(m, x);
            && |c| == m[x].depth + 1
            && c[0] == x
            && (forall i | 0 <= i < |c| :: c[i] in m && m[c[i]].depth == m[x].depth - i)
            && (forall i | 0 <= i < |c| - 1 :: m[c[i]].backing == c[i + 1])
            && m[c[|c| - 1]].backing == ""
    decreases m[x].depth
  {
    assert Placed(m, x);
    if m[x].backing == "" {
      assert Chain(m, x) == [x];
    } else {
      ChainShape(m, m[x].backing);
    }
  }

  /** Pigeonhole: the members of a chain are all different, so a chain is no longer than the store. */
  lemma {:induction false} ChainMembers(m: Images, x: string)
    requires IsForest(m) && x in m
    ensures (set y | y in Chain(m, x)) <= m.Keys
    ensures |set y | y in Chain(m, x)| == m[x].depth + 1
    ensures forall y | y in Chain(m, x) :: y in m && m[y].depth <= m[x].depth
    decreases m[x].depth
  {
    assert Placed(m, x);
    if m[x].backing == "" {
      assert Chain(m, x) == [x];
      assert (set y | y in Chain(m, x)) == {x};
    } else {
      var b := m[x].backing;
      ChainMembers(m, b);
      assert x !in Chain(m, b);
      assert (set y | y in Chain(m, x)) == {x} + set y | y in Chain(m, b);
    }
  }

  /**
    An image keeps its chain when the images both stores record agree on their backing image.
   */
  lemma {:induction false} ChainKept(m: Images, m': Images, x: string)
    requires IsForest(m) && IsForest(m')
    requires forall y | y in m && y in m' :: m'[y].backing == m[y].backing
    requires x in m && x in m'
    ensures Chain(m', x) == Chain(m, x)
    decreases m[x].depth
  {
    assert Placed(m, x) && Placed(m', x);
    if m[x].backing != "" {
      ChainKept(m, m', m[x].backing);
    }
  }

  // ----- bounds and conservation

  lemma SubsetSize<T>(a: set<T>, b: set<T>)
    requires a <= b
    ensures |a| <= |b|
  {
    assert |b - a| == |b| - |a|;
  }

  /** Every depth and every count stays below the number of images. */
  lemma CountersBelowSize(m: Images, x: string)
    requires IsForest(m) && Counts(m) && x in m
    ensures 0 <= m[x].depth < |m|
    ensures 0 <= m[x].refCount < |m|
  {
    assert Placed(m, x);
    ChainMembers(m, x);
    SubsetSize((set y | y in Chain(m, x)), m.Keys);
    assert x !in Children(m, x);
    SubsetSize(Children(m, x), m.Keys - {x});
  }

  ghost function SumRefCounts(m: Images, xs: set<string>): int
    requires xs <= m.Keys
  {
    if xs == {} then 0
    else var x :| x in xs; m[x].refCount + SumRefCounts(m, xs - {x})
  }

  lemma {:induction false} SumCountsChildren(m: Images, xs: set<string>)
    requires Counts(m) && xs <= m.Keys
    ensures SumRefCounts(m, xs) == |set y | y in m && m[y].backing in xs|
  {
    if xs == {} {
      assert (set y | y in m && m[y].backing in xs) == {};
    } else {
      var x :| x in xs && SumRefCounts(m, xs) == m[x].refCount + SumRefCounts(m, xs - {x});
      SumCountsChildren(m, xs - {x});
      var rest := set y | y in m && m[y].backing in xs - {x};
      assert (set y | y in m && m[y].backing in xs) == Children(m, x) + rest;
      assert Children(m, x) !! rest;
      assert |Children(m, x) + rest| == |Children(m, x)| + |rest|;
    }
  }

  /** Conservation: the counts add up to the number of images that are not roots. */
  lemma CountsAddUpToNonRoots(m: Images)
    requires IsForest(m) && Counts(m)
    ensures SumRefCounts(m, m.Keys) == |set y | y in m && m[y].backing != ""|
  {
    SumCountsChildren(m, m.Keys);
    forall y | y in m
      ensures m[y].backing in m <==> m[y].backing != ""
    {
      assert Placed(m, y);
    }
    assert (set y | y in m && m[y].backing in m.Keys) == set y | y in m && m[y].backing != "";
  }

  /** The image below a member of a chain is a member too. */
  lemma BackingOnChain(m: Images, x: string, y: string)
    requires IsForest(m) && x in m && y in Chain(m, x) && y in m && m[y].backing != ""
    ensures m[y].backing in Chain(m, x)
  {
    var c := Chain(m, x);
    ChainShape(m, x);
    var i :| 0 <= i < |c| && c[i] == y;
    assert c[i + 1] == m[y].backing;
  }

  /** Every image is on the chain of a leaf, because depths are bounded. */
  lemma {:induction false} LeafAbove(m: Images, x: string) returns (leaf: string)
    requires IsForest(m) && Counts(m) && x in m
    ensures leaf in m && Children(m, leaf) == {} && m[leaf].refCount == 0
    ensures x in Chain(m, leaf)
    decreases |m| - m[x].depth
  {
    if Children(m, x) == {} {
      leaf := x;
    } else {
      var y :| y in Children(m, x);
      assert Placed(m, y);
      CountersBelowSize(m, y);
      leaf := LeafAbove(m, y);
      BackingOnChain(m, leaf, y);
    }
  }

  // ----- the two structural updates

  lemma SameImages(m: Images, m': Images)
    requires m.Keys == m'.Keys
    requires forall y | y in m :: m[y] == m'[y]
    ensures m == m'
  {
  }

  /** A new leaf may be recorded on top of any image whose counters do not overflow. */
  ghost predicate FitsOn(m: Images, img: Image) {
    && img.refCount == 0
    && if img.backing == "" then img.depth == 0
       else && img.backing in m
            && m[img.backing].refCount < MAX_INT32
            && m[img.backing].depth < MAX_UINT32
            && img.depth == Uint32(m[img.backing].depth + 1)
  }

  lemma InsertKeepsShape(m: Images, id: string, img: Image)
    requires IsForest(m) && Counts(m)
    requires id != "" && id !in m && FitsOn(m, img)
    ensures IsForest(Insert(m, id, img))
  {
    var m' := Insert(m, id, img);
    if img.backing != "" {
      assert Placed(m, img.backing);
      assert img.depth == m[img.backing].depth + 1;
    }
    forall x | x in m'
      ensures Placed(m', x)
    {
      assert x != id ==> Placed(m, x);
    }
  }

  lemma ChildrenAfterInsert(m: Images, id: string, img: Image, x: string)
    requires IsForest(m) && id != "" && id !in m
    requires x in m || x == id
    requires img.backing != id
    ensures Children(Insert(m, id, img), x) ==
            (if x == id then {} else Children(m, x)) + (if x == img.backing then {id} else {})
  {
    forall y | y in m
      ensures m[y].backing != id
    {
      assert Placed(m, y);
    }
  }

  lemma Int32InRange(n: int)
    requires -0x8000_0000 <= n <= MAX_INT32
    ensures Int32(n) == n
  {
  }

  lemma CountAfterInsert(m: Images, id: string, img: Image, x: string)
    requires IsForest(m) && id != "" && id !in m && FitsOn(m, img)
    requires x in m && m[x].refCount == |Children(m, x)| <= MAX_INT32
    ensures Insert(m, id, img)[x].refCount == |Children(Insert(m, id, img), x)| <= MAX_INT32
  {
    ChildrenAfterInsert(m, id, img, x);
    if x == img.backing {
      assert id !in Children(m, x);
      Int32InRange(m[x].refCount + 1);
      assert Insert(m, id, img)[x].refCount == m[x].refCount + 1;
      assert |Children(m, x) + {id}| == |Children(m, x)| + 1;
    } else {
      assert Insert(m, id, img)[x] == m[x];
      assert Children(Insert(m, id, img), x) == Children(m, x);
    }
  }

  lemma InsertKeepsCounts(m: Images, id: string, img: Image)
    requires IsForest(m) && Counts(m)
    requires id != "" && id !in m && FitsOn(m, img)
    ensures Counts(Insert(m, id, img))
  {
    forall x | x in m
      ensures Insert(m, id, img)[x].refCount == |Children(Insert(m, id, img), x)| <= MAX_INT32
    {
      CountAfterInsert(m, id, img, x);
    }
    ChildrenAfterInsert(m, id, img, id);
  }

  lemma RemoveKeepsShape(m: Images, id: string)
    requires IsForest(m) && id in m && Children(m, id) == {}
    ensures IsForest(Remove(m, id))
  {
    var m' := Remove(m, id);
    assert forall y | y in m :: m[y].backing == id ==> y in Children(m, id);
    forall y | y in m'
      ensures Placed(m', y)
    {
      assert Placed(m, y);
    }
  }

  lemma CountAfterRemove(m: Images, id: string, y: string)
    requires IsForest(m) && id in m && Children(m, id) == {}
    requires y in m && y != id && m[y].refCount == |Children(m, y)| <= MAX_INT32
    ensures Remove(m, id)[y].refCount == |Children(Remove(m, id), y)| <= MAX_INT32
    ensures Children(Remove(m, id), y) == Children(m, y) - {id}
  {
    assert Placed(m, y);
    assert Children(Remove(m, id), y) == Children(m, y) - {id};
    if y == m[id].backing {
      assert id in Children(m, y);
      Int32InRange(m[y].refCount - 1);
    } else {
      assert id !in Children(m, y);
    }
  }

  lemma RemoveKeepsCounts(m: Images, id: string)
    requires IsForest(m) && Counts(m) && id in m && Children(m, id) == {}
    ensures Counts(Remove(m, id))
    ensures forall y | y in m && y != id :: Children(Remove(m, id), y) == Children(m, y) - {id}
  {
    forall y | y in m && y != id
      ensures Remove(m, id)[y].refCount == |Children(Remove(m, id), y)| <= MAX_INT32
      ensures Children(Remove(m, id), y) == Children(m, y) - {id}
    {
      CountAfterRemove(m, id, y);
    }
  }

  /**
    The int32 guard is exact: one more image on top of an image whose count is at its maximum
    turns the count negative, so it no longer counts anything.
   */
  lemma CountOverflows(m: Images, id: string, img: Image)
    requires IsForest(m) && Counts(m) && id !in m
    requires img.backing in m && m[img.backing].refCount == MAX_INT32
    ensures Insert(m, id, img)[img.backing].refCount == -0x8000_0000
    ensures !Counts(Insert(m, id, img))
  {
    var m' := Insert(m, id, img);
    assert m'[img.backing].refCount < 0 <= |Children(m', img.backing)|;
  }

  /** The uint32 guard is exact too: one more level on a chain of maximal depth starts again at zero. */
  lemma DepthOverflows(m: Images, id: string, img: Image)
    requires IsForest(m) && id !in m
    requires img.backing in m && m[img.backing].depth >= MAX_UINT32
    requires img.depth == Uint32(m[img.backing].depth + 1)
    ensures !IsForest(Insert(m, id, img))
  {
    var m' := Insert(m, id, img);
    assert m'[id].depth != m'[m'[id].backing].depth + 1;
    assert !Placed(m', id);
  }
}
