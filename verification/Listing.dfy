/** The list of images the server hands to its clients. */
module Listing {
  import opened Names
  import opened Forest
  import opened Store
  import opened Consistency

  /** One listed image; its own ID travels in the field named after the volume reference. */
  datatype Volume = Volume(
    qsdId: string,
    backing: string,
    file: string,
    refCount: int,
    depth: int,
    volumeRef: string)

  function Listed(id: string, i: Image): Volume {
    Volume(i.qsdId, i.backing, i.file, i.refCount, i.depth, id)
  }

  /** A list of some recorded images, each at most once and as recorded. */
  ghost predicate ListsSome(m: Images, vs: seq<Volume>) {
    && (forall i | 0 <= i < |vs| :: vs[i].volumeRef in m && vs[i] == Listed(vs[i].volumeRef, m[vs[i].volumeRef]))
    && (forall i, j | 0 <= i < j < |vs| :: vs[i].volumeRef != vs[j].volumeRef)
  }

  ghost function Ids(vs: seq<Volume>): set<string> {
    set v | v in vs :: v.volumeRef
  }

  /** Every recorded image exactly once. */
  ghost predicate ListsAll(m: Images, vs: seq<Volume>) {
    ListsSome(m, vs) && Ids(vs) == m.Keys
  }

  lemma IdsAppend(vs: seq<Volume>, v: Volume)
    ensures Ids(vs + [v]) == Ids(vs) + {v.volumeRef}
  {
    assert forall u | u in vs :: u in vs + [v];
    assert v in vs + [v];
  }

  // ----- what a listed entry says

  /** The entries that name x as their backing image. */
  ghost function EntriesOver(vs: seq<Volume>, x: string): set<Volume> {
    set u | u in vs && u.backing == x
  }

  lemma {:induction false} OneIdEach(us: set<Volume>)
    requires forall u, v | u in us && v in us && u != v :: u.volumeRef != v.volumeRef
    ensures |set u | u in us :: u.volumeRef| == |us|
  {
    if us == {} {
      assert (set u | u in us :: u.volumeRef) == {};
    } else {
      var v :| v in us;
      OneIdEach(us - {v});
      var rest := set u | u in us - {v} :: u.volumeRef;
      assert (set u | u in us :: u.volumeRef) == rest + {v.volumeRef};
      assert v.volumeRef !in rest;
    }
  }

  lemma EntriesAreDistinct(m: Images, vs: seq<Volume>, u: Volume, v: Volume)
    requires ListsSome(m, vs) && u in vs && v in vs && u.volumeRef == v.volumeRef
    ensures u == v
  {
  }

  lemma EntriesAreChildren(m: Images, vs: seq<Volume>, x: string)
    requires ListsAll(m, vs)
    ensures (set u | u in EntriesOver(vs, x) :: u.volumeRef) == Children(m, x)
  {
    forall y | y in Children(m, x)
      ensures y in set u | u in EntriesOver(vs, x) :: u.volumeRef
    {
      assert y in Ids(vs);
      var u :| u in vs && u.volumeRef == y;
      assert u in EntriesOver(vs, x);
    }
    forall u | u in EntriesOver(vs, x)
      ensures u.volumeRef in Children(m, x)
    {
    }
  }

  /** The count in a list is the number of entries built on the image. */
  lemma ListedCount(m: Images, vs: seq<Volume>, x: string)
    requires Counts(m) && ListsAll(m, vs) && x in m
    ensures m[x].refCount == |EntriesOver(vs, x)|
  {
    forall u, v | u in EntriesOver(vs, x) && v in EntriesOver(vs, x) && u != v
      ensures u.volumeRef != v.volumeRef
    {
      if u.volumeRef == v.volumeRef {
        EntriesAreDistinct(m, vs, u, v);
      }
    }
    OneIdEach(EntriesOver(vs, x));
    EntriesAreChildren(m, vs, x);
    assert m[x].refCount == |Children(m, x)|;
  }

  /** An entry says what its image is: node and file named after its ID, its count, and its place in the list. */
  ghost predicate Describes(m: Images, vs: seq<Volume>, v: Volume)
    requires IsForest(m)
  {
    && WellFormedId(v.volumeRef) && QsdIdDefined(v.volumeRef)
    && v.qsdId == GenerateQsdId(v.volumeRef)
    && (v.file == VolumePath(v.volumeRef) || exists source :: v.file == SnapshotPath(source, v.qsdId))
    && v.refCount == |EntriesOver(vs, v.volumeRef)|
    && v.depth + 1 == |Chain(m, v.volumeRef)|
    && if v.depth == 0 then v.backing == ""
       else exists u :: u in vs && u.volumeRef == v.backing && u.depth == v.depth - 1
  }

  /** Every list of a consistent store describes each of its images. */
  lemma ListDescribes(s: State, vs: seq<Volume>, v: Volume)
    requires Consistent(s) && ListsAll(s.images, vs) && v in vs
    ensures Describes(s.images, vs, v)
  {
    var m, x := s.images, v.volumeRef;
    assert Identified(m, x) && Placed(m, x);
    ListedCount(m, vs, x);
    ChainShape(m, x);
    RootsHaveDepthZero(m, x);
    if v.depth > 0 {
      assert m[x].backing in Ids(vs);
      var u :| u in vs && u.volumeRef == m[x].backing;
      assert u.depth == v.depth - 1;
    }
  }
}
