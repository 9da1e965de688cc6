/**
  The records alone: counts, depths and chains are right after every call, and no call moves a
  surviving image, even after node and file deletions have gone wrong.
 */
module Books {
  import opened Names
  import opened Forest
  import opened BlockGraph
  import opened Store
  import opened Consistency
  import opened Preservation

  ghost predicate ExactBooks(s: State) {
    IsForest(s.images) && Counts(s.images)
  }

  /** Images recorded before and after keep their place, node and file. */
  ghost predicate KeepsRecords(m: Images, m': Images) {
    forall y | y in m && y in m' ::
      && m'[y].backing == m[y].backing
      && m'[y].depth == m[y].depth
      && m'[y].file == m[y].file
      && m'[y].qsdId == m[y].qsdId
  }

  /** Some records may be gone; the others changed in nothing but their counts, and what is gone was unnamed. */
  ghost predicate Shrinks(m: Images, m': Images) {
    && m'.Keys <= m.Keys
    && (forall y | y in m' :: m'[y] == m[y].(refCount := m'[y].refCount))
    && (forall y | y in m && y !in m' :: m[y].volumeRef == "")
  }

  /** An image that is asked for by name is new. */
  ghost predicate NewId(s: State, c: Call) {
    match c
    case NewVolume(id, _) => id !in s.images
    case NewSnapshot(id, _) => id !in s.images
    case DropVolume(_) => true
    case DropSnapshot(_, _) => true
  }

  lemma RemoveBooks(m: Images, id: string)
    requires IsForest(m) && Counts(m) && id in m && m[id].refCount <= 0
    ensures IsForest(Remove(m, id)) && Counts(Remove(m, id)) && KeepsRecords(m, Remove(m, id))
  {
    assert m[id].refCount == |Children(m, id)|;
    RemoveKeepsShape(m, id);
    RemoveKeepsCounts(m, id);
  }

  lemma DeleteImageBooks(s: State, id: string, f: Faults)
    requires ExactBooks(s) && (id in s.images ==> s.images[id].refCount <= 0)
    ensures var r := DeleteImage(s, id, f);
            && ExactBooks(r.state)
            && r.state.active == s.active
            && KeepsRecords(s.images, r.state.images)
            && r.state.images == (if r.reply == Ok then Remove(s.images, id) else s.images)
            && (r.reply == Ok ==> id in s.images)
  {
    if id in s.images {
      RemoveBooks(s.images, id);
    }
  }

  lemma {:induction false} CleanUpBooks(s: State, id: string, f: Faults)
    requires ExactBooks(s)
    ensures var r := CleanUp(s, id, f);
            && ExactBooks(r.state)
            && r.state.active == s.active
            && Shrinks(s.images, r.state.images)
    decreases |s.images|
  {
    if id in s.images && s.images[id].refCount <= 0 && s.images[id].volumeRef == "" {
      DeleteImageBooks(s, id, f);
      var r := DeleteImage(s, id, f);
      if r.reply == Ok && s.images[id].backing != "" {
        assert r.state.images.Keys == s.images.Keys - {id};
        CleanUpBooks(r.state, s.images[id].backing, f);
      }
    }
  }

  lemma UnnameBooks(s: State, id: string)
    requires ExactBooks(s) && id in s.images
    ensures ExactBooks(s.(images := Unname(s.images, id)))
  {
    var m, m' := s.images, Unname(s.images, id);
    forall x | x in m'
      ensures Placed(m', x)
    {
      assert Placed(m, x);
    }
    forall x | x in m'
      ensures m'[x].refCount == |Children(m', x)| <= MAX_INT32
    {
      UnnameKeepsChildren(m, id, x);
      assert m[x].refCount == |Children(m, x)|;
    }
  }

  lemma RecordBooks(s: State, id: string, img: Image, volume: string, d: Daemon)
    requires ExactBooks(s) && id != "" && id !in s.images && FitsOn(s.images, img)
    ensures ExactBooks(Record(s, id, img, volume, d))
    ensures KeepsRecords(s.images, Insert(s.images, id, img))
  {
    InsertKeepsShape(s.images, id, img);
    InsertKeepsCounts(s.images, id, img);
  }

  lemma NewLayerBooks(s: State, id: string, backing: string, file: string, volume: string, d: Daemon)
    requires ExactBooks(s) && id != "" && id !in s.images && QsdIdDefined(id)
    requires backing in s.images && HasRoom(s.images, backing)
    ensures ExactBooks(Record(s, id, NewLayer(s.images, id, backing, file), volume, d))
    ensures KeepsRecords(s.images, Insert(s.images, id, NewLayer(s.images, id, backing, file)))
  {
    assert Placed(s.images, backing);
    RecordBooks(s, id, NewLayer(s.images, id, backing, file), volume, d);
  }

  lemma CreateVolumeBooks(s: State, id: string, source: string, f: Faults)
    requires ExactBooks(s) && id != "" && HasRoom(s.images, source)
    requires CreateVolume(s, id, source, f).reply == Ok ==> id !in s.images
    ensures ExactBooks(CreateVolume(s, id, source, f).state)
    ensures KeepsRecords(s.images, CreateVolume(s, id, source, f).state.images)
  {
    var r := CreateVolume(s, id, source, f);
    if r.reply == Ok {
      if source == "" {
        RecordBooks(s, id, Image(GenerateQsdId(id), "", VolumePath(id), 0, id, 0), id, r.state.daemon);
      } else {
        NewLayerBooks(s, id, source, VolumePath(id), id, r.state.daemon);
      }
    }
  }

  lemma CreateSnapshotBooks(s: State, id: string, source: string, f: Faults)
    requires ExactBooks(s) && id != "" && (source in s.active ==> HasRoom(s.images, s.active[source]))
    requires CreateSnapshot(s, id, source, f).reply == Ok ==> id !in s.images
    ensures ExactBooks(CreateSnapshot(s, id, source, f).state)
    ensures KeepsRecords(s.images, CreateSnapshot(s, id, source, f).state.images)
  {
    var r := CreateSnapshot(s, id, source, f);
    if r.reply == Ok {
      NewLayerBooks(s, id, s.active[source], SnapshotPath(source, GenerateQsdId(id)), source, r.state.daemon);
    }
  }

  lemma DeleteVolumeBooks(s: State, id: string, f: Faults)
    requires ExactBooks(s)
    ensures ExactBooks(DeleteVolume(s, id, f).state)
    ensures KeepsRecords(s.images, DeleteVolume(s, id, f).state.images)
  {
    if id in s.active && s.active[id] in s.images {
      var layer := s.active[id];
      if s.images[layer].refCount < 1 && layer == id {
        DeleteImageBooks(s, id, f);
        var s1 := DeleteImage(s, id, f).state;
        CleanUpBooks(s1.(active := s1.active - {id}), s.images[id].backing, f);
      } else if id in s.images {
        UnnameBooks(s, id);
        CleanUpBooks(State(Unname(s.images, id), s.active - {id}, s.daemon), s.images[id].backing, f);
      }
    }
  }

  lemma DeleteSnapshotBooks(s: State, id: string, source: string, f: Faults)
    requires ExactBooks(s)
    ensures ExactBooks(DeleteSnapshot(s, id, source, f).state)
    ensures KeepsRecords(s.images, DeleteSnapshot(s, id, source, f).state.images)
  {
    if id in s.images {
      var i := s.images[id];
      if i.refCount < 1 && !IsActiveLayer(s, id, source) {
        DeleteImageBooks(s, id, f);
        CleanUpBooks(DeleteImage(s, id, f).state, i.backing, f);
      } else {
        UnnameBooks(s, id);
        CleanUpBooks(s.(images := Unname(s.images, id)), i.backing, f);
      }
    }
  }

  /**
    Counts and depths stay exact under every call and every refusal outside, and every survivor
    keeps its whole chain to its root. New IDs are new, either because the caller sees to it or
    because a consistent store has the daemon refuse the others.
   */
  lemma StepKeepsBooks(s: State, c: Call, f: Faults)
    requires ExactBooks(s) && Admissible(s, c)
    requires NewId(s, c) || Consistent(s)
    ensures ExactBooks(Step(s, c, f).state)
    ensures KeepsRecords(s.images, Step(s, c, f).state.images)
    ensures forall y | y in s.images && y in Step(s, c, f).state.images ::
              Chain(Step(s, c, f).state.images, y) == Chain(s.images, y)
  {
    match c
    case NewVolume(id, source) =>
      if Consistent(s) {
        CreateVolumeKeeps(s, id, source, f);
      }
      CreateVolumeBooks(s, id, source, f);
      AllChainsKept(s.images, Step(s, c, f).state.images);
    case NewSnapshot(id, source) =>
      if Consistent(s) {
        CreateSnapshotKeeps(s, id, source, f);
      }
      CreateSnapshotBooks(s, id, source, f);
      AllChainsKept(s.images, Step(s, c, f).state.images);
    case DropVolume(id) =>
      DeleteVolumeBooks(s, id, f);
      AllChainsKept(s.images, Step(s, c, f).state.images);
    case DropSnapshot(id, source) =>
      DeleteSnapshotBooks(s, id, source, f);
      AllChainsKept(s.images, Step(s, c, f).state.images);
  }

  lemma AllChainsKept(m: Images, m': Images)
    requires IsForest(m) && IsForest(m') && KeepsRecords(m, m')
    ensures forall y | y in m && y in m' :: Chain(m', y) == Chain(m, y)
  {
    forall y | y in m && y in m'
      ensures Chain(m', y) == Chain(m, y)
    {
      ChainKept(m, m', y);
    }
  }
}
