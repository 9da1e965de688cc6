/**
  Volumes, snapshots and active layers: which image a live volume writes to, and when that
  image is safe from the clean-up.
 */
module Layers {
  import opened Names
  import opened Forest
  import opened BlockGraph
  import opened Store
  import opened Consistency
  import opened Preservation
  import opened Books

  /** A live volume has its named base image, and its active layer is that image or a snapshot of it. */
  ghost predicate LiveVolume(s: State, v: string)
    requires v in s.active
  {
    && v in s.images && s.images[v].volumeRef == v && s.images[v].file == VolumePath(v)
    && (s.active[v] in s.images ==> s.active[v] == v || IsSnapshotOf(s.images[s.active[v]], v))
  }

  /** A snapshot stays on top of the base image of the volume it was taken from. */
  ghost predicate SnapshotsOverSource(m: Images)
    requires IsForest(m)
  {
    forall x, v | x in m && IsSnapshotOf(m[x], v) :: v in Chain(m, x)
  }

  ghost predicate SoundLayers(s: State) {
    && Consistent(s)
    && (forall v {:trigger LiveVolume(s, v)} | v in s.active :: LiveVolume(s, v))
    && SnapshotsOverSource(s.images)
  }

  /** No volume still refers to the ID of a layer that is gone. */
  ghost predicate NotDangling(s: State, id: string) {
    id in s.images || forall v | v in s.active :: s.active[v] != id
  }

  /** New IDs are not the remains of a lost layer, and snapshots are deleted with their source. */
  ghost predicate Proper(s: State, c: Call) {
    match c
    case NewVolume(id, _) => NotDangling(s, id)
    case NewSnapshot(id, _) => NotDangling(s, id)
    case DropVolume(_) => true
    case DropSnapshot(id, source) => id in s.images ==> IsSnapshotOf(s.images[id], source)
  }

  lemma SourceIsUnique(s: State, x: string, v: string, w: string)
    requires Consistent(s) && x in s.images
    requires IsSnapshotOf(s.images[x], v) && IsSnapshotOf(s.images[x], w)
    ensures v == w
  {
    assert Identified(s.images, x);
    QsdIdShape(x);
    SnapshotPathInjective(v, s.images[x].qsdId, w, s.images[x].qsdId);
  }

  lemma SnapshotIsNoVolume(s: State, x: string, v: string)
    requires Consistent(s) && x in s.images && IsSnapshotOf(s.images[x], v)
    ensures forall w :: s.images[x].file != VolumePath(w)
  {
    assert Identified(s.images, x);
    QsdIdShape(x);
    forall w
      ensures s.images[x].file != VolumePath(w)
    {
      VolumeIsNoSnapshotPath(w, v, s.images[x].qsdId);
    }
  }

  // ----- consequences of sound layers

  /** The base image of a live volume lies under its active layer. */
  lemma BaseUnderActiveLayer(s: State, v: string)
    requires SoundLayers(s) && v in s.active
    ensures v in s.images && s.images[v].volumeRef == v
    ensures s.active[v] in s.images ==> v in Chain(s.images, s.active[v])
  {
    assert LiveVolume(s, v);
    ChainShape(s.images, v);
  }

  /** A recorded image is the active layer of at most one volume. */
  lemma ActiveLayersDiffer(s: State, v: string, w: string)
    requires SoundLayers(s) && v in s.active && w in s.active && s.active[v] == s.active[w]
    requires s.active[v] in s.images
    ensures v == w
  {
    assert LiveVolume(s, v) && LiveVolume(s, w);
    var x := s.active[v];
    if x == v && x != w {
      SnapshotIsNoVolume(s, x, w);
    } else if x == w && x != v {
      SnapshotIsNoVolume(s, x, v);
    } else if x != v {
      SourceIsUnique(s, x, v, w);
    }
  }

  /** Comparing with the active layer of the source decides whether a snapshot is active anywhere. */
  lemma LocalCheckIsGlobal(s: State, x: string, source: string)
    requires SoundLayers(s) && x in s.images && IsSnapshotOf(s.images[x], source)
    ensures IsActiveLayer(s, x, source) <==> exists v :: v in s.active && s.active[v] == x
  {
    if exists v :: v in s.active && s.active[v] == x {
      var v :| v in s.active && s.active[v] == x;
      assert LiveVolume(s, v);
      SnapshotIsNoVolume(s, x, source);
      SourceIsUnique(s, x, v, source);
    }
  }

  // ----- preservation

  /** Deletions keep layers sound when they keep the named base image of every live volume. */
  lemma ShrinkKeepsLayers(s: State, s': State)
    requires SoundLayers(s) && Consistent(s')
    requires s'.images.Keys <= s.images.Keys && KeepsRecords(s.images, s'.images)
    requires forall v | v in s'.active ::
               v in s.active && s'.active[v] == s.active[v] && v in s'.images && s'.images[v].volumeRef == v
    ensures SoundLayers(s')
  {
    forall v | v in s'.active
      ensures LiveVolume(s', v)
    {
      assert LiveVolume(s, v);
    }
    forall x, v | x in s'.images && IsSnapshotOf(s'.images[x], v)
      ensures v in Chain(s'.images, x)
    {
      assert IsSnapshotOf(s.images[x], v);
      ChainKept(s.images, s'.images, x);
    }
  }

  lemma CleanUpKeepsNamed(s: State, x: string, f: Faults)
    requires ExactBooks(s)
    ensures var s' := CleanUp(s, x, f).state;
            && s'.active == s.active
            && s'.images.Keys <= s.images.Keys
            && (forall v | v in s.images && s.images[v].volumeRef != "" ::
                  v in s'.images && s'.images[v].volumeRef == s.images[v].volumeRef)
  {
    CleanUpBooks(s, x, f);
  }

  /** Everything named but the image the call is about stays recorded under its name. */
  ghost predicate KeepsNamed(m: Images, m': Images, id: string) {
    && m'.Keys <= m.Keys
    && forall v | v in m && v != id && m[v].volumeRef != "" :: v in m' && m'[v].volumeRef == m[v].volumeRef
  }

  lemma DeleteVolumeKeepsNamed(s: State, id: string, f: Faults)
    requires ExactBooks(s)
    ensures var s' := DeleteVolume(s, id, f).state;
            && KeepsNamed(s.images, s'.images, id)
            && (s'.active == s.active - {id} || (s'.active == s.active && s'.images == s.images))
  {
    if id in s.active && s.active[id] in s.images {
      var layer := s.active[id];
      if s.images[layer].refCount < 1 && layer == id {
        DeleteImageBooks(s, id, f);
        var s1 := DeleteImage(s, id, f).state;
        CleanUpKeepsNamed(s1.(active := s1.active - {id}), s.images[id].backing, f);
      } else if id in s.images {
        UnnameBooks(s, id);
        CleanUpKeepsNamed(State(Unname(s.images, id), s.active - {id}, s.daemon), s.images[id].backing, f);
      }
    }
  }

  lemma DeleteSnapshotKeepsNamed(s: State, id: string, source: string, f: Faults)
    requires ExactBooks(s)
    ensures var s' := DeleteSnapshot(s, id, source, f).state;
            && KeepsNamed(s.images, s'.images, id)
            && s'.active == s.active
            && (id in s'.images && IsActiveLayer(s, id, source) ==> s'.images[id].volumeRef == "")
  {
    if id in s.images {
      var i := s.images[id];
      if i.refCount < 1 && !IsActiveLayer(s, id, source) {
        DeleteImageBooks(s, id, f);
        CleanUpKeepsNamed(DeleteImage(s, id, f).state, i.backing, f);
      } else {
        var s1 := s.(images := Unname(s.images, id));
        UnnameBooks(s, id);
        CleanUpBooks(s1, i.backing, f);
        CleanUpKeepsNamed(s1, i.backing, f);
      }
    }
  }

  lemma LiveBasesNamed(s: State)
    requires SoundLayers(s)
    ensures forall v | v in s.active :: v in s.images && s.images[v].volumeRef == v && v != ""
  {
    forall v | v in s.active
      ensures v in s.images && s.images[v].volumeRef == v && v != ""
    {
      assert LiveVolume(s, v) && Identified(s.images, v);
    }
  }

  lemma DeleteVolumeKeepsLayers(s: State, id: string, f: Faults)
    requires SoundLayers(s)
    requires DeleteVolume(s, id, f).reply != Failed(FileNotRemoved)
    ensures SoundLayers(DeleteVolume(s, id, f).state)
  {
    DeleteVolumeKeeps(s, id, f);
    DeleteVolumeBooks(s, id, f);
    DeleteVolumeKeepsNamed(s, id, f);
    LiveBasesNamed(s);
    ShrinkKeepsLayers(s, DeleteVolume(s, id, f).state);
  }

  lemma DeleteSnapshotKeepsLayers(s: State, id: string, source: string, f: Faults)
    requires SoundLayers(s) && Proper(s, DropSnapshot(id, source))
    requires DeleteSnapshot(s, id, source, f).reply != Failed(FileNotRemoved)
    ensures SoundLayers(DeleteSnapshot(s, id, source, f).state)
  {
    DeleteSnapshotKeeps(s, id, source, f);
    DeleteSnapshotBooks(s, id, source, f);
    DeleteSnapshotKeepsNamed(s, id, source, f);
    LiveBasesNamed(s);
    SnapshotIsNoLiveVolume(s, id, source);
    ShrinkKeepsLayers(s, DeleteSnapshot(s, id, source, f).state);
  }

  lemma SnapshotIsNoLiveVolume(s: State, id: string, source: string)
    requires SoundLayers(s) && Proper(s, DropSnapshot(id, source))
    ensures id !in s.active
  {
    if id in s.active {
      assert LiveVolume(s, id);
      SnapshotIsNoVolume(s, id, source);
      assert false;
    }
  }

  /** The recorded image is the base of its own volume, or a snapshot of a volume on top of its active layer. */
  ghost predicate LayerOf(s: State, id: string, img: Image, v: string) {
    || (v == id && img.file == VolumePath(id))
    || (v in s.active && img.backing == s.active[v] && img.backing in s.images && IsSnapshotOf(img, v))
  }

  lemma RecordedChain(s: State, id: string, img: Image, x: string)
    requires IsForest(s.images) && IsForest(Insert(s.images, id, img)) && id !in s.images
    requires x in s.images || x == id
    ensures Chain(Insert(s.images, id, img), x) ==
            if x == id then [id] + Chain(s.images, img.backing) else Chain(s.images, x)
  {
    var m' := Insert(s.images, id, img);
    if x != id {
      ChainKept(s.images, m', x);
    } else {
      assert Placed(m', id);
      assert img.backing != id;
      if img.backing in s.images {
        ChainKept(s.images, m', img.backing);
      }
    }
  }

  lemma RecordKeepsLayers(s: State, id: string, img: Image, v: string, d: Daemon)
    requires SoundLayers(s) && id !in s.images && NotDangling(s, id)
    requires Consistent(Record(s, id, img, v, d))
    requires img.volumeRef == id && LayerOf(s, id, img, v)
    ensures SoundLayers(Record(s, id, img, v, d))
  {
    var s' := Record(s, id, img, v, d);
    forall w | w in s'.active
      ensures LiveVolume(s', w)
    {
      if w in s.active {
        assert LiveVolume(s, w);
      }
    }
    forall x, w | x in s'.images && IsSnapshotOf(s'.images[x], w)
      ensures w in Chain(s'.images, x)
    {
      RecordedChain(s, id, img, x);
      if x != id {
        assert IsSnapshotOf(s.images[x], w);
      } else {
        SnapshotIsNoVolume(s', id, w);
        SourceIsUnique(s', id, v, w);
        BaseUnderActiveLayer(s, v);
      }
    }
  }

  lemma CreateVolumeKeepsLayers(s: State, id: string, source: string, f: Faults)
    requires SoundLayers(s) && Admissible(s, NewVolume(id, source)) && NotDangling(s, id)
    ensures SoundLayers(CreateVolume(s, id, source, f).state)
  {
    CreateVolumeKeeps(s, id, source, f);
    var r := CreateVolume(s, id, source, f);
    if r.reply == Ok {
      if source == "" {
        RecordKeepsLayers(s, id, Image(GenerateQsdId(id), "", VolumePath(id), 0, id, 0), id, r.state.daemon);
      } else {
        RecordKeepsLayers(s, id, NewLayer(s.images, id, source, VolumePath(id)), id, r.state.daemon);
      }
    } else {
      ShrinkKeepsLayersOnly(s, r.state);
    }
  }

  lemma CreateSnapshotKeepsLayers(s: State, id: string, source: string, f: Faults)
    requires SoundLayers(s) && Admissible(s, NewSnapshot(id, source)) && NotDangling(s, id)
    ensures SoundLayers(CreateSnapshot(s, id, source, f).state)
  {
    CreateSnapshotKeeps(s, id, source, f);
    var r := CreateSnapshot(s, id, source, f);
    if r.reply == Ok {
      var file := SnapshotPath(source, GenerateQsdId(id));
      RecordKeepsLayers(s, id, NewLayer(s.images, id, s.active[source], file), source, r.state.daemon);
    } else {
      ShrinkKeepsLayersOnly(s, r.state);
    }
  }

  lemma ShrinkKeepsLayersOnly(s: State, s': State)
    requires SoundLayers(s) && Consistent(s')
    requires s'.images == s.images && s'.active == s.active
    ensures SoundLayers(s')
  {
    forall v | v in s.active
      ensures v in s.images && s.images[v].volumeRef == v
    {
      assert LiveVolume(s, v);
    }
    ShrinkKeepsLayers(s, s');
  }

  /**
    Properly used, every call keeps the layers sound, and only a creation whose name cannot be cut
    panics: the lookups in DeleteVolume never leave a nil image to dereference.
   */
  lemma StepKeepsLayers(s: State, c: Call, f: Faults)
    requires SoundLayers(s) && Admissible(s, c) && Proper(s, c)
    ensures Step(s, c, f).reply != Failed(FileNotRemoved) ==> SoundLayers(Step(s, c, f).state)
    ensures Step(s, c, f).reply == Panicked ==>
              (c.NewVolume? || c.NewSnapshot?) && !QsdIdDefined(c.id)
  {
    match c
    case NewVolume(id, source) => CreateVolumeKeepsLayers(s, id, source, f);
    case NewSnapshot(id, source) => CreateSnapshotKeepsLayers(s, id, source, f);
    case DropVolume(id) =>
      if Step(s, c, f).reply != Failed(FileNotRemoved) {
        DeleteVolumeKeepsLayers(s, id, f);
      }
      NoNilDereference(s, id, f);
    case DropSnapshot(id, source) =>
      if Step(s, c, f).reply != Failed(FileNotRemoved) {
        DeleteSnapshotKeepsLayers(s, id, source, f);
      }
      DeleteSnapshotKeeps(s, id, source, f);
  }

  lemma NoNilDereference(s: State, id: string, f: Faults)
    requires SoundLayers(s)
    ensures DeleteVolume(s, id, f).reply != Panicked
  {
    if id in s.active && s.active[id] in s.images {
      assert LiveVolume(s, id);
      if s.images[s.active[id]].refCount < 1 && s.active[id] == id {
        DeleteImageOutcome(s, id, f);
        var r := DeleteImage(s, id, f);
        if r.reply == Ok {
          CleanUpKeeps(r.state.(active := r.state.active - {id}), s.images[id].backing, f);
        }
      } else {
        UnnameKeeps(s, id);
        CleanUpKeeps(State(Unname(s.images, id), s.active - {id}, s.daemon), s.images[id].backing, f);
      }
    }
  }

  // ----- safety of active layers

  /** Every active layer is recorded under its own name, out of reach of the clean-up. */
  ghost predicate SafeLayers(s: State) {
    forall v | v in s.active :: s.active[v] in s.images && s.images[s.active[v]].volumeRef == s.active[v]
  }

  /** The call deletes a snapshot its source volume still writes to. */
  ghost predicate ReleasesActiveLayer(s: State, c: Call) {
    c.DropSnapshot? && c.id in s.images && IsActiveLayer(s, c.id, c.source)
  }

  lemma RecordKeepsSafe(s: State, id: string, img: Image, v: string, d: Daemon)
    requires SafeLayers(s) && id !in s.images && img.volumeRef == id
    ensures SafeLayers(Record(s, id, img, v, d))
  {
  }

  lemma CreateKeepsSafe(s: State, c: Call, f: Faults)
    requires SoundLayers(s) && SafeLayers(s) && Admissible(s, c) && (c.NewVolume? || c.NewSnapshot?)
    ensures SafeLayers(Step(s, c, f).state)
  {
    var r := Step(s, c, f);
    match c
    case NewVolume(id, source) =>
      CreateVolumeKeeps(s, id, source, f);
      if r.reply == Ok {
        if source == "" {
          RecordKeepsSafe(s, id, Image(GenerateQsdId(id), "", VolumePath(id), 0, id, 0), id, r.state.daemon);
        } else {
          RecordKeepsSafe(s, id, NewLayer(s.images, id, source, VolumePath(id)), id, r.state.daemon);
        }
      }
    case NewSnapshot(id, source) =>
      CreateSnapshotKeeps(s, id, source, f);
      if r.reply == Ok {
        var file := SnapshotPath(source, GenerateQsdId(id));
        RecordKeepsSafe(s, id, NewLayer(s.images, id, s.active[source], file), source, r.state.daemon);
      }
  }

  /** Deleting an active snapshot is the one thing that endangers an active layer, and it always does. */
  lemma StepKeepsSafe(s: State, c: Call, f: Faults)
    requires SoundLayers(s) && SafeLayers(s) && Admissible(s, c) && Proper(s, c)
    requires Step(s, c, f).reply != Failed(FileNotRemoved)
    ensures SafeLayers(Step(s, c, f).state) <==> !ReleasesActiveLayer(s, c)
  {
    match c
    case NewVolume(_, _) => CreateKeepsSafe(s, c, f);
    case NewSnapshot(_, _) => CreateKeepsSafe(s, c, f);
    case DropVolume(id) =>
      DeleteVolumeKeepsNamed(s, id, f);
      LiveBasesNamed(s);
      if id in s.active {
        OthersLeaveBaseAlone(s, id);
      }
    case DropSnapshot(id, source) =>
      DeleteSnapshotKeepsNamed(s, id, source, f);
      LiveBasesNamed(s);
      if id in s.images {
        LocalCheckIsGlobal(s, id, source);
        assert Identified(s.images, id);
      }
  }

  lemma OthersLeaveBaseAlone(s: State, id: string)
    requires SoundLayers(s) && SafeLayers(s) && id in s.active
    ensures forall v | v in s.active && v != id :: s.active[v] != id
  {
    forall v | v in s.active && v != id
      ensures s.active[v] != id
    {
      assert LiveVolume(s, v) && LiveVolume(s, id);
      if s.active[v] == id {
        SnapshotIsNoVolume(s, id, v);
        assert false;
      }
    }
  }
}
